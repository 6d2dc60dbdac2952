// src/skycoin-api/txn.c as a function on states: one call of __txn_next_elem is `Step`,
// one call of txn_next_elem is `Run`. The class Signer of TxnSigner carries out the same steps in place.
module TxnStream {
  import opened Bytes
  import opened Transaction
  import opened Crypto

  // txn_state_t and txn_ui_state_t share their numbers: 3 and 4 each have two names.
  const TXN_START_IN := 0
  const TXN_IN := 1
  const TXN_START_OUT := 2
  const TXN_OUT := 3
  const TXN_COMPUTE_SIGS := 4
  const TXN_RET_SIGS := 5

  const UNDEFINED := 0 // never thrown: stands for a write past sig_input
  const TXN_PARTIAL := 1
  const TXN_PARTIAL_OUT := 2
  const TXN_APPROVE_OUT := 3
  const TXN_READY := 4
  const TXN_FINISHED := 5

  /** The union sig_input_t: an input occupies the first 36 of its 65 bytes. */
  type Slot = s: seq<byte> | |s| == 65 witness seq(65, _ => 0)
  const BLANK: Slot := seq(65, _ => 0)
  type Slots = s: seq<Slot> | |s| == MAX_INPUTS witness seq<Slot>(20, _ => BLANK)

  datatype Parser = Parser(
    state: nat,
    carry: seq<byte>,     // buffer[..offset]
    data: seq<byte>,      // dataBuffer[..dataLength]
    currObj: byte,        // an unsigned char
    inNum: uint32,
    outNum: uint32,
    slots: Slots,
    curOut: Output,
    hashed: seq<byte>,    // what the running hash has been fed
    innerHash: Digest,
    path: Path,           // getPublicKeyContext.bip44_path
    consumed: seq<byte>,  // history: every byte read as part of a complete element
    outs: seq<Output>     // history: every output parsed in this session
  )

  datatype Outcome = Next(p: Parser) | Throw(code: nat, p: Parser, body: seq<byte>) | Undefined

  /** A step keeps the invariant, and unless it ends the intake it uses up data. */
  ghost predicate Sound(p: Parser, r: Outcome) {
    && (r.Next? ==> Inv(r.p) && |r.p.data| < |p.data|)
    && (r.Throw? ==> Inv(r.p) && TXN_PARTIAL <= r.code <= TXN_FINISHED)
    && (r.Throw? && r.code == TXN_APPROVE_OUT ==> |r.p.data| < |p.data|)
  }

  function Size(state: nat): nat {
    if state == TXN_IN then 36 else if state == TXN_OUT then 37 else 4
  }

  /** What every reachable parser state satisfies. */
  ghost predicate Inv(p: Parser) {
    && p.state <= TXN_RET_SIGS
    && (p.state <= TXN_OUT ==> |p.carry| < Size(p.state))
    && (p.state == TXN_IN ==> p.currObj <= MAX_INPUTS && (p.inNum == 0 || p.currObj < p.inNum))
    && (p.state >= TXN_START_OUT ==> 1 <= p.inNum <= MAX_INPUTS)
    && (p.state == TXN_OUT ==> p.currObj <= p.outNum)
    && (p.state == TXN_COMPUTE_SIGS ==> p.currObj == 0)
    && (p.state == TXN_RET_SIGS ==> p.currObj <= p.inNum)
  }

  /** A session begins: hash, state and offset are reset, everything else is left as it was. */
  function Begin(p: Parser): (q: Parser)
    ensures Inv(q)
  {
    p.(state := TXN_START_IN, carry := [], hashed := [], consumed := [], outs := [])
  }

  /** save_data_to_buffer: the copy starts at index 0, so carried bytes are overwritten. */
  function Save(p: Parser): Parser {
    p.(carry := p.data, data := [])
  }

  /** The element read_data_to_buffer completes, and the state after reading it. */
  function Elem(p: Parser, size: nat): (e: seq<byte>)
    requires |p.carry| <= size <= |p.carry| + |p.data|
    ensures |e| == size
  {
    p.carry + p.data[..size - |p.carry|]
  }

  function Read(p: Parser, size: nat): Parser
    requires |p.carry| <= size <= |p.carry| + |p.data|
  {
    p.(carry := [], data := p.data[size - |p.carry|..], consumed := p.consumed + Elem(p, size))
  }

  function StepStartIn(p: Parser): (r: Outcome)
    requires Inv(p) && p.state == TXN_START_IN
    ensures Sound(p, r)
  {
    if |p.carry| + |p.data| < 4 then Throw(TXN_PARTIAL, Save(p), [])
    else
      var e := Elem(p, 4);
      Next(Read(p, 4).(hashed := p.hashed + e, inNum := U4LE(e, 0), state := TXN_IN, currObj := 0))
  }

  /** os_memmove of 36 bytes into the union leaves its other 29 bytes alone. */
  function PutInput(s: Slot, e: seq<byte>): Slot
    requires |e| == 36
  {
    e + s[36..]
  }

  function StepIn(p: Parser): (r: Outcome)
    requires Inv(p) && p.state == TXN_IN
    ensures Sound(p, r)
    ensures r.Undefined? <==> p.currObj >= 20 && |p.carry| + |p.data| >= 36
  {
    if |p.carry| + |p.data| < 36 then Throw(TXN_PARTIAL, Save(p), [])
    else if p.currObj >= MAX_INPUTS then Undefined
    else
      var e := Elem(p, 36);
      var q := Read(p, 36).(
        hashed := p.hashed + e[..32],
        slots := p.slots[p.currObj := PutInput(p.slots[p.currObj], e)],
        currObj := p.currObj + 1);
      Next(if q.currObj == q.inNum then q.(state := TXN_START_OUT) else q)
  }

  function StepStartOut(p: Parser): (r: Outcome)
    requires Inv(p) && p.state == TXN_START_OUT
    ensures Sound(p, r)
  {
    if |p.data| < 4 then Throw(TXN_PARTIAL, Save(p), []) // does not count the carried bytes
    else
      var e := Elem(p, 4);
      Next(Read(p, 4).(hashed := p.hashed + e, outNum := U4LE(e, 0), state := TXN_OUT, currObj := 0))
  }

  /** The parser after taking one complete output from the stream. */
  function TakeOut(p: Parser): (q: Parser)
    requires p.state == TXN_OUT && |p.carry| < 37 && |p.carry| + |p.data| >= 37
  {
    var e := Elem(p, 37);
    var o := ReadOutput(e);
    Read(p, 37).(hashed := p.hashed + e, curOut := o, outs := p.outs + [o], currObj := (p.currObj + 1) % 256)
  }

  /** The last output closes the hash. */
  function ReadOut(c: Sdk, p: Parser): (q: Parser)
    requires Inv(p) && p.state == TXN_OUT && p.currObj < p.outNum && |p.carry| + |p.data| >= 37
    ensures Inv(q) && q.state == TXN_OUT && q.carry == [] && q.data == p.data[37 - |p.carry|..]
  {
    var q := TakeOut(p);
    if q.currObj == q.outNum then q.(innerHash := c.sha256(q.hashed)) else q
  }

  function StepOut(c: Sdk, p: Parser): (r: Outcome)
    requires Inv(p) && p.state == TXN_OUT
    ensures Sound(p, r)
  {
    if p.currObj == p.outNum then Throw(TXN_READY, p.(state := TXN_READY, currObj := 0), [])
    else if |p.carry| + |p.data| < 37 then Throw(TXN_PARTIAL, Save(p), [])
    else
      var q := ReadOut(c, p);
      if |q.data| < 37 then Throw(TXN_PARTIAL_OUT, Save(q), []) else Throw(TXN_APPROVE_OUT, q, [])
  }

  /** The signature for the input that `s` holds. */
  function SignatureFor(c: Sdk, innerHash: Digest, path: Path, s: Slot): Signature {
    c.sign(path[4 := U4LE(s, 32)], c.sha256(innerHash + s[..32]))
  }

  /** Every signature is computed from the slots as they were before signing began. */
  function SignAll(c: Sdk, p: Parser): Slots
    requires p.inNum <= MAX_INPUTS
  {
    seq(MAX_INPUTS, i requires 0 <= i < MAX_INPUTS =>
      if i < p.inNum then SignatureFor(c, p.innerHash, p.path, p.slots[i]) else p.slots[i])
  }

  function Concat(ss: seq<seq<byte>>): seq<byte> {
    if ss == [] then [] else Concat(ss[..|ss| - 1]) + ss[|ss| - 1]
  }

  lemma ConcatSnoc(slots: seq<Slot>, j: nat, next: nat)
    requires j < next <= |slots|
    ensures Concat(slots[j..next]) == Concat(slots[j..next - 1]) + slots[next - 1]
  {
    assert slots[j..next][..next - 1 - j] == slots[j..next - 1];
  }

  /** A response starts at tx == 0 and takes whole signatures while they fit 255 bytes. */
  const SIGS_PER_PAGE := 255 / SIG_LEN

  function StepReturn(p: Parser): (r: Outcome)
    requires Inv(p) && p.state == TXN_RET_SIGS
    ensures Sound(p, r)
  {
    if p.inNum - p.currObj > SIGS_PER_PAGE then
      var next := p.currObj + SIGS_PER_PAGE;
      Throw(TXN_PARTIAL, p.(currObj := next), Concat(p.slots[p.currObj..next]))
    else
      Throw(TXN_FINISHED, p.(currObj := p.inNum), Concat(p.slots[p.currObj..p.inNum]))
  }

  /** One call of __txn_next_elem. */
  function Step(c: Sdk, p: Parser): (r: Outcome)
    requires Inv(p)
    ensures Sound(p, r)
  {
    if p.state == TXN_START_IN then StepStartIn(p)
    else if p.state == TXN_IN then StepIn(p)
    else if p.state == TXN_START_OUT then StepStartOut(p)
    else if p.state == TXN_OUT then StepOut(c, p)
    else if p.state == TXN_COMPUTE_SIGS then
      StepReturn(p.(slots := SignAll(c, p), currObj := 0, state := TXN_RET_SIGS))
    else StepReturn(p)
  }

  datatype Stop = Stop(code: nat, p: Parser, body: seq<byte>)

  /** One call of txn_next_elem: steps until something is thrown. */
  function Run(c: Sdk, p: Parser): (r: Stop)
    requires Inv(p)
    ensures r.code <= TXN_FINISHED
    ensures r.code != UNDEFINED ==> Inv(r.p)
    ensures r.code == TXN_APPROVE_OUT ==> |r.p.data| < |p.data|
    decreases |p.data|
  {
    match Step(c, p)
    case Next(q) => Run(c, q)
    case Throw(code, q, body) => Stop(code, q, body)
    case Undefined => Stop(UNDEFINED, p, [])
  }
}
