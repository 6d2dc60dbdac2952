// The device as a transition system: an APDU arrives (src/apdu_handlers.c:107-152) or a button
// is pressed while an APDU waits for its answer (src/ui/newTransaction.c:55-110).
module DeviceModel {
  import opened Bytes
  import opened Transaction
  import opened Crypto
  import opened TxnStream
  import Addresses
  import Amount

  const SLASH: byte := 47
  const INS_RET_SUCCESS := 0x9000
  const RET_ERROR := 0x6B0

  /** The texts of the approval screen: "k/m", the address and the amount. */
  datatype Display = Display(progress: Text, address: Text, amount: Text)

  datatype Dev = Dev(
    initialized: bool,
    p: Parser,
    awaiting: bool,            // an APDU has not been answered yet
    display: Display,
    replies: seq<seq<byte>>,   // every answer sent: body and status word
    presses: nat,              // history: accept presses in this session
    unshown: bool,             // history: the last output parsed has not been put on the display
    stuck: bool                // undefined behaviour has happened
  )

  function ShownFor(c: Sdk, o: Output, k: byte, m: uint32): Display {
    Display(Amount.Decimal(k) + [SLASH] + Amount.Decimal(Amount.ToInt32(m)),
            Addresses.AddressText(c, o.address), Amount.AmountText(o.coins))
  }

  /** prepare_output_approval: the display now shows the output just parsed. */
  function Prepare(c: Sdk, d: Dev): Dev {
    d.(display := ShownFor(c, d.p.curOut, d.p.currObj, d.p.outNum), unshown := false)
  }

  function StatusWord(code: nat): (s: seq<byte>)
    requires code < 0x1_0000
    ensures |s| == 2
  {
    [code / 256, code % 256]
  }

  /** The two bytes are the status word, high byte first: 0x9000 and 0x06B0. */
  lemma StatusBytes()
    ensures StatusWord(INS_RET_SUCCESS) == [0x90, 0x00] && StatusWord(RET_ERROR) == [0x06, 0xB0]
  {}

  /** io_exchange_with_code: the answer goes out and the I/O buffer is no longer ours. */
  function Answer(d: Dev, code: nat, body: seq<byte>): Dev
    requires code < 0x1_0000
  {
    d.(awaiting := false, p := d.p.(data := []), replies := d.replies + [body + StatusWord(code)])
  }

  function Stuck(d: Dev): Dev {
    d.(stuck := true, awaiting := false, p := d.p.(data := []))
  }

  ghost predicate Safe(d: Dev) {
    && (d.initialized ==> Inv(d.p))
    && (d.awaiting && d.initialized ==> d.p.state == TXN_START_OUT || d.p.state == TXN_OUT)
    && (!d.awaiting ==> d.p.data == [])
  }

  /** The switch of handleSignTxn over what txn_next_elem threw. */
  function AfterApdu(c: Sdk, d: Dev, r: Stop): Dev {
    var e := d.(p := r.p);
    if r.code == UNDEFINED then Stuck(d)
    else if r.code == TXN_OUT then Prepare(c, e).(awaiting := true)
    else if r.code == TXN_PARTIAL then Answer(e, INS_RET_SUCCESS, r.body)
    else if r.code == TXN_FINISHED then Answer(e.(initialized := false), INS_RET_SUCCESS, r.body)
    else Answer(e.(unshown := e.unshown || r.code == TXN_PARTIAL_OUT), INS_RET_SUCCESS, r.body)
  }

  /** handleSignTxn. */
  function OnApdu(c: Sdk, d: Dev, p1: nat, data: seq<byte>): Dev
    requires Safe(d)
  {
    var q := d.p.(data := data);
    if !d.initialized && p1 == 0 then d.(p := q, awaiting := true)
    else if d.initialized && p1 == 1 then
      if q.state < TXN_START_OUT || q.state == TXN_RET_SIGS || q.state == TXN_COMPUTE_SIGS then AfterApdu(c, d, Run(c, q))
      else d.(p := q, awaiting := true)
    else Answer(d.(initialized := false), RET_ERROR, [])
  }

  /** The first press of a session resets the parser. */
  function Begun(d: Dev): Dev {
    if d.initialized then d else d.(initialized := true, p := Begin(d.p), presses := 0, unshown := false)
  }

  /** The switch of the button handler over what txn_next_elem threw. TXN_COMPUTE_SIGS has the
      number of TXN_READY. */
  function AfterPress(c: Sdk, d: Dev, r: Stop): Dev {
    var e := d.(p := r.p);
    if r.code == UNDEFINED then Stuck(d)
    else if r.code == TXN_PARTIAL then Answer(e, INS_RET_SUCCESS, [])
    else if r.code == TXN_OUT then Prepare(c, e)
    else if r.code == TXN_PARTIAL_OUT then Answer(Prepare(c, e), INS_RET_SUCCESS, [])
    else Answer(e, INS_RET_SUCCESS, e.p.innerHash)
  }

  /** The right button: parse on, or hand out the inner hash. */
  function OnAccept(c: Sdk, d: Dev): Dev
    requires Safe(d) && d.awaiting
  {
    var d := Begun(d).(presses := Begun(d).presses + 1);
    AfterPress(c, d, Run(c, d.p))
  }

  /** The left button: an error answer, and nothing is reset. */
  function OnCancel(d: Dev): Dev
    requires d.awaiting
  {
    Answer(d, RET_ERROR, [])
  }

  datatype Event = Apdu(p1: nat, data: seq<byte>) | Accept | Cancel

  /** The transport delivers an APDU only after the previous one was answered, and a press counts
      only while one waits. */
  predicate Enabled(d: Dev, e: Event) {
    !d.stuck && (e.Apdu? <==> !d.awaiting)
  }

  function Apply(c: Sdk, d: Dev, e: Event): Dev
    requires Safe(d) && Enabled(d, e)
  {
    match e
    case Apdu(p1, data) => OnApdu(c, d, p1, data)
    case Accept => OnAccept(c, d)
    case Cancel => OnCancel(d)
  }

  // What a run of the parser does to the outputs it has seen.

  /** Parser history against parser state. */
  ghost predicate History(p: Parser) {
    && (p.state < TXN_OUT ==> p.outs == [])
    && (p.state == TXN_OUT ==>
      && p.currObj == |p.outs| % 256
      && (p.outNum <= 255 ==> |p.outs| == p.currObj)
      && (p.outs != [] ==> p.curOut == p.outs[|p.outs| - 1]))
    && (p.state > TXN_OUT ==> |p.outs| == p.outNum)
  }

  /** The effect of one call of txn_next_elem: it passes at most one output. */
  ghost predicate RunEffect(p: Parser, r: Stop) {
    && History(r.p)
    && (r.code == TXN_PARTIAL_OUT || r.code == TXN_APPROVE_OUT ==>
          r.p.state == TXN_OUT && |r.p.outs| == |p.outs| + 1 && p.outs <= r.p.outs)
    && (r.code == TXN_PARTIAL || r.code == TXN_READY || r.code == TXN_FINISHED ==> r.p.outs == p.outs)
    && (r.code == TXN_PARTIAL && r.p.state == TXN_OUT ==> r.p.currObj != r.p.outNum)
    && (r.code == TXN_READY <==> p.state <= TXN_OUT && r.p.state > TXN_OUT)
    && (r.code == TXN_READY ==> r.p.state == TXN_READY && (p.state < TXN_OUT ==> r.p.outNum == 0))
    && (p.state <= TXN_OUT && r.code <= TXN_PARTIAL_OUT ==> r.p.data == [])
    && (p.state > TXN_OUT ==> r.p.outs == p.outs && (r.code == TXN_FINISHED || r.code == TXN_PARTIAL) && r.p.outNum == p.outNum && r.p.state == TXN_RET_SIGS)
    && (p.state <= TXN_OUT ==> p.state <= r.p.state && r.code != TXN_FINISHED)
    && (p.state <= TXN_OUT ==> r.body == [])
    && (p.state == TXN_OUT ==> r.p.outNum == p.outNum)
  }

  ghost predicate StepEffect(p: Parser, r: Outcome) {
    match r
    case Undefined => p.state < TXN_OUT
    case Next(q) => History(q) && p.state < TXN_OUT && p.state <= q.state <= TXN_OUT && q.outs == p.outs
      && (q.state == TXN_OUT ==> q.outs == [] && q.currObj == 0)
    case Throw(code, q, body) => RunEffect(p, Stop(code, q, body))
  }

  lemma OutEffect(c: Sdk, p: Parser)
    requires Inv(p) && History(p) && p.state == TXN_OUT
    ensures StepEffect(p, Step(c, p))
  {
    hide ReadOut, RunEffect, StepOut, History, Inv;
    if p.currObj == p.outNum || |p.carry| + |p.data| < 37 {
      NoOutputEffect(c, p);
    } else {
      OutputEffect(c, p);
    }
  }

  lemma NoOutputEffect(c: Sdk, p: Parser)
    requires Inv(p) && History(p) && p.state == TXN_OUT && (p.currObj == p.outNum || |p.carry| + |p.data| < 37)
    ensures var r := StepOut(c, p); r.Throw? && RunEffect(p, Stop(r.code, r.p, r.body))
  {
    hide ReadOut;
  }

  lemma OutputEffect(c: Sdk, p: Parser)
    requires Inv(p) && History(p) && p.state == TXN_OUT && p.currObj != p.outNum && |p.carry| + |p.data| >= 37
    ensures var r := StepOut(c, p); r.Throw? && RunEffect(p, Stop(r.code, r.p, r.body))
  {
    hide ReadOut, History;
    TakeEffect(c, p);
    SavedHistory(ReadOut(c, p));
  }

  /** Taking an output. */
  lemma TakeEffect(c: Sdk, p: Parser)
    requires Inv(p) && History(p) && p.state == TXN_OUT && p.currObj != p.outNum && |p.carry| + |p.data| >= 37
    ensures var q := ReadOut(c, p); q.outs == p.outs + [q.curOut] && q.outNum == p.outNum && History(q)
  {
    hide ReadOutput, Elem;
    NextCount(|p.outs|, p.currObj);
  }

  lemma NextCount(n: nat, k: nat)
    requires k == n % 256
    ensures (n + 1) % 256 == (k + 1) % 256
  {}

  lemma SavedHistory(p: Parser)
    requires History(p)
    ensures History(Save(p))
  {}

  lemma SignEffect(c: Sdk, p: Parser)
    requires Inv(p) && History(p) && p.state > TXN_OUT
    ensures StepEffect(p, Step(c, p))
  {
    hide Concat, SignAll;
  }

  lemma EachStep(c: Sdk, p: Parser)
    requires Inv(p) && History(p)
    ensures StepEffect(p, Step(c, p))
  {
    hide U4LE, StepOut, StepReturn, SignAll, Elem;
    if p.state == TXN_OUT { OutEffect(c, p); }
    if p.state > TXN_OUT { SignEffect(c, p); }
  }

  lemma {:induction false} RunOutputs(c: Sdk, p: Parser)
    requires Inv(p) && History(p)
    ensures Run(c, p).code == UNDEFINED || RunEffect(p, Run(c, p))
    decreases |p.data|
  {
    hide Inv, Step;
    EachStep(c, p);
    if Step(c, p).Next? { RunOutputs(c, Step(c, p).p); }
  }

  // Every reachable device state.

  ghost predicate Session(c: Sdk, d: Dev) {
    && Safe(d)
    && (d.initialized ==>
      && History(d.p)
      && 1 <= d.presses && |d.p.outs| <= d.presses
      && (d.p.state > TXN_OUT ==> d.p.outNum < d.presses)
      && (d.p.state <= TXN_OUT && d.unshown ==> |d.p.outs| == 1)
      && (d.p.state == TXN_OUT && d.p.outs != [] && !d.unshown ==>
            d.display == ShownFor(c, d.p.outs[|d.p.outs| - 1], d.p.currObj, d.p.outNum)))
  }

  lemma ApduKeepsSession(c: Sdk, d: Dev, p1: nat, data: seq<byte>)
    requires Session(c, d) && !d.awaiting
    ensures Session(c, OnApdu(c, d, p1, data))
  {
    hide Inv, Run, ShownFor, StatusWord;
    var q := d.p.(data := data);
    if d.initialized {
      DataKeeps(d.p, data);
      RunOutputs(c, q);
      RunSafe(c, q);
    }
  }

  lemma AcceptKeepsSession(c: Sdk, d: Dev)
    requires Session(c, d) && d.awaiting
    ensures Session(c, OnAccept(c, d))
  {
    hide Inv, Run, History, ShownFor, StatusWord, AfterPress, RunEffect;
    var e := Begun(d).(presses := Begun(d).presses + 1);
    BeginsRight(d);
    RunOutputs(c, e.p);
    RunSafe(c, e.p);
    DataKeeps(e.p, []);
    var r := Run(c, e.p);
    if r.code == UNDEFINED {
      StuckKeepsSession(c, e, r);
    } else {
      PressKeepsSession(c, e, r);
    }
  }

  lemma BeginsRight(d: Dev)
    ensures !d.initialized ==> Inv(Begun(d).p) && History(Begun(d).p) && Begun(d).p.state == TXN_START_IN && Begun(d).p.outs == []
  {}

  /** A session with one more press than it needs so far. */
  ghost predicate Pressed(c: Sdk, d: Dev) {
    && d.initialized && d.awaiting && Inv(d.p) && History(d.p) && d.p.state <= TXN_OUT && |d.p.outs| < d.presses
    && (d.unshown ==> |d.p.outs| == 1)
    && (d.p.state == TXN_OUT && d.p.outs != [] && !d.unshown ==>
          d.display == ShownFor(c, d.p.outs[|d.p.outs| - 1], d.p.currObj, d.p.outNum))
  }

  lemma StuckKeepsSession(c: Sdk, d: Dev, r: Stop)
    requires Pressed(c, d) && Inv(d.p.(data := [])) && r.code == UNDEFINED
    ensures Session(c, AfterPress(c, d, r))
  {
    hide Inv, ShownFor;
  }

  lemma PressKeepsSession(c: Sdk, d: Dev, r: Stop)
    requires Pressed(c, d) && RunEffect(d.p, r) && UNDEFINED < r.code <= TXN_FINISHED && Inv(r.p) && Inv(r.p.(data := []))
    ensures Session(c, AfterPress(c, d, r))
  {
    hide Inv, ShownFor, StatusWord;
  }

  lemma CancelKeepsSession(c: Sdk, d: Dev)
    requires Session(c, d) && d.awaiting
    ensures Session(c, OnCancel(d))
  {
    hide Inv, ShownFor, StatusWord;
    DataKeeps(d.p, []);
  }

  lemma DataKeeps(p: Parser, data: seq<byte>)
    ensures Inv(p) ==> Inv(p.(data := data))
    ensures History(p) ==> History(p.(data := data))
  {}

  lemma RunSafe(c: Sdk, p: Parser)
    requires Inv(p)
    ensures var r := Run(c, p); r.code == UNDEFINED || (Inv(r.p) && Inv(r.p.(data := [])))
  {
    hide Run;
  }

  lemma ApplyKeepsSession(c: Sdk, d: Dev, e: Event)
    requires Session(c, d) && Enabled(d, e)
    ensures Session(c, Apply(c, d, e))
  {
    hide OnApdu, OnAccept, OnCancel, Inv, History, ShownFor;
    match e
    case Apdu(p1, data) => ApduKeepsSession(c, d, p1, data);
    case Accept => AcceptKeepsSession(c, d);
    case Cancel => CancelKeepsSession(c, d);
  }

  // Runs.

  ghost predicate Possible(c: Sdk, d: Dev, es: seq<Event>)
    requires Session(c, d)
    decreases |es|
  {
    es == [] || (Enabled(d, es[0]) && (ApplyKeepsSession(c, d, es[0]); Possible(c, Apply(c, d, es[0]), es[1..])))
  }

  ghost function Exec(c: Sdk, d: Dev, es: seq<Event>): (f: Dev)
    requires Session(c, d) && Possible(c, d, es)
    decreases |es|
  {
    if es == [] then d
    else
      ApplyKeepsSession(c, d, es[0]);
      Exec(c, Apply(c, d, es[0]), es[1..])
  }
}
