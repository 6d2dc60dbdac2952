// The resumable parse of txn.c against the one-shot meaning of the stream: which splits of a
// transaction into chunks it survives, and what it then holds.
module Chunking {
  import opened Bytes
  import opened Wrappers
  import opened Transaction
  import opened Crypto
  import opened TxnStream

  function StateAt(t: Txn, k: nat): nat {
    if k == 0 then TXN_START_IN
    else if k <= |t.inputs| then TXN_IN
    else if k == |t.inputs| + 1 then TXN_START_OUT
    else TXN_OUT
  }

  /** curr_obj after `k` elements: objects read since the last count. */
  function ObjAt(t: Txn, k: nat): nat
    requires k > 0
  {
    if k <= |t.inputs| + 1 then k - 1 else k - |t.inputs| - 2
  }

  function OutputsIn(t: Txn, k: nat): nat {
    if k <= |t.inputs| + 2 then 0 else k - |t.inputs| - 2
  }

  ghost predicate HoldsInputs(slots: Slots, t: Txn, n: nat)
    requires n <= |t.inputs| <= MAX_INPUTS
  {
    forall i | 0 <= i < n :: slots[i][..36] == t.inputs[i].Bytes()
  }

  /** What the parser holds once it has read `k` elements of `t`, whatever the state field says. */
  ghost predicate Holds(c: Sdk, p: Parser, t: Txn, k: nat)
    requires t.WellFormed() && k <= t.Count()
  {
    && p.hashed == t.HashedUpTo(k)
    && (k >= 1 ==> p.inNum == |t.inputs|)
    && HoldsInputs(p.slots, t, if k == 0 then 0 else if k <= |t.inputs| then k - 1 else |t.inputs|)
    && (k >= |t.inputs| + 2 ==> p.outNum == |t.outputs|)
    && p.outs == t.outputs[..OutputsIn(t, k)]
    && (p.outs != [] ==> p.curOut == p.outs[|p.outs| - 1])
    && (k == t.Count() ==> p.innerHash == c.sha256(t.Preimage()))
    && p.consumed + t.Rest(k) == t.Encode()
  }

  /** The parser stands at element `k`, and what it has left plus what is still to be sent is
      exactly the rest of the stream. */
  ghost predicate Synced(c: Sdk, p: Parser, t: Txn, k: nat, future: seq<byte>)
    requires t.WellFormed() && k <= t.Count()
  {
    && Inv(p)
    && p.state == StateAt(t, k)
    && (k > 0 ==> p.currObj == ObjAt(t, k))
    && Holds(c, p, t, k)
    && p.carry + p.data + future == t.Rest(k)
  }

  /** Enough data for element `k`, counted the way the code counts it. */
  ghost predicate Ready(p: Parser, t: Txn, k: nat)
    requires t.WellFormed() && k < t.Count()
  {
    && |p.carry| + |p.data| >= |t.Element(k)|
    && (k == |t.inputs| + 1 ==> |p.data| >= 4)
  }

  lemma ElementIs(c: Sdk, p: Parser, t: Txn, k: nat, future: seq<byte>)
    requires t.WellFormed() && k < t.Count() && Synced(c, p, t, k, future)
    requires |p.carry| + |p.data| >= |t.Element(k)|
    ensures |t.Element(k)| == Size(p.state)
    ensures Elem(p, Size(p.state)) == t.Element(k)
    ensures var q := Read(p, Size(p.state)); q.data + future == t.Rest(k + 1) && q.consumed + t.Rest(k + 1) == t.Encode()
  {
    hide Input.Bytes, Output.Bytes, LE, Txn.HashedUpTo, Txn.HashedPart, Txn.Encode, HoldsInputs;
    ElementSize(t, k);
    assert t.Rest(k) == t.Element(k) + t.Rest(k + 1);
    Peel(p.carry, p.data, future, t.Element(k), t.Rest(k + 1));
    Assoc(p.consumed, t.Element(k), t.Rest(k + 1));
  }

  lemma ElementSize(t: Txn, k: nat)
    requires k < t.Count()
    ensures |t.Element(k)| == Size(StateAt(t, k))
  {}

  lemma Assoc(x: seq<byte>, y: seq<byte>, z: seq<byte>)
    ensures x + (y + z) == x + y + z
  {}

  /** Cutting the first element off the bytes at hand. */
  lemma Peel(carry: seq<byte>, data: seq<byte>, future: seq<byte>, e: seq<byte>, rest: seq<byte>)
    requires carry + data + future == e + rest && |carry| <= |e| <= |carry| + |data|
    ensures carry + data[..|e| - |carry|] == e
    ensures data[|e| - |carry|..] + future == rest
  {
    var all := carry + data + future;
    assert all[..|e|] == e && all[|e|..] == rest;
    assert all[..|e|] == carry + data[..|e| - |carry|];
    assert all[|e|..] == data[|e| - |carry|..] + future;
  }

  lemma CountRoundTrip(n: uint32)
    ensures U4LE(LE(n, 4), 0) == n
  {
    U4LEofLE([], n, []);
    assert [] + LE(n, 4) + [] == LE(n, 4);
  }

  lemma SyncStartIn(c: Sdk, p: Parser, t: Txn, future: seq<byte>)
    requires t.WellFormed() && Synced(c, p, t, 0, future) && Ready(p, t, 0)
    ensures Step(c, p).Next? && Synced(c, Step(c, p).p, t, 1, future)
  {
    hide Txn.Rest, Txn.Encode, Txn.Preimage, LE, Input.Bytes, Output.Bytes;
    ElementIs(c, p, t, 0, future);
    CountRoundTrip(|t.inputs|);
  }

  lemma SyncIn(c: Sdk, p: Parser, t: Txn, k: nat, future: seq<byte>)
    requires t.WellFormed() && 1 <= k <= |t.inputs| && Synced(c, p, t, k, future) && Ready(p, t, k)
    ensures Step(c, p).Next? && Synced(c, Step(c, p).p, t, k + 1, future)
  {
    hide Txn.Rest, Txn.Encode, LE;
    ElementIs(c, p, t, k, future);
    InputRoundTrip(t.inputs[k - 1]);
  }

  lemma SyncStartOut(c: Sdk, p: Parser, t: Txn, future: seq<byte>)
    requires t.WellFormed()
    requires var k := |t.inputs| + 1; Synced(c, p, t, k, future) && Ready(p, t, k)
    ensures Step(c, p).Next? && Synced(c, Step(c, p).p, t, |t.inputs| + 2, future)
  {
    hide Holds, Step, Inv, Txn.Rest, Txn.Encode, Txn.Element;
    var k := |t.inputs| + 1;
    ElementSize(t, k);
    ElementIs(c, p, t, k, future);
    StartOutFields(c, p);
    HoldsStartOut(c, p, t);
  }

  lemma StartOutFields(c: Sdk, p: Parser)
    requires Inv(p) && p.state == TXN_START_OUT && |p.data| >= 4
    ensures |p.carry| <= 4 && Step(c, p).Next?
    ensures var q := Step(c, p).p;
      Inv(q) && q == Read(p, 4).(hashed := p.hashed + Elem(p, 4), outNum := U4LE(Elem(p, 4), 0), state := TXN_OUT, currObj := 0)
    ensures Read(p, 4).carry == []
  {
    hide U4LE, Elem;
  }

  lemma HoldsStartOut(c: Sdk, p: Parser, t: Txn)
    requires t.WellFormed() && Holds(c, p, t, |t.inputs| + 1) && Inv(p) && p.state == TXN_START_OUT && |p.data| >= 4
    requires |p.carry| <= 4 && Elem(p, 4) == t.Element(|t.inputs| + 1)
    requires Read(p, 4).consumed + t.Rest(|t.inputs| + 2) == t.Encode()
    ensures Step(c, p).Next? && Holds(c, Step(c, p).p, t, |t.inputs| + 2) && Step(c, p).p.outNum == |t.outputs|
  {
    hide Txn.Rest, Txn.Encode, Txn.Preimage, Txn.HashedUpTo, Txn.Element, LE, HoldsInputs, Elem, Inv, Step, U4LE;
    StartOutFields(c, p);
    CountElement(t);
    CountRoundTrip(|t.outputs|);
  }

  lemma CountElement(t: Txn)
    ensures var k := |t.inputs| + 1; t.Element(k) == LE(|t.outputs|, 4) && t.HashedUpTo(k + 1) == t.HashedUpTo(k) + t.Element(k)
  {
    hide LE, Output.Bytes, Input.Bytes;
  }

  lemma SyncReadOut(c: Sdk, p: Parser, t: Txn, k: nat, future: seq<byte>)
    requires t.WellFormed() && |t.inputs| + 2 <= k < t.Count() && Synced(c, p, t, k, future) && Ready(p, t, k)
    ensures Synced(c, ReadOut(c, p), t, k + 1, future)
  {
    hide Holds, ReadOut, Inv, Txn.Rest, Txn.Encode, Txn.Element;
    ElementSize(t, k);
    HoldsCount(c, p, t, k);
    OutPosition(p, t, k);
    ElementIs(c, p, t, k, future);
    ReadOutFields(c, p);
    HoldsOut(c, p, t, k);
  }

  lemma OutPosition(p: Parser, t: Txn, k: nat)
    requires t.WellFormed() && |t.inputs| + 2 <= k < t.Count() && Inv(p) && p.state == StateAt(t, k) && p.currObj == ObjAt(t, k)
    requires p.outNum == |t.outputs| && |p.carry| + |p.data| >= 37
    ensures p.state == TXN_OUT && |p.carry| < 37 && p.currObj < p.outNum && StateAt(t, k + 1) == TXN_OUT && ObjAt(t, k + 1) == p.currObj + 1
  {}

  lemma ReadOutFields(c: Sdk, p: Parser)
    requires Inv(p) && p.state == TXN_OUT && p.currObj < p.outNum && |p.carry| + |p.data| >= 37
    ensures var q := ReadOut(c, p);
      && Inv(q) && q.state == TXN_OUT && q.carry == [] && q.data == Read(p, 37).data && q.consumed == Read(p, 37).consumed
      && q.currObj == (p.currObj + 1) % 256 && q.inNum == p.inNum && q.outNum == p.outNum && q.slots == p.slots
      && q.hashed == p.hashed + Elem(p, 37) && q.curOut == ReadOutput(Elem(p, 37)) && q.outs == p.outs + [q.curOut]
      && (q.currObj == q.outNum ==> q.innerHash == c.sha256(q.hashed))
  {
    hide ReadOutput, Elem;
  }

  lemma HoldsOut(c: Sdk, p: Parser, t: Txn, k: nat)
    requires t.WellFormed() && |t.inputs| + 2 <= k < t.Count() && Holds(c, p, t, k) && Inv(p) && p.state == TXN_OUT
    requires p.currObj == ObjAt(t, k) < p.outNum && |p.carry| + |p.data| >= 37 && Elem(p, 37) == t.Element(k)
    requires Read(p, 37).consumed + t.Rest(k + 1) == t.Encode()
    ensures Holds(c, ReadOut(c, p), t, k + 1)
  {
    hide Txn.Rest, Txn.Encode, Txn.Preimage, Txn.HashedUpTo, Txn.Element, LE, Output.Bytes, ReadOutput, HoldsInputs, ReadOut, Elem, Read, Inv;
    ReadOutFields(c, p);
    var j := k - |t.inputs| - 2;
    OutElement(t, k);
    OutputRoundTrip(t.outputs[j]);
    assert t.outputs[..j] + [t.outputs[j]] == t.outputs[..j + 1];
    if k + 1 == t.Count() { HashedIsPreimage(t); }
  }

  lemma HoldsCount(c: Sdk, p: Parser, t: Txn, k: nat)
    requires t.WellFormed() && |t.inputs| + 2 <= k <= t.Count() && Holds(c, p, t, k)
    ensures p.outNum == |t.outputs|
  {}

  lemma OutElement(t: Txn, k: nat)
    requires |t.inputs| + 2 <= k < t.Count()
    ensures t.Element(k) == t.outputs[k - |t.inputs| - 2].Bytes() && t.HashedUpTo(k + 1) == t.HashedUpTo(k) + t.Element(k)
  {
    hide LE, Output.Bytes, Input.Bytes;
  }

  lemma SyncOut(c: Sdk, p: Parser, t: Txn, k: nat, future: seq<byte>)
    requires t.WellFormed() && |t.inputs| + 2 <= k < t.Count() && Synced(c, p, t, k, future) && Ready(p, t, k)
    ensures var r := Step(c, p);
      && r.Throw? && Synced(c, r.p, t, k + 1, future)
      && r.code == (if |p.carry| + |p.data| < 74 then TXN_PARTIAL_OUT else TXN_APPROVE_OUT)
      && (r.code == TXN_PARTIAL_OUT ==> r.p.data == [])
      && (r.code == TXN_APPROVE_OUT ==> r.p.carry == [] && |r.p.data| >= 37)
      && r.p.carry + r.p.data == p.data[37 - |p.carry|..]
  {
    hide Txn.Rest, Txn.Encode, Txn.HashedUpTo, LE, ReadOut;
    SyncReadOut(c, p, t, k, future);
    if |p.carry| + |p.data| < 74 { SyncSave(c, ReadOut(c, p), t, k + 1, future); }
  }

  /** Saving loses nothing exactly when no bytes were carried already. */
  lemma SyncSave(c: Sdk, p: Parser, t: Txn, k: nat, future: seq<byte>)
    requires t.WellFormed() && k <= t.Count() && Synced(c, p, t, k, future)
    requires |p.data| < Size(p.state)
    ensures Synced(c, Save(p), t, k, future) <==> p.carry == []
  {
    hide Txn.Rest, Txn.Encode, Txn.HashedUpTo, LE;
    if p.carry != [] {
      assert |p.data + future| < |p.carry + p.data + future|;
    }
  }

  /** One chunk: txn_next_elem is called again after every output it stops at. */
  function Pump(c: Sdk, p: Parser): (r: Stop)
    requires Inv(p)
    ensures r.code != UNDEFINED ==> Inv(r.p)
    decreases |p.data|
  {
    var r := Run(c, p);
    if r.code == TXN_APPROVE_OUT then Pump(c, r.p) else r
  }

  /** All chunks in turn. The intake is over once the parser has left TXN_OUT; None stands for a
      write past sig_input. */
  function Feed(c: Sdk, p: Parser, chunks: seq<seq<byte>>): (r: Option<Parser>)
    requires Inv(p)
    ensures r.Some? ==> Inv(r.value)
    decreases |chunks|
  {
    if chunks == [] || p.state > TXN_OUT then Some(p)
    else
      var r := Pump(c, p.(data := chunks[0]));
      if r.code == UNDEFINED then None else Feed(c, r.p, chunks[1..])
  }

  function Total(chunks: seq<seq<byte>>): nat {
    if chunks == [] then 0 else |chunks[0]| + Total(chunks[1..])
  }

  function Joined(chunks: seq<seq<byte>>): (s: seq<byte>)
    ensures |s| == Total(chunks)
  {
    if chunks == [] then [] else chunks[0] + Joined(chunks[1..])
  }

  /** `len` bytes complete element `k`, of which `o` bytes came before. The second output count is
      only seen to be complete if four of them are new. */
  predicate Completes(t: Txn, k: nat, o: nat, len: nat) {
    k < t.Count() ==> o + len >= |t.Element(k)| && (k == |t.inputs| + 1 ==> len >= 4)
  }

  /** Where in the stream the next byte goes after `len` more bytes: element and offset in it. */
  function Advance(t: Txn, k: nat, o: nat, len: nat): (nat, nat)
    requires k <= t.Count()
    decreases t.Count() - k
  {
    if k == t.Count() then (k, 0)
    else if o + len < |t.Element(k)| then (k, o + len)
    else Advance(t, k + 1, 0, o + len - |t.Element(k)|)
  }

  /** A property of the chunk lengths alone: no chunk that begins inside an element ends before
      completing it. */
  predicate Lossless(t: Txn, k: nat, o: nat, chunks: seq<seq<byte>>)
    requires k <= t.Count()
    decreases |chunks|
  {
    chunks == [] || (
      && (o == 0 || Completes(t, k, o, |chunks[0]|))
      && var (k', o') := Advance(t, k, o, |chunks[0]|); k' <= t.Count() && Lossless(t, k', o', chunks[1..]))
  }

  lemma SyncedInv(c: Sdk, p: Parser, t: Txn, k: nat, future: seq<byte>)
    requires t.WellFormed() && k <= t.Count() && Synced(c, p, t, k, future)
    ensures Inv(p)
  {}

  /** All data used up, and the parser at `at`. */
  ghost predicate Pumped(c: Sdk, r: Stop, t: Txn, at: (nat, nat), future: seq<byte>)
    requires t.WellFormed()
  {
    && (r.code == TXN_PARTIAL || r.code == TXN_PARTIAL_OUT) && r.p.data == [] && |r.p.carry| == at.1
    && at.0 <= t.Count() && Synced(c, r.p, t, at.0, future)
  }

  lemma {:induction false} PumpSync(c: Sdk, p: Parser, t: Txn, k: nat, future: seq<byte>)
    requires t.WellFormed() && k < t.Count() && Synced(c, p, t, k, future)
    requires p.carry == [] || Completes(t, k, |p.carry|, |p.data|)
    ensures Pumped(c, Pump(c, p), t, Advance(t, k, |p.carry|, |p.data|), future)
    decreases |p.data|
  {
    hide Synced, Holds, Step, Inv, Txn.Element, Advance, Run, Pump;
    SyncedInv(c, p, t, k, future);
    if !Ready(p, t, k) {
      SyncPartial(c, p, t, k, future);
    } else if k <= |t.inputs| + 1 {
      SyncCounts(c, p, t, k, future);
      PumpSync(c, Step(c, p).p, t, k + 1, future);
    } else {
      SyncOutput(c, p, t, k, future);
      if |p.carry| + |p.data| >= 74 { PumpSync(c, Run(c, p).p, t, k + 1, future); }
    }
  }

  /** After the last element nothing is left over, and the parser reports that it is ready. */
  lemma AtEnd(c: Sdk, p: Parser, t: Txn, future: seq<byte>)
    requires t.WellFormed() && Synced(c, p, t, t.Count(), future)
    ensures p.carry == [] && p.data == [] && future == []
    ensures Pump(c, p) == Run(c, p) == Stop(TXN_READY, p.(state := TXN_READY, currObj := 0), [])
    ensures Holds(c, p.(state := TXN_READY, currObj := 0), t, t.Count())
  {
    hide Txn.HashedUpTo, Txn.Element, Txn.Encode, LE, HoldsInputs;
    assert |p.carry + p.data + future| == 0;
  }

  /** Too little data for element `k`: what there is becomes the carry. */
  lemma SyncPartial(c: Sdk, p: Parser, t: Txn, k: nat, future: seq<byte>)
    requires t.WellFormed() && k < t.Count() && Synced(c, p, t, k, future) && !Ready(p, t, k)
    ensures Pump(c, p) == Run(c, p) == Stop(TXN_PARTIAL, Save(p), [])
    ensures p.carry == [] ==> Synced(c, Save(p), t, k, future)
    ensures p.carry == [] ==> Advance(t, k, 0, |p.data|) == (k, |p.data|)
  {
    hide Txn.Rest, Txn.Encode, Txn.HashedUpTo, LE, Input.Bytes, Output.Bytes;
    ElementSize(t, k);
    SyncSave(c, p, t, k, future);
  }

  /** The elements before the outputs: read without stopping. */
  lemma SyncCounts(c: Sdk, p: Parser, t: Txn, k: nat, future: seq<byte>)
    requires t.WellFormed() && k <= |t.inputs| + 1 && Synced(c, p, t, k, future) && Ready(p, t, k)
    ensures Step(c, p).Next? && Synced(c, Step(c, p).p, t, k + 1, future)
    ensures Step(c, p).p.carry == [] && |Step(c, p).p.data| < |p.data|
    ensures Pump(c, p) == Pump(c, Step(c, p).p) && Run(c, p) == Run(c, Step(c, p).p)
    ensures Advance(t, k, |p.carry|, |p.data|) == Advance(t, k + 1, 0, |Step(c, p).p.data|)
  {
    hide Synced, Step, Advance, Run, Pump, Ready, Inv, Txn.Element;
    SyncedInv(c, p, t, k, future);
    if k == 0 { SyncStartIn(c, p, t, future); }
    else if k <= |t.inputs| { SyncIn(c, p, t, k, future); }
    else { SyncStartOut(c, p, t, future); }
    NextSizes(c, p, t, k, future);
    AdvanceOne(t, k, |p.carry|, |p.data|);
    NextUnfolds(c, p);
  }

  lemma NextSizes(c: Sdk, p: Parser, t: Txn, k: nat, future: seq<byte>)
    requires t.WellFormed() && k <= |t.inputs| + 1 && Synced(c, p, t, k, future) && Ready(p, t, k) && Inv(p) && Step(c, p).Next?
    ensures var q := Step(c, p).p; q.carry == [] && |q.data| < |p.data|
    ensures |p.carry| + |p.data| == |t.Element(k)| + |Step(c, p).p.data|
  {
    hide Holds, Txn.Rest, Elem, U4LE, PutInput, Input.Bytes, Output.Bytes, LE;
    ElementSize(t, k);
  }

  lemma AdvanceOne(t: Txn, k: nat, o: nat, len: nat)
    requires k < t.Count() && o + len >= |t.Element(k)|
    ensures Advance(t, k, o, len) == Advance(t, k + 1, 0, o + len - |t.Element(k)|)
  {
    hide Txn.Element;
  }

  lemma NextUnfolds(c: Sdk, p: Parser)
    requires Inv(p) && Step(c, p).Next?
    ensures Inv(Step(c, p).p) && Pump(c, p) == Pump(c, Step(c, p).p) && Run(c, p) == Run(c, Step(c, p).p)
  {
    hide Step, Inv;
  }

  /** An output: read, and then the parser stops. */
  lemma SyncOutput(c: Sdk, p: Parser, t: Txn, k: nat, future: seq<byte>)
    requires t.WellFormed() && |t.inputs| + 2 <= k < t.Count() && Synced(c, p, t, k, future) && Ready(p, t, k)
    ensures Step(c, p).Throw? && Run(c, p) == Stop(Step(c, p).code, Step(c, p).p, Step(c, p).body)
    ensures var q := Run(c, p).p; Synced(c, q, t, k + 1, future) && Inv(q) && |q.data| < |p.data|
    ensures |p.carry| + |p.data| >= 74 ==>
      && Run(c, p).code == TXN_APPROVE_OUT && Pump(c, p) == Pump(c, Run(c, p).p) && Run(c, p).p.carry == [] && k + 1 < t.Count()
      && Advance(t, k, |p.carry|, |p.data|) == Advance(t, k + 1, 0, |Run(c, p).p.data|)
    ensures |p.carry| + |p.data| < 74 ==>
      && Run(c, p).code == TXN_PARTIAL_OUT && Pump(c, p) == Run(c, p) && Run(c, p).p.data == []
      && Advance(t, k, |p.carry|, |p.data|) == (k + 1, |Run(c, p).p.carry|)
  {
    hide Holds, Txn.Rest, ReadOut, LE, Output.Bytes, Input.Bytes;
    ElementSize(t, k);
    SyncOut(c, p, t, k, future);
    var q := Step(c, p).p;
    if k + 1 == t.Count() { AtEnd(c, q, t, future); } else { ElementSize(t, k + 1); }
  }

  // Conservation: bytes taken over plus bytes carried never exceed the bytes received.

  ghost predicate Conserves(p: Parser, q: Parser) {
    |q.consumed| + |q.carry| + |q.data| <= |p.consumed| + |p.carry| + |p.data|
  }

  lemma SaveConserves(p: Parser)
    ensures Conserves(p, Save(p))
  {}

  lemma ReadConserves(p: Parser, size: nat)
    requires |p.carry| <= size <= |p.carry| + |p.data|
    ensures Conserves(p, Read(p, size))
  {}

  lemma CountConserves(p: Parser)
    requires Inv(p) && (p.state == TXN_START_IN || p.state == TXN_START_OUT)
    ensures var r := if p.state == TXN_START_IN then StepStartIn(p) else StepStartOut(p); !r.Undefined? && Conserves(p, r.p)
  {
    hide Save, Read, Elem, U4LE;
    SaveConserves(p);
    if |p.carry| + |p.data| >= 4 { ReadConserves(p, 4); }
  }

  lemma InConserves(p: Parser)
    requires Inv(p) && p.state == TXN_IN
    ensures StepIn(p).Undefined? || Conserves(p, StepIn(p).p)
  {
    hide Save, Read, Elem, PutInput;
    SaveConserves(p);
    if |p.carry| + |p.data| >= 36 { ReadConserves(p, 36); }
  }

  lemma OutConserves(c: Sdk, p: Parser)
    requires Inv(p) && p.state == TXN_OUT
    ensures StepOut(c, p).Throw? && Conserves(p, StepOut(c, p).p)
  {
    hide Save, Read, Elem, ReadOutput;
    SaveConserves(p);
    if p.currObj != p.outNum && |p.carry| + |p.data| >= 37 {
      ReadConserves(p, 37);
      SaveConserves(ReadOut(c, p));
    }
  }

  lemma SignConserves(c: Sdk, p: Parser)
    requires Inv(p) && p.state > TXN_OUT
    ensures Step(c, p).Throw? && Conserves(p, Step(c, p).p)
  {
    hide SignAll, Concat;
  }

  lemma StepConserves(c: Sdk, p: Parser)
    requires Inv(p)
    ensures Step(c, p).Undefined? || Conserves(p, Step(c, p).p)
  {
    hide StepStartIn, StepIn, StepStartOut, StepOut, StepReturn, SignAll, Conserves;
    if p.state == TXN_START_IN || p.state == TXN_START_OUT { CountConserves(p); }
    else if p.state == TXN_IN { InConserves(p); }
    else if p.state == TXN_OUT { OutConserves(c, p); }
    else { SignConserves(c, p); }
  }

  lemma {:induction false} RunConserves(c: Sdk, p: Parser)
    requires Inv(p)
    ensures Run(c, p).code == UNDEFINED || Conserves(p, Run(c, p).p)
    decreases |p.data|
  {
    hide Inv;
    StepConserves(c, p);
    if Step(c, p).Next? { RunConserves(c, Step(c, p).p); }
  }

  lemma {:induction false} PumpConserves(c: Sdk, p: Parser)
    requires Inv(p)
    ensures Pump(c, p).code == UNDEFINED || Conserves(p, Pump(c, p).p)
    decreases |p.data|
  {
    hide Inv, Run;
    RunConserves(c, p);
    if Run(c, p).code == TXN_APPROVE_OUT { PumpConserves(c, Run(c, p).p); }
  }

  lemma {:induction false} FeedConserves(c: Sdk, p: Parser, chunks: seq<seq<byte>>)
    requires Inv(p)
    ensures var r := Feed(c, p, chunks);
      r.None? || |r.value.consumed| + |r.value.carry| <= |p.consumed| + |p.carry| + Total(chunks)
    decreases |chunks|
  {
    hide Inv, Pump;
    if chunks != [] && p.state <= TXN_OUT {
      var q := p.(data := chunks[0]);
      KeepsInv(p, chunks[0]);
      PumpConserves(c, q);
      if Pump(c, q).code != UNDEFINED { FeedConserves(c, Pump(c, q).p, chunks[1..]); }
    }
  }

  lemma KeepsInv(p: Parser, data: seq<byte>)
    requires Inv(p)
    ensures Inv(p.(data := data))
  {}

  lemma NothingLeft(c: Sdk, p: Parser, t: Txn, k: nat)
    requires t.WellFormed() && k <= t.Count() && p.data == [] && Synced(c, p, t, k, [])
    ensures k == t.Count() && p.carry == [] && p.consumed == t.Encode()
  {
    hide Txn.Encode, LE, Input.Bytes, Output.Bytes;
    if k < t.Count() { ElementSize(t, k); }
  }

  lemma Arrive(c: Sdk, p: Parser, t: Txn, k: nat, chunk: seq<byte>, future: seq<byte>)
    requires t.WellFormed() && k <= t.Count() && p.data == [] && Synced(c, p, t, k, chunk + future)
    ensures Synced(c, p.(data := chunk), t, k, future)
  {
    hide Txn.Rest, Txn.HashedUpTo, Txn.Encode;
    assert p.carry + [] + (chunk + future) == p.carry + chunk + future;
  }

  lemma EndHolds(c: Sdk, p: Parser, t: Txn)
    requires t.WellFormed() && Holds(c, p, t, t.Count())
    ensures p.consumed == t.Encode()
  {}

  lemma {:induction false} LosslessAtEnd(t: Txn, chunks: seq<seq<byte>>)
    ensures Lossless(t, t.Count(), 0, chunks)
    decreases |chunks|
  {
    if chunks != [] { LosslessAtEnd(t, chunks[1..]); }
  }

  /** A chunk that begins inside an element and does not complete it drops the carried bytes. */
  lemma LossyFeed(c: Sdk, p: Parser, t: Txn, k: nat, chunks: seq<seq<byte>>)
    requires t.WellFormed() && k <= t.Count() && p.data == [] && chunks != []
    requires Synced(c, p, t, k, Joined(chunks))
    requires p.carry != [] && !Completes(t, k, |p.carry|, |chunks[0]|)
    ensures !Received(Feed(c, p, chunks), t)
  {
    hide Inv, Holds, Txn.Rest, Txn.Encode, Txn.Element;
    var q := p.(data := chunks[0]);
    Arrive(c, p, t, k, chunks[0], Joined(chunks[1..]));
    SyncPartial(c, q, t, k, Joined(chunks[1..]));
    FeedConserves(c, Save(q), chunks[1..]);
    StreamLength(c, p, t, k, Joined(chunks));
  }

  lemma StreamLength(c: Sdk, p: Parser, t: Txn, k: nat, future: seq<byte>)
    requires t.WellFormed() && k <= t.Count() && Synced(c, p, t, k, future)
    ensures |t.Encode()| == |p.consumed| + |p.carry| + |p.data| + |future|
  {
    hide Txn.Rest, Txn.HashedUpTo;
  }

  /** The session has taken in the transaction that was sent, byte for byte. */
  ghost predicate Received(r: Option<Parser>, t: Txn) {
    r.Some? && r.value.consumed == t.Encode()
  }

  lemma {:induction false} FeedSync(c: Sdk, p: Parser, t: Txn, k: nat, chunks: seq<seq<byte>>)
    requires t.WellFormed() && k <= t.Count() && p.data == []
    requires Synced(c, p, t, k, Joined(chunks))
    ensures Lossless(t, k, |p.carry|, chunks) ==>
      Received(Feed(c, p, chunks), t) && Holds(c, Feed(c, p, chunks).value, t, t.Count())
    ensures !Lossless(t, k, |p.carry|, chunks) ==> !Received(Feed(c, p, chunks), t)
    decreases |chunks|
  {
    hide Holds, Inv, Pump, Txn.Encode, Txn.Rest, Txn.Element;
    if chunks == [] {
      NothingLeft(c, p, t, k);
    } else {
      var q := p.(data := chunks[0]);
      var future := Joined(chunks[1..]);
      Arrive(c, p, t, k, chunks[0], future);
      if p.carry == [] || Completes(t, k, |p.carry|, |chunks[0]|) {
        if k < t.Count() {
          PumpSync(c, q, t, k, future);
          FeedSync(c, Pump(c, q).p, t, Advance(t, k, |p.carry|, |chunks[0]|).0, chunks[1..]);
        } else {
          AtEnd(c, q, t, future);
          EndHolds(c, Pump(c, q).p, t);
          StreamLength(c, p, t, k, Joined(chunks));
          LosslessAtEnd(t, chunks);
        }
      } else {
        LossyFeed(c, p, t, k, chunks);
      }
    }
  }

  /** For every transaction, every split of its stream and every state left behind by earlier
      sessions: the paused and resumed parse takes in the stream if and only if no chunk that
      begins inside an element ends before completing it. It then holds exactly the counts,
      inputs, outputs, hashed bytes and inner hash of the transaction. */
  lemma ChunkingTheorem(c: Sdk, p: Parser, t: Txn, chunks: seq<seq<byte>>)
    requires t.WellFormed() && Joined(chunks) == t.Encode()
    ensures var r := Feed(c, Begin(p).(data := []), chunks);
      && (Received(r, t) <==> Lossless(t, 0, 0, chunks))
      && (Received(r, t) ==> Holds(c, r.value, t, t.Count()))
  {
    hide Feed, Lossless, Txn.Rest;
    var q := Begin(p).(data := []);
    Fresh(c, q, t, t.Encode());
    FeedSync(c, q, t, 0, chunks);
  }

  lemma Fresh(c: Sdk, p: Parser, t: Txn, future: seq<byte>)
    requires t.WellFormed() && Begin(p) == p && p.data + future == t.Encode()
    ensures Synced(c, p, t, 0, future)
  {
    hide Txn.Rest;
    assert [] + p.data == p.data && [] + t.Encode() == t.Encode();
    assert t.outputs[..0] == [];
  }

  ghost predicate InsideElement(t: Txn, k: nat, o: nat) {
    k <= t.Count() && if k == t.Count() then o == 0 else o < |t.Element(k)|
  }

  lemma {:induction false} AdvanceLength(t: Txn, k: nat, o: nat, len: nat)
    requires InsideElement(t, k, o) && o + len <= |t.Rest(k)|
    ensures var (k', o') := Advance(t, k, o, len);
      InsideElement(t, k', o') && |t.Rest(k')| - o' == |t.Rest(k)| - o - len
    decreases t.Count() - k
  {
    hide Txn.Element;
    if k < t.Count() && o + len >= |t.Element(k)| {
      AdvanceLength(t, k + 1, 0, o + len - |t.Element(k)|);
    }
  }

  /** Chunks of at least 37 bytes, the last one excepted, always get through. */
  lemma {:induction false} LargeChunks(t: Txn, k: nat, o: nat, chunks: seq<seq<byte>>)
    requires t.WellFormed() && InsideElement(t, k, o) && o + Total(chunks) == |t.Rest(k)|
    requires forall i | 0 <= i < |chunks| - 1 :: |chunks[i]| >= 37
    ensures Lossless(t, k, o, chunks)
    decreases |chunks|
  {
    hide Txn.Element, Txn.Rest;
    if chunks != [] {
      if k < t.Count() { ElementSize(t, k); RestCovers(t, k); }
      AdvanceLength(t, k, o, |chunks[0]|);
      var (k', o') := Advance(t, k, o, |chunks[0]|);
      assert forall i | 0 <= i < |chunks[1..]| - 1 :: chunks[1..][i] == chunks[i + 1];
      if |chunks| == 1 { assert Total(chunks[1..]) == 0; }
      LargeChunks(t, k', o', chunks[1..]);
    }
  }

  lemma RestCovers(t: Txn, k: nat)
    requires t.WellFormed() && k < t.Count()
    ensures |t.Rest(k)| >= |t.Element(k)| && (k == |t.inputs| + 1 ==> |t.Rest(k)| >= 41)
  {
    RestLength(t, k);
    ElementSize(t, k);
  }

  /** Any split into chunks of at least 37 bytes, the last one excepted, ends with the same counts,
      inputs, outputs and hash as the whole stream in one piece, whatever either parser held before. */
  lemma LikeOneShot(c: Sdk, p: Parser, q: Parser, t: Txn, chunks: seq<seq<byte>>)
    requires t.WellFormed() && Joined(chunks) == t.Encode()
    requires forall i | 0 <= i < |chunks| - 1 :: |chunks[i]| >= 37
    ensures var r, s := Feed(c, Begin(p).(data := []), chunks), Feed(c, Begin(q).(data := []), [t.Encode()]);
      && r.Some? && s.Some? && Holds(c, r.value, t, t.Count())
      && r.value.inNum == s.value.inNum && r.value.outNum == s.value.outNum && r.value.outs == s.value.outs
      && r.value.hashed == s.value.hashed && r.value.innerHash == s.value.innerHash
      && (forall i | 0 <= i < |t.inputs| :: r.value.slots[i][..36] == s.value.slots[i][..36])
  {
    hide Feed, Lossless, Txn.Rest, Txn.HashedUpTo, Txn.Preimage;
    OnePiece(t.Encode());
    LargeChunks(t, 0, 0, chunks);
    LargeChunks(t, 0, 0, [t.Encode()]);
    ChunkingTheorem(c, p, t, chunks);
    ChunkingTheorem(c, q, t, [t.Encode()]);
  }

  lemma OnePiece(s: seq<byte>)
    ensures Joined([s]) == s && Total([s]) == |s|
  {
    assert [s][1..] == [];
  }

  /** Two one-byte chunks at the start already lose the first byte. */
  lemma TinyChunksFail(c: Sdk, p: Parser, t: Txn, chunks: seq<seq<byte>>)
    requires t.WellFormed() && Joined(chunks) == t.Encode()
    requires |chunks| >= 2 && |chunks[0]| == |chunks[1]| == 1
    ensures !Received(Feed(c, Begin(p).(data := []), chunks), t)
  {
    ChunkingTheorem(c, p, t, chunks);
    assert !Completes(t, 0, 1, |chunks[1..][0]|);
  }
}
