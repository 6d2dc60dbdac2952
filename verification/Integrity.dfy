// What the inner hash and the signatures are over, and what the answers are, in every run of the device:
// whatever bytes arrive, however they are split, and whether or not sessions are cancelled.
module Integrity {
  import opened Bytes
  import opened Transaction
  import opened Crypto
  import opened TxnStream
  import opened DeviceModel
  import opened Protocol
  import opened Approval

  function SlotInput(s: Slot): Input { Input(s[..32], U4LE(s, 32)) }

  /** The inputs that the first `n` slots hold. */
  function SlotInputs(slots: Slots, n: nat): (ins: seq<Input>)
    requires n <= MAX_INPUTS
    ensures |ins| == n
  {
    seq(n, i requires 0 <= i < n => SlotInput(slots[i]))
  }

  function IdsOf(slots: Slots, n: nat): seq<byte>
    requires n <= MAX_INPUTS
  {
    UxIds(SlotInputs(slots, n), n)
  }

  function InputsOf(slots: Slots, n: nat): seq<byte>
    requires n <= MAX_INPUTS
  {
    InputList(SlotInputs(slots, n), n)
  }

  /** A session past its outputs: the bytes it has consumed are the stream of `ins` and of the outputs it
      has taken, the inner hash is that of this transaction, the slots hold its inputs, and after signing
      the signature of each of them under its own index. */
  ghost predicate Approved(c: Sdk, p: Parser, ins: seq<Input>) {
    var t := Txn(ins, p.outs);
    && t.WellFormed() && |ins| == p.inNum && |p.outs| == p.outNum
    && p.consumed == t.Encode() && p.innerHash == InnerHash(c, t)
    && (p.state == TXN_COMPUTE_SIGS ==> forall i | 0 <= i < |ins| :: p.slots[i][..36] == ins[i].Bytes())
    && (p.state == TXN_RET_SIGS ==> HoldsSigs(c, p, t))
  }

  /** There is only one such transaction: inputs and indices are those received. */
  lemma ApprovedTells(c: Sdk, p: Parser, x: seq<Input>, y: seq<Input>)
    requires Approved(c, p, x) && Approved(c, p, y)
    ensures x == y
  {
    hide Txn.Encode, InnerHash, HoldsSigs;
    EncodeTells(x, y, p.outs);
  }

  /** Hashed and consumed bytes are exactly what the parser has stored. */
  ghost predicate Fed(c: Sdk, p: Parser)
    requires Inv(p)
  {
    && (p.state == TXN_START_IN ==> p.hashed == [] && p.consumed == [])
    && (p.state == TXN_IN ==>
      && p.hashed == LE(p.inNum, 4) + IdsOf(p.slots, p.currObj)
      && p.consumed == LE(p.inNum, 4) + InputsOf(p.slots, p.currObj))
    && (p.state == TXN_START_OUT ==>
      && p.hashed == LE(p.inNum, 4) + IdsOf(p.slots, p.inNum)
      && p.consumed == LE(p.inNum, 4) + InputsOf(p.slots, p.inNum))
    && (p.state == TXN_OUT ==>
      && p.hashed == LE(p.inNum, 4) + IdsOf(p.slots, p.inNum) + LE(p.outNum, 4) + OutputList(p.outs, |p.outs|)
      && p.consumed == LE(p.inNum, 4) + InputsOf(p.slots, p.inNum) + LE(p.outNum, 4) + OutputList(p.outs, |p.outs|)
      && (p.outs != [] && p.currObj == p.outNum ==> p.innerHash == c.sha256(p.hashed)))
    && (p.state > TXN_OUT && p.outNum > 0 ==> exists ins :: Approved(c, p, ins))
  }

  ghost predicate FedOutcome(c: Sdk, r: Outcome) {
    match r
    case Undefined => true
    case Next(p) => Inv(p) && Fed(c, p)
    case Throw(code, p, body) => Inv(p) && Fed(c, p)
  }

  lemma FedStartIn(c: Sdk, p: Parser)
    requires Inv(p) && Fed(c, p) && p.state == TXN_START_IN
    ensures FedOutcome(c, StepStartIn(p))
  {
    hide LE, U4LE, Elem;
    if |p.carry| + |p.data| >= 4 {
      var e := Elem(p, 4);
      LEofU4LE(e, 0);
      assert e[0..4] == e;
      assert IdsOf(p.slots, 0) == [] && InputsOf(p.slots, 0) == [];
    }
  }

  lemma {:induction false} UxPrefix(ins: seq<Input>, i: Input, k: nat)
    requires k <= |ins|
    ensures UxIds(ins + [i], k) == UxIds(ins, k)
  {
    if k > 0 { UxPrefix(ins, i, k - 1); }
  }

  lemma {:induction false} InsPrefix(ins: seq<Input>, i: Input, k: nat)
    requires k <= |ins|
    ensures InputList(ins + [i], k) == InputList(ins, k)
  {
    hide Input.Bytes;
    if k > 0 { InsPrefix(ins, i, k - 1); }
  }

  lemma SlotsSnoc(slots: Slots, n: nat, s: Slot)
    requires n < MAX_INPUTS
    ensures SlotInputs(slots[n := s], n + 1) == SlotInputs(slots, n) + [SlotInput(s)]
  {
    hide SlotInput;
  }

  /** One more input in the slots. */
  lemma OneMoreInput(slots: Slots, n: nat, s: Slot)
    requires n < MAX_INPUTS
    ensures IdsOf(slots[n := s], n + 1) == IdsOf(slots, n) + s[..32]
    ensures InputsOf(slots[n := s], n + 1) == InputsOf(slots, n) + s[..36]
  {
    hide SlotInputs, U4LE, LE;
    var ins := SlotInputs(slots, n);
    SlotsSnoc(slots, n, s);
    UxPrefix(ins, SlotInput(s), n);
    InsPrefix(ins, SlotInput(s), n);
    SlotBytes(s);
  }

  lemma SlotBytes(s: Slot)
    ensures SlotInput(s).Bytes() == s[..36]
  {
    hide LE, U4LE;
    LEofU4LE(s, 32);
    assert s[..36] == s[..32] + s[32..36];
  }

  lemma FedIn(c: Sdk, p: Parser)
    requires Inv(p) && Fed(c, p) && p.state == TXN_IN
    ensures FedOutcome(c, StepIn(p))
  {
    hide LE, U4LE, Elem, IdsOf, InputsOf;
    if |p.carry| + |p.data| >= 36 && p.currObj < MAX_INPUTS {
      var e := Elem(p, 36);
      var s := PutInput(p.slots[p.currObj], e);
      assert s[..32] == e[..32] && s[..36] == e;
      OneMoreInput(p.slots, p.currObj, s);
      Shift(LE(p.inNum, 4), IdsOf(p.slots, p.currObj), e[..32]);
      Shift(LE(p.inNum, 4), InputsOf(p.slots, p.currObj), e);
    }
  }

  lemma FedStartOut(c: Sdk, p: Parser)
    requires Inv(p) && Fed(c, p) && History(p) && p.state == TXN_START_OUT
    ensures FedOutcome(c, StepStartOut(p))
  {
    hide LE, U4LE, Elem, IdsOf, InputsOf;
    if |p.data| >= 4 {
      var e := Elem(p, 4);
      LEofU4LE(e, 0);
      assert e[0..4] == e;
      assert OutputList([], 0) == [];
    }
  }

  lemma {:induction false} ListPrefix(outs: seq<Output>, o: Output, k: nat)
    requires k <= |outs|
    ensures OutputList(outs + [o], k) == OutputList(outs, k)
  {
    if k > 0 { ListPrefix(outs, o, k - 1); }
  }

  lemma FedTake(c: Sdk, p: Parser)
    requires Inv(p) && Fed(c, p) && p.state == TXN_OUT && p.currObj < p.outNum && |p.carry| + |p.data| >= 37
    ensures Inv(ReadOut(c, p)) && Fed(c, ReadOut(c, p))
  {
    hide LE, ReadOutput, Elem, IdsOf, InputsOf, OutputList;
    var e := Elem(p, 37);
    var o := ReadOutput(e);
    OutputOfBytes(e);
    ListSnoc(p.outs, o);
    Shift(LE(p.inNum, 4) + IdsOf(p.slots, p.inNum) + LE(p.outNum, 4), OutputList(p.outs, |p.outs|), e);
    Shift(LE(p.inNum, 4) + InputsOf(p.slots, p.inNum) + LE(p.outNum, 4), OutputList(p.outs, |p.outs|), e);
  }

  lemma Shift(x: seq<byte>, y: seq<byte>, z: seq<byte>)
    ensures x + (y + z) == x + y + z
  {}

  lemma ListSnoc(outs: seq<Output>, o: Output)
    ensures OutputList(outs + [o], |outs| + 1) == OutputList(outs, |outs|) + o.Bytes()
  {
    ListPrefix(outs, o, |outs|);
  }

  /** Past the last output: the inputs are those in the slots. */
  lemma FedReady(c: Sdk, p: Parser)
    requires Inv(p) && Fed(c, p) && History(p) && p.state == TXN_OUT && p.currObj == p.outNum > 0
    ensures Approved(c, p.(state := TXN_READY, currObj := 0), SlotInputs(p.slots, p.inNum))
  {
    hide LE, U4LE, Txn.Encode, UxIds, InputList, OutputList, Input.Bytes;
    var ins := SlotInputs(p.slots, p.inNum);
    var t := Txn(ins, p.outs);
    assert t.Preimage() == p.hashed;
    EncodeIs(t);
    forall i | 0 <= i < |ins| ensures p.slots[i][..36] == ins[i].Bytes() {
      SlotBytes(p.slots[i]);
    }
  }

  lemma FedOut(c: Sdk, p: Parser)
    requires Inv(p) && Fed(c, p) && History(p) && p.state == TXN_OUT
    ensures FedOutcome(c, StepOut(c, p))
  {
    hide LE, ReadOut, IdsOf, InputsOf, OutputList, Approved;
    if p.currObj == p.outNum {
      if p.outNum > 0 { FedReady(c, p); }
    } else if |p.carry| + |p.data| >= 37 {
      FedTake(c, p);
    }
  }

  lemma FedSigned(c: Sdk, p: Parser, ins: seq<Input>)
    requires Inv(p) && p.state == TXN_COMPUTE_SIGS && Approved(c, p, ins)
    ensures Approved(c, p.(slots := SignAll(c, p), currObj := 0, state := TXN_RET_SIGS), ins)
  {
    hide LE, U4LE, Input.Bytes, InnerHash, Txn.Encode;
    forall i | 0 <= i < |ins| ensures SignAll(c, p)[i] == SigOf(c, p.path, Txn(ins, p.outs), i) {
      SlotHolds(p.slots[i], ins[i]);
    }
  }

  /** Which objects have gone out, and which data are pending, makes no difference. */
  lemma SameApproved(c: Sdk, p: Parser, k: byte, data: seq<byte>, ins: seq<Input>)
    requires Approved(c, p, ins)
    ensures Approved(c, p.(currObj := k), ins) && Approved(c, p.(data := data), ins)
  {
    hide Txn.Encode, InnerHash, SigOf, Input.Bytes;
  }

  lemma FedReturn(c: Sdk, p: Parser)
    requires Inv(p) && p.state == TXN_RET_SIGS && (p.outNum > 0 ==> exists ins :: Approved(c, p, ins))
    ensures FedOutcome(c, StepReturn(p))
  {
    hide Concat, SigOf, InnerHash, Approved;
    if p.outNum > 0 {
      var ins :| Approved(c, p, ins);
      forall k: byte ensures Approved(c, p.(currObj := k), ins) { SameApproved(c, p, k, [], ins); }
    }
  }

  lemma FedStep(c: Sdk, p: Parser)
    requires Inv(p) && Fed(c, p) && History(p)
    ensures FedOutcome(c, Step(c, p))
  {
    hide StepStartIn, StepIn, StepStartOut, StepOut, StepReturn, SignAll, IdsOf, InputsOf, OutputList, LE, Approved;
    if p.state == TXN_START_IN { FedStartIn(c, p); }
    else if p.state == TXN_IN { FedIn(c, p); }
    else if p.state == TXN_START_OUT { FedStartOut(c, p); }
    else if p.state == TXN_OUT { FedOut(c, p); }
    else if p.state == TXN_COMPUTE_SIGS {
      if p.outNum > 0 {
        var ins :| Approved(c, p, ins);
        FedSigned(c, p, ins);
      }
      FedReturn(c, p.(slots := SignAll(c, p), currObj := 0, state := TXN_RET_SIGS));
    } else { FedReturn(c, p); }
  }

  lemma {:induction false} FedRun(c: Sdk, p: Parser)
    requires Inv(p) && Fed(c, p) && History(p)
    ensures var r := Run(c, p); r.code == UNDEFINED || Fed(c, r.p)
    decreases |p.data|
  {
    hide Inv, Fed, History, Step;
    FedStep(c, p);
    EachStep(c, p);
    if Step(c, p).Next? { FedRun(c, Step(c, p).p); }
  }

  lemma FedData(c: Sdk, p: Parser, data: seq<byte>)
    requires Inv(p) && Fed(c, p)
    ensures Inv(p.(data := data)) && Fed(c, p.(data := data))
  {
    hide IdsOf, InputsOf, OutputList, LE, Approved;
    if p.state > TXN_OUT && p.outNum > 0 {
      var ins :| Approved(c, p, ins);
      SameApproved(c, p, 0, data, ins);
    }
  }

  // Every reachable device state.

  /** A session has begun, and its last one, finished or not, is what the parser says it is. */
  ghost predicate Told(c: Sdk, d: Dev) {
    && Inv(d.p) && Fed(c, d.p) && History(d.p) && 1 <= d.presses
    && (d.p.state > TXN_OUT ==> d.p.outNum < d.presses)
  }

  /** `begun`: accept has been pressed at some time. */
  ghost predicate Sealed(c: Sdk, d: Dev, begun: bool) {
    Session(c, d) && (d.initialized || begun ==> Told(c, d))
  }

  lemma ToldData(c: Sdk, d: Dev, e: Dev, data: seq<byte>)
    requires Told(c, d) && e.p == d.p.(data := data) && e.presses == d.presses
    ensures Told(c, e)
  {
    hide Inv, Fed;
    FedData(c, d.p, data);
    DataKeeps(d.p, data);
  }

  /** The parser of a device after a run that does not end in undefined behaviour. */
  lemma ToldRun(c: Sdk, d: Dev, e: Dev)
    requires Session(c, e) && e.presses == d.presses && 1 <= d.presses && Inv(d.p) && History(d.p) && Fed(c, d.p)
    requires var r := Run(c, d.p); r.code != UNDEFINED && (e.p == r.p || e.p == r.p.(data := []))
    requires d.p.state <= TXN_OUT ==> e.initialized
    requires d.p.state > TXN_OUT ==> d.p.outNum < d.presses
    ensures Told(c, e)
  {
    hide Inv, Fed, Run;
    var r := Run(c, d.p);
    FedRun(c, d.p);
    RunOutputs(c, d.p);
    FedData(c, r.p, []);
    DataKeeps(r.p, []);
  }

  lemma ApduSealed(c: Sdk, d: Dev, begun: bool, p1: nat, data: seq<byte>)
    requires Sealed(c, d, begun) && !d.awaiting
    ensures Sealed(c, OnApdu(c, d, p1, data), begun)
  {
    hide Told, Inv, Fed, Run, History, ShownFor, StatusWord;
    ApduKeepsSession(c, d, p1, data);
    if d.initialized || begun {
      var f := OnApdu(c, d, p1, data);
      var q := d.p.(data := data);
      ToldData(c, d, d.(p := q), data);
      ToldParts(c, d.(p := q));
      if d.initialized && p1 == 1 && q.state != TXN_START_OUT && q.state != TXN_OUT && Run(c, q).code != UNDEFINED {
        RunOutputs(c, q);
        ReadSealed(c, d, q, data);
        ToldRun(c, d.(p := q), f);
      } else {
        StaysTold(c, d, p1, data);
      }
    }
  }

  lemma ToldParts(c: Sdk, d: Dev)
    requires Told(c, d)
    ensures Inv(d.p) && Fed(c, d.p) && History(d.p) && 1 <= d.presses && (d.p.state > TXN_OUT ==> d.p.outNum < d.presses)
  {}

  /** An APDU that is read at once. */
  lemma ReadSealed(c: Sdk, d: Dev, q: Parser, data: seq<byte>)
    requires Session(c, d) && !d.awaiting && d.initialized && q == d.p.(data := data) && q.state != TXN_START_OUT && q.state != TXN_OUT
    requires Inv(q) && Run(c, q).code != UNDEFINED && RunEffect(q, Run(c, q))
    ensures var r, f := Run(c, q), OnApdu(c, d, 1, data);
      && f.presses == d.presses && (f.p == r.p || f.p == r.p.(data := [])) && (q.state <= TXN_OUT ==> f.initialized)
  {
    hide Run, ShownFor, StatusWord, History;
  }

  /** Any other APDU. */
  lemma StaysTold(c: Sdk, d: Dev, p1: nat, data: seq<byte>)
    requires Session(c, d) && !d.awaiting && Told(c, d)
    requires var q := d.p.(data := data); d.initialized && p1 == 1 && q.state != TXN_START_OUT && q.state != TXN_OUT ==>
      Inv(q) && Run(c, q).code == UNDEFINED
    ensures Told(c, OnApdu(c, d, p1, data))
  {
    hide Told, Run, ShownFor, StatusWord, Inv, History;
    var f := OnApdu(c, d, p1, data);
    ToldData(c, d, d.(p := d.p.(data := data)), data);
    ToldData(c, d, d.(p := d.p.(data := [])), []);
    ToldData(c, d, f, f.p.data);
  }

  lemma AcceptSealed(c: Sdk, d: Dev, begun: bool)
    requires Sealed(c, d, begun) && d.awaiting
    ensures Sealed(c, OnAccept(c, d), true)
  {
    hide Told, Inv, Fed, Run, History, ShownFor, StatusWord, AfterPress;
    AcceptKeepsSession(c, d);
    BegunFed(c, d, begun);
    var e := Begun(d).(presses := Begun(d).presses + 1);
    var r, f := Run(c, e.p), AfterPress(c, e, Run(c, e.p));
    PressFields(c, e, r);
    if r.code != UNDEFINED {
      ToldRun(c, e, f);
    } else {
      BegunTold(c, e);
      ToldData(c, e, f, []);
    }
  }

  lemma PressFields(c: Sdk, d: Dev, r: Stop)
    requires d.initialized
    ensures var f := AfterPress(c, d, r);
      && f.presses == d.presses && f.initialized
      && if r.code == UNDEFINED then f.p == d.p.(data := []) else f.p == r.p || f.p == r.p.(data := [])
  {
    hide ShownFor, StatusWord;
  }

  lemma BegunTold(c: Sdk, d: Dev)
    requires Inv(d.p) && Fed(c, d.p) && History(d.p) && d.p.state <= TXN_OUT && 1 <= d.presses
    ensures Told(c, d)
  {}

  lemma BegunFed(c: Sdk, d: Dev, begun: bool)
    requires Sealed(c, d, begun) && d.awaiting
    ensures var p := Begun(d).p; Inv(p) && History(p) && Fed(c, p) && p.state <= TXN_OUT
  {
    hide Approved, LE, IdsOf, InputsOf, OutputList, ShownFor;
  }

  lemma ApplySealed(c: Sdk, d: Dev, begun: bool, e: Event)
    requires Sealed(c, d, begun) && Enabled(d, e)
    ensures Sealed(c, Apply(c, d, e), begun || e.Accept?)
  {
    hide OnApdu, OnAccept, Told, ShownFor, StatusWord, Inv;
    match e
    case Apdu(p1, data) => ApduSealed(c, d, begun, p1, data);
    case Accept => AcceptSealed(c, d, begun);
    case Cancel =>
      CancelKeepsSession(c, d);
      if d.initialized || begun { ToldData(c, d, OnCancel(d), []); }
  }

  /** Accept is pressed somewhere in the run. */
  predicate Presses(es: seq<Event>) { exists i :: 0 <= i < |es| && es[i].Accept? }

  lemma {:induction false} RunSealed(c: Sdk, d: Dev, begun: bool, es: seq<Event>)
    requires Sealed(c, d, begun) && Possible(c, d, es)
    ensures Sealed(c, Exec(c, d, es), begun || Presses(es))
    decreases |es|
  {
    hide Apply, Told, Session, Inv, History, ShownFor;
    if es != [] {
      SealedSession(c, d, begun);
      ApplySealed(c, d, begun, es[0]);
      RunSealed(c, Apply(c, d, es[0]), begun || es[0].Accept?, es[1..]);
      PressesLater(es);
    }
  }

  lemma SealedSession(c: Sdk, d: Dev, begun: bool)
    requires Sealed(c, d, begun)
    ensures Session(c, d)
  {}

  lemma PressesLater(es: seq<Event>)
    requires es != []
    ensures Presses(es) <==> es[0].Accept? || Presses(es[1..])
  {
    if i :| 0 <= i < |es[1..]| && es[1..][i].Accept? { assert es[i + 1].Accept?; }
    if i :| 0 < i < |es| && es[i].Accept? { assert es[1..][i - 1].Accept?; }
  }

  /** In every run from an idle device, with any bytes, any split and any cancels: once accept has been
      pressed, a device past the outputs of a session that has some, finished or not, has consumed the
      stream of exactly one transaction, whose outputs are those it has taken one by one with more presses
      than outputs; its inner hash is that of this transaction, and its slots hold the inputs or, after
      signing, the signature of each input under the index received with it. */
  lemma SignedIsApproved(c: Sdk, d: Dev, es: seq<Event>)
    requires Idle(d) && Possible(c, d, es)
    ensures var f := Exec(c, d, es);
      (f.initialized || Presses(es)) && f.p.state > TXN_OUT && f.p.outNum > 0 ==>
        && |f.p.outs| == f.p.outNum < f.presses
        && exists ins :: Approved(c, f.p, ins) && forall other | Approved(c, f.p, other) :: other == ins
  {
    hide Approved, ShownFor, Exec, Possible, Presses;
    RunSealed(c, d, false, es);
    var f := Exec(c, d, es);
    if (f.initialized || Presses(es)) && f.p.state > TXN_OUT && f.p.outNum > 0 { OneApproved(c, f, Presses(es)); }
  }

  lemma OneApproved(c: Sdk, d: Dev, begun: bool)
    requires Sealed(c, d, begun) && (d.initialized || begun) && d.p.state > TXN_OUT && d.p.outNum > 0
    ensures |d.p.outs| == d.p.outNum < d.presses
    ensures exists ins :: Approved(c, d.p, ins) && forall other | Approved(c, d.p, other) :: other == ins
  {
    hide Approved, ShownFor, IdsOf, InputsOf, LE, OutputList;
    var ins :| Approved(c, d.p, ins);
    forall other | Approved(c, d.p, other) ensures other == ins { ApprovedTells(c, d.p, other, ins); }
  }
}
