// Two devices with the same BIP44 path, whatever earlier sessions left in their buffers, counters
// and slots: the same events get the same answers.
module SessionIndependence {
  import opened Bytes
  import opened Wrappers
  import opened Transaction
  import opened Crypto
  import opened TxnStream
  import opened DeviceModel
  import opened Chunking

  /** The first `n` slots hold the same inputs. */
  ghost predicate SameInputs(x: Slots, y: Slots, n: nat) {
    forall i | 0 <= i < n && i < MAX_INPUTS :: x[i][..36] == y[i][..36]
  }

  /** Agreement on everything the rest of the session can still read. */
  ghost predicate Same(p: Parser, q: Parser) {
    && p.state == q.state && p.carry == q.carry && p.data == q.data && p.path == q.path
    && p.hashed == q.hashed && p.consumed == q.consumed && p.outs == q.outs
    && (p.state > TXN_START_IN ==> p.inNum == q.inNum && p.currObj == q.currObj)
    && (p.state >= TXN_OUT ==> p.outNum == q.outNum)
    && (p.state == TXN_IN ==> SameInputs(p.slots, q.slots, p.currObj))
    && (TXN_START_OUT <= p.state <= TXN_COMPUTE_SIGS ==> SameInputs(p.slots, q.slots, p.inNum))
    && (p.state == TXN_RET_SIGS ==> forall i | 0 <= i < p.inNum && i < MAX_INPUTS :: p.slots[i] == q.slots[i])
    && (p.state == TXN_OUT && p.outs != [] ==> p.curOut == q.curOut)
    && (Settled(p) ==> p.innerHash == q.innerHash)
  }

  /** The session has taken its last output, which closes the hash. */
  predicate Closed(p: Parser) {
    p.state == TXN_OUT && p.outs != [] && p.currObj == p.outNum
  }

  /** It has closed the hash, or is past its outputs. */
  predicate Settled(p: Parser) {
    p.state > TXN_OUT || Closed(p)
  }

  /** A session whose output count is zero is past its outputs without having hashed anything. */
  predicate NoOutputs(p: Parser) {
    p.state > TXN_OUT && p.outNum == 0
  }

  /** Two such sessions with the same inputs, about to sign. */
  ghost predicate StalePair(p: Parser, q: Parser) {
    && NoOutputs(p) && NoOutputs(q) && p.state == q.state == TXN_COMPUTE_SIGS && p.currObj == q.currObj == 0
    && p.inNum == q.inNum && p.path == q.path && p.data == q.data && SameInputs(p.slots, q.slots, p.inNum)
  }

  /** Two parsers stay alike, and so do two inner hashes; only a session without outputs, over different
      old hashes, tells them apart. */
  ghost predicate Alike(agree: bool, p: Parser, q: Parser) {
    (Same(p, q) && (agree ==> p.innerHash == q.innerHash)) || (!agree && StalePair(p, q))
  }

  ghost predicate SameOutcome(agree: bool, r: Outcome, s: Outcome) {
    match r
    case Undefined => s.Undefined?
    case Next(p) => s.Next? && Same(p, s.p) && (agree ==> p.innerHash == s.p.innerHash)
    case Throw(code, p, body) => s.Throw? && s.code == code && Alike(agree, p, s.p) && body == s.body
  }

  lemma SameElem(p: Parser, q: Parser, size: nat)
    requires p.carry == q.carry && p.data == q.data && |p.carry| <= size <= |p.carry| + |p.data|
    ensures Elem(p, size) == Elem(q, size) && Read(p, size).data == Read(q, size).data
  {}

  lemma SameIn(p: Parser, q: Parser)
    requires Inv(p) && Inv(q) && Same(p, q) && p.state == TXN_IN
    ensures SameOutcome(p.innerHash == q.innerHash, StepIn(p), StepIn(q))
  {
    hide Elem;
    if |p.carry| + |p.data| >= 36 { SameElem(p, q, 36); }
  }

  lemma SameOut(c: Sdk, p: Parser, q: Parser)
    requires Inv(p) && Inv(q) && Same(p, q) && History(p) && p.state == TXN_OUT
    ensures SameOutcome(p.innerHash == q.innerHash, StepOut(c, p), StepOut(c, q))
  {
    hide SameInputs, ReadOut;
    if p.currObj != p.outNum && |p.carry| + |p.data| >= 37 { SameReadOut(c, p, q); }
  }

  lemma SameReadOut(c: Sdk, p: Parser, q: Parser)
    requires Inv(p) && Inv(q) && Same(p, q) && History(p) && p.state == TXN_OUT
    requires p.currObj < p.outNum && |p.carry| + |p.data| >= 37
    ensures var r, s := ReadOut(c, p), ReadOut(c, q);
      Same(r, s) && (p.innerHash == q.innerHash ==> r.innerHash == s.innerHash)
  {
    hide Elem, ReadOutput, SameInputs;
    SameElem(p, q, 37);
  }

  lemma SameSignatures(c: Sdk, p: Parser, q: Parser)
    requires Inv(p) && Inv(q) && Same(p, q) && p.state == TXN_COMPUTE_SIGS
    ensures forall i | 0 <= i < p.inNum :: SignAll(c, p)[i] == SignAll(c, q)[i]
  {
    forall i | 0 <= i < p.inNum ensures SignAll(c, p)[i] == SignAll(c, q)[i] {
      SlotRead(p.slots[i], q.slots[i]);
    }
  }

  lemma SlotRead(x: Slot, y: Slot)
    requires x[..36] == y[..36]
    ensures x[..32] == y[..32] && U4LE(x, 32) == U4LE(y, 32)
  {
    assert x[..32] == x[..36][..32] && y[..32] == y[..36][..32];
    assert forall i | 0 <= i < 36 :: x[i] == x[..36][i] == y[i];
  }

  lemma SameReturn(p: Parser, q: Parser)
    requires Inv(p) && Inv(q) && Same(p, q) && p.state == TXN_RET_SIGS
    ensures SameOutcome(p.innerHash == q.innerHash, StepReturn(p), StepReturn(q))
  {
    hide Concat;
    var next := if p.inNum - p.currObj > SIGS_PER_PAGE then p.currObj + SIGS_PER_PAGE else p.inNum;
    assert p.slots[p.currObj..next] == q.slots[q.currObj..next];
  }

  lemma SameStep(c: Sdk, p: Parser, q: Parser)
    requires Inv(p) && Inv(q) && Same(p, q) && History(p)
    ensures SameOutcome(p.innerHash == q.innerHash, Step(c, p), Step(c, q))
  {
    hide Elem, SignAll, StepIn, StepOut, StepReturn, U4LE;
    if p.state == TXN_START_IN || p.state == TXN_START_OUT {
      if |p.carry| + |p.data| >= 4 { SameElem(p, q, 4); }
    } else if p.state == TXN_IN {
      SameIn(p, q);
    } else if p.state == TXN_OUT {
      SameOut(c, p, q);
    } else if p.state == TXN_COMPUTE_SIGS {
      SameSignatures(c, p, q);
      SameReturn(p.(slots := SignAll(c, p), currObj := 0, state := TXN_RET_SIGS),
                 q.(slots := SignAll(c, q), currObj := 0, state := TXN_RET_SIGS));
    } else {
      SameReturn(p, q);
    }
  }

  lemma {:induction false} SameRun(c: Sdk, p: Parser, q: Parser)
    requires Inv(p) && Inv(q) && Same(p, q) && History(p)
    ensures var r, s := Run(c, p), Run(c, q);
      r.code == s.code && (r.code == UNDEFINED || (Alike(p.innerHash == q.innerHash, r.p, s.p) && r.body == s.body))
    decreases |p.data|
  {
    hide Inv, Same, History, Step, NoOutputs;
    SameStep(c, p, q);
    EachStep(c, p);
    if Step(c, p).Next? { SameRun(c, Step(c, p).p, Step(c, q).p); }
  }

  /** What two devices that get the same events have in common. */
  ghost predicate SameDevices(d: Dev, e: Dev) {
    && d.initialized == e.initialized && d.awaiting == e.awaiting && d.stuck == e.stuck
    && d.replies == e.replies && d.p.path == e.p.path && d.p.data == e.p.data
    && (d.initialized ==> Same(d.p, e.p))
  }

  /** Two devices about to sign over different old hashes. */
  ghost predicate StaleDevices(d: Dev, e: Dev) {
    d.initialized && e.initialized && !d.awaiting && !e.awaiting && !d.stuck && !e.stuck && StalePair(d.p, e.p)
  }

  /** The same, and the inner hashes agree if they did before. */
  ghost predicate AlikeDevices(agree: bool, d: Dev, e: Dev) {
    || (SameDevices(d, e) && (agree ==> d.p.innerHash == e.p.innerHash))
    || (!agree && StaleDevices(d, e))
  }

  /** Two runs that end alike. */
  ghost predicate SameStops(agree: bool, r: Stop, s: Stop) {
    && Same(r.p, s.p) && Same(r.p.(data := []), s.p.(data := [])) && r.body == s.body && r.p.path == s.p.path
    && r.p.data == s.p.data && (r.p.state > TXN_OUT || agree ==> r.p.innerHash == s.p.innerHash)
  }

  /** Two runs that end past the outputs of a session that has none, over different old hashes. */
  ghost predicate StaleStops(r: Stop, s: Stop) {
    r.code == s.code == TXN_READY && r.body == s.body && StalePair(r.p, s.p) && StalePair(r.p.(data := []), s.p.(data := []))
  }

  /** What the handlers need to know about two runs. */
  ghost predicate AlikeStops(agree: bool, r: Stop, s: Stop) {
    && r.code == s.code && (r.code >= TXN_READY ==> r.p.state > TXN_OUT)
    && (r.code == UNDEFINED || (!agree && StaleStops(r, s)) || SameStops(agree, r, s))
  }

  lemma SameResults(c: Sdk, p: Parser, q: Parser)
    requires Inv(p) && Inv(q) && Same(p, q) && History(p)
    ensures AlikeStops(p.innerHash == q.innerHash, Run(c, p), Run(c, q))
  {
    hide Inv, Run, SameInputs;
    SameRun(c, p, q);
    RunOutputs(c, p);
  }

  lemma SameData(p: Parser, q: Parser, data: seq<byte>)
    requires Same(p, q)
    ensures Same(p.(data := data), q.(data := data)) && p.path == q.path && p.state == q.state
  {
    hide SameInputs;
  }

  /** The switches of the two handlers treat them alike. */
  lemma SameAfterApdu(c: Sdk, d: Dev, e: Dev, agree: bool, r: Stop, s: Stop)
    requires SameDevices(d, e) && d.initialized && !d.stuck && Same(d.p.(data := []), e.p.(data := []))
    requires agree == (d.p.innerHash == e.p.innerHash) && AlikeStops(agree, r, s)
    ensures AlikeDevices(agree, AfterApdu(c, d, r), AfterApdu(c, e, s))
    ensures AfterApdu(c, d, r).replies == AfterApdu(c, e, s).replies
  {
    hide ShownFor, StatusWord, Same, AfterApdu, SameStops, StaleStops;
    if r.code == UNDEFINED {
      StuckAlike(c, d, e, r, s);
    } else if SameStops(agree, r, s) {
      SameStopApdu(c, d, e, agree, r, s);
    } else {
      StaleApdu(c, d, e, r, s);
    }
  }

  lemma SameAfterPress(c: Sdk, d: Dev, e: Dev, agree: bool, r: Stop, s: Stop)
    requires SameDevices(d, e) && d.initialized && !d.stuck && Same(d.p.(data := []), e.p.(data := []))
    requires agree == (d.p.innerHash == e.p.innerHash) && AlikeStops(agree, r, s)
    ensures AlikeDevices(agree, AfterPress(c, d, r), AfterPress(c, e, s))
  {
    hide ShownFor, StatusWord, Same, AfterPress, SameStops, StaleStops;
    if r.code == UNDEFINED {
      StuckAlike(c, d, e, r, s);
    } else if SameStops(agree, r, s) {
      SameStopPress(c, d, e, agree, r, s);
    } else {
      StalePress(c, d, e, r, s);
    }
  }

  lemma StuckAlike(c: Sdk, d: Dev, e: Dev, r: Stop, s: Stop)
    requires SameDevices(d, e) && d.initialized && Same(d.p.(data := []), e.p.(data := [])) && r.code == s.code == UNDEFINED
    ensures var agree := d.p.innerHash == e.p.innerHash;
      AlikeDevices(agree, AfterApdu(c, d, r), AfterApdu(c, e, s)) && AlikeDevices(agree, AfterPress(c, d, r), AfterPress(c, e, s))
    ensures AfterApdu(c, d, r).replies == AfterApdu(c, e, s).replies
  {
    hide Same;
  }

  /** Two devices after two runs that ended alike, whatever the handlers do next. */
  ghost predicate SameSoFar(agree: bool, d: Dev, e: Dev) {
    && SameDevices(d, e) && (d.initialized ==> Same(d.p.(data := []), e.p.(data := [])))
    && (agree ==> d.p.innerHash == e.p.innerHash)
  }

  lemma AnswerAlike(agree: bool, d: Dev, e: Dev, code: nat, body: seq<byte>)
    requires SameSoFar(agree, d, e) && code < 0x1_0000
    ensures SameSoFar(agree, Answer(d, code, body), Answer(e, code, body))
  {
    hide Same, StatusWord;
  }

  lemma PrepareAlike(c: Sdk, agree: bool, d: Dev, e: Dev, waits: bool)
    requires SameSoFar(agree, d, e)
    ensures SameSoFar(agree, Prepare(c, d).(awaiting := waits), Prepare(c, e).(awaiting := waits))
  {
    hide Same, ShownFor;
  }

  lemma RunAlike(d: Dev, e: Dev, agree: bool, r: Stop, s: Stop)
    requires SameDevices(d, e) && d.initialized && SameStops(agree, r, s)
    ensures SameSoFar(agree, d.(p := r.p), e.(p := s.p))
    ensures forall u, v :: SameSoFar(agree, d.(p := r.p, unshown := u), e.(p := s.p, unshown := v))
    ensures SameSoFar(agree, d.(p := r.p, initialized := false), e.(p := s.p, initialized := false))
  {
    hide Same;
  }

  lemma SameStopApdu(c: Sdk, d: Dev, e: Dev, agree: bool, r: Stop, s: Stop)
    requires SameDevices(d, e) && d.initialized && r.code == s.code != UNDEFINED && SameStops(agree, r, s)
    ensures AlikeDevices(agree, AfterApdu(c, d, r), AfterApdu(c, e, s))
    ensures AfterApdu(c, d, r).replies == AfterApdu(c, e, s).replies
  {
    hide Answer, Prepare, Same, SameSoFar;
    var x, y := d.(p := r.p), e.(p := s.p);
    RunAlike(d, e, agree, r, s);
    SoFarKnows(agree, AfterApdu(c, d, r), AfterApdu(c, e, s));
    if r.code == TXN_OUT {
      PrepareAlike(c, agree, x, y, true);
    } else if r.code == TXN_PARTIAL {
      AnswerAlike(agree, x, y, INS_RET_SUCCESS, r.body);
    } else if r.code == TXN_FINISHED {
      AnswerAlike(agree, x.(initialized := false), y.(initialized := false), INS_RET_SUCCESS, r.body);
    } else {
      var u, v := d.unshown || r.code == TXN_PARTIAL_OUT, e.unshown || r.code == TXN_PARTIAL_OUT;
      AnswerAlike(agree, d.(p := r.p, unshown := u), e.(p := s.p, unshown := v), INS_RET_SUCCESS, r.body);
    }
  }

  lemma SoFarKnows(agree: bool, d: Dev, e: Dev)
    ensures SameSoFar(agree, d, e) ==> AlikeDevices(agree, d, e) && d.replies == e.replies
  {
    hide Same;
  }

  lemma SameStopPress(c: Sdk, d: Dev, e: Dev, agree: bool, r: Stop, s: Stop)
    requires SameDevices(d, e) && d.initialized && r.code == s.code != UNDEFINED && SameStops(agree, r, s)
    requires r.code >= TXN_READY ==> r.p.state > TXN_OUT
    ensures AlikeDevices(agree, AfterPress(c, d, r), AfterPress(c, e, s))
  {
    hide Answer, Prepare, Same, SameSoFar;
    var x, y := d.(p := r.p), e.(p := s.p);
    RunAlike(d, e, agree, r, s);
    SoFarKnows(agree, AfterPress(c, d, r), AfterPress(c, e, s));
    PrepareKeeps(c, x);
    PrepareKeeps(c, y);
    PrepareAlike(c, agree, x, y, x.awaiting);
    if r.code == TXN_PARTIAL {
      AnswerAlike(agree, x, y, INS_RET_SUCCESS, []);
    } else if r.code == TXN_PARTIAL_OUT {
      AnswerAlike(agree, Prepare(c, x), Prepare(c, y), INS_RET_SUCCESS, []);
    } else if r.code != TXN_OUT {
      AnswerAlike(agree, x, y, INS_RET_SUCCESS, r.p.innerHash);
    }
  }

  lemma PrepareKeeps(c: Sdk, d: Dev)
    ensures Prepare(c, d) == Prepare(c, d).(awaiting := d.awaiting)
  {
    hide ShownFor;
  }

  lemma StaleApdu(c: Sdk, d: Dev, e: Dev, r: Stop, s: Stop)
    requires SameDevices(d, e) && d.initialized && !d.stuck && StaleStops(r, s)
    ensures var f, g := AfterApdu(c, d, r), AfterApdu(c, e, s); StaleDevices(f, g) && f.replies == g.replies
  {
    hide ShownFor, StatusWord, Same, StalePair;
  }

  lemma StalePress(c: Sdk, d: Dev, e: Dev, r: Stop, s: Stop)
    requires SameDevices(d, e) && d.initialized && !d.stuck && StaleStops(r, s)
    ensures StaleDevices(AfterPress(c, d, r), AfterPress(c, e, s))
  {
    hide ShownFor, StatusWord, Same, StalePair;
  }

  lemma SameApdu(c: Sdk, d: Dev, e: Dev, p1: nat, data: seq<byte>)
    requires Session(c, d) && Session(c, e) && SameDevices(d, e) && !d.awaiting && !d.stuck
    ensures AlikeDevices(d.p.innerHash == e.p.innerHash, OnApdu(c, d, p1, data), OnApdu(c, e, p1, data))
    ensures OnApdu(c, d, p1, data).replies == OnApdu(c, e, p1, data).replies
  {
    hide Inv, History, Run, ShownFor, StatusWord, Same, AfterApdu, AlikeStops;
    if d.initialized {
      DataKeeps(d.p, data);
      DataKeeps(e.p, data);
      SameData(d.p, e.p, data);
      SameData(d.p, e.p, []);
      var r, s := Run(c, d.p.(data := data)), Run(c, e.p.(data := data));
      SameResults(c, d.p.(data := data), e.p.(data := data));
      SameAfterApdu(c, d, e, d.p.innerHash == e.p.innerHash, r, s);
    }
  }

  lemma SameAccept(c: Sdk, d: Dev, e: Dev)
    requires Session(c, d) && Session(c, e) && SameDevices(d, e) && d.awaiting && !d.stuck
    ensures AlikeDevices(d.p.innerHash == e.p.innerHash, OnAccept(c, d), OnAccept(c, e))
  {
    hide Inv, History, Run, ShownFor, StatusWord, Same, AfterPress, AlikeStops;
    BegunFits(c, d);
    BegunFits(c, e);
    SameBegun(d, e);
    SameData(Begun(d).p, Begun(e).p, []);
    SameResults(c, Begun(d).p, Begun(e).p);
    var d1, e1 := Begun(d).(presses := Begun(d).presses + 1), Begun(e).(presses := Begun(e).presses + 1);
    SameAfterPress(c, d1, e1, d.p.innerHash == e.p.innerHash, Run(c, d1.p), Run(c, e1.p));
  }

  lemma SameBegun(d: Dev, e: Dev)
    requires SameDevices(d, e)
    ensures Same(Begun(d).p, Begun(e).p)
  {
    hide SameInputs;
  }

  lemma BegunFits(c: Sdk, d: Dev)
    requires Session(c, d)
    ensures Inv(Begun(d).p) && History(Begun(d).p)
  {}

  lemma SameApply(c: Sdk, d: Dev, e: Dev, event: Event)
    requires Session(c, d) && Session(c, e) && SameDevices(d, e) && Enabled(d, event) && Enabled(e, event)
    ensures AlikeDevices(d.p.innerHash == e.p.innerHash, Apply(c, d, event), Apply(c, e, event))
    ensures event.Apdu? ==> Apply(c, d, event).replies == Apply(c, e, event).replies
    ensures event.Cancel? ==> SameDevices(Apply(c, d, event), Apply(c, e, event))
  {
    hide Inv, History, OnApdu, OnAccept, ShownFor, StatusWord, SameInputs;
    match event
    case Apdu(p1, data) => SameApdu(c, d, e, p1, data);
    case Accept => SameAccept(c, d, e);
    case Cancel =>
  }

  /** The first event of a run after which a session has settled its inner hash, and the device then. */
  function FirstSettled(c: Sdk, d: Dev, es: seq<Event>): Option<(Event, Dev)>
    requires Session(c, d) && Possible(c, d, es)
    decreases |es|
  {
    if es == [] then None
    else
      var f := Apply(c, d, es[0]);
      if f.initialized && Settled(f.p) then Some((es[0], f))
      else
        ApplyKeepsSession(c, d, es[0]);
        FirstSettled(c, f, es[1..])
  }

  /** The first session of the run that gets so far announces no outputs, so that it settles on whatever
      hash was there before the run. */
  predicate SettlesOnOldHash(c: Sdk, d: Dev, es: seq<Event>)
    requires Session(c, d) && Possible(c, d, es)
  {
    var s := FirstSettled(c, d, es);
    s.Some? && NoOutputs(s.value.1.p)
  }

  lemma {:induction false} SameRuns(c: Sdk, d: Dev, e: Dev, es: seq<Event>)
    requires Session(c, d) && Session(c, e) && SameDevices(d, e) && Possible(c, d, es)
    requires d.p.innerHash == e.p.innerHash || !SettlesOnOldHash(c, d, es)
    ensures Possible(c, e, es) && SameDevices(Exec(c, d, es), Exec(c, e, es))
    decreases |es|
  {
    hide Apply, SameDevices, Inv, ShownFor, History, Settled, NoOutputs;
    if es != [] {
      SameEnabled(d, e, es[0]);
      ApplyKeepsSession(c, d, es[0]);
      ApplyKeepsSession(c, e, es[0]);
      SameApply(c, d, e, es[0]);
      var f, g := Apply(c, d, es[0]), Apply(c, e, es[0]);
      if f.initialized { NoOutputsSettle(f, g); }
      SameRuns(c, f, g, es[1..]);
    }
  }

  lemma NoOutputsSettle(d: Dev, e: Dev)
    requires d.initialized
    ensures NoOutputs(d.p) ==> Settled(d.p)
    ensures SameDevices(d, e) && Settled(d.p) ==> d.p.innerHash == e.p.innerHash
  {}

  lemma SameEnabled(d: Dev, e: Dev, event: Event)
    requires SameDevices(d, e) && Enabled(d, event)
    ensures Enabled(e, event)
  {}

  /** Session independence: two idle devices with the same path give the same answers, byte for byte, to
      every run that does not settle on an old hash first, and to every run at all if their old hashes
      agree. */
  lemma AnswersIgnoreThePast(c: Sdk, d: Dev, e: Dev, es: seq<Event>)
    requires Session(c, d) && !d.initialized && !d.awaiting && !d.stuck
    requires Session(c, e) && !e.initialized && !e.awaiting && !e.stuck
    requires d.p.path == e.p.path && d.replies == e.replies && Possible(c, d, es)
    requires d.p.innerHash == e.p.innerHash || !SettlesOnOldHash(c, d, es)
    ensures Possible(c, e, es) && Exec(c, d, es).replies == Exec(c, e, es).replies
  {
    SameRuns(c, d, e, es);
  }

  /** A cancelled session is not over for the device: the host's next attempt to begin gets a second
      error, and only that one makes the device ready for a new session. */
  lemma CancelNeedsSecondError(c: Sdk, d: Dev, data: seq<byte>)
    requires Session(c, d) && d.awaiting && !d.stuck
    ensures Session(c, OnCancel(d)) && Enabled(OnCancel(d), Apdu(0, data))
    ensures var f := OnApdu(c, OnCancel(d), 0, data);
      && f.awaiting == !d.initialized && !f.initialized && !f.stuck
      && f.replies == d.replies + [[0x06, 0xB0]] + (if d.initialized then [[0x06, 0xB0]] else [])
  {
    hide Inv, History, ShownFor, StatusWord;
    StatusBytes();
    CancelKeepsSession(c, d);
    assert [] + StatusWord(RET_ERROR) == StatusWord(RET_ERROR);
  }

  /** One input, no outputs. */
  function NoOutputStream(i: Input): seq<byte> { LE(1, 4) + (i.Bytes() + LE(0, 4)) }

  lemma OneInputCount(c: Sdk, p: Parser, tail: seq<byte>) returns (q: Parser)
    requires Begin(p) == p && p.data == LE(1, 4) + tail
    ensures Step(c, p) == Next(q) && q.innerHash == p.innerHash
    ensures q.state == TXN_IN && q.inNum == 1 && q.currObj == 0 && q.data == tail && q.carry == []
  {
    hide LE, U4LE;
    CountRoundTrip(1);
    Head(LE(1, 4), tail);
    q := Step(c, p).p;
  }

  lemma OneInput(c: Sdk, p: Parser, i: Input, tail: seq<byte>) returns (q: Parser)
    requires p.state == TXN_IN && p.inNum == 1 && p.currObj == 0 && p.carry == [] && p.data == i.Bytes() + tail
    ensures Step(c, p) == Next(q) && q.innerHash == p.innerHash
    ensures q.state == TXN_START_OUT && q.inNum == 1 && q.data == tail && q.carry == []
  {
    hide LE, U4LE, Input.Bytes, PutInput;
    Head(i.Bytes(), tail);
    q := Step(c, p).p;
  }

  lemma NoOutputCount(c: Sdk, p: Parser) returns (q: Parser)
    requires p.state == TXN_START_OUT && p.inNum == 1 && p.carry == [] && p.data == LE(0, 4)
    ensures Step(c, p) == Next(q) && q.innerHash == p.innerHash && q.state == TXN_OUT && q.outNum == 0 == q.currObj && Inv(q)
  {
    hide LE, U4LE;
    CountRoundTrip(0);
    Head(LE(0, 4), []);
    assert LE(0, 4) + [] == LE(0, 4);
    q := Step(c, p).p;
  }

  lemma NoOutputRun(c: Sdk, p: Parser, i: Input)
    requires Begin(p) == p && p.data == NoOutputStream(i)
    ensures var r := Run(c, p); r.code == TXN_READY && r.p.innerHash == p.innerHash
  {
    hide LE, Input.Bytes;
    var p1 := OneInputCount(c, p, i.Bytes() + LE(0, 4));
    var p2 := OneInput(c, p1, i, LE(0, 4));
    var p3 := NoOutputCount(c, p2);
    assert Step(c, p3) == Throw(TXN_READY, p3.(state := TXN_READY, currObj := 0), []);
    Four(c, p, p1, p2, p3);
  }

  lemma Head(x: seq<byte>, y: seq<byte>)
    ensures [] + (x + y)[..|x|] == x && (x + y)[|x|..] == y
  {}

  lemma Four(c: Sdk, p: Parser, p1: Parser, p2: Parser, p3: Parser)
    requires Inv(p) && Step(c, p) == Next(p1) && Step(c, p1) == Next(p2) && Step(c, p2) == Next(p3)
    requires Step(c, p3).Throw?
    ensures Run(c, p) == Stop(Step(c, p3).code, Step(c, p3).p, Step(c, p3).body)
  {
    hide Step, Inv;
    assert Run(c, p) == Run(c, p1);
    assert Run(c, p1) == Run(c, p2);
    assert Run(c, p2) == Run(c, p3);
  }

  /** Such runs exist, for every device and every input: a session of one input and no outputs, in one
      chunk, is answered with the inner hash of an earlier session. */
  lemma ZeroOutputsRepeatOldHash(c: Sdk, d: Dev, i: Input)
    requires Session(c, d) && !d.initialized && !d.awaiting && !d.stuck
    ensures var e := Apply(c, d, Apdu(0, NoOutputStream(i)));
      Session(c, e) && e.awaiting && !e.stuck
      && Apply(c, e, Accept).replies == d.replies + [d.p.innerHash + [0x90, 0x00]]
  {
    hide Run, NoOutputStream, StatusWord;
    StatusBytes();
    var e := Apply(c, d, Apdu(0, NoOutputStream(i)));
    NoOutputRun(c, Begun(e).p, i);
  }
}
