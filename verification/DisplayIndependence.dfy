// Two devices, whatever earlier sessions left in them and on their displays, and whatever their paths: the
// same events bring the same outputs onto both displays.
module DisplayIndependence {
  import opened Bytes
  import opened Transaction
  import opened Crypto
  import opened TxnStream
  import opened DeviceModel
  import opened Approval

  /** Agreement on what the parse depends on: not the slots, not the hashes, not the path. */
  ghost predicate SameParse(p: Parser, q: Parser) {
    && p.state == q.state && p.carry == q.carry && p.data == q.data && p.outs == q.outs
    && (p.state > TXN_START_IN ==> p.inNum == q.inNum && p.currObj == q.currObj)
    && (p.state >= TXN_OUT ==> p.outNum == q.outNum)
    && (p.outs != [] ==> p.curOut == q.curOut)
  }

  ghost predicate SameParses(r: Outcome, s: Outcome) {
    match r
    case Undefined => s.Undefined?
    case Next(p) => s.Next? && SameParse(p, s.p)
    case Throw(code, p, body) => s.Throw? && s.code == code && SameParse(p, s.p)
  }

  lemma SameTaken(p: Parser, q: Parser, size: nat)
    requires p.carry == q.carry && p.data == q.data && |p.carry| <= size <= |p.carry| + |p.data|
    ensures Elem(p, size) == Elem(q, size) && Read(p, size).data == Read(q, size).data
  {}

  lemma CountsAlike(p: Parser, q: Parser)
    requires Inv(p) && Inv(q) && SameParse(p, q)
    ensures p.state == TXN_START_IN ==> SameParses(StepStartIn(p), StepStartIn(q))
    ensures p.state == TXN_START_OUT ==> SameParses(StepStartOut(p), StepStartOut(q))
  {
    hide Elem, U4LE;
    if p.state != TXN_IN && p.state < TXN_OUT && |p.carry| + |p.data| >= 4 { SameTaken(p, q, 4); }
  }

  lemma InputsAlike(p: Parser, q: Parser)
    requires Inv(p) && Inv(q) && SameParse(p, q) && p.state == TXN_IN
    ensures SameParses(StepIn(p), StepIn(q))
  {
    hide Elem, PutInput;
    if |p.carry| + |p.data| >= 36 { SameTaken(p, q, 36); }
  }

  lemma ReadAlike(c: Sdk, p: Parser, q: Parser)
    requires Inv(p) && Inv(q) && SameParse(p, q) && p.state == TXN_OUT && p.currObj < p.outNum && |p.carry| + |p.data| >= 37
    ensures SameParse(ReadOut(c, p), ReadOut(c, q))
  {
    hide Elem, ReadOutput;
    SameTaken(p, q, 37);
  }

  lemma OutputsAlike(c: Sdk, p: Parser, q: Parser)
    requires Inv(p) && Inv(q) && SameParse(p, q) && p.state == TXN_OUT
    ensures SameParses(StepOut(c, p), StepOut(c, q))
  {
    hide ReadOut;
    if p.currObj != p.outNum && |p.carry| + |p.data| >= 37 { ReadAlike(c, p, q); }
  }

  lemma SigningAlike(c: Sdk, p: Parser, q: Parser)
    requires Inv(p) && Inv(q) && SameParse(p, q) && p.state > TXN_OUT
    ensures SameParses(Step(c, p), Step(c, q))
  {
    hide Concat, SignAll;
  }

  lemma StepAlike(c: Sdk, p: Parser, q: Parser)
    requires Inv(p) && Inv(q) && SameParse(p, q)
    ensures SameParses(Step(c, p), Step(c, q))
  {
    hide StepStartIn, StepIn, StepStartOut, StepOut, StepReturn, SignAll;
    if p.state == TXN_IN { InputsAlike(p, q); }
    else if p.state == TXN_OUT { OutputsAlike(c, p, q); }
    else if p.state > TXN_OUT { SigningAlike(c, p, q); }
    else { CountsAlike(p, q); }
  }

  lemma {:induction false} RunAlike(c: Sdk, p: Parser, q: Parser)
    requires Inv(p) && Inv(q) && SameParse(p, q)
    ensures Run(c, p).code == Run(c, q).code && (Run(c, p).code == UNDEFINED || SameParse(Run(c, p).p, Run(c, q).p))
    decreases |p.data|
  {
    hide Inv, SameParse, Step;
    StepAlike(c, p, q);
    if Step(c, p).Next? { RunAlike(c, Step(c, p).p, Step(c, q).p); }
  }

  /** Agreement between two devices on what their displays will do. */
  ghost predicate InStep(d: Dev, e: Dev) {
    && d.initialized == e.initialized && d.awaiting == e.awaiting && d.stuck == e.stuck && d.p.data == e.p.data
    && (d.initialized ==> SameParse(d.p, e.p))
  }

  /** An event puts the same output on both displays, or changes neither. */
  ghost predicate ShowAlike(c: Sdk, d: Dev, e: Dev, v: Event)
    requires Session(c, d) && Session(c, e) && Enabled(d, v) && Enabled(e, v)
  {
    var f, g := Apply(c, d, v), Apply(c, e, v);
    InStep(f, g) && if Shows(c, d, v) then f.display == g.display else f.display == d.display && g.display == e.display
  }

  /** The event changes the display. */
  ghost predicate Shows(c: Sdk, d: Dev, v: Event)
    requires Session(c, d) && Enabled(d, v)
  {
    Parses(c, d, v) && !ComesUnseen(d, v)
  }

  lemma DataAlike(p: Parser, q: Parser, data: seq<byte>)
    requires SameParse(p, q)
    ensures SameParse(p.(data := data), q.(data := data))
  {}

  lemma EarlyAlike(p: Parser, q: Parser)
    requires SameParse(p, q)
    ensures EndsEarly(p) == EndsEarly(q)
  {
    hide U4LE, Elem;
    if p.state == TXN_START_IN && |p.carry| <= 4 <= |p.carry| + |p.data| { SameTaken(p, q, 4); }
  }

  /** The two devices after two runs that ended alike, whatever the handlers do next. */
  ghost predicate InStepData(d: Dev, e: Dev) {
    InStep(d, e) && (d.initialized ==> SameParse(d.p.(data := []), e.p.(data := [])))
  }

  lemma AnswerAlike(d: Dev, e: Dev, code: nat, x: seq<byte>, y: seq<byte>)
    requires InStepData(d, e) && code < 0x1_0000
    ensures InStep(Answer(d, code, x), Answer(e, code, y))
  {
    hide SameParse, StatusWord;
  }

  lemma RunsEndAlike(d: Dev, e: Dev, p: Parser, q: Parser, open: bool, u: bool, v: bool)
    requires InStep(d, e) && SameParse(p, q) && d.initialized
    ensures InStepData(d.(p := p, initialized := open, unshown := u), e.(p := q, initialized := open, unshown := v))
    ensures InStepData(d.(p := p), e.(p := q)) && p.data == q.data
  {
    hide SameParse;
    DataAlike(p, q, []);
    ParseState(p, q);
  }

  lemma PrepareAlike(c: Sdk, d: Dev, e: Dev, waits: bool)
    requires InStepData(d, e)
    ensures InStepData(Prepare(c, d).(awaiting := waits), Prepare(c, e).(awaiting := waits))
    ensures InStepData(Prepare(c, d), Prepare(c, e))
  {
    hide SameParse, ShownFor;
  }

  lemma StuckAlike(d: Dev, e: Dev)
    requires InStep(d, e)
    ensures InStep(Stuck(d), Stuck(e))
  {
    hide SameParse;
    if d.initialized { DataAlike(d.p, e.p, []); }
  }

  /** The switches of the two handlers. */
  lemma AfterApduAlike(c: Sdk, d: Dev, e: Dev, r: Stop, s: Stop)
    requires InStep(d, e) && d.initialized && r.code == s.code && (r.code == UNDEFINED || SameParse(r.p, s.p))
    ensures InStep(AfterApdu(c, d, r), AfterApdu(c, e, s))
  {
    hide InStep, InStepData, SameParse, Answer, Prepare, Stuck;
    StuckAlike(d, e);
    var x, y := d.(p := r.p), e.(p := s.p);
    DataIsInStep(c, x, y);
    if r.code != UNDEFINED {
      var u, v := d.unshown || r.code == TXN_PARTIAL_OUT, e.unshown || r.code == TXN_PARTIAL_OUT;
      RunsEndAlike(d, e, r.p, s.p, d.initialized, u, v);
      RunsEndAlike(d, e, r.p, s.p, false, d.unshown, e.unshown);
      Initialized(d, e);
      if r.code == TXN_OUT { PrepareAlike(c, x, y, true); }
      else if r.code == TXN_PARTIAL { AnswerAlike(x, y, INS_RET_SUCCESS, r.body, s.body); }
      else if r.code == TXN_FINISHED { AnswerAlike(x.(initialized := false), y.(initialized := false), INS_RET_SUCCESS, r.body, s.body); }
      else { AnswerAlike(x.(unshown := u), y.(unshown := v), INS_RET_SUCCESS, r.body, s.body); }
    }
  }

  lemma AfterPressAlike(c: Sdk, d: Dev, e: Dev, r: Stop, s: Stop)
    requires InStep(d, e) && d.initialized && r.code == s.code && (r.code == UNDEFINED || SameParse(r.p, s.p))
    ensures InStep(AfterPress(c, d, r), AfterPress(c, e, s))
  {
    hide InStep, InStepData, SameParse, Answer, Prepare, Stuck;
    StuckAlike(d, e);
    var x, y := d.(p := r.p), e.(p := s.p);
    DataIsInStep(c, x, y);
    if r.code != UNDEFINED {
      RunsEndAlike(d, e, r.p, s.p, d.initialized, d.unshown, e.unshown);
      PrepareAlike(c, x, y, true);
      if r.code == TXN_PARTIAL { AnswerAlike(x, y, INS_RET_SUCCESS, [], []); }
      else if r.code == TXN_PARTIAL_OUT { AnswerAlike(Prepare(c, x), Prepare(c, y), INS_RET_SUCCESS, [], []); }
      else if r.code != TXN_OUT { AnswerAlike(x, y, INS_RET_SUCCESS, r.p.innerHash, s.p.innerHash); }
    }
  }

  lemma Initialized(d: Dev, e: Dev)
    requires InStep(d, e)
    ensures d.initialized == e.initialized
  {}

  lemma DataIsInStep(c: Sdk, d: Dev, e: Dev)
    ensures InStepData(d, e) ==> InStep(d, e)
    ensures InStepData(Prepare(c, d), Prepare(c, e)) ==> InStep(Prepare(c, d), Prepare(c, e))
    ensures InStepData(Prepare(c, d).(awaiting := true), Prepare(c, e).(awaiting := true)) ==>
      InStep(Prepare(c, d).(awaiting := true), Prepare(c, e).(awaiting := true))
  {
    hide InStep;
  }

  lemma ApduAlike(c: Sdk, d: Dev, e: Dev, p1: nat, data: seq<byte>)
    requires Session(c, d) && Session(c, e) && InStep(d, e) && !d.awaiting && !d.stuck
    ensures InStep(OnApdu(c, d, p1, data), OnApdu(c, e, p1, data))
    ensures Parses(c, d, Apdu(p1, data)) == Parses(c, e, Apdu(p1, data))
    ensures Parses(c, d, Apdu(p1, data)) ==> ComesUnseen(d, Apdu(p1, data)) == ComesUnseen(e, Apdu(p1, data))
  {
    hide SameParse, Run, ShownFor, StatusWord, AfterApdu, EndsEarly, Inv, History;
    if d.initialized {
      DataKeeps(d.p, data);
      DataKeeps(e.p, data);
      DataAlike(d.p, e.p, data);
      ParseState(d.p, e.p);
      EarlyAlike(d.p.(data := data), e.p.(data := data));
      var q, s := d.p.(data := data), e.p.(data := data);
      RunAlike(c, q, s);
      AfterApduAlike(c, d, e, Run(c, q), Run(c, s));
    }
  }

  lemma ParseState(p: Parser, q: Parser)
    requires SameParse(p, q)
    ensures p.state == q.state && p.data == q.data && p.outs == q.outs && (p.outs != [] ==> p.curOut == q.curOut)
    ensures p.state >= TXN_OUT ==> p.currObj == q.currObj && p.outNum == q.outNum
  {}

  lemma AcceptAlike(c: Sdk, d: Dev, e: Dev)
    requires Session(c, d) && Session(c, e) && InStep(d, e) && d.awaiting && !d.stuck
    ensures InStep(OnAccept(c, d), OnAccept(c, e)) && Parses(c, d, Accept) == Parses(c, e, Accept)
  {
    hide SameParse, Run, ShownFor, StatusWord, AfterPress, Inv, History;
    var x, y := Begun(d).(presses := Begun(d).presses + 1), Begun(e).(presses := Begun(e).presses + 1);
    BeginsAlike(d, e);
    BeginsRight(d);
    BeginsRight(e);
    RunAlike(c, x.p, y.p);
    AfterPressAlike(c, x, y, Run(c, x.p), Run(c, y.p));
  }

  lemma BeginsAlike(d: Dev, e: Dev)
    requires InStep(d, e)
    ensures SameParse(Begun(d).p, Begun(e).p)
  {}

  lemma EventAlike(c: Sdk, d: Dev, e: Dev, v: Event)
    requires Session(c, d) && Session(c, e) && InStep(d, e) && Enabled(d, v)
    ensures Enabled(e, v) && ShowAlike(c, d, e, v)
  {
    hide SameParse, OnApdu, OnAccept, ShownFor, StatusWord, EndsEarly, Inv, History, Parses, ComesUnseen;
    EventShows(c, d, v);
    EventShows(c, e, v);
    match v
    case Apdu(p1, data) =>
      ApduAlike(c, d, e, p1, data);
      if Parses(c, d, v) { TakenAlike(c, d, e, v); }
    case Accept =>
      AcceptAlike(c, d, e);
      Unhidden(d, e);
      if Parses(c, d, v) { TakenAlike(c, d, e, v); }
    case Cancel =>
      CancelTakesNothing(c, d);
      if d.initialized { DataAlike(d.p, e.p, []); }
  }

  lemma Unhidden(d: Dev, e: Dev)
    ensures !ComesUnseen(d, Accept) && !ComesUnseen(e, Accept)
  {}

  /** The output just taken is the same. */
  lemma TakenAlike(c: Sdk, d: Dev, e: Dev, v: Event)
    requires Session(c, d) && Session(c, e) && Enabled(d, v) && Enabled(e, v) && Parses(c, d, v)
    requires InStep(Apply(c, d, v), Apply(c, e, v))
    ensures var f, g := Apply(c, d, v).p, Apply(c, e, v).p;
      ShownFor(c, f.curOut, f.currObj, f.outNum) == ShownFor(c, g.curOut, g.currObj, g.outNum)
  {
    hide Inv, History, Parses, OnApdu, OnAccept, ShownFor, StatusWord;
    TakesOutput(c, d, v);
    Holds1(c, d, v);
  }

  lemma Holds1(c: Sdk, d: Dev, v: Event)
    requires Session(c, d) && Enabled(d, v) && Parses(c, d, v)
    ensures var f := Apply(c, d, v); f.initialized && f.p.outs != []
  {
    hide Inv, Run, ShownFor, StatusWord;
    if v.Accept? {
      RunOutputs(c, Begun(d).p);
    } else if v.Apdu? && d.initialized {
      DataKeeps(d.p, v.data);
      RunOutputs(c, d.p.(data := v.data));
    }
  }

  /** Some event of the run changes the display. */
  ghost predicate ShowsSome(c: Sdk, d: Dev, es: seq<Event>)
    requires Session(c, d) && Possible(c, d, es)
    decreases |es|
  {
    es != [] && (
      ApplyKeepsSession(c, d, es[0]);
      Shows(c, d, es[0]) || ShowsSome(c, Apply(c, d, es[0]), es[1..]))
  }

  lemma {:induction false} RunsAlike(c: Sdk, d: Dev, e: Dev, es: seq<Event>)
    requires Session(c, d) && Session(c, e) && InStep(d, e) && Possible(c, d, es)
    ensures Possible(c, e, es)
    ensures var f, g := Exec(c, d, es), Exec(c, e, es);
      if ShowsSome(c, d, es) then f.display == g.display else f.display == d.display && g.display == e.display
    ensures d.display == e.display ==> Exec(c, d, es).display == Exec(c, e, es).display
    decreases |es|
  {
    hide Apply, InStep, Inv, History, ShownFor, Shows;
    if es != [] {
      EventAlike(c, d, e, es[0]);
      ApplyKeepsSession(c, d, es[0]);
      ApplyKeepsSession(c, e, es[0]);
      RunsAlike(c, Apply(c, d, es[0]), Apply(c, e, es[0]), es[1..]);
    }
  }

  /** From any two idle devices and for any run: both displays agree once an event has changed one of them,
      and before that each keeps what it showed. */
  lemma DisplaysIgnoreThePast(c: Sdk, d: Dev, e: Dev, es: seq<Event>)
    requires Session(c, d) && !d.initialized && !d.awaiting && !d.stuck
    requires Session(c, e) && !e.initialized && !e.awaiting && !e.stuck
    requires Possible(c, d, es)
    ensures Possible(c, e, es)
    ensures var f, g := Exec(c, d, es), Exec(c, e, es);
      if ShowsSome(c, d, es) then f.display == g.display else f.display == d.display && g.display == e.display
  {
    hide Exec, Possible, ShowsSome, Inv, ShownFor;
    RunsAlike(c, d, e, es);
  }
}
