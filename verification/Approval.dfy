// What must have happened before the device signs, over every run of APDUs and button presses.
module Approval {
  import opened Bytes
  import opened Transaction
  import opened Crypto
  import opened TxnStream
  import opened DeviceModel
  import opened DisplayText

  ghost predicate Idle(d: Dev) {
    !d.initialized && !d.awaiting && !d.stuck && d.p.data == []
  }

  lemma {:induction false} RunsKeepSession(c: Sdk, d: Dev, es: seq<Event>)
    requires Session(c, d) && Possible(c, d, es)
    ensures Session(c, Exec(c, d, es))
    decreases |es|
  {
    hide Inv, History, ShownFor, OnApdu, OnAccept;
    if es != [] {
      ApplyKeepsSession(c, d, es[0]);
      RunsKeepSession(c, Apply(c, d, es[0]), es[1..]);
    }
  }

  /** The call of txn_next_elem that an event makes, if any. */
  function Called(c: Sdk, d: Dev, e: Event): (r: Stop)
    requires Safe(d) && Enabled(d, e)
  {
    match e
    case Apdu(p1, data) =>
      if d.initialized && p1 == 1 && d.p.state != TXN_START_OUT && d.p.state != TXN_OUT then Run(c, d.p.(data := data))
      else Stop(UNDEFINED, d.p, [])
    case Accept => Run(c, Begun(d).p)
    case Cancel => Stop(UNDEFINED, d.p, [])
  }

  /** The event takes an output from the stream. */
  predicate Parses(c: Sdk, d: Dev, e: Event)
    requires Safe(d) && Enabled(d, e)
  {
    Called(c, d, e).code == TXN_PARTIAL_OUT || Called(c, d, e).code == TXN_APPROVE_OUT
  }

  // Which outputs are shown.

  /** How many bytes there are from the carried ones to the end of the first output, as far as the parser
      can tell from the first count. */
  function BytesToOutput(p: Parser): int
    requires p.state == TXN_START_IN ==> |p.carry| <= 4 <= |p.carry| + |p.data|
  {
    if p.state == TXN_START_IN then 45 + 36 * U4LE(Elem(p, 4), 0)
    else if p.state == TXN_IN then 41 + 36 * (p.inNum - p.currObj)
    else if p.state == TXN_START_OUT then 41
    else 37
  }

  /** Fewer than 37 bytes are at hand behind the first output. */
  predicate EndsEarly(p: Parser) {
    (p.state == TXN_START_IN ==> |p.carry| <= 4 <= |p.carry| + |p.data|) && |p.carry| + |p.data| < BytesToOutput(p) + 37
  }

  lemma StepCounts(c: Sdk, p: Parser)
    requires Inv(p) && p.state < TXN_OUT && Step(c, p).Next?
    ensures var q := Step(c, p).p;
      && q.state <= TXN_OUT && q.state > TXN_START_IN && (p.state == TXN_START_IN ==> |p.carry| <= 4 <= |p.carry| + |p.data|)
      && |q.carry| + |q.data| - BytesToOutput(q) == |p.carry| + |p.data| - BytesToOutput(p)
  {
    hide U4LE, Elem, PutInput;
  }

  lemma OutCounts(c: Sdk, p: Parser)
    requires Inv(p) && p.state == TXN_OUT
    ensures var r := Step(c, p);
      && r.Throw?
      && (r.code == TXN_PARTIAL_OUT ==> |p.carry| + |p.data| < 74) && (r.code == TXN_APPROVE_OUT ==> |p.carry| + |p.data| >= 74)
  {
    hide ReadOutput, Elem;
  }

  lemma EarlyStops(c: Sdk, p: Parser)
    requires Inv(p) && p.state < TXN_OUT && Step(c, p).Throw?
    ensures Step(c, p).code == TXN_PARTIAL
  {
    hide U4LE, Elem, PutInput;
  }

  /** A run that takes an output stops with TXN_PARTIAL_OUT if and only if the data ends early. */
  lemma {:induction false} RunEnds(c: Sdk, p: Parser)
    requires Inv(p) && p.state <= TXN_OUT
    ensures var r := Run(c, p); r.code == TXN_PARTIAL_OUT ==> EndsEarly(p)
    ensures var r := Run(c, p); r.code == TXN_APPROVE_OUT ==> !EndsEarly(p)
    decreases |p.data|
  {
    hide Step, Inv, BytesToOutput;
    if p.state == TXN_OUT {
      OutCounts(c, p);
      OutputSize(p);
    } else if Step(c, p).Next? {
      StepCounts(c, p);
      RunEnds(c, Step(c, p).p);
    } else if Step(c, p).Throw? {
      EarlyStops(c, p);
    }
  }

  lemma OutputSize(p: Parser)
    requires p.state == TXN_OUT
    ensures BytesToOutput(p) == 37
  {}

  /** The event is an APDU that ends early: a property of the device before it and of its length. */
  predicate ComesUnseen(d: Dev, e: Event) {
    e.Apdu? && EndsEarly(d.p.(data := e.data))
  }

  /** The display changes if and only if an output is taken, and not by an APDU that ends early; it then
      shows that output. */
  lemma EventShows(c: Sdk, d: Dev, e: Event)
    requires Session(c, d) && Enabled(d, e)
    ensures var f := Apply(c, d, e);
      f.display == if Parses(c, d, e) && !ComesUnseen(d, e) then ShownFor(c, f.p.curOut, f.p.currObj, f.p.outNum) else d.display
    ensures var f := Apply(c, d, e); f.initialized && f.p.outs != [] ==>
      f.unshown == if Parses(c, d, e) then ComesUnseen(d, e) else d.unshown
  {
    hide Inv, Run, ShownFor, StatusWord, EndsEarly;
    if e.Apdu? && d.initialized {
      DataKeeps(d.p, e.data);
      RunOutputs(c, d.p.(data := e.data));
      if d.p.state <= TXN_OUT { RunEnds(c, d.p.(data := e.data)); }
    } else if e.Accept? {
      RunOutputs(c, Begun(d).p);
    }
  }

  /** The last output of the run was taken by an APDU that ended early. */
  ghost predicate LastHidden(c: Sdk, d: Dev, es: seq<Event>, before: bool)
    requires Session(c, d) && Possible(c, d, es)
    decreases |es|
  {
    if es == [] then before
    else
      ApplyKeepsSession(c, d, es[0]);
      LastHidden(c, Apply(c, d, es[0]), es[1..], if Parses(c, d, es[0]) then ComesUnseen(d, es[0]) else before)
  }

  lemma {:induction false} RunHides(c: Sdk, d: Dev, es: seq<Event>, before: bool)
    requires Session(c, d) && Possible(c, d, es) && (d.initialized && d.p.outs != [] ==> d.unshown == before)
    ensures var f := Exec(c, d, es); f.initialized && f.p.outs != [] ==> f.unshown == LastHidden(c, d, es, before)
    decreases |es|
  {
    hide Inv, History, ShownFor, OnApdu, OnAccept, Parses, ComesUnseen;
    if es != [] {
      ApplyKeepsSession(c, d, es[0]);
      EventShows(c, d, es[0]);
      TakesSome(c, d, es[0]);
      RunHides(c, Apply(c, d, es[0]), es[1..], if Parses(c, d, es[0]) then ComesUnseen(d, es[0]) else before);
    }
  }

  /** A session has outputs only if it had some before or takes one. */
  lemma TakesSome(c: Sdk, d: Dev, e: Event)
    requires Session(c, d) && Enabled(d, e)
    ensures var f := Apply(c, d, e); f.initialized && f.p.outs != [] && !Parses(c, d, e) ==> d.initialized && d.p.outs != []
  {
    hide Inv, Run, ShownFor, StatusWord;
    if e.Apdu? && d.initialized {
      DataKeeps(d.p, e.data);
      RunOutputs(c, d.p.(data := e.data));
    } else if e.Accept? {
      RunOutputs(c, Begun(d).p);
    }
  }

  function Accepts(es: seq<Event>): nat {
    if es == [] then 0 else (if es[0].Accept? then 1 else 0) + Accepts(es[1..])
  }

  lemma EventPresses(c: Sdk, d: Dev, e: Event)
    requires Session(c, d) && Enabled(d, e)
    ensures var f := Apply(c, d, e);
      f.initialized ==> (d.initialized || e.Accept?) && f.presses == (if d.initialized then d.presses else 0) + (if e.Accept? then 1 else 0)
  {
    hide Inv, Run, ShownFor, StatusWord, History;
  }

  /** The history variable counts presses that were made. */
  lemma {:induction false} PressesCounted(c: Sdk, d: Dev, es: seq<Event>)
    requires Session(c, d) && Possible(c, d, es)
    ensures var f := Exec(c, d, es); f.initialized ==> f.presses <= (if d.initialized then d.presses else 0) + Accepts(es)
    decreases |es|
  {
    hide Apply, Inv, History, ShownFor;
    if es != [] {
      ApplyKeepsSession(c, d, es[0]);
      EventPresses(c, d, es[0]);
      PressesCounted(c, Apply(c, d, es[0]), es[1..]);
    }
  }

  /** In every run from an idle device: once the device is past the outputs of a session, it has parsed
      exactly as many as the stream announced, and the accept button has been pressed more often than
      that; and the display shows the output now waiting for approval, unless it is the first of its
      session and the APDU that brought it in ended early. */
  lemma ApprovalDiscipline(c: Sdk, d: Dev, es: seq<Event>)
    requires Idle(d) && Possible(c, d, es)
    ensures var f := Exec(c, d, es);
      f.initialized ==>
        && |f.p.outs| <= f.presses <= Accepts(es)
        && (f.p.state > TXN_OUT ==> |f.p.outs| == f.p.outNum < f.presses)
        && (f.p.state == TXN_OUT && f.p.outs != [] ==> (LastHidden(c, d, es, false) ==> |f.p.outs| == 1))
        && (f.p.state == TXN_OUT && f.p.outs != [] && !LastHidden(c, d, es, false) ==>
              && f.display == ShownFor(c, f.p.outs[|f.p.outs| - 1], f.p.currObj, f.p.outNum)
              && (f.p.outNum < 0x8000_0000 ==> DisplayReads(c, f.display, f.p.outs[|f.p.outs| - 1], f.p.currObj, f.p.outNum)))
  {
    hide Exec, Possible, LastHidden, ShownFor, Inv, DisplayReads, Accepts;
    var g := Exec(c, d, es);
    if g.p.outs != [] && g.p.outNum < 0x8000_0000 { ShownReads(c, g.p.outs[|g.p.outs| - 1], g.p.currObj, g.p.outNum); }
    RunsKeepSession(c, d, es);
    RunHides(c, d, es, false);
    PressesCounted(c, d, es);
  }

  /** An event takes at most one output, and only then does the list of outputs grow. An APDU
      takes an output only if it is the first of the session. */
  lemma ApduOutputs(c: Sdk, d: Dev, e: Event)
    requires Session(c, d) && Enabled(d, e) && e.Apdu?
    ensures var f := Apply(c, d, e); f.stuck || f.p.outs == d.p.outs + (if Parses(c, d, e) then [f.p.curOut] else [])
    ensures Parses(c, d, e) ==> d.p.outs == [] && Apply(c, d, e).p.state == TXN_OUT
    ensures d.p.state == TXN_OUT ==> !Parses(c, d, e) && Apply(c, d, e).p.state == TXN_OUT
  {
    hide Inv, Run, ShownFor, StatusWord;
    if d.initialized {
      DataKeeps(d.p, e.data);
      RunOutputs(c, d.p.(data := e.data));
    }
  }

  lemma AcceptOutputs(c: Sdk, d: Dev)
    requires Session(c, d) && Enabled(d, Accept)
    ensures var f := Apply(c, d, Accept);
      f.stuck || f.p.outs == Begun(d).p.outs + (if Parses(c, d, Accept) then [f.p.curOut] else [])
    ensures Parses(c, d, Accept) ==> Apply(c, d, Accept).p.state == TXN_OUT
  {
    hide Inv, Run, ShownFor, StatusWord, AfterPress, RunEffect, History;
    var e := Begun(d).(presses := Begun(d).presses + 1);
    BeginsRight(d);
    RunOutputs(c, e.p);
    if Run(c, e.p).code != UNDEFINED { TakenAfterPress(c, e, Run(c, e.p)); } else { StuckAfterPress(c, e, Run(c, e.p)); }
  }

  lemma TakenAfterPress(c: Sdk, d: Dev, r: Stop)
    requires RunEffect(d.p, r) && UNDEFINED < r.code <= TXN_FINISHED && d.p.state <= TXN_OUT
    ensures var f, takes := AfterPress(c, d, r), r.code == TXN_PARTIAL_OUT || r.code == TXN_APPROVE_OUT;
      f.p.outs == d.p.outs + (if takes then [f.p.curOut] else []) && (takes ==> f.p.state == TXN_OUT)
  {
    hide Inv, ShownFor, StatusWord;
  }

  lemma StuckAfterPress(c: Sdk, d: Dev, r: Stop)
    requires r.code == UNDEFINED
    ensures AfterPress(c, d, r).stuck
  {}

  /** Without the accept button the device stays where it is: no further output is taken. */
  lemma {:induction false} WaitsForPress(c: Sdk, d: Dev, es: seq<Event>)
    requires Session(c, d) && d.p.state == TXN_OUT && Possible(c, d, es)
    requires forall i | 0 <= i < |es| :: !es[i].Accept?
    ensures Exec(c, d, es).p.state == TXN_OUT
    decreases |es|
  {
    hide Inv, History, ShownFor, OnApdu, OnAccept;
    if es != [] {
      ApplyKeepsSession(c, d, es[0]);
      if es[0].Apdu? { ApduOutputs(c, d, es[0]); }
      WaitsForPress(c, Apply(c, d, es[0]), es[1..]);
    }
  }

  /** Between two events that take an output from the stream, in any run and however far apart,
      the accept button is pressed. */
  lemma PressSeparatesOutputs(c: Sdk, d: Dev, e: Event, mid: seq<Event>, f: Event)
    requires Session(c, d) && Enabled(d, e) && Session(c, Apply(c, d, e)) && Possible(c, Apply(c, d, e), mid)
    requires var g := Exec(c, Apply(c, d, e), mid); Session(c, g) && Enabled(g, f) && Parses(c, g, f)
    requires Parses(c, d, e)
    ensures f.Accept? || exists i | 0 <= i < |mid| :: mid[i].Accept?
  {
    hide Parses, Apply, Exec, Possible, Inv, History, ShownFor;
    var d1 := Apply(c, d, e);
    if forall i | 0 <= i < |mid| :: !mid[i].Accept? {
      TakesOutput(c, d, e);
      WaitsForPress(c, d1, mid);
      if f.Apdu? { ApduOutputs(c, Exec(c, d1, mid), f); }
      if f.Cancel? { CancelTakesNothing(c, Exec(c, d1, mid)); }
    }
  }

  lemma TakesOutput(c: Sdk, d: Dev, e: Event)
    requires Session(c, d) && Enabled(d, e) && Parses(c, d, e)
    ensures Apply(c, d, e).p.state == TXN_OUT
  {
    hide Inv, History, Run;
    if e.Apdu? { ApduOutputs(c, d, e); }
    if e.Accept? { AcceptOutputs(c, d); }
  }

  lemma CancelTakesNothing(c: Sdk, d: Dev)
    requires Session(c, d) && Enabled(d, Cancel)
    ensures !Parses(c, d, Cancel)
  {}

  /** An APDU takes the device past its outputs if and only if the output count it completes is
      zero: with outputs to approve, only a press does. */
  lemma ApduSkipsApproval(c: Sdk, d: Dev, p1: nat, data: seq<byte>)
    requires Session(c, d) && Enabled(d, Apdu(p1, data)) && d.initialized && d.p.state <= TXN_OUT
    requires !Apply(c, d, Apdu(p1, data)).stuck
    ensures var f := Apply(c, d, Apdu(p1, data)); f.initialized ==>
      (f.p.state > TXN_OUT <==> d.p.state < TXN_START_OUT && f.p.state >= TXN_OUT && f.p.outNum == 0)
  {
    hide ShownFor, StatusWord, Run;
    DataKeeps(d.p, data);
    RunOutputs(c, d.p.(data := data));
  }

  /** A press takes the device past its outputs only when all of them have been parsed. */
  lemma PressCompletesApproval(c: Sdk, d: Dev)
    requires Session(c, d) && Enabled(d, Accept) && !OnAccept(c, d).stuck
    ensures var f := OnAccept(c, d); f.p.state > TXN_OUT ==>
      f.p.outs == Begun(d).p.outs && |f.p.outs| == f.p.outNum && (Begun(d).p.state < TXN_OUT ==> f.p.outNum == 0)
  {
    hide ShownFor, StatusWord, Run, Inv;
    RunOutputs(c, Begun(d).p);
  }

  /** After an APDU that takes the first output, that output is on the display whatever was there
      before, if and only if the handler did not answer TXN_PARTIAL_OUT by its default branch. */
  lemma ShownUnlessAnswered(c: Sdk, d: Dev, p1: nat, data: seq<byte>)
    requires Session(c, d) && Enabled(d, Apdu(p1, data)) && Parses(c, d, Apdu(p1, data))
    ensures (forall stale: Display :: Displays(c, OnApdu(c, d.(display := stale), p1, data)))
        <==> Called(c, d, Apdu(p1, data)).code != TXN_PARTIAL_OUT
  {
    hide ShownFor, StatusWord, Run;
    DataKeeps(d.p, data);
    RunOutputs(c, d.p.(data := data));
    if Called(c, d, Apdu(p1, data)).code == TXN_PARTIAL_OUT {
      var f := OnApdu(c, d, p1, data);
      var right := ShownFor(c, f.p.curOut, f.p.currObj, f.p.outNum);
      var stale := right.(amount := right.amount + [0]);
      assert stale.amount != right.amount;
      assert !Displays(c, OnApdu(c, d.(display := stale), p1, data));
    }
  }

  /** The display shows the output parsed last. */
  ghost predicate Displays(c: Sdk, d: Dev) {
    d.display == ShownFor(c, d.p.curOut, d.p.currObj, d.p.outNum)
  }
}
