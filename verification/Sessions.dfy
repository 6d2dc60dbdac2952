// A whole signing session, event by event: a host sends the stream of one transaction in chunks, a user
// presses accept when it pleases them or cancels, and the run may stop anywhere.
module Sessions {
  import opened Bytes
  import opened Transaction
  import opened Crypto
  import opened TxnStream
  import opened Chunking
  import opened DeviceModel
  import opened DisplayText
  import opened Protocol
  import opened Approval
  import opened Screen
  import Host

  /** The APDUs among the events carry the chunks in turn and are empty after that. A cancel is the
      last event: the host raises an exception on its status word and sends nothing more. */
  ghost predicate Follows(es: seq<Event>, chunks: seq<seq<byte>>)
    decreases |es|
  {
    es == [] ||
      match es[0]
      case Apdu(p1, data) => p1 == 1 && data == First(chunks) && Follows(es[1..], Later(chunks))
      case Accept => Follows(es[1..], chunks)
      case Cancel => es[1..] == []
  }

  function First(chunks: seq<seq<byte>>): seq<byte> { if chunks == [] then [] else chunks[0] }

  function Later(chunks: seq<seq<byte>>): seq<seq<byte>> { if chunks == [] then [] else chunks[1..] }

  /** The display while the `taken`-th output is the last one taken: what it was before the session, or
      that output. */
  function ShownNow(c: Sdk, t: Txn, chunks: seq<seq<byte>>, before: Display, taken: nat): Display
    requires t.WellFormed() && taken <= |t.outputs|
  {
    if taken == 0 || (taken == 1 && HidesFirst(|t.inputs|, chunks)) then before
    else ShownFor(c, t.outputs[taken - 1], taken, |t.outputs|)
  }

  /** The parser the next press or APDU will work on. */
  function Next(d: Dev): Parser {
    if d.awaiting then Begun(d).p else d.p
  }

  /** The chunks to come fit a parser at element `k`. */
  ghost predicate Fits(p: Parser, awaiting: bool, t: Txn, k: nat, rest: seq<seq<byte>>)
    requires k <= t.Count()
  {
    if awaiting then
      && (p.carry == [] || Completes(t, k, |p.carry|, |p.data|))
      && var at := Advance(t, k, |p.carry|, |p.data|); at.0 <= t.Count() && Lossless(t, at.0, at.1, rest)
    else Lossless(t, k, |p.carry|, rest)
  }

  /** Chunk `i` is worked on by a press, and the first output does not end before it. */
  predicate ByPress(t: Txn, chunks: seq<seq<byte>>, i: nat)
    requires i < |chunks|
  {
    Total(chunks[..i]) < 45 + 36 * |t.inputs| && (i == 0 || Total(chunks[..i]) >= 4 + 36 * |t.inputs|)
  }

  /** During the intake: at element `k`, with the first `sent` chunks sent. */
  ghost predicate Intake(c: Sdk, d: Dev, t: Txn, chunks: seq<seq<byte>>, before: Display, k: nat, sent: nat)
    requires t.WellFormed()
  {
    && Session(c, d) && !d.stuck && (d.awaiting || d.initialized)
    && k <= t.Count() && 0 < sent <= |chunks|
    && Synced(c, Next(d), t, k, Joined(chunks[sent..])) && Fits(Next(d), d.awaiting, t, k, chunks[sent..])
    && d.display == ShownNow(c, t, chunks, before, OutputsIn(t, k))
    && (d.awaiting && k <= |t.inputs| + 2 ==> ByPress(t, chunks, sent - 1))
  }

  /** Past the last output, or finished. */
  ghost predicate Signing(c: Sdk, d: Dev, t: Txn, chunks: seq<seq<byte>>, before: Display)
    requires t.WellFormed()
  {
    && Session(c, d) && !d.stuck && !d.awaiting
    && d.display == ShownNow(c, t, chunks, before, |t.outputs|)
    && (d.initialized ==>
      && d.p.state > TXN_OUT && d.p.outs == t.outputs && d.p.outNum == |t.outputs| && d.p.inNum == |t.inputs|
      && d.p.consumed == t.Encode() && d.p.innerHash == InnerHash(c, t))
  }

  ghost predicate OnTrack(c: Sdk, d: Dev, t: Txn, chunks: seq<seq<byte>>, before: Display, rest: seq<seq<byte>>)
    requires t.WellFormed()
  {
    || Signing(c, d, t, chunks, before)
    || exists k: nat, sent: nat :: sent <= |chunks| && Intake(c, d, t, chunks, before, k, sent) && rest == chunks[sent..]
  }

  // Where in the stream the device stands.

  /** How many bytes come before element `k`. */
  function Start(t: Txn, k: nat): nat {
    if k == 0 then 0 else if k <= |t.inputs| + 1 then 4 + 36 * (k - 1) else 8 + 36 * |t.inputs| + 37 * (k - |t.inputs| - 2)
  }

  lemma Position(c: Sdk, p: Parser, t: Txn, k: nat, chunks: seq<seq<byte>>, sent: nat)
    requires t.WellFormed() && Joined(chunks) == t.Encode() && k <= t.Count() && sent <= |chunks|
    requires Synced(c, p, t, k, Joined(chunks[sent..]))
    ensures Total(chunks[..sent]) == Start(t, k) + |p.carry| + |p.data| && |p.carry| < Size(p.state)
    ensures p.state == StateAt(t, k) && |p.outs| == OutputsIn(t, k)
    ensures Total(chunks[..sent]) + |Joined(chunks[sent..])| == |t.Encode()|
  {
    hide Txn.Rest, Txn.HashedUpTo, Txn.Preimage, HoldsInputs;
    AtHand(c, p, t, k, Joined(chunks[sent..]));
    TotalSplit(chunks, sent);
    RestLength(t, 0);
    RestLength(t, k);
  }

  /** A press or an APDU that takes the first output, against the condition on the chunks. */
  lemma FirstTaken(t: Txn, chunks: seq<seq<byte>>, i: nat)
    requires i < |chunks| && Total(chunks[..i]) < 45 + 36 * |t.inputs| <= Total(chunks[..i + 1])
    ensures ByPress(t, chunks, i) ==> !HidesFirst(|t.inputs|, chunks)
    ensures i > 0 && Total(chunks[..i]) < 4 + 36 * |t.inputs| ==>
      (HidesFirst(|t.inputs|, chunks) <==> Total(chunks[..i + 1]) < 82 + 36 * |t.inputs|)
  {
    Crossing(|t.inputs|, chunks, i);
  }

  // One event.

  /** An APDU that the handler leaves to the next press. */
  lemma ApduWaits(c: Sdk, d: Dev, t: Txn, chunks: seq<seq<byte>>, before: Display, k: nat, sent: nat)
    requires t.WellFormed() && Joined(chunks) == t.Encode()
    requires Intake(c, d, t, chunks, before, k, sent) && !d.awaiting && sent < |chunks| && d.p.state >= TXN_START_OUT
    ensures Intake(c, OnApdu(c, d, 1, chunks[sent]), t, chunks, before, k, sent + 1)
  {
    hide Run, Advance, Synced, Completes, Inv, History, ShownNow, StatusWord, HidesFirst, Lossless, Joined, Txn.Rest, Total;
    var chunk, future := chunks[sent], Joined(chunks[sent + 1..]);
    assert chunks[sent..][1..] == chunks[sent + 1..];
    assert Joined(chunks[sent..]) == chunk + future by { JoinedFirst(chunks[sent..]); }
    Arrive(c, d.p, t, k, chunk, future);
    LosslessHead(t, k, |d.p.carry|, chunks[sent..]);
    SyncedState(c, d.p, t, k, Joined(chunks[sent..]));
    Position(c, d.p, t, k, chunks, sent);
    ApduKeepsSession(c, d, 1, chunk);
  }

  /** An APDU that the handler works on at once. */
  lemma ApduReads(c: Sdk, d: Dev, t: Txn, chunks: seq<seq<byte>>, before: Display, k: nat, sent: nat) returns (k': nat)
    requires t.WellFormed() && Joined(chunks) == t.Encode()
    requires Intake(c, d, t, chunks, before, k, sent) && !d.awaiting && sent < |chunks| && d.p.state < TXN_START_OUT
    ensures Intake(c, OnApdu(c, d, 1, chunks[sent]), t, chunks, before, k', sent + 1)
  {
    hide Run, Advance, Synced, Completes, Inv, History, ShownFor, StatusWord, HidesFirst, Lossless, Txn.Rest, Holds, Joined, Total, AfterApdu;
    JoinedFirst(chunks[sent..]);
    var chunk, future := chunks[sent], Joined(chunks[sent + 1..]);
    assert chunks[sent..][1..] == chunks[sent + 1..];
    Arrive(c, d.p, t, k, chunk, future);
    Position(c, d.p, t, k, chunks, sent);
    assert k <= |t.inputs|;
    var q := d.p.(data := chunk);
    SyncedInv(c, q, t, k, future);
    DataKeeps(d.p, chunk);
    LosslessHead(t, k, |d.p.carry|, chunks[sent..]);
    k' := RunSync(c, q, t, k, future);
    var r := Run(c, q);
    var at := Advance(t, k, |q.carry|, |q.data|);
    ApduKeepsSession(c, d, 1, chunk);
    k' := if r.code == TXN_APPROVE_OUT then k' else at.0;
    Position(c, r.p, t, k', chunks, sent + 1);
    RunCounts(c, q);
    ApduLeaves(c, d, r);
    if r.code != TXN_PARTIAL {
      RestLength(t, |t.inputs| + 2);
      RestLength(t, 0);
      assert Total(chunks[..sent + 1]) >= 45 + 36 * |t.inputs|;
      RunToOutput(c, q, t, k, future);
      FirstTaken(t, chunks, sent);
      PreparedIs(c, r.p, t, 1, future);
    }
  }

  /** What an intake leaves of the device: after a press, and after an APDU read at once. */
  lemma PressLeaves(c: Sdk, d: Dev, r: Stop)
    requires TXN_PARTIAL <= r.code <= TXN_APPROVE_OUT && d.awaiting
    ensures var f := AfterPress(c, d, r);
      && f.initialized == d.initialized && f.stuck == d.stuck && f.awaiting == (r.code == TXN_APPROVE_OUT)
      && f.p == (if r.code == TXN_APPROVE_OUT then r.p else r.p.(data := []))
      && f.display == if r.code == TXN_PARTIAL then d.display else ShownFor(c, r.p.curOut, r.p.currObj, r.p.outNum)
  {
    hide ShownFor, StatusWord;
  }

  lemma ApduLeaves(c: Sdk, d: Dev, r: Stop)
    requires TXN_PARTIAL <= r.code <= TXN_APPROVE_OUT && !d.awaiting
    ensures var f := AfterApdu(c, d, r);
      && f.initialized == d.initialized && f.stuck == d.stuck && f.awaiting == (r.code == TXN_APPROVE_OUT)
      && f.p == (if r.code == TXN_APPROVE_OUT then r.p else r.p.(data := []))
      && f.display == if r.code == TXN_APPROVE_OUT then ShownFor(c, r.p.curOut, r.p.currObj, r.p.outNum) else d.display
  {
    hide ShownFor, StatusWord;
  }

  lemma JoinedFirst(chunks: seq<seq<byte>>)
    requires chunks != []
    ensures Joined(chunks) == chunks[0] + Joined(chunks[1..])
  {}

  lemma LosslessHead(t: Txn, k: nat, o: nat, chunks: seq<seq<byte>>)
    requires k <= t.Count() && Lossless(t, k, o, chunks) && chunks != []
    ensures o == 0 || Completes(t, k, o, |chunks[0]|)
    ensures var at := Advance(t, k, o, |chunks[0]|); at.0 <= t.Count() && Lossless(t, at.0, at.1, chunks[1..])
  {
    hide Completes, Advance;
  }

  /** One call of txn_next_elem, by the number of outputs taken. */
  lemma RunCounts(c: Sdk, p: Parser)
    requires Inv(p) && History(p) && p.state <= TXN_OUT
    ensures var r := Run(c, p); r.code != UNDEFINED ==>
      |r.p.outs| == |p.outs| + (if r.code == TXN_PARTIAL_OUT || r.code == TXN_APPROVE_OUT then 1 else 0)
  {
    hide Run, Inv;
    RunOutputs(c, p);
  }

  lemma AcceptIntakes(c: Sdk, d: Dev, t: Txn, chunks: seq<seq<byte>>, before: Display, k: nat, sent: nat) returns (k': nat)
    requires t.WellFormed() && Joined(chunks) == t.Encode()
    requires Intake(c, d, t, chunks, before, k, sent) && d.awaiting && k < t.Count()
    ensures Intake(c, OnAccept(c, d), t, chunks, before, k', sent)
  {
    hide Run, Advance, Synced, Completes, Inv, History, Session, ShownFor, StatusWord, HidesFirst, Lossless, Txn.Rest, Holds, Joined, Total,
         AfterPress, OnAccept;
    var e, future := Begun(d).(presses := Begun(d).presses + 1), Joined(chunks[sent..]);
    var p := e.p;
    BegunHistory(c, d);
    Position(c, p, t, k, chunks, sent);
    k' := RunSync(c, p, t, k, future);
    var r := Run(c, p);
    var at := Advance(t, k, |p.carry|, |p.data|);
    k' := if r.code == TXN_APPROVE_OUT then k' else at.0;
    AcceptKeepsSession(c, d);
    Position(c, r.p, t, k', chunks, sent);
    RunCounts(c, p);
    PressLeaves(c, e, r);
    AcceptIs(c, d, e);
    TakenShows(c, p, r, t, chunks, before, k', sent, d.display);
  }

  lemma AcceptIs(c: Sdk, d: Dev, e: Dev)
    requires Session(c, d) && d.awaiting && e == Begun(d).(presses := Begun(d).presses + 1)
    ensures Inv(e.p) && OnAccept(c, d) == AfterPress(c, e, Run(c, e.p))
  {
    hide Run, AfterPress, ShownFor;
  }

  /** The display after a press that parsed on from `shown`. */
  lemma TakenShows(c: Sdk, p: Parser, r: Stop, t: Txn, chunks: seq<seq<byte>>, before: Display, k': nat, sent: nat, shown: Display)
    requires t.WellFormed() && Joined(chunks) == t.Encode() && k' <= t.Count() && 0 < sent <= |chunks|
    requires Synced(c, r.p, t, k', Joined(chunks[sent..])) && |p.outs| <= |t.outputs|
    requires |r.p.outs| == |p.outs| + (if r.code == TXN_PARTIAL then 0 else 1)
    requires shown == ShownNow(c, t, chunks, before, |p.outs|) && (p.outs == [] ==> ByPress(t, chunks, sent - 1))
    ensures |r.p.outs| == OutputsIn(t, k') <= |t.outputs|
    ensures ShownNow(c, t, chunks, before, OutputsIn(t, k'))
      == if r.code == TXN_PARTIAL then shown else ShownFor(c, r.p.curOut, r.p.currObj, r.p.outNum)
  {
    hide Synced, ShownFor, HidesFirst, Joined, Total, Txn.Rest, Start, ByPress, ShownNow, StateAt;
    var future := Joined(chunks[sent..]);
    Position(c, r.p, t, k', chunks, sent);
    OutputsBound(t, k');
    if r.code != TXN_PARTIAL {
      var taken := OutputsIn(t, k');
      if taken == 1 {
        FirstPressed(t, chunks, sent);
      }
      PreparedIs(c, r.p, t, taken, future);
      ShownTaken(c, t, chunks, before, taken);
    }
  }

  lemma OutputsBound(t: Txn, k: nat)
    requires k <= t.Count()
    ensures OutputsIn(t, k) <= |t.outputs| && (OutputsIn(t, k) > 0 ==> k == |t.inputs| + 2 + OutputsIn(t, k) && Start(t, k) >= 45 + 36 * |t.inputs|)
  {}

  lemma FirstPressed(t: Txn, chunks: seq<seq<byte>>, sent: nat)
    requires 0 < sent <= |chunks| && ByPress(t, chunks, sent - 1) && Total(chunks[..sent]) >= 45 + 36 * |t.inputs|
    ensures !HidesFirst(|t.inputs|, chunks)
  {
    hide Total, HidesFirst;
    FirstTaken(t, chunks, sent - 1);
  }

  lemma ShownTaken(c: Sdk, t: Txn, chunks: seq<seq<byte>>, before: Display, taken: nat)
    requires t.WellFormed() && 0 < taken <= |t.outputs| && (taken == 1 ==> !HidesFirst(|t.inputs|, chunks))
    ensures ShownNow(c, t, chunks, before, taken) == ShownFor(c, t.outputs[taken - 1], taken, |t.outputs|)
  {
    hide ShownFor, HidesFirst;
  }

  lemma BegunHistory(c: Sdk, d: Dev)
    requires Session(c, d) && d.awaiting
    ensures var p := Begun(d).p; Inv(p) && History(p) && p.state <= TXN_OUT
  {}

  lemma AcceptLast(c: Sdk, d: Dev, t: Txn, chunks: seq<seq<byte>>, before: Display, sent: nat)
    requires t.WellFormed() && Intake(c, d, t, chunks, before, t.Count(), sent) && d.awaiting
    ensures Signing(c, OnAccept(c, d), t, chunks, before)
  {
    hide Run, Advance, Synced, Inv, History, ShownNow, ShownFor, StatusWord, Holds, Lossless, Completes, Joined, InnerHash;
    AcceptKeepsSession(c, d);
    AtEnd(c, Begun(d).p, t, Joined(chunks[sent..]));
    EndParts(c, OnAccept(c, d).p, t);
  }

  lemma EndParts(c: Sdk, p: Parser, t: Txn)
    requires t.WellFormed() && Holds(c, p, t, t.Count())
    ensures p.outs == t.outputs && p.outNum == |t.outputs| && p.inNum == |t.inputs| && p.innerHash == InnerHash(c, t)
    ensures p.consumed == t.Encode()
  {
    hide Txn.HashedUpTo, Txn.Rest, Txn.Encode, Txn.Preimage, HoldsInputs;
    RestEnds(t);
    assert t.outputs[..|t.outputs|] == t.outputs;
  }

  lemma SigningRun(c: Sdk, p: Parser)
    requires Inv(p) && p.state > TXN_OUT
    ensures var r := Run(c, p);
      && r.code != UNDEFINED && r.code != TXN_OUT
      && r.p.state == TXN_RET_SIGS && r.p.outs == p.outs && r.p.outNum == p.outNum && r.p.innerHash == p.innerHash
      && r.p.inNum == p.inNum && r.p.consumed == p.consumed
  {
    hide SignAll, Concat;
  }

  lemma ApduSigning(c: Sdk, d: Dev, t: Txn, chunks: seq<seq<byte>>, before: Display, data: seq<byte>)
    requires t.WellFormed() && Signing(c, d, t, chunks, before)
    ensures Signing(c, OnApdu(c, d, 1, data), t, chunks, before)
  {
    hide Run, Inv, History, ShownFor, ShownNow, StatusWord, InnerHash;
    ApduKeepsSession(c, d, 1, data);
    if d.initialized {
      DataKeeps(d.p, data);
      SigningRun(c, d.p.(data := data));
    }
  }

  /** When all chunks are sent and the device waits for the host, it has taken all outputs. An empty
      APDU then changes nothing but that it waits for a press. */
  lemma ApduEmpty(c: Sdk, d: Dev, t: Txn, chunks: seq<seq<byte>>, before: Display, k: nat, sent: nat)
    requires t.WellFormed() && Intake(c, d, t, chunks, before, k, sent) && !d.awaiting && chunks[sent..] == []
    ensures Intake(c, OnApdu(c, d, 1, []), t, chunks, before, k, sent)
  {
    hide Run, Synced, Inv, History, ShownNow, StatusWord, Advance, Completes, Txn.Rest, Holds;
    NothingLeft(c, d.p, t, k);
    ApduKeepsSession(c, d, 1, []);
    assert d.p.(data := []) == d.p;
    SyncedAtEnd(c, d.p, t, Joined(chunks[sent..]));
    AdvanceAtEnd(t, 0);
  }

  lemma SyncedAtEnd(c: Sdk, p: Parser, t: Txn, future: seq<byte>)
    requires t.WellFormed() && Synced(c, p, t, t.Count(), future)
    ensures p.state == TXN_OUT
  {}

  lemma AdvanceAtEnd(t: Txn, len: nat)
    ensures Advance(t, t.Count(), 0, len) == (t.Count(), 0)
  {}

  lemma ApduOnTrack(c: Sdk, d: Dev, t: Txn, chunks: seq<seq<byte>>, before: Display, k: nat, sent: nat)
    requires t.WellFormed() && Joined(chunks) == t.Encode()
    requires Intake(c, d, t, chunks, before, k, sent) && !d.awaiting
    ensures OnTrack(c, OnApdu(c, d, 1, First(chunks[sent..])), t, chunks, before, Later(chunks[sent..]))
  {
    hide OnApdu, Intake, Signing, Joined;
    IntakeKnows(c, d, t, chunks, before, k, sent);
    if sent == |chunks| {
      ApduEmpty(c, d, t, chunks, before, k, sent);
    } else if d.p.state >= TXN_START_OUT {
      ApduWaits(c, d, t, chunks, before, k, sent);
      assert Later(chunks[sent..]) == chunks[sent + 1..];
    } else {
      var k' := ApduReads(c, d, t, chunks, before, k, sent);
      assert Later(chunks[sent..]) == chunks[sent + 1..];
    }
  }

  lemma IntakeKnows(c: Sdk, d: Dev, t: Txn, chunks: seq<seq<byte>>, before: Display, k: nat, sent: nat)
    requires t.WellFormed() && Intake(c, d, t, chunks, before, k, sent)
    ensures 0 < sent <= |chunks| && k <= t.Count() && Safe(d)
  {}

  lemma EventOnTrack(c: Sdk, d: Dev, t: Txn, chunks: seq<seq<byte>>, before: Display, e: Event, rest: seq<seq<byte>>)
    requires t.WellFormed() && Joined(chunks) == t.Encode() && Session(c, d) && Enabled(d, e)
    requires OnTrack(c, d, t, chunks, before, rest)
    requires !e.Cancel? && (e.Apdu? ==> e.p1 == 1 && e.data == First(rest))
    ensures OnTrack(c, Apply(c, d, e), t, chunks, before, if e.Apdu? then Later(rest) else rest)
  {
    hide OnApdu, OnAccept, Session, Intake, ShownNow, First, Later, Joined;
    if Signing(c, d, t, chunks, before) {
      ApduSigning(c, d, t, chunks, before, e.data);
    } else {
      var k: nat, sent: nat :| sent <= |chunks| && Intake(c, d, t, chunks, before, k, sent) && rest == chunks[sent..];
      IntakeKnows(c, d, t, chunks, before, k, sent);
      if e.Apdu? {
        ApduOnTrack(c, d, t, chunks, before, k, sent);
      } else if k == t.Count() {
        AcceptLast(c, d, t, chunks, before, sent);
      } else {
        var k' := AcceptIntakes(c, d, t, chunks, before, k, sent);
      }
    }
  }

  // Runs.

  /** What the device may hold at any moment of a session for `t`, sent as `chunks` to a device that
      showed `before`. */
  ghost predicate Faithful(c: Sdk, d: Dev, t: Txn, chunks: seq<seq<byte>>, before: Display)
    requires t.WellFormed()
  {
    && !d.stuck
    && (d.initialized ==> d.p.outs <= t.outputs && d.display == ShownNow(c, t, chunks, before, |d.p.outs|))
    && (d.initialized && d.p.outs != [] && !(|d.p.outs| == 1 && HidesFirst(|t.inputs|, chunks)) ==>
          DisplayReads(c, d.display, t.outputs[|d.p.outs| - 1], |d.p.outs|, |t.outputs|))
    && (d.initialized && d.p.state > TXN_OUT ==>
          d.p.outs == t.outputs && |t.outputs| < d.presses && d.p.innerHash == InnerHash(c, t))
  }

  lemma IntakeFaithful(c: Sdk, d: Dev, t: Txn, chunks: seq<seq<byte>>, before: Display, k: nat, sent: nat)
    requires t.WellFormed() && Intake(c, d, t, chunks, before, k, sent)
    ensures Faithful(c, d, t, chunks, before)
  {
    hide Inv, ShownFor, ShownNow, Txn.Rest, Txn.Encode, Txn.HashedUpTo, Txn.Preimage, HoldsInputs, Fits, InnerHash, Joined, DisplayReads,
         HidesFirst;
    if d.initialized { NowReads(c, t, chunks, before, |d.p.outs|); }
  }

  lemma NowReads(c: Sdk, t: Txn, chunks: seq<seq<byte>>, before: Display, taken: nat)
    requires t.WellFormed()
    ensures 0 < taken <= |t.outputs| && !(taken == 1 && HidesFirst(|t.inputs|, chunks)) ==>
      DisplayReads(c, ShownNow(c, t, chunks, before, taken), t.outputs[taken - 1], taken, |t.outputs|)
  {
    hide ShownFor, HidesFirst, DisplayReads;
    if 0 < taken <= |t.outputs| { ShownReads(c, t.outputs[taken - 1], taken, |t.outputs|); }
  }

  lemma TrackFaithful(c: Sdk, d: Dev, t: Txn, chunks: seq<seq<byte>>, before: Display, rest: seq<seq<byte>>)
    requires t.WellFormed() && OnTrack(c, d, t, chunks, before, rest)
    ensures Faithful(c, d, t, chunks, before)
  {
    hide Inv, InnerHash, ShownNow, Intake, DisplayReads, HidesFirst;
    NowReads(c, t, chunks, before, |t.outputs|);
    if !Signing(c, d, t, chunks, before) {
      var k: nat, sent: nat :| sent <= |chunks| && Intake(c, d, t, chunks, before, k, sent) && rest == chunks[sent..];
      IntakeFaithful(c, d, t, chunks, before, k, sent);
    }
  }

  lemma CancelFaithful(c: Sdk, d: Dev, t: Txn, chunks: seq<seq<byte>>, before: Display)
    requires t.WellFormed() && Faithful(c, d, t, chunks, before) && d.awaiting
    ensures Faithful(c, OnCancel(d), t, chunks, before)
  {
    hide ShownNow, InnerHash, DisplayReads, HidesFirst;
  }

  lemma {:induction false} RunFaithful(c: Sdk, d: Dev, t: Txn, chunks: seq<seq<byte>>, before: Display, es: seq<Event>,
                                       rest: seq<seq<byte>>)
    requires t.WellFormed() && Joined(chunks) == t.Encode() && Session(c, d) && OnTrack(c, d, t, chunks, before, rest)
    requires Possible(c, d, es) && Follows(es, rest)
    ensures Faithful(c, Exec(c, d, es), t, chunks, before)
    decreases |es|
  {
    hide OnTrack, OnApdu, OnAccept, History, Inv, ShownFor, Faithful, Joined, First, Later;
    if es == [] || es[0].Cancel? {
      TrackFaithful(c, d, t, chunks, before, rest);
      if es != [] { CancelFaithful(c, d, t, chunks, before); }
    } else {
      var e := es[0];
      ApplyKeepsSession(c, d, e);
      EventOnTrack(c, d, t, chunks, before, e, rest);
      RunFaithful(c, Apply(c, d, e), t, chunks, before, es[1..], if e.Apdu? then Later(rest) else rest);
    }
  }

  /** In every run of a session, wherever it stops: nothing undefined happens; the outputs taken in so
      far are the first outputs of the transaction that was sent; the display shows the last of them,
      unless it is the first one and the chunks hide it, in which case the display has not changed since
      before the session; and when the device is ready to sign it has taken in all outputs, the user has
      pressed accept more often than that, and what it is about to sign is the hash of this transaction. */
  lemma ApprovedIsSent(c: Sdk, d: Dev, t: Txn, chunks: seq<seq<byte>>, es: seq<Event>)
    requires t.WellFormed() && Joined(chunks) == t.Encode() && Lossless(t, 0, 0, chunks)
    requires Idle(d) && chunks != [] && es != [] && es[0] == Apdu(0, chunks[0]) && Follows(es[1..], chunks[1..])
    requires Possible(c, d, es)
    ensures Faithful(c, Exec(c, d, es), t, chunks, d.display)
  {
    hide Faithful, OnApdu, OnAccept, OnTrack, Follows, Lossless, Joined, History, Inv, ShownFor;
    ApplyKeepsSession(c, d, es[0]);
    FirstApdu(c, d, t, chunks);
    RunFaithful(c, Apply(c, d, es[0]), t, chunks, d.display, es[1..], chunks[1..]);
  }

  lemma FirstApdu(c: Sdk, d: Dev, t: Txn, chunks: seq<seq<byte>>)
    requires t.WellFormed() && Joined(chunks) == t.Encode() && Lossless(t, 0, 0, chunks) && chunks != [] && Idle(d)
    ensures OnTrack(c, OnApdu(c, d, 0, chunks[0]), t, chunks, d.display, chunks[1..])
  {
    hide Inv, Synced, ShownFor, Advance, Holds, Lossless, HidesFirst;
    var e := OnApdu(c, d, 0, chunks[0]);
    Fresh(c, Begun(e).p, t, Joined(chunks[1..]));
    LosslessHead(t, 0, 0, chunks);
    assert chunks[..0] == [];
    assert Intake(c, e, t, chunks, d.display, 0, 1);
  }

  // The chunks of the host.

  /** The slices that send_txn cuts the stream into. */
  function HostChunks(stream: seq<byte>): (chunks: seq<seq<byte>>)
    ensures chunks != []
  {
    if |stream| <= Host.CHUNK then [stream] else [stream[..Host.CHUNK]] + HostChunks(stream[Host.CHUNK..])
  }

  /** How much of the stream the first `i` chunks carry. */
  lemma {:induction false} HostTotal(stream: seq<byte>, i: nat)
    requires i <= |HostChunks(stream)|
    ensures Total(HostChunks(stream)[..i]) == Host.Sent(|stream|, i)
    ensures |HostChunks(stream)| * Host.CHUNK >= |stream|
    ensures i < |HostChunks(stream)| - 1 ==> |HostChunks(stream)[i]| == Host.CHUNK
    ensures i == |HostChunks(stream)| > 1 ==> (i - 1) * Host.CHUNK < |stream|
  {
    var chunks := HostChunks(stream);
    if i == 0 {
      assert chunks[..0] == [];
      if |stream| > Host.CHUNK { HostTotal(stream[Host.CHUNK..], 0); }
    } else if |stream| <= Host.CHUNK {
      assert chunks[..1] == [stream];
      OnePiece(stream);
    } else {
      HostTotal(stream[Host.CHUNK..], i - 1);
      assert chunks[..i] == [chunks[0]] + HostChunks(stream[Host.CHUNK..])[..i - 1];
      assert chunks[..i][1..] == HostChunks(stream[Host.CHUNK..])[..i - 1];
    }
  }

  lemma {:induction false} HostJoined(stream: seq<byte>)
    ensures Joined(HostChunks(stream)) == stream
  {
    if |stream| <= Host.CHUNK {
      OnePiece(stream);
    } else {
      HostJoined(stream[Host.CHUNK..]);
      JoinedFirst(HostChunks(stream));
      assert HostChunks(stream)[1..] == HostChunks(stream[Host.CHUNK..]);
    }
  }

  /** The host's chunks hide the only output behind 7 to 12 or 15 to 19 inputs, and the first of several
      outputs behind 12 or 19. */
  predicate HostHides(n: nat, m: nat) {
    n == 12 || n == 19 || (m == 1 && (7 <= n <= 11 || 15 <= n <= 18))
  }

  lemma HostHidesFirst(t: Txn)
    requires t.WellFormed()
    ensures HidesFirst(|t.inputs|, HostChunks(t.Encode())) <==> HostHides(|t.inputs|, |t.outputs|)
  {
    hide HostChunks, Total, Txn.Encode;
    var stream, n, m := t.Encode(), |t.inputs|, |t.outputs|;
    var chunks := HostChunks(stream);
    Host.StreamIsLong(t);
    HostTotal(stream, |chunks|);
    forall i | 0 < i < |chunks| ensures Hides(n, chunks, i) <==> HostHidesAt(n, m, i) {
      HostTotal(stream, i);
      HostTotal(stream, i + 1);
      HostArithmetic(n, m, i);
    }
    if HostHides(n, m) {
      var i := if n <= 12 then 1 else 2;
      assert HostHidesAt(n, m, i);
      assert Hides(n, chunks, i);
    }
  }

  predicate HostHidesAt(n: nat, m: nat, i: nat) {
    HostHides(n, m) && i == if n <= 12 then 1 else 2
  }

  lemma HostArithmetic(n: nat, m: nat, i: nat)
    requires 1 <= n <= MAX_INPUTS && 1 <= m && i > 0
    ensures var total := 8 + 36 * n + 37 * m;
      (Host.Sent(total, i) < 4 + 36 * n && 45 + 36 * n <= Host.Sent(total, i + 1) < 82 + 36 * n) <==> HostHidesAt(n, m, i)
  {}

  /** The host, a device that showed anything at all, and any user: while the first output is the last
      one taken, the display shows it if and only if HostHides does not hold; every later output is shown
      when it is taken. */
  lemma HostShows(c: Sdk, d: Dev, t: Txn, es: seq<Event>)
    requires t.WellFormed() && Idle(d) && Possible(c, d, es)
    requires var chunks := HostChunks(t.Encode()); es != [] && es[0] == Apdu(0, chunks[0]) && Follows(es[1..], chunks[1..])
    ensures var f := Exec(c, d, es); f.initialized && f.p.outs != [] ==>
      f.p.outs <= t.outputs &&
      if |f.p.outs| == 1 && HostHides(|t.inputs|, |t.outputs|) then f.display == d.display
      else
        && f.display == ShownFor(c, t.outputs[|f.p.outs| - 1], |f.p.outs|, |t.outputs|)
        && DisplayReads(c, f.display, t.outputs[|f.p.outs| - 1], |f.p.outs|, |t.outputs|)
  {
    hide HostChunks, HostHides, HidesFirst, Lossless, Txn.Encode, Txn.Rest, Exec, Follows, Possible, ShownFor, Joined, DisplayReads;
    var stream := t.Encode();
    var chunks := HostChunks(stream);
    HostJoined(stream);
    HostLossless(t);
    HostHidesFirst(t);
    ApprovedIsSent(c, d, t, chunks, es);
  }

  lemma HostLossless(t: Txn)
    requires t.WellFormed()
    ensures Lossless(t, 0, 0, HostChunks(t.Encode()))
  {
    hide HostChunks, Lossless, Txn.Rest, Joined, Total;
    var stream := t.Encode();
    HostJoined(stream);
    forall i | 0 <= i < |HostChunks(stream)| - 1 ensures |HostChunks(stream)[i]| >= 37 {
      HostTotal(stream, i);
    }
    LargeChunks(t, 0, 0, HostChunks(stream));
  }
}
