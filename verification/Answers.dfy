// Every answer the device gives, in every run: nothing leaves it but errors, empty bodies, the inner hash
// of what was approved, and signatures for it.
module Answers {
  import opened Bytes
  import opened Transaction
  import opened Crypto
  import opened TxnStream
  import opened DeviceModel
  import opened Protocol
  import opened Approval
  import opened Integrity

  /** The signatures of the inputs from `from` up to `to`. */
  function NextSigs(c: Sdk, path: Path, t: Txn, from: nat, to: nat): seq<byte>
    requires from <= to <= |t.inputs|
  {
    if from == to then [] else NextSigs(c, path, t, from, to - 1) + SigOf(c, path, t, to - 1)
  }

  /** Pages add up to the whole list of signatures. */
  lemma {:induction false} PagesAddUp(c: Sdk, path: Path, t: Txn, from: nat, to: nat)
    requires from <= to <= |t.inputs|
    ensures SigList(c, path, t, from) + NextSigs(c, path, t, from, to) == SigList(c, path, t, to)
  {
    hide SigOf;
    if from < to { PagesAddUp(c, path, t, from, to - 1); }
  }

  lemma {:induction false} SlotsPage(c: Sdk, p: Parser, t: Txn, from: nat, to: nat)
    requires t.WellFormed() && HoldsSigs(c, p, t) && from <= to <= |t.inputs|
    ensures Concat(p.slots[from..to]) == NextSigs(c, p.path, t, from, to)
  {
    hide SigOf, Concat;
    if from == to {
      assert p.slots[from..to] == [];
      ConcatEmpty();
    } else {
      SlotsPage(c, p, t, from, to - 1);
      ConcatSnoc(p.slots, from, to);
    }
  }

  lemma ConcatEmpty()
    ensures Concat([]) == []
  {}

  /** The first request signs, and every request returns the next three signatures or the rest. */
  lemma PageRun(c: Sdk, p: Parser, ins: seq<Input>)
    requires Inv(p) && p.state > TXN_OUT && Approved(c, p, ins)
    ensures var t, r := Txn(ins, p.outs), Run(c, p);
      && p.currObj <= NextPage(t, p.currObj) <= |ins| && r.body == NextSigs(c, p.path, t, p.currObj, NextPage(t, p.currObj))
      && r.code == if NextPage(t, p.currObj) < |ins| then TXN_PARTIAL else TXN_FINISHED
  {
    hide Approved, SignAll, Concat, NextSigs;
    var t := Txn(ins, p.outs);
    ApprovedSize(c, p, ins);
    var q := if p.state == TXN_COMPUTE_SIGS then p.(slots := SignAll(c, p), currObj := 0, state := TXN_RET_SIGS) else p;
    if p.state == TXN_COMPUTE_SIGS { FedSigned(c, p, ins); }
    ApprovedSigs(c, q, ins);
    SlotsPage(c, q, t, q.currObj, NextPage(t, q.currObj));
  }

  lemma ApprovedSize(c: Sdk, p: Parser, ins: seq<Input>)
    requires Approved(c, p, ins)
    ensures Txn(ins, p.outs).WellFormed() && |ins| == p.inNum && |p.outs| == p.outNum
  {}

  lemma ApprovedSigs(c: Sdk, p: Parser, ins: seq<Input>)
    requires Approved(c, p, ins) && p.state == TXN_RET_SIGS
    ensures Txn(ins, p.outs).WellFormed() && HoldsSigs(c, p, Txn(ins, p.outs))
  {}

  /** The page for a request, without any press. */
  lemma PageAnswer(c: Sdk, d: Dev, data: seq<byte>, ins: seq<Input>)
    requires Session(c, d) && d.initialized && !d.awaiting && !d.stuck && d.p.state > TXN_OUT && Approved(c, d.p, ins)
    ensures var t, f := Txn(ins, d.p.outs), OnApdu(c, d, 1, data);
      && d.p.currObj <= NextPage(t, d.p.currObj) == (if |ins| - d.p.currObj > 3 then d.p.currObj + 3 else |ins|) <= |ins|
      && f.replies == d.replies + [NextSigs(c, d.p.path, t, d.p.currObj, NextPage(t, d.p.currObj)) + [0x90, 0x00]]
      && f.initialized == (NextPage(t, d.p.currObj) < |ins|)
  {
    hide Approved, Run, NextSigs, StatusWord, ShownFor, NextPage;
    StatusBytes();
    var q := d.p.(data := data);
    DataKeeps(d.p, data);
    SameApproved(c, d.p, 0, data, ins);
    PageRun(c, q, ins);
    NextPageIs(Txn(ins, d.p.outs), d.p.currObj);
  }

  // Every answer.

  /** The inner hash goes out: to a press, and if the session has outputs, for exactly those that were
      taken, and with more presses than outputs. */
  ghost predicate HashAnswer(c: Sdk, d: Dev, v: Event, f: Dev) {
    && v.Accept? && f.p.state > TXN_OUT && f.replies == d.replies + [f.p.innerHash + [0x90, 0x00]]
    && (f.p.outNum > 0 ==> |f.p.outs| == f.p.outNum < f.presses && exists ins :: Approved(c, f.p, ins))
  }

  /** The next signatures go out: to a request, and if the session has outputs, for the transaction whose
      stream was consumed and whose outputs were taken, with more presses than outputs. */
  ghost predicate PageOut(c: Sdk, d: Dev, v: Event, f: Dev) {
    && v.Apdu? && v.p1 == 1 && d.initialized && d.p.state > TXN_OUT && PageOfSlots(c, d, f)
    && (d.p.outNum > 0 ==>
      && |d.p.outs| == d.p.outNum < d.presses
      && exists ins :: Approved(c, d.p, ins) && PageFor(c, d, f, ins))
  }

  /** Whatever the outputs: the page is what the slots hold after signing. */
  ghost predicate PageOfSlots(c: Sdk, d: Dev, f: Dev) {
    var from, upTo := d.p.currObj, if d.p.inNum - d.p.currObj > SIGS_PER_PAGE then d.p.currObj + SIGS_PER_PAGE else d.p.inNum;
    && from <= upTo <= MAX_INPUTS
    && f.replies == d.replies + [Concat(SlotsToSend(c, d.p)[from..upTo]) + [0x90, 0x00]]
  }

  function SlotsToSend(c: Sdk, p: Parser): Slots {
    if p.state == TXN_COMPUTE_SIGS && p.inNum <= MAX_INPUTS then SignAll(c, p) else p.slots
  }

  lemma SlotsPageOut(c: Sdk, d: Dev, data: seq<byte>)
    requires Session(c, d) && Enabled(d, Apdu(1, data)) && d.initialized && d.p.state > TXN_OUT
    ensures PageOfSlots(c, d, OnApdu(c, d, 1, data))
  {
    hide SignAll, Concat, StatusWord, ShownFor;
    StatusBytes();
    var q := d.p.(data := data);
    assert SlotsToSend(c, q) == SlotsToSend(c, d.p) by { SignsAlike(c, d.p, data); }
    assert Run(c, q).body == Concat(SlotsToSend(c, q)[d.p.currObj..if d.p.inNum - d.p.currObj > SIGS_PER_PAGE then d.p.currObj + SIGS_PER_PAGE else d.p.inNum]);
  }

  lemma SignsAlike(c: Sdk, p: Parser, data: seq<byte>)
    ensures SlotsToSend(c, p.(data := data)) == SlotsToSend(c, p)
  {
    hide SignatureFor;
  }

  ghost predicate PageFor(c: Sdk, d: Dev, f: Dev, ins: seq<Input>) {
    var t := Txn(ins, d.p.outs);
    && |ins| == d.p.inNum && d.p.currObj <= NextPage(t, d.p.currObj) <= |ins|
    && f.replies == d.replies + [NextSigs(c, d.p.path, t, d.p.currObj, NextPage(t, d.p.currObj)) + [0x90, 0x00]]
    && f.initialized == (NextPage(t, d.p.currObj) < |ins|)
  }

  /** What an event may make the device say. */
  ghost predicate SaysRight(c: Sdk, d: Dev, v: Event, f: Dev) {
    || f.replies == d.replies
    || f.replies == d.replies + [[0x06, 0xB0]]
    || f.replies == d.replies + [[0x90, 0x00]]
    || HashAnswer(c, d, v, f)
    || PageOut(c, d, v, f)
  }

  lemma NoBody(code: nat)
    requires code < 0x1_0000
    ensures [] + StatusWord(code) == StatusWord(code)
  {}

  lemma AcceptSays(c: Sdk, d: Dev, begun: bool)
    requires Sealed(c, d, begun) && Enabled(d, Accept)
    ensures SaysRight(c, d, Accept, OnAccept(c, d))
  {
    hide Approved, Told, Sealed, Inv, Fed, Run, History, ShownFor, StatusWord;
    StatusBytes();
    AcceptSealed(c, d, begun);
    SealedSession(c, d, begun);
    BegunFed(c, d, begun);
    RunOutputs(c, Begun(d).p);
    NoBody(INS_RET_SUCCESS);
    var f := OnAccept(c, d);
    if f.p.state > TXN_OUT && f.p.outNum > 0 { OneApproved(c, f, true); }
  }

  lemma ApduSays(c: Sdk, d: Dev, begun: bool, p1: nat, data: seq<byte>)
    requires Sealed(c, d, begun) && Enabled(d, Apdu(p1, data))
    ensures SaysRight(c, d, Apdu(p1, data), OnApdu(c, d, p1, data))
  {
    hide Approved, Told, Sealed, Inv, Fed, Run, History, ShownFor, StatusWord, PageFor, PageOfSlots;
    StatusBytes();
    SealedSession(c, d, begun);
    NoBody(INS_RET_SUCCESS);
    NoBody(RET_ERROR);
    if d.initialized && p1 == 1 {
      if d.p.state > TXN_OUT {
        SlotsPageOut(c, d, data);
        if d.p.outNum > 0 { PageSays(c, d, begun, data); }
      } else {
        DataKeeps(d.p, data);
        RunOutputs(c, d.p.(data := data));
      }
    }
  }

  lemma PageSays(c: Sdk, d: Dev, begun: bool, data: seq<byte>)
    requires Sealed(c, d, begun) && Enabled(d, Apdu(1, data)) && d.initialized && d.p.state > TXN_OUT && d.p.outNum > 0
    ensures |d.p.outs| == d.p.outNum < d.presses
    ensures exists ins :: Approved(c, d.p, ins) && PageFor(c, d, OnApdu(c, d, 1, data), ins)
  {
    hide Approved, Told, OnApdu, ShownFor, Inv, NextSigs, StatusWord, NextPage;
    OneApproved(c, d, begun);
    var ins :| Approved(c, d.p, ins);
    ApprovedSize(c, d.p, ins);
    PageAnswer(c, d, data, ins);
  }

  lemma EventSays(c: Sdk, d: Dev, begun: bool, v: Event)
    requires Sealed(c, d, begun) && Enabled(d, v)
    ensures SaysRight(c, d, v, Apply(c, d, v))
  {
    hide OnApdu, OnAccept, Told, ShownFor, StatusWord, HashAnswer, PageOut, Inv;
    StatusBytes();
    match v
    case Apdu(p1, data) => ApduSays(c, d, begun, p1, data);
    case Accept => AcceptSays(c, d, begun);
    case Cancel => NoBody(RET_ERROR);
  }

  ghost predicate AllSaysRight(c: Sdk, d: Dev, es: seq<Event>)
    requires Session(c, d) && Possible(c, d, es)
    decreases |es|
  {
    es == [] || (
      ApplyKeepsSession(c, d, es[0]);
      SaysRight(c, d, es[0], Apply(c, d, es[0])) && AllSaysRight(c, Apply(c, d, es[0]), es[1..]))
  }

  lemma {:induction false} RunSays(c: Sdk, d: Dev, begun: bool, es: seq<Event>)
    requires Sealed(c, d, begun) && Possible(c, d, es)
    ensures Session(c, d) && AllSaysRight(c, d, es)
    decreases |es|
  {
    hide Apply, Told, Session, Inv, History, ShownFor, SaysRight;
    SealedSession(c, d, begun);
    if es != [] {
      EventSays(c, d, begun, es[0]);
      ApplySealed(c, d, begun, es[0]);
      RunSays(c, Apply(c, d, es[0]), begun || es[0].Accept?, es[1..]);
    }
  }

  /** In every run from an idle device, with any bytes, any split and any cancels, every answer is an error,
      an empty body, the inner hash or a page of signatures; a hash or page of a session with outputs goes
      out only after all of them were taken and accepted, and is the hash of exactly the transaction whose
      stream was consumed, or the next of its signatures in input order, the last page included. */
  lemma AnswersAreApproved(c: Sdk, d: Dev, es: seq<Event>)
    requires Idle(d) && Possible(c, d, es)
    ensures AllSaysRight(c, d, es)
  {
    RunSays(c, d, false, es);
  }
}
