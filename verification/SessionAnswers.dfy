// What a host hears that sends one transaction, whoever the user is: errors, empty bodies, the inner hash of
// that transaction and its signatures.
module SessionAnswers {
  import opened Bytes
  import opened Transaction
  import opened Crypto
  import opened TxnStream
  import opened Chunking
  import opened DeviceModel
  import opened Protocol
  import opened Approval
  import opened Integrity
  import opened Answers
  import opened Sessions

  /** What an event may make the device say in a session for `t`. */
  ghost predicate SaysFor(c: Sdk, path: Path, t: Txn, d: Dev, v: Event, f: Dev) {
    || f.replies == d.replies
    || f.replies == d.replies + [[0x06, 0xB0]]
    || f.replies == d.replies + [[0x90, 0x00]]
    || (v.Accept? && f.replies == d.replies + [InnerHash(c, t) + [0x90, 0x00]])
    || (v.Apdu? && d.initialized && d.p.state > TXN_OUT && d.p.currObj <= NextPage(t, d.p.currObj) <= |t.inputs|
        && f.replies == d.replies + [NextSigs(c, path, t, d.p.currObj, NextPage(t, d.p.currObj)) + [0x90, 0x00]])
  }

  /** Past the outputs, the transaction consumed and approved is the one that was sent: the slots hold its
      inputs, or after signing its signatures. */
  lemma ApprovedFor(c: Sdk, d: Dev, t: Txn, chunks: seq<seq<byte>>, before: Display, begun: bool)
    requires t.WellFormed() && Signing(c, d, t, chunks, before) && d.initialized && Sealed(c, d, begun)
    ensures Approved(c, d.p, t.inputs) && Txn(t.inputs, d.p.outs) == t
  {
    hide Approved, Told, Txn.Encode, ShownNow, InnerHash, Inv, History, ShownFor;
    OneApproved(c, d, begun);
    var ins :| Approved(c, d.p, ins);
    ApprovedStream(c, d.p, ins);
    EncodeTells(ins, t.inputs, t.outputs);
    assert Txn(t.inputs, t.outputs) == t;
  }

  lemma ApprovedStream(c: Sdk, p: Parser, ins: seq<Input>)
    requires Approved(c, p, ins)
    ensures |ins| == p.inNum && p.consumed == Txn(ins, p.outs).Encode()
  {}

  lemma ApplyKeepsPath(c: Sdk, d: Dev, v: Event)
    requires Session(c, d) && Enabled(d, v)
    ensures Apply(c, d, v).p.path == d.p.path
  {
    hide Inv, Run, History, ShownFor, StatusWord;
    if v.Accept? {
      BegunHistory(c, d);
      RunKeepsPath(c, Begun(d).p);
    } else if v.Apdu? && d.initialized {
      DataKeeps(d.p, v.data);
      RunKeepsPath(c, d.p.(data := v.data));
    }
  }

  lemma IntakeState(c: Sdk, d: Dev, t: Txn, chunks: seq<seq<byte>>, before: Display, rest: seq<seq<byte>>)
    requires t.WellFormed() && OnTrack(c, d, t, chunks, before, rest) && d.initialized && d.p.state > TXN_OUT
    ensures Signing(c, d, t, chunks, before)
  {
    hide Inv, ShownNow, Session, Fits, Holds, InnerHash, Joined;
  }

  /** A press that hands out the hash, and a request that gets a page. */
  lemma EventSaysFor(c: Sdk, d: Dev, t: Txn, chunks: seq<seq<byte>>, before: Display, rest: seq<seq<byte>>, v: Event, begun: bool)
    requires t.WellFormed() && Joined(chunks) == t.Encode() && Sealed(c, d, begun) && Session(c, d) && Enabled(d, v)
    requires OnTrack(c, d, t, chunks, before, rest) && (v.Apdu? ==> v.p1 == 1 && v.data == First(rest))
    ensures SaysFor(c, d.p.path, t, d, v, Apply(c, d, v))
  {
    hide OnTrack, Signing, OnApdu, OnAccept, Told, Sealed, Inv, History, ShownFor, StatusWord, Joined, First, Later, Approved, InnerHash, NextSigs;
    EventSays(c, d, begun, v);
    var f := Apply(c, d, v);
    if HashAnswer(c, d, v, f) {
      EventOnTrack(c, d, t, chunks, before, v, rest);
      AcceptBegins(c, d);
      IntakeState(c, f, t, chunks, before, rest);
      SigningHash(c, f, t, chunks, before);
    } else if PageOut(c, d, v, f) {
      IntakeState(c, d, t, chunks, before, rest);
      ApprovedFor(c, d, t, chunks, before, begun);
      PageAnswer(c, d, v.data, t.inputs);
    }
  }

  lemma AcceptBegins(c: Sdk, d: Dev)
    requires Session(c, d) && Enabled(d, Accept)
    ensures OnAccept(c, d).initialized
  {
    hide Inv, Run, ShownFor, StatusWord;
  }

  lemma SigningHash(c: Sdk, d: Dev, t: Txn, chunks: seq<seq<byte>>, before: Display)
    requires t.WellFormed() && Signing(c, d, t, chunks, before) && d.initialized
    ensures d.p.innerHash == InnerHash(c, t)
  {
    hide InnerHash, ShownNow, Session;
  }

  ghost predicate AllSaysFor(c: Sdk, path: Path, t: Txn, d: Dev, es: seq<Event>)
    requires Session(c, d) && Possible(c, d, es)
    decreases |es|
  {
    es == [] || (
      ApplyKeepsSession(c, d, es[0]);
      SaysFor(c, path, t, d, es[0], Apply(c, d, es[0])) && AllSaysFor(c, path, t, Apply(c, d, es[0]), es[1..]))
  }

  lemma {:induction false} RunSaysFor(c: Sdk, d: Dev, t: Txn, chunks: seq<seq<byte>>, before: Display, es: seq<Event>,
                                      rest: seq<seq<byte>>, begun: bool)
    requires t.WellFormed() && Joined(chunks) == t.Encode() && Session(c, d) && Sealed(c, d, begun)
    requires OnTrack(c, d, t, chunks, before, rest) && Possible(c, d, es) && Follows(es, rest)
    ensures AllSaysFor(c, d.p.path, t, d, es)
    decreases |es|
  {
    hide OnTrack, OnApdu, OnAccept, History, Inv, ShownFor, Told, Sealed, Joined, First, Later, SaysFor;
    if es != [] {
      var v := es[0];
      EventSaysFor(c, d, t, chunks, before, rest, v, begun);
      ApplyKeepsPath(c, d, v);
      ApplyKeepsSession(c, d, v);
      if v.Cancel? {
        assert es[1..] == [];
      } else {
        EventOnTrack(c, d, t, chunks, before, v, rest);
        ApplySealed(c, d, begun, v);
        RunSaysFor(c, Apply(c, d, v), t, chunks, before, es[1..], if v.Apdu? then Later(rest) else rest, begun || v.Accept?);
      }
    }
  }

  /** In every run of a session for a well-formed transaction, with any user and wherever it stops: every
      answer is an error, an empty body, the inner hash of this transaction, or the next page of its
      signatures under the device's path. */
  lemma AnswersAreForThis(c: Sdk, d: Dev, t: Txn, chunks: seq<seq<byte>>, es: seq<Event>)
    requires t.WellFormed() && Joined(chunks) == t.Encode() && Lossless(t, 0, 0, chunks)
    requires Idle(d) && chunks != [] && es != [] && es[0] == Apdu(0, chunks[0]) && Follows(es[1..], chunks[1..])
    requires Possible(c, d, es)
    ensures AllSaysFor(c, d.p.path, t, d, es)
  {
    hide OnTrack, OnAccept, Follows, Lossless, Joined, History, Inv, ShownFor, Told;
    var e := Apply(c, d, es[0]);
    ApplyKeepsSession(c, d, es[0]);
    ApplySealed(c, d, false, es[0]);
    FirstApdu(c, d, t, chunks);
    RunSaysFor(c, e, t, chunks, d.display, es[1..], chunks[1..], false);
  }

  /** The host's chunks and any user. */
  lemma HostHears(c: Sdk, d: Dev, t: Txn, es: seq<Event>)
    requires t.WellFormed() && Idle(d) && Possible(c, d, es)
    requires var chunks := HostChunks(t.Encode()); es != [] && es[0] == Apdu(0, chunks[0]) && Follows(es[1..], chunks[1..])
    ensures AllSaysFor(c, d.p.path, t, d, es)
  {
    hide HostChunks, Lossless, Txn.Encode, Txn.Rest, Exec, Follows, Possible, Joined, AllSaysFor;
    HostJoined(t.Encode());
    HostLossless(t);
    AnswersAreForThis(c, d, t, HostChunks(t.Encode()), es);
  }
}
