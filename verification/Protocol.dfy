// One exchange of the host with an approving user: an APDU goes in, the user accepts until the
// device answers. What the exchanges of a whole signing session do, for every transaction.
module Protocol {
  import opened Bytes
  import opened Transaction
  import opened Crypto
  import opened TxnStream
  import opened Chunking
  import opened DeviceModel

  function InnerHash(c: Sdk, t: Txn): Digest { c.sha256(t.Preimage()) }

  /** The signature input `i` of the transaction must get. */
  function SigOf(c: Sdk, path: Path, t: Txn, i: nat): Signature
    requires i < |t.inputs|
  {
    c.sign(path[4 := t.inputs[i].addressIndex], c.sha256(InnerHash(c, t) + t.inputs[i].uxId))
  }

  /** What a signature is over: the 64 bytes of inner hash and input id, under the device's path with its
      last word replaced by the index of the input. */
  lemma SigOfIs(c: Sdk, path: Path, t: Txn, i: nat)
    requires i < |t.inputs|
    ensures exists p: Path, m: seq<byte> ::
      && |m| == 64 && m[..32] == c.sha256(t.Preimage()) && m[32..] == t.inputs[i].uxId
      && p[..4] == path[..4] && p[4] == t.inputs[i].addressIndex
      && SigOf(c, path, t, i) == c.sign(p, c.sha256(m))
  {
    hide Txn.Preimage;
    var p: Path := path[4 := t.inputs[i].addressIndex];
    var m := InnerHash(c, t) + t.inputs[i].uxId;
    assert m[..32] == InnerHash(c, t) && m[32..] == t.inputs[i].uxId && |m| == 64;
    assert p[..4] == path[..4] && SigOf(c, path, t, i) == c.sign(p, c.sha256(m));
  }

  /** The first `k` signatures, one after the other. */
  function SigList(c: Sdk, path: Path, t: Txn, k: nat): (s: seq<byte>)
    requires k <= |t.inputs|
    ensures |s| == k * SIG_LEN
  {
    if k == 0 then [] else SigList(c, path, t, k - 1) + SigOf(c, path, t, k - 1)
  }

  /** The user accepts as long as the device waits. */
  function AcceptAll(c: Sdk, d: Dev): Dev
    requires Session(c, d)
    decreases d.awaiting, |d.p.data|
  {
    if !d.awaiting then d
    else
      AcceptKeepsSession(c, d);
      AcceptProgress(c, d);
      AcceptAll(c, OnAccept(c, d))
  }

  lemma AcceptProgress(c: Sdk, d: Dev)
    requires Session(c, d) && d.awaiting
    ensures var e := OnAccept(c, d); e.awaiting ==> |e.p.data| < |d.p.data|
  {
    hide Run, Inv, ShownFor;
  }

  function Exchange(c: Sdk, d: Dev, p1: nat, data: seq<byte>): Dev
    requires Session(c, d) && !d.awaiting
  {
    ApduKeepsSession(c, d, p1, data);
    AcceptAll(c, OnApdu(c, d, p1, data))
  }

  /** One answer was added, with at least a status word. */
  ghost predicate OneMore(before: seq<seq<byte>>, after: seq<seq<byte>>) {
    |after| == |before| + 1 && after[..|before|] == before && |after[|before|]| >= 2
  }

  lemma StuckStops(c: Sdk, d: Dev)
    requires Session(c, d)
    ensures d.awaiting && OnAccept(c, d).stuck && !d.stuck ==> !OnAccept(c, d).awaiting
    ensures d.awaiting && !OnAccept(c, d).stuck ==>
      if OnAccept(c, d).awaiting then OnAccept(c, d).replies == d.replies else OneMore(d.replies, OnAccept(c, d).replies)
    ensures d.stuck && d.awaiting ==> OnAccept(c, d).stuck
  {
    hide Run, Inv, ShownFor;
  }

  /** Every exchange that does not end in undefined behaviour is answered exactly once. */
  lemma {:induction false} AcceptAnswersOnce(c: Sdk, d: Dev)
    requires Session(c, d) && d.awaiting && !d.stuck
    ensures OnAccept(c, d).stuck ==> AcceptAll(c, d).stuck
    ensures !AcceptAll(c, d).stuck ==> OneMore(d.replies, AcceptAll(c, d).replies)
    decreases |d.p.data|
  {
    hide OnAccept, Inv, History, ShownFor;
    StuckStops(c, d);
    AcceptKeepsSession(c, d);
    AcceptProgress(c, d);
    if OnAccept(c, d).awaiting && !OnAccept(c, d).stuck { AcceptAnswersOnce(c, OnAccept(c, d)); }
  }

  lemma ExchangeAnswersOnce(c: Sdk, d: Dev, p1: nat, data: seq<byte>)
    requires Session(c, d) && !d.awaiting && !d.stuck
    ensures OnApdu(c, d, p1, data).stuck ==> Exchange(c, d, p1, data).stuck
    ensures !Exchange(c, d, p1, data).stuck ==>
      OneMore(d.replies, Exchange(c, d, p1, data).replies) && !Exchange(c, d, p1, data).awaiting
  {
    hide Run, Inv, History, ShownFor;
    ApduKeepsSession(c, d, p1, data);
    var e := OnApdu(c, d, p1, data);
    if e.awaiting { AcceptAnswersOnce(c, e); }
    AcceptEnds(c, e);
  }

  lemma {:induction false} AcceptEnds(c: Sdk, d: Dev)
    requires Session(c, d)
    ensures !AcceptAll(c, d).awaiting
    decreases d.awaiting, |d.p.data|
  {
    hide OnAccept, Inv, History, ShownFor;
    if d.awaiting {
      AcceptKeepsSession(c, d);
      AcceptProgress(c, d);
      AcceptEnds(c, OnAccept(c, d));
    }
  }

  // The intake.

  /** One call of txn_next_elem within the intake: either all data is used up, or it stops at an
      output with at least 37 bytes to spare. */
  ghost predicate Stopped(c: Sdk, r: Stop, t: Txn, at: (nat, nat), k: nat, future: seq<byte>)
    requires t.WellFormed()
  {
    if r.code == TXN_APPROVE_OUT then
      k < t.Count() && r.p.carry == [] && Synced(c, r.p, t, k, future) && Advance(t, k, 0, |r.p.data|) == at
    else Pumped(c, r, t, at, future)
  }

  lemma {:induction false} RunSync(c: Sdk, p: Parser, t: Txn, k: nat, future: seq<byte>) returns (k': nat)
    requires t.WellFormed() && k < t.Count() && Synced(c, p, t, k, future)
    requires p.carry == [] || Completes(t, k, |p.carry|, |p.data|)
    ensures Stopped(c, Run(c, p), t, Advance(t, k, |p.carry|, |p.data|), k', future)
    decreases |p.data|
  {
    hide Synced, Holds, Step, Inv, Txn.Element, Advance, Run, Pump;
    SyncedInv(c, p, t, k, future);
    k' := k;
    if !Ready(p, t, k) {
      SyncPartial(c, p, t, k, future);
    } else if k <= |t.inputs| + 1 {
      SyncCounts(c, p, t, k, future);
      k' := RunSync(c, Step(c, p).p, t, k + 1, future);
    } else {
      SyncOutput(c, p, t, k, future);
      k' := k + 1;
    }
  }

  lemma {:induction false} RunKeepsPath(c: Sdk, p: Parser)
    requires Inv(p)
    ensures Run(c, p).p.path == p.path
    decreases |p.data|
  {
    hide Inv;
    StepKeepsPath(c, p);
    if Step(c, p).Next? { RunKeepsPath(c, Step(c, p).p); }
  }

  lemma StepKeepsPath(c: Sdk, p: Parser)
    requires Inv(p)
    ensures Step(c, p).Undefined? || Step(c, p).p.path == p.path
  {}

  /** The device is between two chunks: `k` elements taken, `future` still to be sent. */
  ghost predicate HostTurn(c: Sdk, d: Dev, t: Txn, k: nat, future: seq<byte>)
    requires t.WellFormed()
  {
    && Session(c, d) && d.initialized && !d.awaiting && !d.stuck
    && k <= t.Count() && d.p.data == [] && Synced(c, d.p, t, k, future)
  }

  /** The answer to an intake exchange: success, and an empty body. */
  ghost predicate Acknowledged(c: Sdk, d: Dev, e: Dev, t: Txn, at: (nat, nat), future: seq<byte>)
    requires t.WellFormed()
  {
    && HostTurn(c, e, t, at.0, future) && |e.p.carry| == at.1
    && e.p.path == d.p.path && e.replies == d.replies + [[0x90, 0x00]]
  }

  /** A press during the intake; the first one begins the session. */
  lemma {:induction false} AcceptIntake(c: Sdk, d: Dev, t: Txn, k: nat, future: seq<byte>)
    requires Session(c, d) && d.awaiting && !d.stuck && t.WellFormed() && k < t.Count()
    requires var p := Begun(d).p; Synced(c, p, t, k, future) && (p.carry == [] || Completes(t, k, |p.carry|, |p.data|))
    ensures var p := Begun(d).p; Acknowledged(c, d, AcceptAll(c, d), t, Advance(t, k, |p.carry|, |p.data|), future)
    decreases |d.p.data|
  {
    hide Run, Advance, Synced, Completes, Inv, History, ShownFor, StatusWord;
    StatusBytes();
    assert [] + StatusWord(INS_RET_SUCCESS) == StatusWord(INS_RET_SUCCESS);
    var p := Begun(d).p;
    var k' := RunSync(c, p, t, k, future);
    SyncedInv(c, p, t, k, future);
    RunKeepsPath(c, p);
    AcceptKeepsSession(c, d);
    AcceptProgress(c, d);
    var e := OnAccept(c, d);
    if e.awaiting {
      AcceptIntake(c, e, t, k', future);
    } else {
      assert AcceptAll(c, e) == e;
    }
  }

  /** A chunk in the middle of a session. */
  lemma ChunkExchange(c: Sdk, d: Dev, t: Txn, k: nat, chunk: seq<byte>, future: seq<byte>)
    requires t.WellFormed() && k < t.Count() && HostTurn(c, d, t, k, chunk + future)
    requires d.p.carry == [] || Completes(t, k, |d.p.carry|, |chunk|)
    ensures Acknowledged(c, d, Exchange(c, d, 1, chunk), t, Advance(t, k, |d.p.carry|, |chunk|), future)
  {
    hide Run, Advance, Synced, Completes, Inv, History, ShownFor, StatusWord;
    StatusBytes();
    assert [] + StatusWord(INS_RET_SUCCESS) == StatusWord(INS_RET_SUCCESS);
    Arrive(c, d.p, t, k, chunk, future);
    var q := d.p.(data := chunk);
    var k' := RunSync(c, q, t, k, future);
    SyncedInv(c, q, t, k, future);
    RunKeepsPath(c, q);
    ApduKeepsSession(c, d, 1, chunk);
    DataKeeps(d.p, chunk);
    RunOutputs(c, q);
    SyncedState(c, d.p, t, k, chunk + future);
    var e := OnApdu(c, d, 1, chunk);
    if e.awaiting {
      AcceptIntake(c, e, t, if q == e.p then k else k', future);
    }
  }

  lemma SyncedState(c: Sdk, p: Parser, t: Txn, k: nat, future: seq<byte>)
    requires t.WellFormed() && k <= t.Count() && Synced(c, p, t, k, future)
    ensures p.state <= TXN_OUT
  {}

  /** The first chunk, with p1 == 0, to an idle device. */
  lemma FirstExchange(c: Sdk, d: Dev, t: Txn, chunk: seq<byte>, future: seq<byte>)
    requires t.WellFormed() && Session(c, d) && !d.initialized && !d.awaiting && !d.stuck
    requires chunk + future == t.Encode()
    ensures Acknowledged(c, d, Exchange(c, d, 0, chunk), t, Advance(t, 0, 0, |chunk|), future)
  {
    hide Run, Advance, Inv, History, ShownFor, StatusWord, Holds, Synced, Txn.Encode, AcceptAll;
    StatusBytes();
    ApduKeepsSession(c, d, 0, chunk);
    var e := OnApdu(c, d, 0, chunk);
    Fresh(c, Begun(e).p, t, future);
    AcceptIntake(c, e, t, 0, future);
  }

  // The hash and the signatures.

  /** The device has handed out the inner hash and still owes the signatures from `j` on. */
  ghost predicate Owes(c: Sdk, d: Dev, t: Txn, j: nat)
    requires t.WellFormed() && j < |t.inputs|
  {
    && Session(c, d) && d.initialized && !d.awaiting && !d.stuck && d.p.data == []
    && d.p.inNum == |t.inputs|
    && if j == 0 then d.p.state == TXN_COMPUTE_SIGS && Holds(c, d.p, t, t.Count())
       else d.p.state == TXN_RET_SIGS && d.p.currObj == j && HoldsSigs(c, d.p, t)
  }

  ghost predicate HoldsSigs(c: Sdk, p: Parser, t: Txn)
    requires t.WellFormed()
  {
    forall i | 0 <= i < |t.inputs| :: p.slots[i] == SigOf(c, p.path, t, i)
  }

  /** The empty APDU after the last chunk, and the press that approves the last output. */
  lemma HashExchange(c: Sdk, d: Dev, t: Txn)
    requires t.WellFormed() && HostTurn(c, d, t, t.Count(), [])
    ensures var e := Exchange(c, d, 1, []);
      Owes(c, e, t, 0) && e.p.path == d.p.path && e.replies == d.replies + [InnerHash(c, t) + [0x90, 0x00]]
  {
    hide Run, StatusWord, ShownFor, Inv, History, Txn.Preimage, Txn.Encode, Txn.Rest, Txn.HashedUpTo;
    StatusBytes();
    ApduKeepsSession(c, d, 1, []);
    var e := OnApdu(c, d, 1, []);
    assert e == d.(awaiting := true) && e.p == d.p;
    AcceptKeepsSession(c, e);
    AtEnd(c, d.p, t, []);
    assert AcceptAll(c, e) == AcceptAll(c, OnAccept(c, e)) == OnAccept(c, e);
  }

  /** Signing in place or from a snapshot makes no difference to what is signed: input `i` under
      the path with its own index, over the inner hash and its own id. */
  lemma SignaturesAreRight(c: Sdk, p: Parser, t: Txn)
    requires t.WellFormed() && Inv(p) && p.state == TXN_COMPUTE_SIGS && p.inNum == |t.inputs| && Holds(c, p, t, t.Count())
    ensures HoldsSigs(c, p.(slots := SignAll(c, p)), t)
  {
    hide LE, Txn.Encode, Txn.Preimage, Txn.HashedUpTo, Input.Bytes, U4LE;
    forall i | 0 <= i < |t.inputs| ensures SignAll(c, p)[i] == SigOf(c, p.path, t, i) {
      InputRoundTrip(t.inputs[i]);
      SlotHolds(p.slots[i], t.inputs[i]);
    }
  }

  lemma SlotHolds(s: Slot, i: Input)
    requires s[..36] == i.Bytes()
    ensures s[..32] == i.uxId && U4LE(s, 32) == i.addressIndex
  {
    InputRoundTrip(i);
    assert s[..32] == s[..36][..32];
    assert U4LE(s, 32) == U4LE(s[..36], 32);
  }

  /** One page of signatures continues the list where the last one ended. */
  lemma {:induction false} PageIs(c: Sdk, p: Parser, t: Txn, j: nat, next: nat)
    requires t.WellFormed() && HoldsSigs(c, p, t) && j <= next <= |t.inputs|
    ensures SigList(c, p.path, t, j) + Concat(p.slots[j..next]) == SigList(c, p.path, t, next)
  {
    hide SigOf;
    if j < next {
      PageIs(c, p, t, j, next - 1);
      ConcatSnoc(p.slots, j, next);
    } else {
      assert p.slots[j..next] == [];
    }
  }

  function NextPage(t: Txn, j: nat): nat {
    if |t.inputs| - j > SIGS_PER_PAGE then j + SIGS_PER_PAGE else |t.inputs|
  }

  lemma NextPageIs(t: Txn, j: nat)
    ensures NextPage(t, j) == if |t.inputs| - j > 3 then j + 3 else |t.inputs|
  {}

  /** A request for signatures: three more, or the rest and the end of the session. */
  lemma SignatureExchange(c: Sdk, d: Dev, t: Txn, j: nat)
    requires t.WellFormed() && j < |t.inputs| && Owes(c, d, t, j)
    ensures var e := Exchange(c, d, 1, []); var next := NextPage(t, j);
      && (exists body :: e.replies == d.replies + [body + [0x90, 0x00]] && |body| <= 255
            && SigList(c, d.p.path, t, j) + body == SigList(c, d.p.path, t, next))
      && e.p.path == d.p.path && !e.awaiting && !e.stuck && Session(c, e)
      && if next == |t.inputs| then !e.initialized else Owes(c, e, t, next)
  {
    hide StatusWord, ShownFor, SigOf, Holds, SignAll, Concat, SigList;
    StatusBytes();
    ApduKeepsSession(c, d, 1, []);
    var next := NextPage(t, j);
    var q := if j == 0 then d.p.(slots := SignAll(c, d.p), currObj := 0, state := TXN_RET_SIGS) else d.p;
    if j == 0 { SignaturesAreRight(c, d.p, t); }
    PageIs(c, q, t, j, next);
    var body := Concat(q.slots[j..next]);
    PageSize(c, d.p.path, t, j, next, body);
    assert d.p.(data := []) == d.p;
    assert Run(c, d.p) == Stop(if next == |t.inputs| then TXN_FINISHED else TXN_PARTIAL, q.(currObj := next), body);
    var e := OnApdu(c, d, 1, []);
    assert AcceptAll(c, e) == e;
    assert e.replies == d.replies + [body + [0x90, 0x00]];
  }

  lemma PageSize(c: Sdk, path: Path, t: Txn, j: nat, next: nat, body: seq<byte>)
    requires j <= next <= |t.inputs| && next - j <= 3 && SigList(c, path, t, j) + body == SigList(c, path, t, next)
    ensures |body| <= 255
  {}
}
