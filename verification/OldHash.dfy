// When the answers of a run depend on an inner hash that was there before: exactly, for all runs.
module OldHash {
  import opened Bytes
  import opened Transaction
  import opened Crypto
  import opened TxnStream
  import opened DeviceModel
  import opened SessionIndependence

  lemma StepHash(c: Sdk, p: Parser)
    requires Inv(p) && History(p)
    ensures var r := Step(c, p); r.Undefined? || r.p.innerHash == p.innerHash || (r.Throw? && Closed(r.p))
  {
    hide U4LE, U8LE, Elem, SignAll, Concat;
  }

  /** Only taking the last output changes the inner hash. */
  lemma {:induction false} RunHash(c: Sdk, p: Parser)
    requires Inv(p) && History(p)
    ensures var r := Run(c, p); r.code == UNDEFINED || r.p.innerHash == p.innerHash || Closed(r.p)
    ensures p.state > TXN_OUT || Run(c, p).code == TXN_READY ==> Run(c, p).p.innerHash == p.innerHash
    decreases |p.data|
  {
    hide Inv, Step, History, Closed;
    StepHash(c, p);
    EachStep(c, p);
    ReadyHash(c, p);
    if Step(c, p).Next? { RunHash(c, Step(c, p).p); }
  }

  lemma ReadyHash(c: Sdk, p: Parser)
    requires Inv(p)
    ensures var r := Step(c, p);
      (r.Next? || p.state > TXN_OUT || (r.Throw? && r.code == TXN_READY)) ==> r.p.innerHash == p.innerHash
    ensures p.state > TXN_OUT ==> !Step(c, p).Next?
  {
    hide U4LE, U8LE, Elem, SignAll, Concat;
  }

  /** A press that takes the device past outputs it did not announce answers with the inner hash it
      found, whatever the inputs were and however they were split. */
  lemma PressRepeatsOldHash(c: Sdk, d: Dev)
    requires Session(c, d) && Enabled(d, Accept)
    requires var f := OnAccept(c, d); f.initialized && NoOutputs(f.p)
    ensures OnAccept(c, d).replies == d.replies + [d.p.innerHash + [0x90, 0x00]]
  {
    hide Inv, Run, ShownFor, StatusWord, Settled;
    StatusBytes();
    BegunFits(c, d);
    RunOutputs(c, Begun(d).p);
    RunHash(c, Begun(d).p);
  }

  /** Only the event that takes the last output of a session changes the inner hash. */
  lemma ApplyHash(c: Sdk, d: Dev, e: Event)
    requires Session(c, d) && Enabled(d, e)
    ensures var f := Apply(c, d, e); f.p.innerHash == d.p.innerHash || (f.initialized && Closed(f.p))
  {
    hide Inv, Run, ShownFor, StatusWord, History;
    if e.Accept? {
      BegunFits(c, d);
      RunHash(c, Begun(d).p);
    } else if e.Apdu? && d.initialized {
      DataKeeps(d.p, e.data);
      RunOutputs(c, d.p.(data := e.data));
      RunHash(c, d.p.(data := e.data));
    }
  }

  ghost predicate NeverCloses(c: Sdk, d: Dev, es: seq<Event>)
    requires Session(c, d) && Possible(c, d, es)
    decreases |es|
  {
    es == [] || (
      var f := Apply(c, d, es[0]);
      !(f.initialized && Closed(f.p)) && (ApplyKeepsSession(c, d, es[0]); NeverCloses(c, f, es[1..])))
  }

  /** Sessions without outputs, and sessions that break off before their last output, leave the inner
      hash as they found it. */
  lemma {:induction false} HashKept(c: Sdk, d: Dev, es: seq<Event>)
    requires Session(c, d) && Possible(c, d, es) && NeverCloses(c, d, es)
    ensures Exec(c, d, es).p.innerHash == d.p.innerHash
    decreases |es|
  {
    hide Apply, Inv, History, ShownFor, Closed;
    if es != [] {
      ApplyKeepsSession(c, d, es[0]);
      ApplyHash(c, d, es[0]);
      HashKept(c, Apply(c, d, es[0]), es[1..]);
    }
  }

  lemma ReplyGrows(c: Sdk, d: Dev, e: Event)
    requires Session(c, d) && Enabled(d, e)
    ensures d.replies <= Apply(c, d, e).replies
  {
    hide Inv, History, ShownFor, Run, StatusWord;
  }

  lemma {:induction false} RepliesGrow(c: Sdk, d: Dev, es: seq<Event>)
    requires Session(c, d) && Possible(c, d, es)
    ensures d.replies <= Exec(c, d, es).replies
    decreases |es|
  {
    hide Inv, History, ShownFor, Apply;
    if es != [] {
      ApplyKeepsSession(c, d, es[0]);
      ReplyGrows(c, d, es[0]);
      RepliesGrow(c, Apply(c, d, es[0]), es[1..]);
    }
  }

  lemma SettledAlike(d: Dev, e: Dev)
    requires SameDevices(d, e)
    ensures d.initialized == e.initialized && (d.initialized ==> Settled(d.p) == Settled(e.p))
  {}

  /** The last answers differ. */
  predicate ToldApart(d: Dev, e: Dev) {
    |d.replies| == |e.replies| > 0 && d.replies[|d.replies| - 1] != e.replies[|e.replies| - 1]
  }

  lemma SettlePress(c: Sdk, d: Dev, e: Dev)
    requires Session(c, d) && Session(c, e) && SameDevices(d, e) && d.p.innerHash != e.p.innerHash
    requires Enabled(d, Accept) && Enabled(e, Accept)
    requires var f := Apply(c, d, Accept); f.initialized && NoOutputs(f.p)
    ensures ToldApart(Apply(c, d, Accept), Apply(c, e, Accept))
  {
    hide Inv, History, OnAccept, ShownFor, StatusWord, SameInputs;
    SameAccept(c, d, e);
    PressRepeatsOldHash(c, d);
    PressRepeatsOldHash(c, e);
    Differ(d.p.innerHash, e.p.innerHash, [0x90, 0x00]);
  }

  lemma Differ(x: Digest, y: Digest, w: seq<byte>)
    ensures x + w == y + w <==> x == y
  {
    assert (x + w)[..32] == x && (y + w)[..32] == y;
  }

  /** The device with another inner hash left behind by the past. */
  function WithHash(d: Dev, h: Digest): Dev { d.(p := d.p.(innerHash := h)) }

  lemma WithHashSession(c: Sdk, d: Dev, h: Digest)
    requires Session(c, d) && !d.initialized && !d.awaiting && !d.stuck
    ensures var e := WithHash(d, h); Session(c, e) && SameDevices(d, e) && e.p.innerHash == h
  {}

  ghost predicate SameAnswers(c: Sdk, d: Dev, h: Digest, es: seq<Event>)
    requires Session(c, d) && Possible(c, d, es)
  {
    var e := WithHash(d, h);
    Session(c, e) && Possible(c, e, es) && Exec(c, e, es).replies == Exec(c, d, es).replies
  }

  // Signing over an old hash.

  /** The signatures that a session of the inputs in `at` gets over the hash of `p`. */
  ghost predicate SignedOver(c: Sdk, p: Parser, at: Parser) {
    forall i | 0 <= i < p.inNum && i < MAX_INPUTS :: p.slots[i] == SignatureFor(c, p.innerHash, p.path, at.slots[i])
  }

  /** A session without outputs, before or after signing the inputs in `at`. */
  ghost predicate Stale(c: Sdk, p: Parser, at: Parser) {
    && NoOutputs(p) && p.inNum == at.inNum && p.path == at.path
    && (p.state == TXN_COMPUTE_SIGS ==> SameInputs(p.slots, at.slots, p.inNum))
    && (p.state == TXN_RET_SIGS ==> SignedOver(c, p, at))
  }

  function PageEnd(inNum: uint32, from: byte): nat {
    if inNum - from > SIGS_PER_PAGE then from + SIGS_PER_PAGE else inNum
  }

  /** The signatures of one page, over the hash `h`. */
  function Page(c: Sdk, h: Digest, at: Parser, from: nat, to: nat): (s: seq<Signature>)
    requires from <= to <= MAX_INPUTS
    ensures |s| == to - from
  {
    seq<Signature>(to - from, i requires 0 <= i < to - from => SignatureFor(c, h, at.path, at.slots[from + i]))
  }

  lemma {:induction false} ConcatLength(x: seq<Signature>)
    ensures |Concat(x)| == SIG_LEN * |x|
  {
    if x != [] { ConcatLength(x[..|x| - 1]); }
  }

  lemma {:induction false} ConcatTells(x: seq<Signature>, y: seq<Signature>)
    requires |x| == |y|
    ensures Concat(x) == Concat(y) <==> x == y
  {
    if x != [] {
      var n := |x| - 1;
      ConcatTells(x[..n], y[..n]);
      ConcatLength(x[..n]);
      ConcatLength(y[..n]);
      LastSlot(Concat(x[..n]), x[n], Concat(y[..n]), y[n]);
      assert x == x[..n] + [x[n]] && y == y[..n] + [y[n]];
    }
  }

  lemma LastSlot(x: seq<byte>, s: Signature, y: seq<byte>, t: Signature)
    requires |x| == |y|
    ensures x + s == y + t <==> x == y && s == t
  {
    assert (x + s)[..|x|] == x && (x + s)[|x|..] == s && (y + t)[..|y|] == y && (y + t)[|y|..] == t;
  }

  lemma SignsOver(c: Sdk, p: Parser, at: Parser)
    requires Inv(p) && Stale(c, p, at) && p.state == TXN_COMPUTE_SIGS
    ensures SignedOver(c, p.(slots := SignAll(c, p), currObj := 0, state := TXN_RET_SIGS), at)
  {
    hide U4LE;
    forall i | 0 <= i < p.inNum ensures SignAll(c, p)[i] == SignatureFor(c, p.innerHash, p.path, at.slots[i]) {
      SlotRead(p.slots[i], at.slots[i]);
    }
  }

  /** One more page from a session without outputs, without any press. */
  lemma PageOver(c: Sdk, p: Parser, at: Parser)
    requires Inv(p) && Stale(c, p, at)
    ensures var r, to := Run(c, p), PageEnd(p.inNum, p.currObj);
      && p.currObj <= to <= p.inNum <= MAX_INPUTS
      && r.body == Concat(Page(c, p.innerHash, at, p.currObj, to))
      && r.p.innerHash == p.innerHash && r.p.currObj == to && r.p.state == TXN_RET_SIGS && Stale(c, r.p, at) && r.p.data == p.data
      && r.code == if to < p.inNum then TXN_PARTIAL else TXN_FINISHED
  {
    hide Concat, SignAll, SignatureFor;
    var q := if p.state == TXN_COMPUTE_SIGS then p.(slots := SignAll(c, p), currObj := 0, state := TXN_RET_SIGS) else p;
    if p.state == TXN_COMPUTE_SIGS { SignsOver(c, p, at); }
    var to := PageEnd(p.inNum, p.currObj);
    assert q.slots[q.currObj..to] == Page(c, p.innerHash, at, p.currObj, to);
  }

  /** Two devices in such a session, over different hashes. */
  ghost predicate StaleTwo(c: Sdk, d: Dev, e: Dev, at: Parser) {
    && d.initialized && e.initialized && !d.awaiting && !e.awaiting && !d.stuck && !e.stuck
    && d.replies == e.replies && d.p.state == e.p.state && d.p.currObj == e.p.currObj
    && Stale(c, d.p, at) && Stale(c, e.p, at)
  }

  /** The host asks for a page that comes out differently over the hash `h`. */
  ghost predicate PageTells(c: Sdk, p: Parser, at: Parser, h: Digest, e: Event) {
    && e.Apdu? && e.p1 == 1
    && exists i: nat | p.currObj <= i < PageEnd(p.inNum, p.currObj) && i < MAX_INPUTS ::
      SignatureFor(c, p.innerHash, at.path, at.slots[i]) != SignatureFor(c, h, at.path, at.slots[i])
  }

  lemma PagesDiffer(c: Sdk, p: Parser, at: Parser, h: Digest)
    requires Inv(p) && Stale(c, p, at)
    ensures var to := PageEnd(p.inNum, p.currObj);
      && p.currObj <= to <= MAX_INPUTS
      && (Page(c, p.innerHash, at, p.currObj, to) != Page(c, h, at, p.currObj, to) <==> PageTells(c, p, at, h, Apdu(1, [])))
  {
    hide SignatureFor;
    var to := PageEnd(p.inNum, p.currObj);
    var x, y := Page(c, p.innerHash, at, p.currObj, to), Page(c, h, at, p.currObj, to);
    forall i | p.currObj <= i < to ensures
      x[i - p.currObj] == SignatureFor(c, p.innerHash, at.path, at.slots[i]) && y[i - p.currObj] == SignatureFor(c, h, at.path, at.slots[i]) {
    }
    if x != y {
      var j :| 0 <= j < |x| && x[j] != y[j];
      assert SignatureFor(c, p.innerHash, at.path, at.slots[p.currObj + j]) != SignatureFor(c, h, at.path, at.slots[p.currObj + j]);
    }
  }

  /** A request for a page, on one device. */
  lemma OldPage(c: Sdk, d: Dev, at: Parser, data: seq<byte>)
    requires Session(c, d) && d.initialized && !d.awaiting && !d.stuck && Stale(c, d.p, at)
    ensures var f, to := OnApdu(c, d, 1, data), PageEnd(d.p.inNum, d.p.currObj);
      && d.p.currObj <= to <= d.p.inNum <= MAX_INPUTS
      && f.replies == d.replies + [Concat(Page(c, d.p.innerHash, at, d.p.currObj, to)) + [0x90, 0x00]]
      && f.p.innerHash == d.p.innerHash && f.p.currObj == to && f.p.state == TXN_RET_SIGS && Stale(c, f.p, at)
      && !f.awaiting && !f.stuck && f.initialized == (to < d.p.inNum) && f.p.data == []
  {
    hide Concat, SignatureFor, Run, StatusWord, ShownFor, SignedOver, SameInputs;
    StatusBytes();
    DataKeeps(d.p, data);
    var q := d.p.(data := data);
    StaleData(c, d.p, at, data);
    PageOver(c, q, at);
    StaleData(c, Run(c, q).p, at, []);
  }

  lemma StaleData(c: Sdk, p: Parser, at: Parser, data: seq<byte>)
    requires Stale(c, p, at)
    ensures Stale(c, p.(data := data), at)
  {
    hide SignatureFor;
  }

  /** The same request on two devices: they stay in step if and only if the page comes out the same. */
  lemma StalePage(c: Sdk, d: Dev, e: Dev, at: Parser, data: seq<byte>)
    requires Session(c, d) && Session(c, e) && StaleTwo(c, d, e, at)
    ensures var f, g := OnApdu(c, d, 1, data), OnApdu(c, e, 1, data);
      if PageTells(c, d.p, at, e.p.innerHash, Apdu(1, data)) then ToldApart(f, g)
      else if f.initialized then StaleTwo(c, f, g, at) else SameDevices(f, g)
    ensures var f, g := OnApdu(c, d, 1, data), OnApdu(c, e, 1, data); f.p.innerHash == d.p.innerHash && g.p.innerHash == e.p.innerHash
    ensures var f := OnApdu(c, d, 1, data); f.initialized ==> NoOutputs(f.p)
  {
    hide Stale, Concat, SignatureFor, Session, OnApdu, StatusWord;
    StaleKnows(c, d, at);
    StaleKnows(c, e, at);
    OldPage(c, d, at, data);
    OldPage(c, e, at, data);
    var to := PageEnd(d.p.inNum, d.p.currObj);
    var x, y := Page(c, d.p.innerHash, at, d.p.currObj, to), Page(c, e.p.innerHash, at, d.p.currObj, to);
    PagesDiffer(c, d.p, at, e.p.innerHash);
    ConcatTells(x, y);
    SameTail(Concat(x), Concat(y), [0x90, 0x00]);
    StaleParts(c, OnApdu(c, d, 1, data).p, at);
    StaleParts(c, OnApdu(c, e, 1, data).p, at);
  }

  lemma StaleKnows(c: Sdk, d: Dev, at: Parser)
    requires Session(c, d) && d.initialized && Stale(c, d.p, at)
    ensures Inv(d.p) && Safe(d) && d.p.inNum == at.inNum && d.p.path == at.path
  {}

  lemma StaleParts(c: Sdk, p: Parser, at: Parser)
    requires Stale(c, p, at)
    ensures NoOutputs(p) && p.inNum == at.inNum && p.path == at.path
  {}

  lemma SameTail(x: seq<byte>, y: seq<byte>, w: seq<byte>)
    ensures x + w == y + w <==> x == y
  {
    if x + w == y + w {
      assert |x| == |y|;
      assert (x + w)[..|x|] == x && (y + w)[..|y|] == y;
    }
  }

  // Runs.

  /** With the hash `h` instead of its own, the device would be told apart in this run: a press that takes
      a session without outputs past them hands out the hash, and a page of signatures over it may come
      out differently; a session that takes its last output puts an end to it. `at` holds the inputs of
      the session that is signing. */
  ghost predicate Tells(c: Sdk, d: Dev, es: seq<Event>, h: Digest, at: Parser)
    requires Session(c, d) && Possible(c, d, es)
    decreases |es|
  {
    es != [] && (
      ApplyKeepsSession(c, d, es[0]);
      var f := Apply(c, d, es[0]);
      if f.initialized && Closed(f.p) then false
      else if d.initialized && NoOutputs(d.p) then PageTells(c, d.p, at, h, es[0]) || Tells(c, f, es[1..], h, at)
      else if f.initialized && NoOutputs(f.p) then es[0].Accept? || Tells(c, f, es[1..], h, f.p)
      else Tells(c, f, es[1..], h, at))
  }

  /** Two devices over different hashes that have answered alike so far. */
  ghost predicate InStep(c: Sdk, d: Dev, e: Dev, at: Parser) {
    && Session(c, d) && Session(c, e) && d.p.innerHash != e.p.innerHash
    && if d.initialized && NoOutputs(d.p) then StaleTwo(c, d, e, at) else SameDevices(d, e)
  }

  /** The runs end with the same answers if and only if nothing told. */
  ghost predicate TellsRight(c: Sdk, d: Dev, e: Dev, es: seq<Event>, tells: bool)
    requires Session(c, d) && Session(c, e) && Possible(c, d, es)
  {
    if tells then Possible(c, e, es) ==> Exec(c, d, es).replies != Exec(c, e, es).replies
    else Possible(c, e, es) && Exec(c, d, es).replies == Exec(c, e, es).replies
  }

  lemma StaleEvent(c: Sdk, d: Dev, e: Dev, at: Parser, v: Event)
    requires InStep(c, d, e, at) && d.initialized && NoOutputs(d.p) && Enabled(d, v) && Enabled(e, v)
    ensures var f, g := Apply(c, d, v), Apply(c, e, v);
      if PageTells(c, d.p, at, e.p.innerHash, v) then ToldApart(f, g) else InStep(c, f, g, at)
    ensures Apply(c, e, v).p.innerHash == e.p.innerHash
  {
    hide Stale, Inv, Run, ShownFor, StatusWord, SignatureFor, PageEnd, History, PageTells;
    ApplyKeepsSession(c, d, v);
    ApplyKeepsSession(c, e, v);
    PageRequest(c, d.p, at, e.p.innerHash, v);
    StaleKnows(c, d, at);
    StaleKnows(c, e, at);
    if v.p1 == 1 { StalePage(c, d, e, at, v.data); }
  }

  lemma PageRequest(c: Sdk, p: Parser, at: Parser, h: Digest, v: Event)
    ensures PageTells(c, p, at, h, v) ==> v.Apdu? && v.p1 == 1
    ensures v.Apdu? && v.p1 == 1 ==> PageTells(c, p, at, h, v) == PageTells(c, p, at, h, Apdu(1, v.data))
  {}

  lemma SameEvent(c: Sdk, d: Dev, e: Dev, at: Parser, v: Event)
    requires InStep(c, d, e, at) && !(d.initialized && NoOutputs(d.p)) && Enabled(d, v) && Enabled(e, v)
    ensures var f, g := Apply(c, d, v), Apply(c, e, v);
      if f.initialized && Closed(f.p) then SameDevices(f, g) && f.p.innerHash == g.p.innerHash
      else if f.initialized && NoOutputs(f.p) then if v.Accept? then ToldApart(f, g) else InStep(c, f, g, f.p)
      else InStep(c, f, g, at)
    ensures var f, g := Apply(c, d, v), Apply(c, e, v); !(f.initialized && Closed(f.p)) ==> g.p.innerHash == e.p.innerHash
  {
    hide Apply, Inv, Same, StalePair, Closed, NoOutputs, ShownFor, History, SameDevices;
    ApplyKeepsSession(c, d, v);
    ApplyKeepsSession(c, e, v);
    SameApply(c, d, e, v);
    ApplyHash(c, d, v);
    ApplyHash(c, e, v);
    var f, g := Apply(c, d, v), Apply(c, e, v);
    if SameDevices(f, g) {
      SettledAlike(f, g);
      if f.initialized { NoOutputsSettle(f, g); ClosedSettles(f, g); }
    } else {
      StaleIs(f, g);
      if v.Accept? { SettlePress(c, d, e); } else { StaleStart(c, f, g); }
    }
  }

  lemma ClosedSettles(d: Dev, e: Dev)
    requires d.initialized
    ensures Closed(d.p) ==> Settled(d.p) && !NoOutputs(d.p)
    ensures SameDevices(d, e) ==> e.initialized && Closed(d.p) == Closed(e.p)
  {}

  lemma StaleIs(d: Dev, e: Dev)
    requires StaleDevices(d, e)
    ensures NoOutputs(d.p) && NoOutputs(e.p) && !Closed(d.p) && !Closed(e.p)
  {}

  lemma StaleStart(c: Sdk, d: Dev, e: Dev)
    requires StaleDevices(d, e) && d.replies == e.replies
    ensures StaleTwo(c, d, e, d.p)
  {}

  lemma {:induction false} RunTells(c: Sdk, d: Dev, e: Dev, es: seq<Event>, at: Parser)
    requires InStep(c, d, e, at) && Possible(c, d, es)
    ensures TellsRight(c, d, e, es, Tells(c, d, es, e.p.innerHash, at))
    decreases |es|
  {
    hide Apply, Session, Inv, Same, Stale, Closed, NoOutputs, PageTells, ToldApart;
    InStepKnows(c, d, e, at);
    if es != [] {
      var v := es[0];
      ApplyKeepsSession(c, d, v);
      ApplyKeepsSession(c, e, v);
      var f, g := Apply(c, d, v), Apply(c, e, v);
      if d.initialized && NoOutputs(d.p) {
        StaleEvent(c, d, e, at, v);
        Unclosed(c, d, v);
        if PageTells(c, d.p, at, e.p.innerHash, v) { TellsLast(c, d, e, es); } else { RunTells(c, f, g, es[1..], at); }
      } else {
        SameEvent(c, d, e, at, v);
        if f.initialized && Closed(f.p) {
          SameRuns(c, f, g, es[1..]);
        } else if f.initialized && NoOutputs(f.p) {
          if v.Accept? { TellsLast(c, d, e, es); } else { RunTells(c, f, g, es[1..], f.p); }
        } else {
          RunTells(c, f, g, es[1..], at);
        }
      }
    }
  }

  lemma InStepKnows(c: Sdk, d: Dev, e: Dev, at: Parser)
    requires InStep(c, d, e, at)
    ensures Session(c, d) && Session(c, e) && d.replies == e.replies && d.awaiting == e.awaiting && d.stuck == e.stuck
    ensures d.p.innerHash != e.p.innerHash
  {}

  lemma Unclosed(c: Sdk, d: Dev, v: Event)
    requires Session(c, d) && d.initialized && NoOutputs(d.p) && Enabled(d, v)
    ensures var f := Apply(c, d, v); !(f.initialized && Closed(f.p))
  {
    hide Inv, Run, ShownFor, StatusWord;
    if v.Apdu? {
      DataKeeps(d.p, v.data);
      RunOutputs(c, d.p.(data := v.data));
    }
  }

  /** Once two answers differ, so do the answers of the whole run. */
  lemma TellsLast(c: Sdk, d: Dev, e: Dev, es: seq<Event>)
    requires Session(c, d) && Session(c, e) && Possible(c, d, es) && es != [] && Enabled(e, es[0])
    requires ToldApart(Apply(c, d, es[0]), Apply(c, e, es[0]))
    ensures Possible(c, e, es) ==> Exec(c, d, es).replies != Exec(c, e, es).replies
  {
    hide Apply, Inv, History, ShownFor;
    ApplyKeepsSession(c, d, es[0]);
    ApplyKeepsSession(c, e, es[0]);
    RepliesGrow(c, Apply(c, d, es[0]), es[1..]);
    if Possible(c, e, es) { RepliesGrow(c, Apply(c, e, es[0]), es[1..]); }
  }

  /** When the answers of a run depend on an old hash: exactly, for every run from an idle device and
      every other hash that might have been there. */
  lemma OldHashExactly(c: Sdk, d: Dev, h: Digest, es: seq<Event>)
    requires Session(c, d) && !d.initialized && !d.awaiting && !d.stuck && Possible(c, d, es)
    ensures SameAnswers(c, d, h, es) <==> h == d.p.innerHash || !Tells(c, d, es, h, d.p)
  {
    hide Session, Possible, Exec, Tells, SameDevices;
    WithHashSession(c, d, h);
    if h == d.p.innerHash {
      SameRuns(c, d, WithHash(d, h), es);
    } else {
      RunTells(c, d, WithHash(d, h), es, d.p);
    }
  }

  /** If the first session to settle its hash announces outputs, nothing tells. If it announces none and
      a press settles it, every other hash tells. */
  lemma {:induction false} FirstSettledTells(c: Sdk, d: Dev, es: seq<Event>, h: Digest, at: Parser)
    requires Session(c, d) && Possible(c, d, es) && !(d.initialized && Settled(d.p))
    ensures !SettlesOnOldHash(c, d, es) ==> !Tells(c, d, es, h, at)
    ensures SettlesOnOldHash(c, d, es) && FirstSettled(c, d, es).value.0.Accept? ==> Tells(c, d, es, h, at)
    decreases |es|
  {
    hide Apply, Inv, History, ShownFor, PageTells;
    if es != [] {
      ApplyKeepsSession(c, d, es[0]);
      var f := Apply(c, d, es[0]);
      if !(f.initialized && Settled(f.p)) {
        FirstSettledTells(c, f, es[1..], h, at);
      } else {
        FirstPasses(c, d, es[0]);
      }
    }
  }

  /** A session that has not closed its hash gets past its outputs only if it has none. */
  lemma FirstPasses(c: Sdk, d: Dev, v: Event)
    requires Session(c, d) && Enabled(d, v) && !(d.initialized && Settled(d.p))
    ensures var f := Apply(c, d, v); f.initialized && f.p.state > TXN_OUT ==> NoOutputs(f.p)
  {
    hide Inv, Run, ShownFor, StatusWord;
    if v.Accept? {
      BegunFits(c, d);
      RunPasses(c, Begun(d).p);
    } else if v.Apdu? && d.initialized {
      DataKeeps(d.p, v.data);
      RunPasses(c, d.p.(data := v.data));
    }
  }

  lemma RunPasses(c: Sdk, p: Parser)
    requires Inv(p) && History(p) && !Settled(p)
    ensures var r := Run(c, p); r.code != UNDEFINED && r.p.state > TXN_OUT ==> r.p.outNum == 0
  {
    hide Inv, Step;
    RunOutputs(c, p);
    if p.state == TXN_OUT { OutPasses(c, p); }
  }

  lemma OutPasses(c: Sdk, p: Parser)
    requires Inv(p) && History(p) && p.state == TXN_OUT
    ensures Step(c, p).Throw? && (Step(c, p).p.state > TXN_OUT ==> p.currObj == p.outNum == Step(c, p).p.outNum)
  {
    hide ReadOutput, Elem;
  }
}
