// scripts/sign_transaction.py: send_txn, talking to a device whose user accepts whatever is shown.
module Host {
  import opened Bytes
  import opened Wrappers
  import opened Positional
  import opened Transaction
  import opened Crypto
  import opened TxnStream
  import opened Chunking
  import opened DeviceModel
  import opened Protocol
  import opened TxnSigner
  import opened LedgerDevice
  import opened HostText

  const CHUNK := 254

  /** dongle.exchange: the APDU goes into the I/O buffer, the user accepts until it is answered, and
      the host gets the answer without its status word, or an exception. */
  method DongleExchange(device: Device, p1: nat, data: seq<byte>) returns (body: Option<seq<byte>>)
    requires device.Consistent() && !device.awaiting && |data| <= 255
    requires !Exchange(device.signer.sdk, device.State(), p1, data).stuck
    modifies device, device.signer, device.signer.buffer, device.signer.sigInput, device.io
    ensures device.Consistent() && !device.awaiting
    ensures device.State() == Exchange(device.signer.sdk, old(device.State()), p1, data)
    ensures OneMore(old(device.replies), device.replies)
    ensures var reply := device.replies[|device.replies| - 1]; body == if Accepted(reply) then Some(BodyOf(reply)) else None
  {
    hide OnApdu, OnAccept, Signer.Core, Inv, History, ShownFor, Session;
    ghost var c, before := device.signer.sdk, device.State();
    forall i | 0 <= i < |data| { device.io[OFFSET_CDATA + i] := data[i]; }
    assert device.io[OFFSET_CDATA..OFFSET_CDATA + |data|] == data;
    assert device.State() == before;
    ApduKeepsSession(c, before, p1, data);
    ExchangeAnswersOnce(c, before, p1, data);
    device.HandleSignTxn(p1, OFFSET_CDATA, |data|);
    while device.awaiting
      invariant device.Consistent()
      invariant AcceptAll(c, device.State()) == Exchange(c, before, p1, data)
      decreases device.awaiting, |device.State().p.data|
    {
      AcceptKeepsSession(c, device.State());
      AcceptProgress(c, device.State());
      AcceptAnswersOnce(c, device.State());
      device.TransactionScreenButton(true);
    }
    var reply := device.replies[|device.replies| - 1];
    body := if Accepted(reply) then Some(reply[..|reply| - 2]) else None;
  }

  /** The transport takes an answer for a success if it ends in 0x9000; anything else is an exception. */
  predicate Accepted(reply: seq<byte>) {
    |reply| >= 2 && reply[|reply| - 2] == 0x90 && reply[|reply| - 1] == 0x00
  }

  /** A successful answer without its status word. */
  function BodyOf(reply: seq<byte>): seq<byte>
    requires Accepted(reply)
  {
    reply[..|reply| - 2]
  }

  lemma BodyBack(body: seq<byte>)
    ensures Accepted(body + [0x90, 0x00]) && BodyOf(body + [0x90, 0x00]) == body
  {}

  // The byte positions of the chunks.

  function Sent(total: nat, i: nat): nat {
    if i * CHUNK < total then i * CHUNK else total
  }

  function CeilDiv(n: nat, d: nat): nat
    requires d > 0
  {
    (n + d - 1) / d
  }

  /** The least number of parts of size `d` that `n` fits into. */
  lemma CeilDivIs(n: nat, d: nat)
    requires d > 0
    ensures var r := CeilDiv(n, d); n <= r * d && (r > 0 ==> (r - 1) * d < n)
  {
    DivMod(n + d - 1, d);
    if CeilDiv(n, d) > 0 { Distributes(CeilDiv(n, d) - 1, 1, d); }
  }

  /** The session after `i` chunks. */
  ghost predicate AfterChunks(c: Sdk, d: Dev, t: Txn, i: nat, k: nat)
    requires t.WellFormed()
  {
    var stream := t.Encode();
    if i == 0 then Session(c, d) && !d.initialized && !d.awaiting && !d.stuck
    else HostTurn(c, d, t, k, stream[Sent(|stream|, i)..])
  }

  /** What one more chunk does. */
  lemma NextChunk(c: Sdk, d: Dev, t: Txn, i: nat, k: nat) returns (k': nat)
    requires t.WellFormed() && AfterChunks(c, d, t, i, k) && i * CHUNK < |t.Encode()|
    ensures var stream := t.Encode(); var chunk := stream[Sent(|stream|, i)..Sent(|stream|, i + 1)];
      var e := Exchange(c, d, if i == 0 then 0 else 1, chunk);
      && AfterChunks(c, e, t, i + 1, k') && !e.stuck && e.p.path == d.p.path
      && e.replies == d.replies + [[0x90, 0x00]]
  {
    hide Exchange, Session, Synced, StatusWord, Advance, Txn.Encode, Txn.Element, Txn.Rest;
    var stream := t.Encode();
    var from, to := Sent(|stream|, i), Sent(|stream|, i + 1);
    var chunk, future := stream[from..to], stream[to..];
    assert chunk + future == stream[from..];
    if i == 0 {
      assert chunk + future == stream;
      FirstExchange(c, d, t, chunk, future);
      k' := Advance(t, 0, 0, |chunk|).0;
    } else {
      ChunkFits(c, d.p, t, k, chunk, future);
      ChunkExchange(c, d, t, k, chunk, future);
      k' := Advance(t, k, |d.p.carry|, |chunk|).0;
    }
  }

  /** A chunk of 254 bytes, or whatever is left at the end, completes the element it begins in. */
  lemma ChunkFits(c: Sdk, p: Parser, t: Txn, k: nat, chunk: seq<byte>, future: seq<byte>)
    requires t.WellFormed() && k <= t.Count() && Synced(c, p, t, k, chunk + future) && p.data == []
    requires chunk != [] && (|chunk| >= 37 || future == [])
    ensures k < t.Count() && Completes(t, k, |p.carry|, |chunk|)
  {
    hide Txn.HashedUpTo, Txn.Encode, LE, Input.Bytes, Output.Bytes, HoldsInputs;
    assert |t.Rest(k)| == |p.carry| + |chunk| + |future|;
    if k < t.Count() {
      hide Txn.Rest;
      ElementSize(t, k);
      RestCovers(t, k);
    }
  }

  // The signatures in the collected answers.

  /** After the chunks: nothing, or the hash and the first `j` signatures, has come back. */
  ghost predicate Collected(c: Sdk, d: Dev, t: Txn, path: Path, got: seq<byte>, j: nat)
    requires t.WellFormed()
  {
    && j <= |t.inputs| && Session(c, d) && !d.awaiting && !d.stuck && d.p.path == path
    && (got == [] ==> j == 0 && HostTurn(c, d, t, t.Count(), []))
    && (got != [] ==> got == InnerHash(c, t) + SigList(c, path, t, j))
    && (got != [] && j == |t.inputs| ==> !d.initialized)
    && (got != [] && j < |t.inputs| ==> Owes(c, d, t, j))
  }

  lemma HashAnswer(c: Sdk, d: Dev, t: Txn, path: Path)
    requires t.WellFormed() && Collected(c, d, t, path, [], 0)
    ensures var e := Exchange(c, d, 1, []);
      !e.stuck && OneMore(d.replies, e.replies) && Accepted(e.replies[|e.replies| - 1])
      && var body := BodyOf(e.replies[|e.replies| - 1]); |body| == 32 && Collected(c, e, t, path, [] + body, 0)
  {
    hide Exchange, Session, HostTurn, Owes, SigOf, InnerHash;
    var e := Exchange(c, d, 1, []);
    HashExchange(c, d, t);
    BodyBack(InnerHash(c, t));
    assert BodyOf(e.replies[|d.replies|]) == InnerHash(c, t) == [] + InnerHash(c, t);
    assert SigList(c, path, t, 0) == [];
    assert InnerHash(c, t) + [] == InnerHash(c, t);
    OwesNothingElse(c, e, t, 0);
  }

  lemma SignatureAnswer(c: Sdk, d: Dev, t: Txn, path: Path, got: seq<byte>, j: nat)
    requires t.WellFormed() && Collected(c, d, t, path, got, j) && got != [] && j < |t.inputs|
    ensures var e := Exchange(c, d, 1, []);
      !e.stuck && OneMore(d.replies, e.replies) && Accepted(e.replies[|e.replies| - 1])
      && Collected(c, e, t, path, got + BodyOf(e.replies[|e.replies| - 1]), NextPage(t, j))
  {
    hide Exchange, Session, HostTurn, Owes, SigOf, InnerHash, SigList;
    var e := Exchange(c, d, 1, []);
    SignatureExchange(c, d, t, j);
    var body :| e.replies == d.replies + [body + [0x90, 0x00]]
      && SigList(c, path, t, j) + body == SigList(c, path, t, NextPage(t, j));
    BodyBack(body);
    assert BodyOf(e.replies[|d.replies|]) == body;
    assert got + body == InnerHash(c, t) + (SigList(c, path, t, j) + body);
  }

  /** How many empty APDUs it took to get this far. */
  function Answers(got: seq<byte>, j: nat): nat {
    if got == [] then 0 else 1 + CeilDiv(j, SIGS_PER_PAGE)
  }

  ghost predicate WholePages(t: Txn, j: nat) {
    j == |t.inputs| || j % SIGS_PER_PAGE == 0
  }

  /** One answer further: `more` is what has come back then. */
  ghost predicate Further(c: Sdk, d: Dev, e: Dev, t: Txn, path: Path, got: seq<byte>, j: nat, more: seq<byte>, j': nat)
    requires t.WellFormed()
  {
    && !e.stuck && OneMore(d.replies, e.replies) && Accepted(e.replies[|e.replies| - 1]) && more == got + BodyOf(e.replies[|e.replies| - 1])
    && Collected(c, e, t, path, more, j') && WholePages(t, j')
    && |got| < |more| == 32 + j' * SIG_LEN && Answers(more, j') == Answers(got, j) + 1
  }

  /** One empty APDU: the hash first, then up to three signatures at a time. */
  lemma NextAnswer(c: Sdk, d: Dev, t: Txn, path: Path, got: seq<byte>, j: nat) returns (more: seq<byte>, j': nat)
    requires t.WellFormed() && Collected(c, d, t, path, got, j) && WholePages(t, j) && |got| < 32 + |t.inputs| * SIG_LEN
    ensures Session(c, d) && !d.awaiting && Further(c, d, Exchange(c, d, 1, []), t, path, got, j, more, j')
  {
    hide Exchange, Session, Collected, WholePages, CeilDiv, NextPage, BodyOf, Further;
    GotLength(c, d, t, path, got, j);
    if got == [] {
      more := FirstAnswer(c, d, t, path);
      j' := 0;
    } else {
      more := LaterAnswer(c, d, t, path, got, j);
      j' := NextPage(t, j);
    }
  }

  lemma FirstAnswer(c: Sdk, d: Dev, t: Txn, path: Path) returns (more: seq<byte>)
    requires t.WellFormed() && Collected(c, d, t, path, [], 0)
    ensures Session(c, d) && !d.awaiting && Further(c, d, Exchange(c, d, 1, []), t, path, [], 0, more, 0)
  {
    hide Exchange, Session, Collected, WholePages, CeilDiv, BodyOf, OneMore;
    GotLength(c, d, t, path, [], 0);
    PageCount(t, 0);
    HashAnswer(c, d, t, path);
    var e := Exchange(c, d, 1, []);
    OneMoreThere(d.replies, e.replies);
    more := [] + BodyOf(e.replies[|e.replies| - 1]);
  }

  lemma LaterAnswer(c: Sdk, d: Dev, t: Txn, path: Path, got: seq<byte>, j: nat) returns (more: seq<byte>)
    requires t.WellFormed() && Collected(c, d, t, path, got, j) && WholePages(t, j) && got != [] && j < |t.inputs|
    ensures Session(c, d) && !d.awaiting && Further(c, d, Exchange(c, d, 1, []), t, path, got, j, more, NextPage(t, j))
  {
    hide Exchange, Session, Collected, WholePages, CeilDiv, NextPage, BodyOf, OneMore;
    GotLength(c, d, t, path, got, j);
    PageCount(t, j);
    SignatureAnswer(c, d, t, path, got, j);
    var e := Exchange(c, d, 1, []);
    OneMoreThere(d.replies, e.replies);
    more := got + BodyOf(e.replies[|e.replies| - 1]);
    GotLength(c, e, t, path, more, NextPage(t, j));
  }

  lemma OneMoreThere(before: seq<seq<byte>>, after: seq<seq<byte>>)
    requires OneMore(before, after)
    ensures |after| > 0 && |after[|after| - 1]| >= 2
  {}

  /** Pages are counted in whole pages. */
  lemma PageCount(t: Txn, j: nat)
    requires WholePages(t, j) && j <= |t.inputs|
    ensures WholePages(t, 0) && CeilDiv(0, SIGS_PER_PAGE) == 0
    ensures j < |t.inputs| ==> j < NextPage(t, j) <= |t.inputs| && WholePages(t, NextPage(t, j))
    ensures j < |t.inputs| ==> CeilDiv(NextPage(t, j), SIGS_PER_PAGE) == CeilDiv(j, SIGS_PER_PAGE) + 1
  {}

  lemma GotLength(c: Sdk, d: Dev, t: Txn, path: Path, got: seq<byte>, j: nat)
    requires t.WellFormed() && Collected(c, d, t, path, got, j)
    ensures Session(c, d) && !d.awaiting
    ensures j <= |t.inputs| && if got == [] then j == 0 else |got| == 32 + j * SIG_LEN
  {}

  lemma OwesNothingElse(c: Sdk, d: Dev, t: Txn, j: nat)
    requires t.WellFormed() && j < |t.inputs| && Owes(c, d, t, j)
    ensures Session(c, d) && !d.awaiting && !d.stuck
  {}

  /** The i-th piece of 65 bytes behind the hash is the signature of input i. */
  lemma {:induction false} PieceIs(c: Sdk, path: Path, t: Txn, i: nat, n: nat)
    requires i < n <= |t.inputs|
    ensures SigList(c, path, t, n)[i * 65..(i + 1) * 65] == SigOf(c, path, t, i)
  {
    hide SigOf;
    if i < n - 1 {
      PieceIs(c, path, t, i, n - 1);
      var all := SigList(c, path, t, n);
      assert all[i * SIG_LEN..(i + 1) * SIG_LEN] == SigList(c, path, t, n - 1)[i * SIG_LEN..(i + 1) * SIG_LEN];
    }
  }

  /** unpack("<L", a2b_hex(txn[:8])) is the number of inputs. */
  lemma CountField(t: Txn, txn: Text)
    requires t.WellFormed() && Spells(txn, t.Encode())
    ensures |txn| >= 8 && |FromHex(txn[..8])| == 4 && U4LE(FromHex(txn[..8]), 0) == |t.inputs|
  {
    hide LE, FromHex, U4LE, Input.Bytes, Output.Bytes;
    var stream := t.Encode();
    assert stream == LE(|t.inputs|, 4) + t.Rest(1);
    assert stream[0..4] == LE(|t.inputs|, 4);
    FromHexSlice(txn, 0, 4);
    assert txn[0..8] == txn[..8];
    CountRoundTrip(|t.inputs|);
  }

  /** Hexadecimal text, in digits of either case. */
  predicate Spells(txn: Text, bytes: seq<byte>) {
    IsHex(txn) && |txn| == 2 * |bytes| && FromHex(txn) == bytes
  }

  /** The text spells the stream up to byte `at`, and the next two characters are not a byte. */
  ghost predicate BrokenAt(txn: Text, stream: seq<byte>, at: nat) {
    && at < |stream| && |txn| > 2 * at + 1 && Spells(txn[..2 * at], stream[..at])
    && (!HexDigit(txn[2 * at]) || !HexDigit(txn[2 * at + 1]))
  }

  /** What the host may be given: a text of the transaction, or a text that breaks off. */
  ghost predicate Given(txn: Text, t: Txn, broken: Option<nat>) {
    match broken
    case None => Spells(txn, t.Encode())
    case Some(at) => BrokenAt(txn, t.Encode(), at)
  }

  /** The slice of `txn` that goes into chunk `i`. */
  function Piece(txn: Text, i: nat): Text
    requires i * CHUNK * 2 <= |txn|
  {
    txn[i * CHUNK * 2..if (i + 1) * CHUNK * 2 < |txn| then (i + 1) * CHUNK * 2 else |txn|]
  }

  /** A slice spells its chunk, unless the text breaks off in it. */
  lemma PieceSpells(txn: Text, t: Txn, broken: Option<nat>, i: nat)
    requires Given(txn, t, broken) && i * CHUNK * 2 < |txn| && (broken.Some? ==> i <= broken.value / CHUNK)
    ensures var stream := t.Encode();
      if broken.Some? && i == broken.value / CHUNK then !IsHex(Piece(txn, i))
      else i * CHUNK < |stream| && IsHex(Piece(txn, i)) && FromHex(Piece(txn, i)) == stream[Sent(|stream|, i)..Sent(|stream|, i + 1)]
  {
    hide FromHex, Piece, Txn.Encode;
    var stream := t.Encode();
    if broken.Some? && i == broken.value / CHUNK {
      PieceBreaks(txn, stream, broken.value, i);
    } else {
      var from, to := Sent(|stream|, i), Sent(|stream|, i + 1);
      var n := if broken.Some? then broken.value else |stream|;
      var whole := txn[..2 * n];
      assert Spells(whole, stream[..n]) by { assert stream[..|stream|] == stream; assert txn[..|txn|] == txn; }
      assert from == i * CHUNK <= to <= n && (to == (i + 1) * CHUNK || 2 * to == |txn| <= 2 * (i + 1) * CHUNK);
      FromHexSlice(whole, from, to);
      assert stream[..n][from..to] == stream[from..to];
      PieceIsSlice(txn, i, n, to);
      SliceIsHex(whole, from, to);
    }
  }

  lemma SliceIsHex(t: Text, i: nat, j: nat)
    requires IsHex(t) && i <= j && 2 * j <= |t|
    ensures IsHex(t[2 * i..2 * j])
  {
    forall k | 0 <= k < 2 * j - 2 * i ensures HexDigit(t[2 * i..2 * j][k]) {
      assert t[2 * i..2 * j][k] == t[2 * i + k];
    }
  }

  lemma PieceBreaks(txn: Text, stream: seq<byte>, at: nat, i: nat)
    requires BrokenAt(txn, stream, at) && i == at / CHUNK
    ensures i * CHUNK * 2 <= |txn| && !IsHex(Piece(txn, i))
  {
    DivMod(at, CHUNK);
    var k := 2 * at - i * CHUNK * 2;
    assert Piece(txn, i)[k] == txn[2 * at];
    assert k + 1 < |Piece(txn, i)| && Piece(txn, i)[k + 1] == txn[2 * at + 1];
  }

  lemma PieceIsSlice(txn: Text, i: nat, n: nat, to: nat)
    requires i * CHUNK <= to <= n && 2 * n <= |txn| && ((to == (i + 1) * CHUNK) || 2 * to == |txn| <= 2 * (i + 1) * CHUNK)
    ensures Piece(txn, i) == txn[..2 * n][2 * (i * CHUNK)..2 * to]
  {}

  lemma MoreToSend(txn: Text, t: Txn, broken: Option<nat>, i: nat)
    requires t.WellFormed() && Given(txn, t, broken)
    ensures broken.None? ==> (i * 2 * CHUNK < |txn| <==> i * CHUNK < |t.Encode()|) && 0 < |txn|
    ensures broken.Some? && i <= broken.value / CHUNK ==> i * 2 * CHUNK < |txn|
  {
    hide FromHex, Txn.Encode;
    StreamIsLong(t);
  }

  /** The session between two chunks. */
  ghost predicate Sending(c: Sdk, d: Dev, t: Txn, i: nat)
    requires t.WellFormed()
  {
    exists k: nat :: AfterChunks(c, d, t, i, k)
  }

  /** send_txn, first loop: all chunks. `ret` is the body of the last answer; None is the exception of
      fromhex in the first chunk that is not hexadecimal. */
  method SendChunks(device: Device, txn: Text, ghost t: Txn, ghost broken: Option<nat>)
    returns (ret: Option<seq<byte>>, exchanges: nat)
    requires device.Consistent() && !device.signer.initialized && !device.awaiting
    requires t.WellFormed() && Given(txn, t, broken)
    modifies device, device.signer, device.signer.buffer, device.signer.sigInput, device.io
    ensures device.Consistent() && !device.awaiting && device.signer.bip44Path == old(device.signer.bip44Path)
    ensures |device.replies| == |old(device.replies)| + exchanges
    ensures broken.None? ==>
      && ret == Some([]) && exchanges == CeilDiv(|t.Encode()|, CHUNK)
      && Collected(device.signer.sdk, device.State(), t, old(device.signer.bip44Path), [], 0)
    ensures broken.Some? ==> ret.None? && exchanges == broken.value / CHUNK && Sending(device.signer.sdk, device.State(), t, exchanges)
  {
    hide Session, HostTurn, Hexlify, FromHex, Txn.Encode, Signer.Core, Safe, Piece, IsHex, Given, AfterChunks, Collected;
    ghost var c, stream, path, k := device.signer.sdk, t.Encode(), device.signer.bip44Path, 0;
    var i: nat, p1: nat, asked: nat := 0, 0, 0;
    exchanges, ret := 0, Some([]);
    MoreToSend(txn, t, broken, 0);
    BeforeChunks(c, device.State(), t);
    while i * 2 * CHUNK < |txn|
      invariant device.Consistent() && !device.awaiting && AfterChunks(c, device.State(), t, i, k)
      invariant device.signer.bip44Path == path && |device.replies| == |old(device.replies)| + exchanges
      invariant p1 == (if i == 0 then 0 else 1) && ret == Some([]) && exchanges == i
      invariant if broken.Some? then i <= broken.value / CHUNK else i <= CeilDiv(|stream|, CHUNK)
      decreases |txn| - i * 2 * CHUNK
    {
      MoreToSend(txn, t, broken, i);
      ret, asked, k := SendPiece(device, txn, i, p1, t, broken, k);
      exchanges := exchanges + asked;
      if ret.None? {
        return;
      }
      p1 := 1;
      i := i + 1;
      MoreToSend(txn, t, broken, i);
    }
    MoreToSend(txn, t, broken, i);
    ChunksDone(c, device.State(), t, i, k, path);
  }

  /** One round of the loop: a slice that is not hexadecimal is not sent. */
  method SendPiece(device: Device, txn: Text, i: nat, p1: nat, ghost t: Txn, ghost broken: Option<nat>, ghost k: nat)
    returns (body: Option<seq<byte>>, asked: nat, ghost k': nat)
    requires device.Consistent() && !device.awaiting && t.WellFormed() && Given(txn, t, broken)
    requires i * CHUNK * 2 < |txn| && (broken.Some? ==> i <= broken.value / CHUNK) && p1 == if i == 0 then 0 else 1
    requires AfterChunks(device.signer.sdk, device.State(), t, i, k)
    modifies device, device.signer, device.signer.buffer, device.signer.sigInput, device.io
    ensures device.Consistent() && !device.awaiting && device.signer.bip44Path == old(device.signer.bip44Path)
    ensures |device.replies| == |old(device.replies)| + asked
    ensures if broken.Some? && i == broken.value / CHUNK then
        body.None? && asked == 0 && AfterChunks(device.signer.sdk, device.State(), t, i, k')
      else body == Some([]) && asked == 1 && AfterChunks(device.signer.sdk, device.State(), t, i + 1, k')
  {
    hide Exchange, Session, HostTurn, FromHex, Txn.Encode, Signer.Core, Safe, Piece, IsHex, Given, AfterChunks;
    ghost var stream := t.Encode();
    PieceSpells(txn, t, broken, i);
    var piece := Piece(txn, i);
    if !IsHex(piece) {
      return None, 0, k;
    }
    k' := NextChunk(device.signer.sdk, device.State(), t, i, k);
    PieceSize(|stream|, i);
    body := DongleExchange(device, p1, FromHex(piece));
    BodyBack([]);
    asked := 1;
  }

  lemma PieceSize(total: nat, i: nat)
    ensures Sent(total, i) <= Sent(total, i + 1) <= Sent(total, i) + CHUNK
  {}

  lemma BeforeChunks(c: Sdk, d: Dev, t: Txn)
    requires t.WellFormed() && Session(c, d) && !d.initialized && !d.awaiting && !d.stuck
    ensures AfterChunks(c, d, t, 0, 0)
  {}

  lemma StreamIsLong(t: Txn)
    requires t.WellFormed()
    ensures |t.Encode()| == 8 + 36 * |t.inputs| + 37 * |t.outputs|
  {
    RestLength(t, 0);
  }

  lemma ChunksDone(c: Sdk, d: Dev, t: Txn, i: nat, k: nat, path: Path)
    requires t.WellFormed() && AfterChunks(c, d, t, i, k) && i > 0 && i * CHUNK >= |t.Encode()| && d.p.path == path
    ensures Collected(c, d, t, path, [], 0)
  {
    hide Session, Txn.Encode, Synced;
    assert t.Encode()[|t.Encode()|..] == [];
    NothingLeft(c, d.p, t, k);
  }

  /** send_txn: whatever the device did before, and whatever the transaction, the host ends up with the
      inner hash of the transaction and one right signature per input, in input order, after
      ceil(len / 254) + 1 + ceil(n / 3) exchanges; the device is then ready for the next session. On a
      text that breaks off it ends with an exception, after exactly the chunks before the break. */
  method SendTxn(device: Device, txn: Text, ghost t: Txn, ghost broken: Option<nat>)
    returns (signed: Option<(Text, seq<Text>)>, exchanges: nat)
    requires device.Consistent() && !device.signer.initialized && !device.awaiting
    requires t.WellFormed() && Given(txn, t, broken)
    modifies device, device.signer, device.signer.buffer, device.signer.sigInput, device.io
    ensures device.Consistent() && !device.awaiting && device.signer.bip44Path == old(device.signer.bip44Path)
    ensures |device.replies| == |old(device.replies)| + exchanges
    ensures broken.None? ==>
      && signed.Some? && !device.signer.initialized
      && Answered(device.signer.sdk, old(device.signer.bip44Path), t, signed.value.0, signed.value.1)
      && exchanges == CeilDiv(8 + 36 * |t.inputs| + 37 * |t.outputs|, 254) + 1 + CeilDiv(|t.inputs|, 3)
    ensures broken.Some? ==>
      && signed.None? && exchanges == broken.value / CHUNK
      && Sending(device.signer.sdk, device.State(), t, exchanges)
  {
    hide Exchange, Session, StatusWord, Hexlify, FromHex, Txn.Encode, Signer.Core, SigOf, SigList, U4LE, InnerHash, Collected;
    ghost var c, path := device.signer.sdk, device.signer.bip44Path;
    StreamIsLong(t);
    var sent;
    sent, exchanges := SendChunks(device, txn, t, broken);
    if sent.None? {
      return None, exchanges;
    }
    var ret, asked := CollectAnswers(device, txn, Hexlify(sent.value), t, path);
    exchanges := exchanges + asked;
    if ret.None? {
      return None, exchanges;
    }
    var innerHash, sigs := SplitAnswer(ret.value, c, path, t);
    signed := Some((innerHash, sigs));
  }

  /** send_txn, second loop: empty APDUs until the hash and all signatures have come back. */
  method CollectAnswers(device: Device, txn: Text, ret0: Text, ghost t: Txn, ghost path: Path) returns (collected: Option<Text>, asked: nat)
    requires device.Consistent() && !device.awaiting && t.WellFormed() && Spells(txn, t.Encode()) && ret0 == Hexlify([])
    requires Collected(device.signer.sdk, device.State(), t, path, [], 0)
    modifies device, device.signer, device.signer.buffer, device.signer.sigInput, device.io
    ensures device.Consistent() && !device.awaiting && !device.signer.initialized && device.signer.bip44Path == path
    ensures |device.replies| == |old(device.replies)| + asked && asked == 1 + CeilDiv(|t.inputs|, SIGS_PER_PAGE)
    ensures collected == Some(Hexlify(InnerHash(device.signer.sdk, t) + SigList(device.signer.sdk, path, t, |t.inputs|)))
  {
    hide Exchange, Session, HostTurn, Owes, StatusWord, Hexlify, FromHex, Txn.Encode, Signer.Core, SigOf, SigList, U4LE, Safe,
         WholePages, InnerHash, Spells;
    WholeStart(t);
    ghost var c := device.signer.sdk;
    ghost var got: seq<byte>, j: nat := [], 0;
    CountField(t, txn);
    var ret := ret0;
    asked := 0;
    assert ret == [] by { NoText(); }
    while |ret| / 2 < 32 + U4LE(FromHex(txn[..8]), 0) * SIG_LEN
      invariant device.Consistent() && Collected(c, device.State(), t, path, got, j)
      invariant ret == Hexlify(got) && |device.replies| == |old(device.replies)| + asked
      invariant !device.awaiting && WholePages(t, j) && asked == Answers(got, j)
      invariant got == [] || |got| == 32 + j * SIG_LEN <= 32 + |t.inputs| * SIG_LEN
      decreases 33 + |t.inputs| * SIG_LEN - |got|
    {
      ghost var more, j' := NextAnswer(c, device.State(), t, path, got, j);
      var body := DongleExchange(device, 1, []);
      asked := asked + 1;
      if body.None? {
        return None, asked;
      }
      HexlifyConcat(got, body.value);
      got, j := more, j';
      ret := ret + Hexlify(body.value);
    }
    collected := Some(ret);
  }

  /** The texts of the inner hash and of one right signature per input, in input order. */
  ghost predicate Answered(c: Sdk, path: Path, t: Txn, innerHash: Text, sigs: seq<Text>) {
    && innerHash == Hexlify(InnerHash(c, t)) && |sigs| == |t.inputs|
    && forall i | 0 <= i < |sigs| :: sigs[i] == Hexlify(SigOf(c, path, t, i))
  }

  lemma WholeStart(t: Txn)
    ensures WholePages(t, 0)
  {}

  lemma NoText()
    ensures Hexlify([]) == []
  {}

  /** send_txn, last loop: the hash, then pieces of 65 bytes. */
  method SplitAnswer(ret: Text, ghost c: Sdk, ghost path: Path, ghost t: Txn) returns (innerHash: Text, sigs: seq<Text>)
    requires ret == Hexlify(InnerHash(c, t) + SigList(c, path, t, |t.inputs|))
    ensures innerHash == Hexlify(InnerHash(c, t)) && |sigs| == |t.inputs|
    ensures forall i | 0 <= i < |sigs| :: sigs[i] == Hexlify(SigOf(c, path, t, i))
  {
    hide Hexlify, SigOf, SigList, InnerHash;
    HexlifyConcat(InnerHash(c, t), SigList(c, path, t, |t.inputs|));
    assert ret[32 * 2..] == Hexlify(SigList(c, path, t, |t.inputs|));
    innerHash := ret[..32 * 2];
    sigs := Pieces(ret[32 * 2..], c, path, t);
  }

  // The loop of lines 34-36.
  method Pieces(list: Text, ghost c: Sdk, ghost path: Path, ghost t: Txn) returns (sigs: seq<Text>)
    requires list == Hexlify(SigList(c, path, t, |t.inputs|))
    ensures |sigs| == |t.inputs|
    ensures forall i | 0 <= i < |sigs| :: sigs[i] == Hexlify(SigOf(c, path, t, i))
  {
    hide Hexlify, SigOf, SigList;
    var txn := list;
    sigs := [];
    while |txn| > 0
      invariant |sigs| <= |t.inputs| && |sigs| * SIG_LEN * 2 <= |list| && txn == list[|sigs| * SIG_LEN * 2..]
      invariant forall i | 0 <= i < |sigs| :: sigs[i] == Hexlify(SigOf(c, path, t, i))
      decreases |txn|
    {
      NextPiece(c, path, t, |sigs|, txn);
      sigs := sigs + [txn[..65 * 2]];
      txn := txn[65 * 2..];
    }
  }

  lemma NextPiece(c: Sdk, path: Path, t: Txn, i: nat, txn: Text)
    requires i <= |t.inputs| && |txn| > 0
    requires txn == Hexlify(SigList(c, path, t, |t.inputs|))[i * SIG_LEN * 2..]
    ensures i < |t.inputs| && |txn| >= 65 * 2 && txn[..65 * 2] == Hexlify(SigOf(c, path, t, i))
    ensures txn[65 * 2..] == Hexlify(SigList(c, path, t, |t.inputs|))[(i + 1) * SIG_LEN * 2..]
  {
    hide Hexlify, SigOf, SigList;
    PieceIs(c, path, t, i, |t.inputs|);
    HexlifySlice(SigList(c, path, t, |t.inputs|), i * SIG_LEN, (i + 1) * SIG_LEN);
  }
}
