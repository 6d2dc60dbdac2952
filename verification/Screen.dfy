// What the approval screen shows, in terms of the transaction. The first output of a session is the
// only one an APDU can take in without a press, and the handler may then answer without preparing
// the screen.
module Screen {
  import opened Bytes
  import opened Transaction
  import opened Crypto
  import opened TxnStream
  import opened Chunking
  import opened DeviceModel
  import opened DisplayText
  import opened Protocol
  import opened Approval

  /** Preparing the screen after output `k` of the transaction. */
  lemma PreparedIs(c: Sdk, p: Parser, t: Txn, k: nat, future: seq<byte>)
    requires t.WellFormed() && 1 <= k <= |t.outputs| && Synced(c, p, t, |t.inputs| + 2 + k, future)
    ensures ShownFor(c, p.curOut, p.currObj, p.outNum) == ShownFor(c, t.outputs[k - 1], k, |t.outputs|)
  {
    hide Txn.Rest, Txn.Encode, Txn.HashedUpTo, Txn.Preimage, HoldsInputs, Inv, ShownFor;
    assert p.outs == t.outputs[..k];
  }

  /** While the k-th output of the transaction waits for its press, the display shows exactly that
      output's address and amount and "k/m", unless it is the first and was answered without being shown. */
  lemma ShownIsApproved(c: Sdk, d: Dev, t: Txn, k: nat, future: seq<byte>)
    requires Session(c, d) && d.initialized && (k >= 2 || !d.unshown)
    requires t.WellFormed() && 1 <= k <= |t.outputs| && Synced(c, d.p, t, |t.inputs| + 2 + k, future)
    ensures d.display == ShownFor(c, t.outputs[k - 1], k, |t.outputs|)
    ensures DisplayReads(c, d.display, t.outputs[k - 1], k, |t.outputs|)
  {
    hide Txn.Rest, Txn.Encode, Txn.HashedUpTo, Txn.Preimage, HoldsInputs, Inv, ShownFor, DisplayReads;
    ShownReads(c, t.outputs[k - 1], k, |t.outputs|);
    assert d.p.outs == t.outputs[..k];
  }

  /** Bytes at hand, seen from the end of the stream. */
  lemma AtHand(c: Sdk, p: Parser, t: Txn, k: nat, future: seq<byte>)
    requires t.WellFormed() && k <= t.Count() && Synced(c, p, t, k, future)
    ensures |p.carry| + |p.data| == |t.Rest(k)| - |future|
  {
    hide Txn.Rest;
  }

  /** A run that gets as far as the first output stops there, and whether it asks for approval depends
      on whether another output follows in the same chunk. */
  lemma {:induction false} RunToOutput(c: Sdk, p: Parser, t: Txn, k: nat, future: seq<byte>)
    requires t.WellFormed() && k <= |t.inputs| + 2 && Synced(c, p, t, k, future)
    requires p.carry == [] || Completes(t, k, |p.carry|, |p.data|)
    requires |t.Rest(|t.inputs| + 2)| - |future| >= 37
    ensures Run(c, p).code == if |t.Rest(|t.inputs| + 2)| - |future| >= 74 then TXN_APPROVE_OUT else TXN_PARTIAL_OUT
    decreases |p.data|
  {
    hide Synced, Holds, Step, Inv, Txn.Element, Txn.Rest, Run, Pump, Advance;
    SyncedInv(c, p, t, k, future);
    AtHand(c, p, t, k, future);
    ElementSize(t, k);
    RestLength(t, k);
    RestLength(t, |t.inputs| + 2);
    if k < |t.inputs| + 2 {
      SyncCounts(c, p, t, k, future);
      RunToOutput(c, Step(c, p).p, t, k + 1, future);
    } else {
      SyncOutput(c, p, t, k, future);
    }
  }

  /** The first output ends at byte 45 + 36 n. If an APDU completes it while inputs are still being
      read, the device shows the output (whatever was on the display) if and only if that chunk goes on
      for at least 37 more bytes. */
  lemma FirstOutputShown(c: Sdk, d: Dev, t: Txn, k: nat, chunk: seq<byte>, future: seq<byte>)
    requires t.WellFormed() && k <= |t.inputs| && HostTurn(c, d, t, k, chunk + future)
    requires d.p.carry == [] || Completes(t, k, |d.p.carry|, |chunk|)
    requires |t.Encode()| - |future| >= 45 + 36 * |t.inputs|
    ensures Parses(c, d, Apdu(1, chunk))
    ensures (forall stale: Display :: Displays(c, OnApdu(c, d.(display := stale), 1, chunk)))
        <==> |t.Encode()| - |future| >= 82 + 36 * |t.inputs|
  {
    hide Run, Synced, Inv, History, Holds, Completes, ShownFor, OnApdu, Txn.Rest;
    Arrive(c, d.p, t, k, chunk, future);
    RestLength(t, 0);
    RestLength(t, |t.inputs| + 2);
    RunToOutput(c, d.p.(data := chunk), t, k, future);
    InsideInputs(c, d, t, k, chunk, future);
    ShownUnlessAnswered(c, d, 1, chunk);
  }

  lemma InsideInputs(c: Sdk, d: Dev, t: Txn, k: nat, chunk: seq<byte>, future: seq<byte>)
    requires t.WellFormed() && k <= |t.inputs| && HostTurn(c, d, t, k, chunk + future)
    ensures d.p.state < TXN_START_OUT && Called(c, d, Apdu(1, chunk)) == Run(c, d.p.(data := chunk))
  {
    hide Run, Holds;
  }

  // The condition on the chunks alone.

  /** The first output of a transaction with `n` inputs is taken in without being shown: its last byte
      arrives in a chunk, not the first one, that begins before the end of the inputs and stops before
      the end of a second output. */
  predicate HidesFirst(n: nat, chunks: seq<seq<byte>>) {
    exists i :: 0 < i < |chunks| && Hides(n, chunks, i)
  }

  predicate Hides(n: nat, chunks: seq<seq<byte>>, i: nat)
    requires i < |chunks|
  {
    Total(chunks[..i]) < 4 + 36 * n && 45 + 36 * n <= Total(chunks[..i + 1]) < 82 + 36 * n
  }

  lemma {:induction false} TotalConcat(x: seq<seq<byte>>, y: seq<seq<byte>>)
    ensures Total(x + y) == Total(x) + Total(y)
  {
    if x == [] {
      assert x + y == y;
    } else {
      assert (x + y)[1..] == x[1..] + y;
      TotalConcat(x[1..], y);
    }
  }

  lemma TotalGrows(chunks: seq<seq<byte>>, i: nat, j: nat)
    requires i <= j <= |chunks|
    ensures Total(chunks[..i]) <= Total(chunks[..j])
  {
    assert chunks[..j] == chunks[..i] + chunks[i..j];
    TotalConcat(chunks[..i], chunks[i..j]);
  }

  /** Bytes sent and bytes to come. */
  lemma TotalSplit(chunks: seq<seq<byte>>, i: nat)
    requires i <= |chunks|
    ensures Total(chunks[..i]) + Total(chunks[i..]) == Total(chunks)
    ensures i < |chunks| ==> Total(chunks[..i + 1]) == Total(chunks[..i]) + |chunks[i]|
  {
    assert chunks == chunks[..i] + chunks[i..];
    TotalConcat(chunks[..i], chunks[i..]);
    if i < |chunks| {
      assert chunks[..i + 1] == chunks[..i] + [chunks[i]];
      TotalConcat(chunks[..i], [chunks[i]]);
      assert Total([chunks[i]]) == |chunks[i]| by { OnePiece(chunks[i]); }
    }
  }

  /** Only the chunk that carries the last byte of the first output matters. */
  lemma Crossing(n: nat, chunks: seq<seq<byte>>, i: nat)
    requires i < |chunks| && Total(chunks[..i]) < 45 + 36 * n <= Total(chunks[..i + 1])
    ensures HidesFirst(n, chunks) <==> i > 0 && Hides(n, chunks, i)
  {
    forall j | 0 < j < |chunks| && Hides(n, chunks, j) ensures j == i {
      if j < i { TotalGrows(chunks, j + 1, i); }
      if j > i { TotalGrows(chunks, i + 1, j); }
    }
  }
}
