// Transactions as values, the byte stream that carries one to the device, and the part of
// that stream that enters the inner hash. Nothing here knows about chunks or device state.
module Transaction {
  import opened Bytes

  const MAX_INPUTS := 20

  type Digest = s: seq<byte> | |s| == 32 witness seq(32, _ => 0)
  type Address = s: seq<byte> | |s| == 21 witness seq(21, _ => 0)

  datatype Input = Input(uxId: Digest, addressIndex: uint32)
  {
    function Bytes(): (s: seq<byte>)
      ensures |s| == 36
    {
      uxId + LE(addressIndex, 4)
    }
  }

  datatype Output = Output(address: Address, coins: uint64, hours: uint64)
  {
    function Bytes(): (s: seq<byte>)
      ensures |s| == 37
    {
      address + LE(coins, 8) + LE(hours, 8)
    }
  }

  /** The fields of an output, read back from its 37 bytes. */
  function ReadOutput(e: seq<byte>): Output
    requires |e| == 37
  {
    Output(e[..21], U8LE(e, 21), U8LE(e, 29))
  }

  lemma OutputRoundTrip(o: Output)
    ensures ReadOutput(o.Bytes()) == o
  {
    U8LEofLE(o.address, o.coins, LE(o.hours, 8));
    U8LEofLE(o.address + LE(o.coins, 8), o.hours, []);
    assert o.Bytes() == o.address + LE(o.coins, 8) + LE(o.hours, 8) + [];
  }

  /** Any 37 bytes are the bytes of the output they are read as. */
  lemma OutputOfBytes(e: seq<byte>)
    requires |e| == 37
    ensures ReadOutput(e).Bytes() == e
  {
    LEofU8LE(e, 21);
    LEofU8LE(e, 29);
    assert e == e[..21] + e[21..29] + e[29..37];
  }

  lemma InputRoundTrip(i: Input)
    ensures i.Bytes()[..32] == i.uxId && U4LE(i.Bytes(), 32) == i.addressIndex
  {
    assert i.Bytes() == i.uxId + LE(i.addressIndex, 4) + [];
    U4LEofLE(i.uxId, i.addressIndex, []);
  }

  datatype Txn = Txn(inputs: seq<Input>, outputs: seq<Output>)
  {
    predicate WellFormed() {
      1 <= |inputs| <= 20 && 1 <= |outputs| <= 255
    }

    /** The stream is a sequence of elements: a count, the inputs, a count, the outputs. */
    function Count(): nat { |inputs| + |outputs| + 2 }

    function Element(k: nat): (e: seq<byte>)
      requires k < Count()
      ensures |e| in {4, 36, 37}
    {
      if k == 0 then LE(|inputs|, 4)
      else if k <= |inputs| then inputs[k - 1].Bytes()
      else if k == |inputs| + 1 then LE(|outputs|, 4)
      else outputs[k - |inputs| - 2].Bytes()
    }

    /** Of an input only the 32-byte id is hashed, not the address index that follows it. */
    function HashedPart(k: nat): seq<byte>
      requires k < Count()
    {
      if 1 <= k <= |inputs| then inputs[k - 1].uxId else Element(k)
    }

    /** The bytes of the stream from element `k` on. */
    function Rest(k: nat): seq<byte>
      requires k <= Count()
      decreases Count() - k
    {
      if k == Count() then [] else Element(k) + Rest(k + 1)
    }

    function Encode(): seq<byte> { Rest(0) }

    function HashedUpTo(k: nat): seq<byte>
      requires k <= Count()
    {
      if k == 0 then [] else HashedUpTo(k - 1) + HashedPart(k - 1)
    }

    /** The hash preimage, written out: count, input ids, count, outputs. */
    function Preimage(): seq<byte> {
      LE(|inputs|, 4) + UxIds(inputs, |inputs|) + LE(|outputs|, 4) + OutputList(outputs, |outputs|)
    }
  }

  /** The ids of the first `k` inputs, one after the other. */
  function UxIds(ins: seq<Input>, k: nat): seq<byte>
    requires k <= |ins|
  {
    if k == 0 then [] else UxIds(ins, k - 1) + ins[k - 1].uxId
  }

  /** The first `k` outputs, one after the other. */
  function OutputList(outs: seq<Output>, k: nat): seq<byte>
    requires k <= |outs|
  {
    if k == 0 then [] else OutputList(outs, k - 1) + outs[k - 1].Bytes()
  }

  /** The first `k` inputs, one after the other. */
  function InputList(ins: seq<Input>, k: nat): seq<byte>
    requires k <= |ins|
  {
    if k == 0 then [] else InputList(ins, k - 1) + ins[k - 1].Bytes()
  }

  /** The stream, written out: count, inputs, count, outputs. */
  lemma EncodeIs(t: Txn)
    ensures t.Encode() == LE(|t.inputs|, 4) + InputList(t.inputs, |t.inputs|) + LE(|t.outputs|, 4) + OutputList(t.outputs, |t.outputs|)
  {
    hide LE, InputList, OutputList, Txn.Rest, Txn.Encode;
    EncodeOutputs(t, |t.outputs|);
    RestEnds(t);
  }

  lemma RestEnds(t: Txn)
    ensures t.Rest(t.Count()) == []
  {}

  lemma RestStep(t: Txn, k: nat)
    requires k < t.Count()
    ensures t.Rest(k) == t.Element(k) + t.Rest(k + 1)
  {}

  lemma Assoc3(x: seq<byte>, y: seq<byte>, z: seq<byte>, w: seq<byte>)
    ensures x + y + (z + w) == x + (y + z) + w
  {}

  lemma {:induction false} EncodeInputs(t: Txn, k: nat)
    requires k <= |t.inputs|
    ensures LE(|t.inputs|, 4) + InputList(t.inputs, k) + t.Rest(k + 1) == t.Encode()
  {
    hide LE, Input.Bytes, Output.Bytes, Txn.Rest;
    RestStep(t, k);
    if k == 0 {
      assert InputList(t.inputs, 0) == [];
      assert LE(|t.inputs|, 4) + [] == LE(|t.inputs|, 4);
    } else {
      EncodeInputs(t, k - 1);
      Assoc3(LE(|t.inputs|, 4), InputList(t.inputs, k - 1), t.inputs[k - 1].Bytes(), t.Rest(k + 1));
    }
  }

  lemma {:induction false} EncodeOutputs(t: Txn, k: nat)
    requires k <= |t.outputs|
    ensures LE(|t.inputs|, 4) + InputList(t.inputs, |t.inputs|) + LE(|t.outputs|, 4) + OutputList(t.outputs, k)
            + t.Rest(|t.inputs| + 2 + k) == t.Encode()
  {
    hide LE, Input.Bytes, Output.Bytes, InputList, Txn.Rest, Txn.Encode;
    var head := LE(|t.inputs|, 4) + InputList(t.inputs, |t.inputs|);
    RestStep(t, |t.inputs| + 1 + k);
    if k == 0 {
      EncodeInputs(t, |t.inputs|);
      assert OutputList(t.outputs, 0) == [];
      assert head + LE(|t.outputs|, 4) + [] == head + LE(|t.outputs|, 4);
      assert head + (LE(|t.outputs|, 4) + t.Rest(|t.inputs| + 2)) == head + LE(|t.outputs|, 4) + t.Rest(|t.inputs| + 2);
    } else {
      EncodeOutputs(t, k - 1);
      Assoc3(head + LE(|t.outputs|, 4), OutputList(t.outputs, k - 1), t.outputs[k - 1].Bytes(), t.Rest(|t.inputs| + 2 + k));
    }
  }

  lemma {:induction false} InputListLength(ins: seq<Input>, k: nat)
    requires k <= |ins|
    ensures |InputList(ins, k)| == 36 * k
  {
    if k > 0 { InputListLength(ins, k - 1); }
  }

  lemma {:induction false} InputListTells(x: seq<Input>, y: seq<Input>, k: nat)
    requires k <= |x| && k <= |y| && InputList(x, k) == InputList(y, k)
    ensures x[..k] == y[..k]
  {
    hide Input.Bytes;
    if k > 0 {
      InputListLength(x, k - 1);
      InputListLength(y, k - 1);
      Tails(InputList(x, k - 1), x[k - 1].Bytes(), InputList(y, k - 1), y[k - 1].Bytes());
      InputListTells(x, y, k - 1);
      InputRoundTrip(x[k - 1]);
      InputRoundTrip(y[k - 1]);
      assert x[..k] == x[..k - 1] + [x[k - 1]] && y[..k] == y[..k - 1] + [y[k - 1]];
    }
  }

  lemma Tails(x: seq<byte>, u: seq<byte>, y: seq<byte>, v: seq<byte>)
    requires x + u == y + v && |x| == |y|
    ensures x == y && u == v
  {
    assert x == (x + u)[..|x|] && u == (x + u)[|x|..] && y == (y + v)[..|y|] && v == (y + v)[|y|..];
  }

  /** A stream says which transaction it carries, once the numbers of inputs agree. */
  lemma EncodeTells(x: seq<Input>, y: seq<Input>, outs: seq<Output>)
    requires |x| == |y| && Txn(x, outs).Encode() == Txn(y, outs).Encode()
    ensures x == y
  {
    hide LE, Txn.Encode, InputList, OutputList;
    EncodeIs(Txn(x, outs));
    EncodeIs(Txn(y, outs));
    InputListLength(x, |x|);
    InputListLength(y, |y|);
    Middles(LE(|x|, 4), InputList(x, |x|), InputList(y, |y|), LE(|outs|, 4), OutputList(outs, |outs|));
    InputListTells(x, y, |x|);
    assert x[..|x|] == x && y[..|y|] == y;
  }

  lemma Middles(n: seq<byte>, x: seq<byte>, y: seq<byte>, m: seq<byte>, o: seq<byte>)
    requires |x| == |y| && n + x + m + o == n + y + m + o
    ensures x == y
  {
    assert n + x + m + o == n + (x + (m + o)) && n + y + m + o == n + (y + (m + o));
    Tails(n, x + (m + o), n, y + (m + o));
    Tails(x, m + o, y, m + o);
  }

  /** Hashing element by element feeds exactly the preimage. */
  lemma HashedIsPreimage(t: Txn)
    ensures t.HashedUpTo(t.Count()) == t.Preimage()
  {
    hide LE, UxIds, OutputList, Input.Bytes, Output.Bytes, Txn.HashedUpTo;
    var n := |t.inputs|;
    HashedInputs(t, n);
    HashedCount(t);
    HashedOutputs(t, |t.outputs|);
  }

  lemma HashedCount(t: Txn)
    ensures t.HashedUpTo(|t.inputs| + 2) == t.HashedUpTo(|t.inputs| + 1) + LE(|t.outputs|, 4)
  {
    hide LE, Input.Bytes, Output.Bytes;
  }

  lemma {:induction false} HashedInputs(t: Txn, k: nat)
    requires k <= |t.inputs|
    ensures t.HashedUpTo(k + 1) == LE(|t.inputs|, 4) + UxIds(t.inputs, k)
  {
    if k == 0 {
      assert t.HashedUpTo(0) == [];
    } else {
      HashedInputs(t, k - 1);
    }
  }

  lemma {:induction false} HashedOutputs(t: Txn, k: nat)
    requires k <= |t.outputs|
    ensures t.HashedUpTo(|t.inputs| + 2 + k) == t.HashedUpTo(|t.inputs| + 2) + OutputList(t.outputs, k)
  {
    hide Input.Bytes, Output.Bytes, LE, Txn.Element, Txn.HashedPart;
    if k > 0 {
      HashedOutputs(t, k - 1);
      HashedOutput(t, k);
    }
  }

  lemma HashedOutput(t: Txn, k: nat)
    requires 0 < k <= |t.outputs|
    ensures t.HashedUpTo(|t.inputs| + 2 + k) == t.HashedUpTo(|t.inputs| + 1 + k) + t.outputs[k - 1].Bytes()
  {
    var j := |t.inputs| + 1 + k;
    assert t.HashedPart(j) == t.outputs[k - 1].Bytes();
  }

  lemma {:induction false} RestLength(t: Txn, k: nat)
    requires k <= t.Count()
    ensures |t.Rest(k)| == if k <= |t.inputs| + 1
      then (if k == 0 then 4 else 0) + 36 * (|t.inputs| - (if k == 0 then 0 else k - 1)) + 4 + 37 * |t.outputs|
      else 37 * (t.Count() - k)
    decreases t.Count() - k
  {
    if k < t.Count() { RestLength(t, k + 1); }
  }

  // The formats, byte by byte.

  lemma InputFormat(i: Input)
    ensures var b := i.Bytes(); |b| == 36 && b[..32] == i.uxId && FromLE(b[32..36]) == i.addressIndex
  {
    InputRoundTrip(i);
    U4LEisFromLE(i.Bytes(), 32);
  }

  lemma OutputFormat(o: Output)
    ensures var b := o.Bytes(); |b| == 37 && b[..21] == o.address && FromLE(b[21..29]) == o.coins && FromLE(b[29..37]) == o.hours
  {
    hide LE;
    var b := o.Bytes();
    PowTable();
    FromLEofLE(o.coins, 8);
    FromLEofLE(o.hours, 8);
    assert b[21..29] == LE(o.coins, 8) && b[29..37] == LE(o.hours, 8);
  }

  lemma {:induction false} IdAt(ins: seq<Input>, k: nat, i: nat)
    requires i < k <= |ins|
    ensures |UxIds(ins, k)| == 32 * k && UxIds(ins, k)[32 * i..32 * i + 32] == ins[i].uxId
  {
    IdsLength(ins, k - 1);
    if i < k - 1 {
      IdAt(ins, k - 1, i);
      assert UxIds(ins, k)[32 * i..32 * i + 32] == UxIds(ins, k - 1)[32 * i..32 * i + 32];
    }
  }

  lemma {:induction false} IdsLength(ins: seq<Input>, k: nat)
    requires k <= |ins|
    ensures |UxIds(ins, k)| == 32 * k
  {
    if k > 0 { IdsLength(ins, k - 1); }
  }

  lemma {:induction false} InputAt(ins: seq<Input>, k: nat, i: nat)
    requires i < k <= |ins|
    ensures |InputList(ins, k)| == 36 * k && InputList(ins, k)[36 * i..36 * i + 36] == ins[i].Bytes()
  {
    hide Input.Bytes;
    InputListLength(ins, k - 1);
    if i < k - 1 {
      InputAt(ins, k - 1, i);
      assert InputList(ins, k)[36 * i..36 * i + 36] == InputList(ins, k - 1)[36 * i..36 * i + 36];
    }
  }

  lemma {:induction false} OutputAt(outs: seq<Output>, k: nat, j: nat)
    requires j < k <= |outs|
    ensures |OutputList(outs, k)| == 37 * k && OutputList(outs, k)[37 * j..37 * j + 37] == outs[j].Bytes()
  {
    hide Output.Bytes;
    OutputListLength(outs, k - 1);
    if j < k - 1 {
      OutputAt(outs, k - 1, j);
      assert OutputList(outs, k)[37 * j..37 * j + 37] == OutputList(outs, k - 1)[37 * j..37 * j + 37];
    }
  }

  lemma {:induction false} OutputListLength(outs: seq<Output>, k: nat)
    requires k <= |outs|
    ensures |OutputList(outs, k)| == 37 * k
  {
    if k > 0 { OutputListLength(outs, k - 1); }
  }

  /** Two counts and two lists. */
  lemma FourParts(b: seq<byte>, n: seq<byte>, x: seq<byte>, m: seq<byte>, y: seq<byte>)
    requires b == n + x + m + y && |n| == |m| == 4
    ensures |b| == 8 + |x| + |y| && b[..4] == n && b[4 + |x|..8 + |x|] == m
    ensures forall i, j | 0 <= i <= j <= |x| :: b[4 + i..4 + j] == x[i..j]
    ensures forall i, j | 0 <= i <= j <= |y| :: b[8 + |x| + i..8 + |x| + j] == y[i..j]
  {}

  /** The hash preimage: the number of inputs, their ids, the number of outputs, the outputs. */
  lemma PreimageFormat(t: Txn)
    requires t.WellFormed()
    ensures var b, n, m := t.Preimage(), |t.inputs|, |t.outputs|;
      && |b| == 8 + 32 * n + 37 * m && FromLE(b[..4]) == n && FromLE(b[4 + 32 * n..8 + 32 * n]) == m
      && (forall i | 0 <= i < n :: b[4 + 32 * i..4 + (32 * i + 32)] == t.inputs[i].uxId)
      && (forall j | 0 <= j < m :: b[8 + 32 * n + 37 * j..8 + 32 * n + (37 * j + 37)] == t.outputs[j].Bytes())
  {
    hide LE, UxIds, OutputList, FromLE, Output.Bytes;
    var b, n, m := t.Preimage(), |t.inputs|, |t.outputs|;
    var x, y := UxIds(t.inputs, n), OutputList(t.outputs, m);
    IdsLength(t.inputs, n);
    OutputListLength(t.outputs, m);
    FourParts(b, LE(n, 4), x, LE(m, 4), y);
    Counts(n, m);
    forall i | 0 <= i < n ensures b[4 + 32 * i..4 + (32 * i + 32)] == t.inputs[i].uxId { IdAt(t.inputs, n, i); }
    forall j | 0 <= j < m ensures b[8 + 32 * n + 37 * j..8 + 32 * n + (37 * j + 37)] == t.outputs[j].Bytes() { OutputAt(t.outputs, m, j); }
  }

  lemma Counts(n: nat, m: nat)
    requires n < 256 && m < 256
    ensures FromLE(LE(n, 4)) == n && FromLE(LE(m, 4)) == m
  {
    PowTable();
    FromLEofLE(n, 4);
    FromLEofLE(m, 4);
  }

  /** The stream: the same with the index of each input behind its id. */
  lemma StreamFormat(t: Txn)
    requires t.WellFormed()
    ensures var b, n, m := t.Encode(), |t.inputs|, |t.outputs|;
      && |b| == 8 + 36 * n + 37 * m && FromLE(b[..4]) == n && FromLE(b[4 + 36 * n..8 + 36 * n]) == m
      && (forall i | 0 <= i < n :: b[4 + 36 * i..4 + (36 * i + 36)] == t.inputs[i].Bytes())
      && (forall j | 0 <= j < m :: b[8 + 36 * n + 37 * j..8 + 36 * n + (37 * j + 37)] == t.outputs[j].Bytes())
  {
    hide LE, InputList, OutputList, FromLE, Input.Bytes, Output.Bytes, Txn.Encode;
    var b, n, m := t.Encode(), |t.inputs|, |t.outputs|;
    var x, y := InputList(t.inputs, n), OutputList(t.outputs, m);
    EncodeIs(t);
    InputListLength(t.inputs, n);
    OutputListLength(t.outputs, m);
    FourParts(b, LE(n, 4), x, LE(m, 4), y);
    Counts(n, m);
    forall i | 0 <= i < n ensures b[4 + 36 * i..4 + (36 * i + 36)] == t.inputs[i].Bytes() { InputAt(t.inputs, n, i); }
    forall j | 0 <= j < m ensures b[8 + 36 * n + 37 * j..8 + 36 * n + (37 * j + 37)] == t.outputs[j].Bytes() { OutputAt(t.outputs, m, j); }
  }
}
