// scripts/generating_txn.py: the hexadecimal text of a transaction, as it goes to the device and as it
// comes out signed.
module RawTransaction {
  import opened Bytes
  import opened Wrappers
  import opened Transaction
  import opened Crypto
  import opened HostText
  import opened Chunking
  import opened Protocol
  import opened LedgerDevice
  import Host

  /** Input.serialized. */
  function InputText(i: Input): Text { Hexlify(i.uxId) + ToLe(i.addressIndex, 4) }

  /** Output.serialized. */
  function OutputText(o: Output): Text { Hexlify(o.address) + ToLe(o.coins, 8) + ToLe(o.hours, 8) }

  function InputsText(ins: seq<Input>, k: nat): Text
    requires k <= |ins|
  {
    if k == 0 then [] else InputsText(ins, k - 1) + InputText(ins[k - 1])
  }

  function UxIdsText(ins: seq<Input>, k: nat): Text
    requires k <= |ins|
  {
    if k == 0 then [] else UxIdsText(ins, k - 1) + Hexlify(ins[k - 1].uxId)
  }

  function OutputsText(outs: seq<Output>, k: nat): Text
    requires k <= |outs|
  {
    if k == 0 then [] else OutputsText(outs, k - 1) + OutputText(outs[k - 1])
  }

  /** txn_in_out for the device: with the address indices. */
  function StreamText(t: Txn): Text {
    ToLe(|t.inputs|, 4) + InputsText(t.inputs, |t.inputs|) + ToLe(|t.outputs|, 4) + OutputsText(t.outputs, |t.outputs|)
  }

  /** txn_in_out without them. */
  function StrippedText(t: Txn): Text {
    ToLe(|t.inputs|, 4) + UxIdsText(t.inputs, |t.inputs|) + ToLe(|t.outputs|, 4) + OutputsText(t.outputs, |t.outputs|)
  }

  /** Python 2 writes every amount as an int, not a long. */
  predicate Writable(t: Txn) {
    forall i | 0 <= i < |t.outputs| ::
      t.outputs[i].coins < 0x8000_0000_0000_0000 && t.outputs[i].hours < 0x8000_0000_0000_0000
  }

  predicate WritableUpTo(t: Txn, k: nat)
    requires k <= |t.outputs|
  {
    forall i | 0 <= i < k :: t.outputs[i].coins < LONG && t.outputs[i].hours < LONG
  }

  lemma CountText(n: uint32)
    ensures ToLe(n, 4) == Hexlify(LE(n, 4))
  {
    PowTable();
    ToLeExact(n, 4);
  }

  lemma InputTextIs(i: Input)
    ensures InputText(i) == Hexlify(i.Bytes())
  {
    CountText(i.addressIndex);
    HexlifyConcat(i.uxId, LE(i.addressIndex, 4));
  }

  lemma OutputTextIs(o: Output)
    requires o.coins < LONG && o.hours < LONG
    ensures OutputText(o) == Hexlify(o.Bytes())
  {
    hide ToLe, Hexlify, LE;
    PowTable();
    ToLeExact(o.coins, 8);
    ToLeExact(o.hours, 8);
    HexlifyConcat(o.address, LE(o.coins, 8));
    HexlifyConcat(o.address + LE(o.coins, 8), LE(o.hours, 8));
  }

  lemma {:induction false} InputsStream(t: Txn, k: nat)
    requires t.WellFormed() && k <= |t.inputs|
    ensures ToLe(|t.inputs|, 4) + InputsText(t.inputs, k) + Hexlify(t.Rest(k + 1)) == Hexlify(t.Encode())
  {
    hide ToLe, Hexlify, LE, InputText, Input.Bytes, Output.Bytes;
    if k == 0 {
      CountText(|t.inputs|);
      HexlifyConcat(LE(|t.inputs|, 4), t.Rest(1));
    } else {
      InputsStream(t, k - 1);
      InputTextIs(t.inputs[k - 1]);
      HexlifyConcat(t.inputs[k - 1].Bytes(), t.Rest(k + 1));
      Shift(ToLe(|t.inputs|, 4), InputsText(t.inputs, k - 1), InputText(t.inputs[k - 1]), Hexlify(t.Rest(k + 1)));
    }
  }

  lemma Shift(a: Text, b: Text, x: Text, r: Text)
    ensures a + b + (x + r) == a + (b + x) + r
  {}

  lemma {:induction false} OutputsStream(t: Txn, k: nat)
    requires t.WellFormed() && k <= |t.outputs| && WritableUpTo(t, k)
    ensures ToLe(|t.inputs|, 4) + InputsText(t.inputs, |t.inputs|) + ToLe(|t.outputs|, 4) + OutputsText(t.outputs, k)
            + Hexlify(t.Rest(|t.inputs| + 2 + k)) == Hexlify(t.Encode())
  {
    hide ToLe, Hexlify, LE, InputText, OutputText, InputsText, Input.Bytes, Output.Bytes, Txn.Rest, Txn.Encode;
    var head := ToLe(|t.inputs|, 4) + InputsText(t.inputs, |t.inputs|);
    if k == 0 {
      InputsStream(t, |t.inputs|);
      CountText(|t.outputs|);
      RestCount(t);
      HexlifyConcat(LE(|t.outputs|, 4), t.Rest(|t.inputs| + 2));
      assert head + ToLe(|t.outputs|, 4) + [] == head + ToLe(|t.outputs|, 4);
      Split(head, ToLe(|t.outputs|, 4), Hexlify(t.Rest(|t.inputs| + 2)));
    } else {
      OutputsStream(t, k - 1);
      OutputTextIs(t.outputs[k - 1]);
      RestHead(t, k - 1);
      HexlifyConcat(t.outputs[k - 1].Bytes(), t.Rest(|t.inputs| + 2 + k));
      Shift(head + ToLe(|t.outputs|, 4), OutputsText(t.outputs, k - 1), OutputText(t.outputs[k - 1]),
            Hexlify(t.Rest(|t.inputs| + 2 + k)));
    }
  }

  lemma Split(a: Text, b: Text, c: Text)
    ensures a + (b + c) == a + b + c
  {}

  lemma RestCount(t: Txn)
    ensures t.Rest(|t.inputs| + 1) == LE(|t.outputs|, 4) + t.Rest(|t.inputs| + 2)
  {}

  lemma {:induction false} LongSpoils(outs: seq<Output>, k: nat, i: nat)
    requires i < k <= |outs| && (outs[i].coins >= LONG || outs[i].hours >= LONG)
    ensures CHAR_L in OutputsText(outs, k)
  {
    hide ToLe, Hexlify;
    if i < k - 1 {
      LongSpoils(outs, k - 1, i);
    } else {
      if outs[i].coins >= LONG { LongText(outs[i].coins, 8); } else { LongText(outs[i].hours, 8); }
      assert CHAR_L in OutputText(outs[i]);
    }
  }

  lemma {:induction false} OutputsPrefix(outs: seq<Output>, i: nat, k: nat)
    requires i <= k <= |outs|
    ensures OutputsText(outs, i) <= OutputsText(outs, k)
  {
    hide OutputText;
    if i < k { OutputsPrefix(outs, i, k - 1); }
  }

  /** Where the first long amount of an output begins. */
  function LongAt(o: Output): nat { if o.coins >= LONG then 21 else 29 }

  lemma LongOutput(o: Output)
    requires o.coins >= LONG || o.hours >= LONG
    ensures var at := LongAt(o);
      |OutputText(o)| > 2 * at + 1 && OutputText(o)[2 * at + 1] == CHAR_L && OutputText(o)[..2 * at] == Hexlify(o.Bytes()[..at])
  {
    hide ToLe, Hexlify, LE;
    if o.coins >= LONG {
      LongText(o.coins, 8);
      assert o.Bytes()[..21] == o.address;
    } else {
      LongText(o.hours, 8);
      PowTable();
      ToLeExact(o.coins, 8);
      HexlifyConcat(o.address, LE(o.coins, 8));
      assert o.Bytes()[..29] == o.address + LE(o.coins, 8);
    }
  }

  /** With a long amount the text is right up to the first of them, and then there is an 'L'. */
  lemma {:induction false} LongBreaks(t: Txn) returns (at: nat)
    requires t.WellFormed() && !Writable(t)
    ensures Host.BrokenAt(StreamText(t), t.Encode(), at)
  {
    hide ToLe, Hexlify, LE, InputsText, OutputsText, OutputText, Output.Bytes, Txn.Encode, Txn.Rest;
    var k := FirstLong(t, 0);
    var o := t.outputs[k];
    var head := ToLe(|t.inputs|, 4) + InputsText(t.inputs, |t.inputs|) + ToLe(|t.outputs|, 4);
    var before := head + OutputsText(t.outputs, k);
    OutputsStream(t, k);
    RestHead(t, k);
    HexlifyConcat(o.Bytes(), t.Rest(|t.inputs| + 3 + k));
    LongOutput(o);
    OutputsSnoc(t.outputs, k);
    OutputsPrefix(t.outputs, k + 1, |t.outputs|);
    var part := 2 * LongAt(o);
    BeforeIsEven(t, k, before);
    at := |before| / 2 + LongAt(o);
    HexlifySlice(o.Bytes(), 0, LongAt(o));
    HexlifySlice(t.Encode(), 0, at);
    assert o.Bytes()[0..LongAt(o)] == o.Bytes()[..LongAt(o)] && t.Encode()[0..at] == t.Encode()[..at];
    SpelledPart(t.Encode()[..at]);
    Glue(before, OutputText(o), Hexlify(o.Bytes()), Hexlify(t.Rest(|t.inputs| + 3 + k)), StreamText(t), Hexlify(t.Encode()), part);
  }

  lemma SpelledPart(s: seq<byte>)
    ensures Host.Spells(Hexlify(s), s)
  {
    FromHexOfHexlify(s);
    HexlifyIsHex(s);
  }

  lemma RestHead(t: Txn, k: nat)
    requires k < |t.outputs|
    ensures t.Rest(|t.inputs| + 2 + k) == t.outputs[k].Bytes() + t.Rest(|t.inputs| + 3 + k)
  {}

  lemma OutputsSnoc(outs: seq<Output>, k: nat)
    requires k < |outs|
    ensures OutputsText(outs, k + 1) == OutputsText(outs, k) + OutputText(outs[k])
  {}

  lemma BeforeIsEven(t: Txn, k: nat, before: Text)
    requires k < |t.outputs| && before + Hexlify(t.Rest(|t.inputs| + 2 + k)) == Hexlify(t.Encode())
    ensures |before| % 2 == 0 && |before| / 2 + |t.Rest(|t.inputs| + 2 + k)| == |t.Encode()|
    ensures |t.Rest(|t.inputs| + 2 + k)| >= 37
  {
    hide Hexlify, Txn.Encode, Output.Bytes;
  }

  /** The two texts agree on `before` and on the first `part` characters after it. */
  lemma Glue(before: Text, x: Text, y: Text, rest: Text, text: Text, right: Text, part: nat)
    requires before + x <= text && right == before + (y + rest) && part + 1 < |x| && part <= |y| && x[..part] == y[..part]
    ensures |text| > |before| + part + 1 && text[..|before| + part] == right[..|before| + part] && text[|before| + part + 1] == x[part + 1]
  {
    assert text[..|before| + part] == before + x[..part];
    assert right[..|before| + part] == before + y[..part];
  }

  lemma {:induction false} FirstLong(t: Txn, i: nat) returns (k: nat)
    requires i <= |t.outputs| && WritableUpTo(t, i) && !Writable(t)
    ensures k < |t.outputs| && WritableUpTo(t, k) && (t.outputs[k].coins >= LONG || t.outputs[k].hours >= LONG)
    decreases |t.outputs| - i
  {
    if i == |t.outputs| {
      assert false;
    } else if t.outputs[i].coins < LONG && t.outputs[i].hours < LONG {
      k := FirstLong(t, i + 1);
    } else {
      k := i;
    }
  }

  /** The host's text is the stream the device expects if and only if no amount is a Python long. */
  lemma StreamTextIsExact(t: Txn)
    requires t.WellFormed()
    ensures StreamText(t) == Hexlify(t.Encode()) <==> Writable(t)
  {
    hide ToLe, Hexlify, LE, InputsText, OutputsText, Txn.Encode;
    if Writable(t) {
      OutputsStream(t, |t.outputs|);
      assert Hexlify(t.Rest(t.Count())) == [] by { NoHex(); assert t.Rest(t.Count()) == []; }
    } else {
      var i :| 0 <= i < |t.outputs| && !(t.outputs[i].coins < LONG && t.outputs[i].hours < LONG);
      LongSpoils(t.outputs, |t.outputs|, i);
      HexlifyIsHex(t.Encode());
    }
  }

  lemma NoHex()
    ensures Hexlify([]) == []
  {}

  lemma {:induction false} UxIdsTextIs(ins: seq<Input>, k: nat)
    requires k <= |ins|
    ensures UxIdsText(ins, k) == Hexlify(UxIds(ins, k))
  {
    hide Hexlify;
    if k == 0 {
      NoHex();
    } else {
      UxIdsTextIs(ins, k - 1);
      HexlifyConcat(UxIds(ins, k - 1), ins[k - 1].uxId);
    }
  }

  lemma {:induction false} OutputsTextIs(outs: seq<Output>, k: nat)
    requires k <= |outs| && forall i | 0 <= i < |outs| :: outs[i].coins < LONG && outs[i].hours < LONG
    ensures OutputsText(outs, k) == Hexlify(OutputList(outs, k))
  {
    hide Hexlify, OutputText, Output.Bytes;
    if k == 0 {
      NoHex();
    } else {
      OutputsTextIs(outs, k - 1);
      OutputTextIs(outs[k - 1]);
      HexlifyConcat(OutputList(outs, k - 1), outs[k - 1].Bytes());
    }
  }

  /** What the device hashes is the host's serialisation without the address indices, if and only if no
      amount is a Python long. */
  lemma PreimageIsStripped(t: Txn)
    requires t.WellFormed()
    ensures StrippedText(t) == Hexlify(t.Preimage()) <==> Writable(t)
    ensures !Writable(t) ==> CHAR_L in StrippedText(t)
  {
    hide Hexlify, ToLe, LE, UxIdsText, OutputsText, UxIds, OutputList;
    if Writable(t) {
      var n, m := LE(|t.inputs|, 4), LE(|t.outputs|, 4);
      var ids, outs := UxIds(t.inputs, |t.inputs|), OutputList(t.outputs, |t.outputs|);
      CountText(|t.inputs|);
      CountText(|t.outputs|);
      UxIdsTextIs(t.inputs, |t.inputs|);
      OutputsTextIs(t.outputs, |t.outputs|);
      HexlifyConcat(n, ids);
      HexlifyConcat(n + ids, m);
      HexlifyConcat(n + ids + m, outs);
    } else {
      var i :| 0 <= i < |t.outputs| && !(t.outputs[i].coins < LONG && t.outputs[i].hours < LONG);
      LongSpoils(t.outputs, |t.outputs|, i);
      HexlifyIsHex(t.Preimage());
    }
  }

  // The signed transaction.

  /** Everything after the length field. */
  function RawBody(t: Txn, hash: Digest, sigs: seq<Signature>): seq<byte> {
    [0] + hash + LE(|sigs|, 4) + Joined(sigs) + t.Preimage()
  }

  function RawBytes(t: Txn, hash: Digest, sigs: seq<Signature>): seq<byte> {
    LE(|RawBody(t, hash, sigs)| + 4, 4) + RawBody(t, hash, sigs)
  }

  function JoinedText(ts: seq<Text>): Text { Joined(ts) }

  /** The end of createRawTransaction: type, hash, signatures and stripped transaction behind their length. */
  function RawText(t: Txn, innerHash: Text, sigs: seq<Text>): Text {
    var txn := [ZERO, ZERO] + innerHash + ToLe(|t.inputs|, 4) + JoinedText(sigs) + StrippedText(t);
    ToLe(|txn| / 2 + 4, 4) + txn
  }

  lemma {:induction false} JoinedTextIs(ts: seq<Text>, bs: seq<seq<byte>>)
    requires |ts| == |bs| && forall i | 0 <= i < |ts| :: ts[i] == Hexlify(bs[i])
    ensures JoinedText(ts) == Hexlify(Joined(bs))
  {
    hide Hexlify;
    if ts == [] {
      NoHex();
    } else {
      JoinedTextIs(ts[1..], bs[1..]);
      HexlifyConcat(bs[0], Joined(bs[1..]));
    }
  }

  lemma {:induction false} JoinedLength(sigs: seq<Signature>)
    ensures |Joined(sigs)| == 65 * |sigs|
  {
    if sigs != [] { JoinedLength(sigs[1..]); }
  }

  lemma BodyLength(t: Txn, hash: Digest, sigs: seq<Signature>)
    requires t.WellFormed() && |sigs| == |t.inputs|
    ensures |RawBody(t, hash, sigs)| == 45 + 97 * |t.inputs| + 37 * |t.outputs|
  {
    JoinedLength(sigs);
    IdsLength(t.inputs, |t.inputs|);
    OutputListLength(t.outputs, |t.outputs|);
  }

  lemma ZeroByteText()
    ensures Hexlify([0]) == [ZERO, ZERO]
  {
    assert [0][1..] == [];
  }

  /** With the right hash and signatures, the text spells the signed transaction if and only if no
      amount is a Python long. */
  lemma RawTextIs(t: Txn, hash: Digest, sigs: seq<Signature>, hashText: Text, sigTexts: seq<Text>)
    requires t.WellFormed() && |sigs| == |sigTexts| == |t.inputs|
    requires hashText == Hexlify(hash) && forall i | 0 <= i < |sigs| :: sigTexts[i] == Hexlify(sigs[i])
    ensures RawText(t, hashText, sigTexts) == Hexlify(RawBytes(t, hash, sigs)) <==> Writable(t)
  {
    hide Hexlify, ToLe, LE, Txn.Preimage, StrippedText, Joined, JoinedText, Writable, RawBytes;
    PreimageIsStripped(t);
    if Writable(t) {
      RawTextRight(t, hash, sigs, hashText, sigTexts);
    } else {
      assert CHAR_L in RawText(t, hashText, sigTexts);
      HexlifyIsHex(RawBytes(t, hash, sigs));
    }
  }

  lemma RawTextRight(t: Txn, hash: Digest, sigs: seq<Signature>, hashText: Text, sigTexts: seq<Text>)
    requires t.WellFormed() && Writable(t) && |sigs| == |sigTexts| == |t.inputs|
    requires hashText == Hexlify(hash) && forall i | 0 <= i < |sigs| :: sigTexts[i] == Hexlify(sigs[i])
    ensures RawText(t, hashText, sigTexts) == Hexlify(RawBytes(t, hash, sigs))
  {
    hide Hexlify, ToLe, LE, Txn.Preimage, StrippedText, Joined, JoinedText;
    var n, body := LE(|sigs|, 4), RawBody(t, hash, sigs);
    ZeroByteText();
    CountText(|sigs|);
    JoinedTextIs(sigTexts, sigs);
    PreimageIsStripped(t);
    HexlifyConcat([0], hash);
    HexlifyConcat([0] + hash, n);
    HexlifyConcat([0] + hash + n, Joined(sigs));
    HexlifyConcat([0] + hash + n + Joined(sigs), t.Preimage());
    BodyLength(t, hash, sigs);
    CountText(|body| + 4);
    HexlifyConcat(LE(|body| + 4, 4), body);
  }

  // Reading it back.

  datatype Raw = Raw(kind: byte, hash: seq<byte>, sigs: seq<seq<byte>>, uxIds: seq<seq<byte>>, outputs: seq<Output>)

  /** `count` rows of `size` bytes, and what follows them. */
  function TakeRows(b: seq<byte>, size: nat, count: nat): (r: Option<(seq<seq<byte>>, seq<byte>)>)
    ensures r.Some? ==> forall i | 0 <= i < |r.value.0| :: |r.value.0[i]| == size
  {
    if count == 0 then Some(([], b))
    else if |b| < size then None
    else
      match TakeRows(b[size..], size, count - 1)
      case None => None
      case Some((rows, rest)) => Some(([b[..size]] + rows, rest))
  }

  /** A count, then that many rows. */
  function TakeTable(b: seq<byte>, size: nat): (r: Option<(seq<seq<byte>>, seq<byte>)>)
    ensures r.Some? ==> forall i | 0 <= i < |r.value.0| :: |r.value.0[i]| == size
  {
    if |b| < 4 then None else TakeRows(b[4..], size, U4LE(b, 0))
  }

  function ReadOutputs(rows: seq<seq<byte>>): (outs: seq<Output>)
    requires forall i | 0 <= i < |rows| :: |rows[i]| == 37
    ensures |outs| == |rows|
  {
    seq(|rows|, i requires 0 <= i < |rows| => ReadOutput(rows[i]))
  }

  /** A parser driven by the length and count fields alone. */
  function ParseRaw(b: seq<byte>): Option<Raw> {
    if |b| < 37 || U4LE(b, 0) != |b| then None
    else
      match TakeTable(b[37..], 65)
      case None => None
      case Some((sigs, r1)) =>
        match TakeTable(r1, 32)
        case None => None
        case Some((uxIds, r2)) =>
          match TakeTable(r2, 37)
          case None => None
          case Some((outputs, r3)) => 
            if r3 != [] then None else Some(Raw(b[4], b[5..37], sigs, uxIds, ReadOutputs(outputs)))
  }

  lemma {:induction false} TakeRowsOf(rows: seq<seq<byte>>, size: nat, rest: seq<byte>)
    requires forall i | 0 <= i < |rows| :: |rows[i]| == size
    ensures TakeRows(Joined(rows) + rest, size, |rows|) == Some((rows, rest))
  {
    var b := Joined(rows) + rest;
    if rows == [] {
      assert b == rest;
    } else {
      assert b == rows[0] + (Joined(rows[1..]) + rest);
      assert b[..size] == rows[0] && b[size..] == Joined(rows[1..]) + rest;
      TakeRowsOf(rows[1..], size, rest);
      assert [rows[0]] + rows[1..] == rows;
    }
  }

  lemma TakeTableOf(rows: seq<seq<byte>>, size: nat, rest: seq<byte>)
    requires |rows| < 0x1_0000_0000 && forall i | 0 <= i < |rows| :: |rows[i]| == size
    ensures TakeTable(LE(|rows|, 4) + (Joined(rows) + rest), size) == Some((rows, rest))
  {
    hide LE, Joined, TakeRows, U4LE;
    var b := LE(|rows|, 4) + (Joined(rows) + rest);
    U4LEofLE([], |rows|, Joined(rows) + rest);
    assert [] + LE(|rows|, 4) + (Joined(rows) + rest) == b;
    assert b[4..] == Joined(rows) + rest;
    TakeRowsOf(rows, size, rest);
  }

  lemma {:induction false} JoinedSnoc(rows: seq<seq<byte>>, row: seq<byte>)
    ensures Joined(rows + [row]) == Joined(rows) + row
  {
    if rows == [] {
      assert [row][1..] == [];
    } else {
      assert (rows + [row])[1..] == rows[1..] + [row];
      JoinedSnoc(rows[1..], row);
    }
  }

  function IdRows(ins: seq<Input>): (r: seq<seq<byte>>)
    ensures |r| == |ins|
  {
    seq(|ins|, i requires 0 <= i < |ins| => ins[i].uxId)
  }

  function OutputRows(outs: seq<Output>): (r: seq<seq<byte>>)
    ensures |r| == |outs|
  {
    seq(|outs|, i requires 0 <= i < |outs| => outs[i].Bytes())
  }

  lemma {:induction false} IdsJoined(ins: seq<Input>, k: nat)
    requires k <= |ins|
    ensures UxIds(ins, k) == Joined(IdRows(ins)[..k])
  {
    if k > 0 {
      IdsJoined(ins, k - 1);
      assert IdRows(ins)[..k] == IdRows(ins)[..k - 1] + [ins[k - 1].uxId];
      JoinedSnoc(IdRows(ins)[..k - 1], ins[k - 1].uxId);
    }
  }

  lemma {:induction false} OutputsJoined(outs: seq<Output>, k: nat)
    requires k <= |outs|
    ensures OutputList(outs, k) == Joined(OutputRows(outs)[..k])
  {
    hide Output.Bytes;
    if k > 0 {
      OutputsJoined(outs, k - 1);
      assert OutputRows(outs)[..k] == OutputRows(outs)[..k - 1] + [outs[k - 1].Bytes()];
      JoinedSnoc(OutputRows(outs)[..k - 1], outs[k - 1].Bytes());
    }
  }

  /** The parser recovers every part, and the length field is the length of the whole. */
  lemma RawRoundTrip(t: Txn, hash: Digest, sigs: seq<Signature>)
    requires t.WellFormed() && |sigs| == |t.inputs|
    ensures var b := RawBytes(t, hash, sigs);
      && |b| >= 4 && U4LE(b, 0) == |b|
      && ParseRaw(b) == Some(Raw(0, hash, sigs, IdRows(t.inputs), t.outputs))
  {
    hide LE, U4LE, Joined, TakeTable, Output.Bytes, IdRows, OutputRows, ReadOutputs;
    var b, body := RawBytes(t, hash, sigs), RawBody(t, hash, sigs);
    BodyLength(t, hash, sigs);
    U4LEofLE([], |b|, body);
    assert [] + LE(|b|, 4) + body == b;
    Tables(t, hash, sigs);
    OutputsReadBack(t);
    assert b[37..] == body[33..] && b[4] == body[0] && b[5..37] == body[1..33];
  }

  lemma Tables(t: Txn, hash: Digest, sigs: seq<Signature>)
    requires t.WellFormed() && |sigs| == |t.inputs|
    ensures var body := RawBody(t, hash, sigs);
      |body| >= 33 && body[0] == 0 && body[1..33] == hash
      && (exists r1, r2 :: TakeTable(body[33..], 65) == Some((sigs, r1)) && TakeTable(r1, 32) == Some((IdRows(t.inputs), r2))
                           && TakeTable(r2, 37) == Some((OutputRows(t.outputs), [])))
  {
    hide LE, U4LE, Joined, TakeTable, Output.Bytes, IdRows, OutputRows, UxIds, OutputList;
    var ids, outs := IdRows(t.inputs), OutputRows(t.outputs);
    IdsJoined(t.inputs, |t.inputs|);
    OutputsJoined(t.outputs, |t.outputs|);
    assert ids[..|ids|] == ids && outs[..|outs|] == outs;
    RowSizes(t);
    var r2 := LE(|outs|, 4) + (Joined(outs) + []);
    var r1 := LE(|ids|, 4) + (Joined(ids) + r2);
    TakeTableOf(outs, 37, []);
    TakeTableOf(ids, 32, r2);
    TakeTableOf(sigs, 65, r1);
    Regroup(hash, LE(|sigs|, 4), Joined(sigs), LE(|ids|, 4), Joined(ids), LE(|outs|, 4), Joined(outs));
  }

  lemma OutputsReadBack(t: Txn)
    ensures (forall i | 0 <= i < |t.outputs| :: |OutputRows(t.outputs)[i]| == 37) && ReadOutputs(OutputRows(t.outputs)) == t.outputs
  {
    hide Output.Bytes, ReadOutput;
    forall i | 0 <= i < |t.outputs| ensures ReadOutput(t.outputs[i].Bytes()) == t.outputs[i] {
      OutputRoundTrip(t.outputs[i]);
    }
  }

  lemma RowSizes(t: Txn)
    ensures forall i | 0 <= i < |t.inputs| :: |IdRows(t.inputs)[i]| == 32
    ensures forall i | 0 <= i < |t.outputs| :: |OutputRows(t.outputs)[i]| == 37
  {
    hide Output.Bytes;
  }

  lemma Regroup(h: Digest, n: seq<byte>, s: seq<byte>, k: seq<byte>, u: seq<byte>, m: seq<byte>, o: seq<byte>)
    ensures var body := [0] + h + n + s + (k + u + m + o);
      body[0] == 0 && body[1..33] == h && body[33..] == n + (s + (k + (u + (m + (o + [])))))
  {
    assert o + [] == o;
    var tail := n + (s + (k + (u + (m + o))));
    assert [0] + h + n + s + (k + u + m + o) == [0] + (h + tail);
    assert ([0] + (h + tail))[1..] == h + tail;
  }

  /** Output.serialized, the loop over the two amounts. */
  method Serialized(o: Output) returns (ret: Text)
    ensures ret == OutputText(o)
  {
    hide ToLe, Hexlify;
    var skys := [o.coins, o.hours];
    ret := Hexlify(o.address);
    var i := 0;
    while i < |skys|
      invariant i <= 2
      invariant ret == Hexlify(o.address) + (if i > 0 then ToLe(o.coins, 8) else []) + (if i > 1 then ToLe(o.hours, 8) else [])
    {
      ret := ret + ToLe(skys[i], 8);
      i := i + 1;
    }
  }

  /** The outputs one after the other. */
  method JoinOutputs(outputs: seq<Output>) returns (text: Text)
    ensures text == OutputsText(outputs, |outputs|)
  {
    hide OutputText;
    text := [];
    var i := 0;
    while i < |outputs|
      invariant i <= |outputs| && text == OutputsText(outputs, i)
    {
      var one := Serialized(outputs[i]);
      text := text + one;
      i := i + 1;
    }
  }

  /** createRawTransaction: serialise, have it signed, and put the signed transaction together. None is
      the exception of fromhex on a Python long, raised when its chunk is about to be sent. */
  method CreateRawTransaction(device: Device, t: Txn) returns (raw: Option<Text>)
    requires device.Consistent() && !device.signer.initialized && !device.awaiting && t.WellFormed()
    modifies device, device.signer, device.signer.buffer, device.signer.sigInput, device.io
    ensures device.Consistent() && !device.awaiting && device.signer.bip44Path == old(device.signer.bip44Path)
    ensures raw.Some? <==> Writable(t)
    ensures raw.Some? ==>
      && !device.signer.initialized
      && raw.value == Hexlify(RawBytes(t, InnerHash(device.signer.sdk, t),
                                    Signatures(device.signer.sdk, old(device.signer.bip44Path), t)))
  {
    hide Hexlify, InnerHash, SigOf, RawBytes, RawText, Txn.Encode, ToLe, InputsText, OutputsText, Writable;
    ghost var c, path := device.signer.sdk, device.signer.bip44Path;
    ghost var broken: Option<nat> := None;
    StreamTextIsExact(t);
    SpelledPart(t.Encode());
    if !Writable(t) {
      ghost var at := LongBreaks(t);
      broken := Some(at);
    }
    var inputNum, outputNum := ToLe(|t.inputs|, 4), ToLe(|t.outputs|, 4);
    var outputs := JoinOutputs(t.outputs);
    var txnInOut := inputNum + InputsText(t.inputs, |t.inputs|) + outputNum + outputs;
    var signed, exchanges := Host.SendTxn(device, txnInOut, t, broken);
    if signed.None? {
      return None;
    }
    var (innerHash, sigs) := signed.value;
    raw := Some(RawText(t, innerHash, sigs));
    RawTextIs(t, InnerHash(c, t), Signatures(c, path, t), innerHash, sigs);
  }

  ghost function Signatures(c: Sdk, path: Path, t: Txn): (s: seq<Signature>)
    ensures |s| == |t.inputs|
  {
    seq(|t.inputs|, i requires 0 <= i < |t.inputs| => SigOf(c, path, t, i))
  }
}
