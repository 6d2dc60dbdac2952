// convert_signature_from_TLV_to_RS of src/skycoin-api/skycoin_crypto.c, against the DER encoding of
// an ECDSA signature (section 8.3 of ITU-T X.690, section 2.2.3 of RFC 3279).
module Der {
  import opened Bytes
  import opened Positional

  const TAG_SEQUENCE: byte := 0x30
  const TAG_INTEGER: byte := 0x02

  /** A number a signature half can be. */
  type Scalar = x: nat | x < Pow(256, 32) witness (PowPositive(256, 32); 0)

  function Big(ds: seq<nat>): (s: seq<byte>)
    requires Below(ds, 256)
    ensures s == ds
  {
    seq(|ds|, i requires 0 <= i < |ds| => ds[i])
  }

  /** The digits of `v` in base 256. */
  function Octets(v: nat): (s: seq<byte>)
    ensures s == Digits(v, 256)
  {
    ValOfDigits(v, 256);
    Big(Digits(v, 256))
  }

  /** The contents octets of an INTEGER: as few as possible, the first bit zero. */
  function IntegerBytes(v: nat): (s: seq<byte>)
    ensures |s| > 0
  {
    var s := Octets(v);
    if s == [] || s[0] >= 0x80 then [0] + s else s
  }

  function DerInteger(v: Scalar): (s: seq<byte>)
    ensures |s| <= 35
  {
    IntegerLength(v);
    [TAG_INTEGER, |IntegerBytes(v)|] + IntegerBytes(v)
  }

  /** SEQUENCE { r INTEGER, s INTEGER }; the contents are at most 70 bytes, so one length byte. */
  function DerSignature(r: Scalar, s: Scalar): (d: seq<byte>) {
    [TAG_SEQUENCE, |DerInteger(r) + DerInteger(s)|] + DerInteger(r) + DerInteger(s)
  }

  /** `v` as 32 big-endian bytes. */
  function Fixed32(v: Scalar): (s: seq<byte>)
    ensures |s| == 32
  {
    IntegerLength(v);
    seq(32 - |Octets(v)|, _ => 0) + Octets(v)
  }

  lemma Fixed32Value(v: Scalar)
    ensures Val(Fixed32(v), 256) == v
  {
    hide Val, Digits, Pow, Octets, IntegerBytes;
    IntegerLength(v);
    OctetsValue(v);
    Padded(32 - |Octets(v)|, Octets(v));
  }

  lemma Padded(z: nat, o: seq<byte>)
    ensures Val(seq(z, _ => 0) + o, 256) == Val(o, 256)
  {
    hide Val;
    var f := seq(z, _ => 0) + o;
    AfterZeros(f, z, 256);
    assert f[z..] == o;
  }

  lemma OctetsValue(v: nat)
    ensures Val(Octets(v), 256) == v
  {
    hide Val, Digits;
    ValOfDigits(v, 256);
  }

  /** The one string of 32 bytes whose big-endian value is `v`. */
  lemma Fixed32Is(v: Scalar, bs: seq<byte>)
    requires |bs| == 32
    ensures Val(bs, 256) == v <==> bs == Fixed32(v)
  {
    hide Val, Fixed32, Pow;
    Fixed32Value(v);
    if Val(bs, 256) == v { ValTells(bs, Fixed32(v), 256); }
  }

  /** The encoding, field by field, as the standard has it: tag, length, and two integers, each with its tag,
      its length and its big-endian value in as few bytes as a leading zero bit allows. */
  lemma DerFields(r: Scalar, s: Scalar)
    ensures var d, n := DerSignature(r, s), |IntegerBytes(r)|;
      && |d| == 6 + n + |IntegerBytes(s)| && d[0] == 0x30 && d[1] == |d| - 2
      && d[2] == 0x02 && d[3] == n && d[4..4 + n] == IntegerBytes(r)
      && d[4 + n] == 0x02 && d[5 + n] == |IntegerBytes(s)| && d[6 + n..] == IntegerBytes(s)
  {
    hide Octets, Pow, IntegerBytes;
    var x, y := IntegerBytes(r), IntegerBytes(s);
    var d := DerSignature(r, s);
    assert d == [TAG_SEQUENCE, |DerInteger(r) + DerInteger(s)|, TAG_INTEGER, |x|] + x + [TAG_INTEGER, |y|] + y;
    assert d[4..4 + |x|] == x && d[6 + |x|..] == y;
  }

  lemma IntegerIs(v: Scalar)
    ensures var x := IntegerBytes(v);
      Val(x, 256) == v && x[0] < 0x80 && (|x| > 1 && x[0] == 0 ==> x[1] >= 0x80)
  {
    hide Val, Digits, Pow;
    var o := Octets(v);
    ValOfDigits(v, 256);
    if o == [] || o[0] >= 0x80 {
      AfterZeros([0] + o, 1, 256);
      assert ([0] + o)[1..] == o;
    }
  }

  lemma IntegerLength(v: Scalar)
    ensures |Octets(v)| <= 32 && 1 <= |IntegerBytes(v)| <= 33
    ensures |IntegerBytes(v)| == |Octets(v)| || (|IntegerBytes(v)| == |Octets(v)| + 1 && IntegerBytes(v)[0] == 0)
    ensures IntegerBytes(v)[|IntegerBytes(v)| - |Octets(v)|..] == Octets(v)
  {
    hide Digits, Pow;
    DigitCount(v, 256, 32);
  }

  /** The conversion, reading the memory around the encoding at `tlv`: offsets are relative to a
      length of 32 and can be negative. */
  method ConvertSignature(mem: array<byte>, tlv: nat, dst: array<byte>)
    requires mem != dst && dst.Length >= 64 && tlv >= 32 && tlv + 5 < mem.Length
    requires var rSize := mem[tlv + 3]; tlv + 5 + rSize < mem.Length && tlv + 6 + rSize + mem[tlv + 5 + rSize] <= mem.Length
    modifies dst
    ensures dst[..64] == Converted(mem[..], tlv) && dst[64..] == old(dst[64..])
  {
    var rSize: int := mem[tlv + 3];
    var sSize: int := mem[tlv + 3 + rSize + 2];
    var rOffset, sOffset := rSize - 32, sSize - 32;
    var offsetBeforeR, offsetBeforeS := 4, 2;
    ghost var rEnd, sEnd := tlv + 4 + rSize, tlv + 6 + rSize + sSize;
    Copy32(mem, tlv + offsetBeforeR + rOffset, dst, 0);
    assert dst[..32] == mem[rEnd - 32..rEnd];
    Copy32(mem, tlv + offsetBeforeR + 32 + offsetBeforeS + rOffset + sOffset, dst, 32);
    assert dst[32..64] == mem[sEnd - 32..sEnd];
    WindowsAre(mem, tlv, dst, rEnd, sEnd);
  }

  /** os_memmove of 32 bytes. */
  method Copy32(mem: array<byte>, from: nat, dst: array<byte>, at: nat)
    requires mem != dst && from + 32 <= mem.Length && at + 32 <= dst.Length
    modifies dst
    ensures dst[..at] == old(dst[..at]) && dst[at..at + 32] == mem[from..from + 32] && dst[at + 32..] == old(dst[at + 32..])
  {
    forall i | 0 <= i < 32 { dst[at + i] := mem[from + i]; }
  }

  lemma WindowsAre(mem: array<byte>, tlv: nat, dst: array<byte>, rEnd: nat, sEnd: nat)
    requires dst.Length >= 64 && tlv >= 32 && tlv + 5 < mem.Length && rEnd == tlv + 4 + mem[tlv + 3] && rEnd + 1 < mem.Length
    requires sEnd == rEnd + 2 + mem[rEnd + 1] <= mem.Length
    requires dst[..32] == mem[rEnd - 32..rEnd] && dst[32..64] == mem[sEnd - 32..sEnd]
    ensures dst[..64] == Converted(mem[..], tlv)
  {
    assert dst[..64] == dst[..32] + dst[32..64];
    assert mem[rEnd - 32..rEnd] == mem[..][rEnd - 32..rEnd];
    assert mem[sEnd - 32..sEnd] == mem[..][sEnd - 32..sEnd];
  }

  /** The last 32 of the bytes that end each integer. */
  ghost function Converted(mem: seq<byte>, tlv: nat): (rs: seq<byte>)
    requires tlv >= 32 && tlv + 5 < |mem|
    requires var rSize := mem[tlv + 3]; tlv + 5 + rSize < |mem| && tlv + 6 + rSize + mem[tlv + 5 + rSize] <= |mem|
    ensures |rs| == 64
  {
    var rEnd := tlv + 4 + mem[tlv + 3];
    var sEnd := rEnd + 2 + mem[rEnd + 1];
    mem[rEnd - 32..rEnd] + mem[sEnd - 32..sEnd]
  }

  /** The leading octet is only ever a sign octet of zero. */
  lemma LongHalf(v: Scalar)
    requires |IntegerBytes(v)| >= 32
    ensures IntegerBytes(v)[|IntegerBytes(v)| - 32..] == Fixed32(v)
  {
    hide Octets, Pow, IntegerBytes;
    IntegerLength(v);
  }

  lemma ShortHalf(v: Scalar, half: seq<byte>)
    requires |IntegerBytes(v)| < 32 && |half| == 32 && half[31 - |IntegerBytes(v)|] == |IntegerBytes(v)|
    ensures half != Fixed32(v)
  {
    hide Octets, Pow, IntegerBytes;
    IntegerLength(v);
    assert Fixed32(v)[31 - |IntegerBytes(v)|] == 0;
  }

  /** One half: the 32 bytes that end at the end of an encoded integer are its value if and only if
      the integer takes at least 32 bytes; a shorter one drags its own length byte in. */
  lemma HalfIs(mem: seq<byte>, at: nat, v: Scalar)
    requires at >= 32 && at + |IntegerBytes(v)| <= |mem|
    requires mem[at - 1] == |IntegerBytes(v)| && mem[at..at + |IntegerBytes(v)|] == IntegerBytes(v)
    ensures mem[at + |IntegerBytes(v)| - 32..at + |IntegerBytes(v)|] == Fixed32(v) <==> |IntegerBytes(v)| >= 32
  {
    hide Octets, Pow, IntegerBytes, Fixed32;
    var size := |IntegerBytes(v)|;
    var half := mem[at + size - 32..at + size];
    if size < 32 {
      ShortHalf(v, half);
    } else {
      LongHalf(v);
      assert half == mem[at..at + size][size - 32..];
    }
  }

  lemma Layout(pre: seq<byte>, r: Scalar, s: Scalar, post: seq<byte>)
    ensures var mem, x, y, rn, sn := pre + DerSignature(r, s) + post, IntegerBytes(r), IntegerBytes(s), |IntegerBytes(r)|, |IntegerBytes(s)|;
      && |mem| >= |pre| + 6 + rn + sn
      && mem[|pre| + 3] == rn && mem[|pre| + 4..|pre| + 4 + rn] == x
      && mem[|pre| + 5 + rn] == sn && mem[|pre| + 6 + rn..|pre| + 6 + rn + sn] == y
  {
    hide Octets, Pow, IntegerBytes;
    var x, y := IntegerBytes(r), IntegerBytes(s);
    var head := [TAG_SEQUENCE, |DerInteger(r) + DerInteger(s)|, TAG_INTEGER, |x|];
    var d := DerSignature(r, s);
    assert d == head + x + [TAG_INTEGER, |y|] + y;
    assert d[3] == |x| && d[4..4 + |x|] == x;
    assert d[5 + |x|] == |y| && d[6 + |x|..6 + |x| + |y|] == y;
    InFrame(pre, d, post, 4, 4 + |x|);
    InFrame(pre, d, post, 6 + |x|, 6 + |x| + |y|);
  }

  lemma InFrame(pre: seq<byte>, d: seq<byte>, post: seq<byte>, i: nat, j: nat)
    requires i <= j <= |d|
    ensures (pre + d + post)[|pre| + i..|pre| + j] == d[i..j]
  {}

  /** The conversion gives the two 32-byte halves if and only if both integers are encoded in at
      least 32 bytes, whatever lies in memory before and after the encoding. */
  lemma ConversionIsExact(pre: seq<byte>, r: Scalar, s: Scalar, post: seq<byte>)
    requires |pre| >= 32
    ensures var mem := pre + DerSignature(r, s) + post;
      && |pre| + 5 + mem[|pre| + 3] < |mem| && |pre| + 6 + mem[|pre| + 3] + mem[|pre| + 5 + mem[|pre| + 3]] <= |mem|
      && (Converted(mem, |pre|) == Fixed32(r) + Fixed32(s) <==> |IntegerBytes(r)| >= 32 && |IntegerBytes(s)| >= 32)
  {
    hide Octets, Pow, IntegerBytes, Fixed32, DerSignature;
    var mem := pre + DerSignature(r, s) + post;
    Layout(pre, r, s, post);
    HalfIs(mem, |pre| + 4, r);
    HalfIs(mem, |pre| + 6 + |IntegerBytes(r)|, s);
    var rs := Converted(mem, |pre|);
    Halves(rs[..32], rs[32..], Fixed32(r), Fixed32(s));
    assert rs == rs[..32] + rs[32..];
  }

  lemma Halves(x: seq<byte>, y: seq<byte>, u: seq<byte>, v: seq<byte>)
    requires |x| == |u|
    ensures x + y == u + v <==> x == u && y == v
  {
    if x + y == u + v {
      assert x == (x + y)[..|x|] && y == (x + y)[|x|..] && u == (u + v)[..|u|] && v == (u + v)[|u|..];
    }
  }

  /** In numbers: a half is long enough if and only if it is at least 2 ** 247. */
  lemma LongEnough(v: Scalar)
    ensures |IntegerBytes(v)| >= 32 <==> v >= Pow(2, 247)
  {
    PowersOfTwo();
    hide Pow, Digits, Val;
    var ds := Octets(v);
    OctetRange(v);
    TopStep();
    PowPositive(256, 30);
    if |ds| == 31 {
      if ds[0] >= 0x80 { MulMono(Pow(256, 30), 0x80, ds[0]); } else { MulMono(Pow(256, 30), ds[0] + 1, 0x80); }
    }
  }

  lemma OctetRange(v: Scalar)
    ensures var ds: seq<nat> := Octets(v);
      && (|ds| >= 32 ==> v >= Pow(256, 31)) && (|ds| <= 30 ==> v < Pow(256, 30))
      && (|ds| == 31 ==> Pow(256, 30) * ds[0] <= v < Pow(256, 30) * (ds[0] + 1))
  {
    hide Pow, Digits, Val;
    var ds := Octets(v);
    ValOfDigits(v, 256);
    ValBound(ds, 256);
    if |ds| >= 32 { ValAtLeast(ds, 256); PowMono(256, 31, |ds| - 1); }
    if |ds| <= 30 { PowMono(256, |ds|, 30); }
    if |ds| == 31 {
      assert ds == [ds[0]] + ds[1..];
      ValCons(ds[0], ds[1..], 256);
      ValBound(ds[1..], 256);
    }
  }

  lemma {:induction false} TwoTo(k: nat)
    ensures Pow(256, k) == Pow(2, 8 * k)
  {
    if k == 0 {
      Empty(2);
      Empty(256);
    } else {
      hide Pow;
      TwoTo(k - 1);
      PowStep(256, k - 1);
      PowAdd(2, 8, 8 * (k - 1));
      TwoToEight();
    }
  }

  lemma TwoToEight()
    ensures Pow(2, 8) == 256 && Pow(2, 7) == 0x80
  {
    assert Pow(2, 4) == 16;
    PowAdd(2, 4, 4);
    PowStep(2, 7);
  }

  lemma PowersOfTwo()
    ensures Pow(2, 247) == 0x80 * Pow(256, 30)
  {
    hide Pow;
    TwoTo(30);
    TwoToEight();
    PowAdd(2, 7, 240);
  }

  lemma TopStep()
    ensures Pow(256, 31) == 256 * Pow(256, 30)
  {}
}
