// The hexadecimal text the host scripts work on: hexlify, fromhex, hex() and to_le of
// scripts/generating_txn.py, in the Python 2 dialect the scripts are written in.
module HostText {
  import opened Bytes
  import opened Positional

  const CHAR_L: byte := 76
  const ZERO: byte := 48

  function HexChar(d: nat): (c: byte)
    requires d < 16
    ensures 48 <= c < 103 && c != CHAR_L
  {
    if d < 10 then 48 + d else 87 + d
  }

  /** hexlify and hex() write lower case. */
  lemma HexCharIs(d: nat)
    requires d < 16
    ensures HexChar(d) == "0123456789abcdef"[d] as int
  {}

  function HexValue(c: byte): (d: nat)
    ensures d < 16
  {
    if 48 <= c < 58 then c - 48 else if 65 <= c < 71 then c - 55 else if 97 <= c < 103 then c - 87 else 0
  }

  predicate HexDigit(c: byte) { 48 <= c < 58 || 65 <= c < 71 || 97 <= c < 103 }

  /** bytearray.fromhex raises ValueError on anything else. */
  predicate IsHex(t: Text) {
    |t| % 2 == 0 && forall i | 0 <= i < |t| :: HexDigit(t[i])
  }

  lemma HexValueOfChar(d: nat)
    requires d < 16
    ensures HexValue(HexChar(d)) == d
  {}

  function HexOf(b: byte): (t: Text)
    ensures |t| == 2
  {
    [HexChar(b / 16), HexChar(b % 16)]
  }

  function Hexlify(s: seq<byte>): (t: Text)
    ensures |t| == 2 * |s|
  {
    if s == [] then [] else HexOf(s[0]) + Hexlify(s[1..])
  }

  /** An odd character at the end is no byte; IsHex excludes it. */
  function FromHex(t: Text): seq<byte> {
    if |t| < 2 then [] else [ByteOf(t[0], t[1])] + FromHex(t[2..])
  }

  function ByteOf(high: byte, low: byte): byte { 16 * HexValue(high) + HexValue(low) }

  lemma FromHexStep(t: Text)
    ensures FromHex(t) == if |t| < 2 then [] else [ByteOf(t[0], t[1])] + FromHex(t[2..])
  {}

  lemma {:induction false} FromHexOfHexlify(s: seq<byte>)
    ensures FromHex(Hexlify(s)) == s
  {
    if s != [] {
      HexValueOfChar(s[0] / 16);
      HexValueOfChar(s[0] % 16);
      assert Hexlify(s)[2..] == Hexlify(s[1..]);
      FromHexOfHexlify(s[1..]);
    }
  }

  lemma {:induction false} FromHexConcat(x: Text, y: Text, i: nat)
    requires |x| == 2 * i
    ensures |FromHex(x)| == i && FromHex(x + y) == FromHex(x) + FromHex(y)
  {
    hide FromHex, ByteOf;
    FromHexStep(x);
    if i == 0 {
      assert x + y == y;
    } else {
      FromHexStep(x + y);
      assert (x + y)[2..] == x[2..] + y && (x + y)[0] == x[0] && (x + y)[1] == x[1];
      FromHexConcat(x[2..], y, i - 1);
    }
  }

  lemma FromHexParts(t: Text, x: Text, y: Text, i: nat)
    requires t == x + y && |x| == 2 * i
    ensures |FromHex(t)| >= i && FromHex(x) == FromHex(t)[..i] && FromHex(y) == FromHex(t)[i..]
  {
    hide FromHex;
    FromHexConcat(x, y, i);
  }

  lemma FromHexSlice(t: Text, i: nat, j: nat)
    requires i <= j && 2 * j <= |t|
    ensures |FromHex(t)| >= j && FromHex(t[2 * i..2 * j]) == FromHex(t)[i..j]
  {
    hide FromHex;
    var x := t[..2 * j];
    Halves(t, 2 * j);
    FromHexParts(t, x, t[2 * j..], j);
    Halves(x, 2 * i);
    FromHexParts(x, x[..2 * i], x[2 * i..], i);
    Inner(t, 2 * i, 2 * j);
    Inner(FromHex(t), i, j);
  }

  lemma Halves(s: seq<byte>, i: nat)
    requires i <= |s|
    ensures s == s[..i] + s[i..]
  {}

  lemma Inner(s: seq<byte>, i: nat, j: nat)
    requires i <= j <= |s|
    ensures s[..j][i..] == s[i..j]
  {}

  lemma {:induction false} HexlifyConcat(x: seq<byte>, y: seq<byte>)
    ensures Hexlify(x + y) == Hexlify(x) + Hexlify(y)
  {
    if x == [] {
      assert x + y == y;
    } else {
      assert (x + y)[1..] == x[1..] + y;
      HexlifyConcat(x[1..], y);
    }
  }

  lemma HexlifyParts(s: seq<byte>, x: seq<byte>, y: seq<byte>)
    requires s == x + y
    ensures Hexlify(x) == Hexlify(s)[..2 * |x|] && Hexlify(y) == Hexlify(s)[2 * |x|..]
  {
    hide Hexlify;
    HexlifyConcat(x, y);
  }

  lemma HexlifySlice(s: seq<byte>, i: nat, j: nat)
    requires i <= j <= |s|
    ensures Hexlify(s)[2 * i..2 * j] == Hexlify(s[i..j])
  {
    hide Hexlify;
    var u, x := Hexlify(s), s[..j];
    assert Hexlify(x) == u[..2 * j] by { Halves(s, j); HexlifyParts(s, x, s[j..]); }
    assert Hexlify(x[i..]) == u[..2 * j][2 * i..] by { Halves(x, i); HexlifyParts(x, x[..i], x[i..]); }
    assert x[i..] == s[i..j] by { Inner(s, i, j); }
    assert u[..2 * j][2 * i..] == u[2 * i..2 * j] by { Inner(u, 2 * i, 2 * j); }
  }

  /** Every byte becomes two lower-case digits, the high one first. */
  lemma {:induction false} HexlifyAt(s: seq<byte>, i: nat)
    requires i < |s|
    ensures Hexlify(s)[2 * i] == "0123456789abcdef"[s[i] / 16] as int && Hexlify(s)[2 * i + 1] == "0123456789abcdef"[s[i] % 16] as int
  {
    HexCharIs(s[i] / 16);
    HexCharIs(s[i] % 16);
    if i > 0 { HexlifyAt(s[1..], i - 1); }
  }

  lemma {:induction false} HexlifyIsHex(s: seq<byte>)
    ensures IsHex(Hexlify(s)) && CHAR_L !in Hexlify(s)
  {
    if s != [] { HexlifyIsHex(s[1..]); }
  }

  function HexChars(ds: seq<nat>): (t: Text)
    requires Below(ds, 16)
    ensures |t| == |ds|
  {
    seq(|ds|, i requires 0 <= i < |ds| => HexChar(ds[i]))
  }

  const LONG := 0x8000_0000_0000_0000

  /** hex(v)[2:]. From 2 ** 63 on the number is a long and the text ends in 'L'. */
  function PyHex(v: nat): (t: Text)
    ensures |t| > 0
  {
    ValOfDigits(v, 16);
    (if v == 0 then [ZERO] else HexChars(Digits(v, 16))) + (if v >= LONG then [CHAR_L] else [])
  }

  function PadEven(t: Text): (r: Text)
    ensures |r| % 2 == 0 && (|r| == |t| || |r| == |t| + 1)
  {
    if |t| % 2 == 1 then [ZERO] + t else t
  }

  /** The two-character pieces of `t` in reverse order. */
  function ReversePairs(t: Text): (r: Text)
    requires |t| % 2 == 0
    ensures |r| == |t|
  {
    if t == [] then [] else ReversePairs(t[2..]) + t[..2]
  }

  function Zeros(n: int): Text { if n <= 0 then [] else seq(n, _ => ZERO) }

  function ToLe(num: nat, byteNumber: nat): Text {
    var hx := ReversePairs(PadEven(PyHex(num)));
    hx + Zeros(byteNumber * 2 - |hx|)
  }

  lemma {:induction false} ReversePairsEnd(x: Text, pair: Text)
    requires |x| % 2 == 0 && |pair| == 2
    ensures ReversePairs(x + pair) == pair + ReversePairs(x)
  {
    if x == [] {
      assert x + pair == pair;
      assert pair[2..] == [];
    } else {
      assert (x + pair)[2..] == x[2..] + pair && (x + pair)[..2] == x[..2];
      ReversePairsEnd(x[2..], pair);
    }
  }

  lemma HexSmall(v: nat)
    requires v < 256
    ensures PadEven(PyHex(v)) == HexOf(v)
  {
    if v >= 16 {
      OneDigit(v / 16);
      assert Digits(v, 16) == Digits(v / 16, 16) + [v % 16];
    } else if v > 0 {
      OneDigit(v);
    }
  }

  lemma OneDigit(d: nat)
    requires 0 < d < 16
    ensures Digits(d, 16) == [d]
  {
    assert Digits(d / 16, 16) == [];
  }

  lemma TwoDigits(v: nat)
    requires v >= 256
    ensures Digits(v, 16) == Digits(v / 256, 16) + [v % 256 / 16, v % 256 % 16]
  {
    assert v / 16 / 16 == v / 256 && v % 256 / 16 == v / 16 % 16 && v % 256 % 16 == v % 16;
    assert Digits(v / 16, 16) == Digits(v / 256, 16) + [v / 16 % 16];
  }

  lemma HexLarge(v: nat)
    requires 256 <= v < LONG
    ensures PadEven(PyHex(v)) == PadEven(PyHex(v / 256)) + HexOf(v % 256)
  {
    hide Digits, HexChars, PadEven;
    TwoDigits(v);
    ValOfDigits(v, 16);
    ValOfDigits(v / 256, 16);
    var d := Digits(v / 256, 16);
    HexCharsPair(d, v % 256);
    assert PyHex(v) == HexChars(Digits(v, 16)) && PyHex(v / 256) == HexChars(d);
    PadPair(HexChars(d), HexOf(v % 256));
  }

  lemma HexCharsPair(d: seq<nat>, b: byte)
    requires Below(d, 16)
    ensures HexChars(d + [b / 16, b % 16]) == HexChars(d) + HexOf(b)
  {
    hide HexChar;
  }

  lemma PadPair(t: Text, pair: Text)
    requires |pair| == 2
    ensures PadEven(t + pair) == PadEven(t) + pair
  {
    assert [ZERO] + (t + pair) == [ZERO] + t + pair;
  }

  lemma {:induction false} HexlifyZeros(k: nat)
    ensures Hexlify(LE(0, k)) == Zeros(2 * k)
  {
    if k > 0 {
      HexlifyZeros(k - 1);
      assert LE(0, k)[1..] == LE(0, k - 1);
      assert HexOf(0) == [ZERO, ZERO];
    }
  }

  lemma {:induction false} ToLeFits(num: nat, k: nat)
    requires 0 < k && num < Pow(256, k) && num < LONG
    ensures ToLe(num, k) == Hexlify(LE(num, k))
  {
    hide PyHex, PadEven, HexOf, ReversePairs, Zeros;
    assert LE(num, k) == [num % 256] + LE(num / 256, k - 1);
    assert (LE(num, k))[1..] == LE(num / 256, k - 1);
    assert Hexlify(LE(num, k)) == HexOf(num % 256) + Hexlify(LE(num / 256, k - 1));
    if num < 256 {
      HexSmall(num);
      OnePair(HexOf(num));
      HexlifyZeros(k - 1);
    } else {
      assert k > 1;
      HexLarge(num);
      ReversePairsEnd(PadEven(PyHex(num / 256)), HexOf(num % 256));
      ToLeFits(num / 256, k - 1);
      var hx := ReversePairs(PadEven(PyHex(num / 256)));
      assert HexOf(num % 256) + hx + Zeros(2 * k - |hx| - 2) == HexOf(num % 256) + (hx + Zeros(2 * (k - 1) - |hx|));
    }
  }

  lemma OnePair(pair: Text)
    requires |pair| == 2
    ensures ReversePairs(pair) == pair
  {
    assert pair[2..] == [] && pair[..2] == pair;
  }

  /** The end of a long's text comes first in to_le. */
  lemma ReversePairsTurns(t: Text)
    requires |t| % 2 == 0 && t != []
    ensures |ReversePairs(t)| == |t| && ReversePairs(t)[1] == t[|t| - 1]
  {
    var x, pair := t[..|t| - 2], t[|t| - 2..];
    assert t == x + pair;
    ReversePairsEnd(x, pair);
  }

  lemma {:induction false} ManyDigits(v: nat, e: nat)
    requires v >= Pow(16, e)
    ensures |Digits(v, 16)| > e
  {
    if e > 0 {
      DivMod(v, 16);
      MulMono(Pow(16, e - 1), 1, 16);
      ManyDigits(v / 16, e - 1);
    }
  }

  lemma {:induction false} Pow256Is16(k: nat)
    ensures Pow(256, k) == Pow(16, 2 * k)
  {
    if k > 0 { Pow256Is16(k - 1); }
  }

  /** A Python long leaves its 'L' in the first byte. */
  lemma LongText(num: nat, k: nat)
    requires num >= LONG
    ensures |ToLe(num, k)| >= 2 && ToLe(num, k)[1] == CHAR_L
  {
    hide Digits, ReversePairs;
    var hx := PadEven(PyHex(num));
    assert PyHex(num)[|PyHex(num)| - 1] == CHAR_L;
    assert hx[|hx| - 1] == CHAR_L;
    ReversePairsTurns(hx);
  }

  /** to_le writes `num` as exactly `k` little-endian bytes if and only if it fits them and is
      not a Python long. */
  lemma ToLeExact(num: nat, k: nat)
    requires 0 < k
    ensures ToLe(num, k) == Hexlify(LE(num, k)) <==> num < Pow(256, k) && num < 0x8000_0000_0000_0000
  {
    hide Hexlify, Digits, LE, Pow;
    if num < Pow(256, k) && num < LONG {
      ToLeFits(num, k);
    } else if num >= LONG {
      LongText(num, k);
      HexlifyIsHex(LE(num, k));
    } else {
      PowPositive(256, k);
      Pow256Is16(k);
      ManyDigits(num, 2 * k);
    }
  }
}
