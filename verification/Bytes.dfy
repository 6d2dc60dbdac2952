// Bytes, little-endian integers and the host's hexadecimal text.
module Bytes {
  import opened Positional

  type byte = x: nat | x < 256
  type uint32 = x: nat | x < 0x1_0000_0000
  type uint64 = x: nat | x < 0x1_0000_0000_0000_0000
  /** ASCII text, one code per character. */
  type Text = seq<byte>

  /** `n` as `k` little-endian bytes; higher bytes are cut off. */
  function LE(n: nat, k: nat): (s: seq<byte>)
    ensures |s| == k
  {
    if k == 0 then [] else [n % 256] + LE(n / 256, k - 1)
  }

  function FromLE(s: seq<byte>): nat
  {
    if s == [] then 0 else s[0] + 256 * FromLE(s[1..])
  }

  lemma {:induction false} FromLEofLE(n: nat, k: nat)
    requires n < Pow(256, k)
    ensures FromLE(LE(n, k)) == n
  {
    if k > 0 {
      assert n / 256 < Pow(256, k - 1);
      FromLEofLE(n / 256, k - 1);
    }
  }

  /** The Ledger SDK macro: four bytes at `off`, least significant first. */
  function U4LE(buf: seq<byte>, off: nat): uint32
    requires off + 4 <= |buf|
  {
    var b0: int, b1: int, b2: int, b3: int := buf[off], buf[off + 1], buf[off + 2], buf[off + 3];
    b0 + 0x100 * b1 + 0x1_0000 * b2 + 0x100_0000 * b3
  }

  /** Two 32-bit halves, the second shifted left by 32 bits. */
  function U8LE(buf: seq<byte>, off: nat): uint64
    requires off + 8 <= |buf|
  {
    U4LE(buf, off + 4) * 0x1_0000_0000 + U4LE(buf, off)
  }

  lemma U4LEisFromLE(buf: seq<byte>, off: nat)
    requires off + 4 <= |buf|
    ensures U4LE(buf, off) == FromLE(buf[off..off + 4])
  {
    var s := buf[off..off + 4];
    assert FromLE(s[3..]) == s[3];
    assert s[2..][1..] == s[3..] && s[1..][1..] == s[2..];
    assert FromLE(s[2..]) == s[2] + 256 * FromLE(s[3..]);
    assert FromLE(s[1..]) == s[1] + 256 * FromLE(s[2..]);
  }

  lemma U4LEofLE(pre: seq<byte>, n: uint32, post: seq<byte>)
    ensures U4LE(pre + LE(n, 4) + post, |pre|) == n
  {
    var buf := pre + LE(n, 4) + post;
    assert buf[|pre|..|pre| + 4] == LE(n, 4);
    U4LEisFromLE(buf, |pre|);
    PowTable();
    FromLEofLE(n, 4);
  }

  lemma FromLEStep(s: seq<byte>)
    ensures FromLE(s) == if s == [] then 0 else s[0] + 256 * FromLE(s[1..])
  {}

  lemma {:induction false} FromLEConcat(x: seq<byte>, y: seq<byte>)
    ensures FromLE(x + y) == FromLE(x) + Pow(256, |x|) * FromLE(y)
  {
    hide FromLE, Pow;
    FromLEStep(x);
    if x == [] {
      assert x + y == y;
      Empty(256);
    } else {
      assert (x + y)[1..] == x[1..] + y && (x + y)[0] == x[0];
      FromLEStep(x + y);
      FromLEConcat(x[1..], y);
      PowStep(256, |x| - 1);
      MulAssoc(256, Pow(256, |x| - 1), FromLE(y));
    }
  }

  lemma U8LEofLE(pre: seq<byte>, n: uint64, post: seq<byte>)
    ensures U8LE(pre + LE(n, 8) + post, |pre|) == n
  {
    var buf, off := pre + LE(n, 8) + post, |pre|;
    assert LE(n, 8) == buf[off..off + 4] + buf[off + 4..off + 8];
    U4LEisFromLE(buf, off);
    U4LEisFromLE(buf, off + 4);
    FromLEConcat(buf[off..off + 4], buf[off + 4..off + 8]);
    PowTable();
    FromLEofLE(n, 8);
  }

  /** Any bytes are the little-endian form of their own value. */
  lemma {:induction false} LEofFromLE(s: seq<byte>)
    ensures LE(FromLE(s), |s|) == s
  {
    if s != [] {
      LEofFromLE(s[1..]);
      var v := FromLE(s[1..]);
      DivModUnique(v, 256, s[0]);
      assert FromLE(s) == v * 256 + s[0];
      assert LE(FromLE(s), |s|) == [s[0]] + LE(v, |s| - 1);
    }
  }

  lemma LEofU4LE(buf: seq<byte>, off: nat)
    requires off + 4 <= |buf|
    ensures LE(U4LE(buf, off), 4) == buf[off..off + 4]
  {
    U4LEisFromLE(buf, off);
    LEofFromLE(buf[off..off + 4]);
  }

  lemma LEofU8LE(buf: seq<byte>, off: nat)
    requires off + 8 <= |buf|
    ensures LE(U8LE(buf, off), 8) == buf[off..off + 8]
  {
    var x, y := buf[off..off + 4], buf[off + 4..off + 8];
    U4LEisFromLE(buf, off);
    U4LEisFromLE(buf, off + 4);
    FromLEConcat(x, y);
    PowTable();
    assert x + y == buf[off..off + 8];
    LEofFromLE(x + y);
  }

  lemma PowTable()
    ensures Pow(256, 4) == 0x1_0000_0000
    ensures Pow(256, 8) == 0x1_0000_0000_0000_0000
  {
    assert Pow(256, 2) == 65536;
    PowAdd(256, 2, 2);
    PowAdd(256, 4, 4);
  }

  /** `was` with `text` written over it from index `at` on. */
  function Patched(was: seq<byte>, at: nat, text: seq<byte>): (s: seq<byte>)
    requires at + |text| <= |was|
    ensures |s| == |was| && s[..at] == was[..at] && s[at..at + |text|] == text && s[at + |text|..] == was[at + |text|..]
  {
    was[..at] + text + was[at + |text|..]
  }

  lemma PatchedEnd(was: seq<byte>, at: nat, text: seq<byte>, x: byte)
    requires at + |text| < |was|
    ensures Patched(was, at, text)[at + |text| := x] == Patched(was, at, text + [x])
  {}

  lemma PatchedFront(was: seq<byte>, at: nat, text: seq<byte>, x: byte)
    requires at + 1 + |text| <= |was|
    ensures Patched(was, at + 1, text)[at := x] == Patched(was, at, [x] + text)
  {}

  lemma PatchedTwice(was: seq<byte>, at: nat, x: seq<byte>, y: seq<byte>)
    requires at + |x| + |y| <= |was|
    ensures Patched(Patched(was, at, x), at + |x|, y) == Patched(was, at, x + y)
  {}

  lemma PatchedNone(was: seq<byte>, at: nat)
    requires at <= |was|
    ensures Patched(was, at, []) == was
  {}
}
