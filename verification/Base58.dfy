// Base 58 text: encode_base_58 of src/skycoin-api/skycoin_crypto.c and the host's base58decode.
module Base58 {
  import opened Bytes
  import opened Wrappers
  import opened Positional

  const ADDRESS_BASE58_LEN := 35
  const BASE_58_ALPHABET: string := "123456789ABCDEFGH" + "JKLMNPQRSTUVWXYZ" + "abcdefghijkmnopqrstuvwxyz"

  /** The code of the character at position `d` of the alphabet. */
  function Symbol(d: nat): (c: byte)
    requires d < 58
  {
    if d < 9 then 49 + d          // 1..9
    else if d < 17 then 56 + d    // A..H
    else if d < 22 then 57 + d    // J..N
    else if d < 33 then 58 + d    // P..Z
    else if d < 44 then 64 + d    // a..k
    else 65 + d                   // m..z
  }

  lemma SymbolIsAlphabet(d: nat)
    requires d < 58
    ensures |BASE_58_ALPHABET| == 58 && BASE_58_ALPHABET[d] as int == Symbol(d)
  {
    var x, y, z := "123456789ABCDEFGH", "JKLMNPQRSTUVWXYZ", "abcdefghijkmnopqrstuvwxyz";
    assert |x| == 17 && |y| == 16 && |z| == 25;
    if d < 17 { assert x[d] as int == Symbol(d); }
    else if d < 33 { assert y[d - 17] as int == Symbol(d); }
    else { assert z[d - 33] as int == Symbol(d); }
  }

  /** The alphabet is the digits and letters in the order of their codes, without 0, O, I and l. */
  lemma AlphabetIs()
    ensures |BASE_58_ALPHABET| == 58 && forall i, j | 0 <= i < j < 58 :: BASE_58_ALPHABET[i] < BASE_58_ALPHABET[j]
    ensures forall i | 0 <= i < 58 :: var ch := BASE_58_ALPHABET[i];
      ch != '0' && ch != 'O' && ch != 'I' && ch != 'l' && ('0' <= ch <= '9' || 'A' <= ch <= 'Z' || 'a' <= ch <= 'z')
  {
    SymbolIsAlphabet(0);
    forall i | 0 <= i < 58 ensures var ch := BASE_58_ALPHABET[i];
      ch != '0' && ch != 'O' && ch != 'I' && ch != 'l' && ('0' <= ch <= '9' || 'A' <= ch <= 'Z' || 'a' <= ch <= 'z') {
      SymbolIsAlphabet(i);
    }
    forall i, j | 0 <= i < j < 58 ensures BASE_58_ALPHABET[i] < BASE_58_ALPHABET[j] {
      SymbolIsAlphabet(i);
      SymbolIsAlphabet(j);
      SymbolRising(i, j);
    }
  }

  lemma SymbolRising(d: nat, e: nat)
    requires d < e < 58
    ensures Symbol(d) < Symbol(e)
  {}

  function Symbols(ds: seq<nat>): (s: Text)
    requires Below(ds, 58)
    ensures |s| == |ds|
  {
    seq(|ds|, i requires 0 <= i < |ds| => Symbol(ds[i]))
  }

  function LeadingZeros(bs: seq<byte>): (z: nat)
    ensures z <= |bs| && (forall i | 0 <= i < z :: bs[i] == 0) && (z < |bs| ==> bs[z] != 0)
  {
    if bs == [] || bs[0] != 0 then 0 else 1 + LeadingZeros(bs[1..])
  }

  function Ones(z: nat): (s: Text)
    ensures |s| == z
  {
    seq(z, _ => 49)
  }

  /** One '1' per leading zero byte, then the value of the bytes in base 58. */
  function Encode(bs: seq<byte>): Text {
    ValOfDigits(Val(bs, 256), 58);
    Ones(LeadingZeros(bs)) + Symbols(Digits(Val(bs, 256), 58))
  }

  /** str.index: the first position of `c` in `s`, or |s| if it does not occur. */
  function Index(s: string, c: byte): nat {
    if s == [] || s[0] as int == c then 0 else 1 + Index(s[1..], c)
  }

  /** Output.base58decode: every character counts, so leading '1's vanish. */
  function DecodeValue(text: Text): nat {
    if text == [] then 0
    else DecodeValue(text[..|text| - 1]) * 58 + Index(BASE_58_ALPHABET, text[|text| - 1])
  }

  /** str.index finds every character. */
  predicate InAlphabet(text: Text) {
    forall i | 0 <= i < |text| :: Index(BASE_58_ALPHABET, text[i]) < |BASE_58_ALPHABET|
  }

  /** The loop of base58decode; a character outside the alphabet raises ValueError. */
  method Base58Decode(s: Text) returns (result: Option<nat>)
    ensures result == if InAlphabet(s) then Some(DecodeValue(s)) else None
  {
    hide Index, BASE_58_ALPHABET;
    var i, value := 0, 0;
    while i < |s|
      invariant i <= |s| && InAlphabet(s[..i]) && value == DecodeValue(s[..i])
    {
      var d := Index(BASE_58_ALPHABET, s[i]);
      if d >= |BASE_58_ALPHABET| {
        return None;
      }
      assert s[..i + 1][..i] == s[..i];
      value := value * 58 + d;
      i := i + 1;
    }
    assert s[..i] == s;
    result := Some(value);
  }

  /** The bytes a text stands for: a zero byte per leading '1', then its value in base 256. */
  function Decode(text: Text): seq<nat> {
    seq(LeadingOnes(text), _ => 0) + Digits(DecodeValue(text), 256)
  }

  function LeadingOnes(text: Text): nat {
    if text == [] || text[0] != 49 then 0 else 1 + LeadingOnes(text[1..])
  }

  // The size bound: 58 ** (n * 138 / 100 + 1) exceeds 256 ** n for every n.

  lemma {:induction false} SizeBound(n: nat)
    ensures Pow(256, n) < Pow(58, n * 138 / 100 + 1)
  {
    if n < 8 {
      SmallPowers();
    } else {
      SizeBound(n - 8);
      SmallPowers();
      var e := (n - 8) * 138 / 100 + 1;
      PowAdd(256, 8, n - 8);
      PowAdd(58, 11, e);
      PowPositive(256, n - 8);
      MulBoth(Pow(256, 8), Pow(58, 11), Pow(256, n - 8), Pow(58, e));
      PowMono(58, 11 + e, n * 138 / 100 + 1);
    }
  }

  lemma MulBoth(a: nat, b: nat, x: nat, y: nat)
    requires a < b && 0 < x < y
    ensures a * x < b * y
  {
    MulMono(a, x, y);
    MulMono(y, a + 1, b);
    assert y * (a + 1) == a * y + y;
  }

  lemma SmallPowers()
    ensures Pow(256, 0) == 1 && Pow(256, 1) == 256 && Pow(256, 2) == 65536 && Pow(256, 3) == 16777216
    ensures Pow(256, 4) == 4294967296 && Pow(256, 5) == 1099511627776 && Pow(256, 6) == 281474976710656
    ensures Pow(256, 7) == 72057594037927936 && Pow(256, 8) == 18446744073709551616
    ensures Pow(58, 1) == 58 && Pow(58, 2) == 3364 && Pow(58, 3) == 195112 && Pow(58, 5) == 656356768
    ensures Pow(58, 6) == 38068692544 && Pow(58, 7) == 2207984167552 && Pow(58, 9) == 7427658739644928
    ensures Pow(58, 10) == 430804206899405824 && Pow(58, 11) == 24986644000165537792
  {
    assert Pow(256, 2) == 256 * Pow(256, 1);
    assert Pow(256, 4) == 256 * Pow(256, 3);
    assert Pow(256, 6) == 256 * Pow(256, 5);
    assert Pow(256, 8) == 256 * Pow(256, 7);
    assert Pow(58, 2) == 58 * Pow(58, 1);
    assert Pow(58, 4) == 58 * Pow(58, 3);
    assert Pow(58, 6) == 58 * Pow(58, 5);
    assert Pow(58, 8) == 58 * Pow(58, 7);
    assert Pow(58, 10) == 58 * Pow(58, 9);
  }

  /** The base-58 number held in `size` digits, and how many of them are in use. */
  ghost predicate Number(ds: seq<byte>, length: nat, v: nat) {
    && length <= |ds|
    && Below(ds, 58)
    && (forall k | 0 <= k < |ds| - length :: ds[k] == 0)
    && (length > 0 ==> ds[|ds| - length] != 0)
    && Val(ds, 58) == v
  }

  /** The digits already rewritten and the carry stand for the old ones times 256 plus the new byte. */
  ghost predicate Balanced(carry: nat, low: seq<nat>, digits: seq<nat>, ch: nat) {
    carry * Pow(58, |low|) + Val(low, 58) == 256 * Val(digits, 58) + ch
  }

  lemma BalancedStart(ch: nat)
    ensures Balanced(ch, [], [], ch)
  {}

  /** The inner loop: b58 = b58 * 256 + ch. With room for the result no carry is left at the end. */
  method MulAdd(b58: array<byte>, size: nat, length: nat, ch: byte, ghost v: nat) returns (newLength: nat)
    requires size <= b58.Length
    requires Number(b58[..size], length, v)
    requires length > 0 || ch != 0
    requires v * 256 + ch < Pow(58, size)
    modifies b58
    ensures Number(b58[..size], newLength, v * 256 + ch) && newLength > 0
    ensures b58[size..] == old(b58[size..])
  {
    hide Val, Pow, Digits, Patched, Number, Below, Balanced;
    ghost var ds := b58[..size];
    PatchedNone(b58[..], size);
    ghost var low: seq<byte> := []; // the digits already rewritten
    var carry: nat := ch;
    var i := 0;
    var j := size - 1;
    BalancedStart(ch);
    assert ds[size..] == [];
    BelowNone();
    NumberFits(ds, length, v);
    while (carry != 0 || i < length) && j != -1
      invariant |low| == i == size - 1 - j && -1 <= j < size
      invariant b58[..] == Patched(old(b58[..]), j + 1, low)
      invariant Below(low, 58)
      invariant carry < 256
      invariant Balanced(carry, low, ds[j + 1..], ch)
      invariant i > length ==> low[0] != 0 || carry != 0
      decreases j + 1
    {
      var d: nat := b58[j];
      assert d == b58[..][..j + 1][j] == ds[j];
      assert d < 58 by { DigitBelow(ds, j); }
      var w := carry + 256 * d;
      DivMod(w, 58);
      StepValue(carry, d, low, ds[j + 1..], ch, w / 58, w % 58);
      assert ds[j..] == [d] + ds[j + 1..];
      BelowCons(w % 58, low);
      PatchedFront(old(b58[..]), j, low, w % 58);
      b58[j] := w % 58;
      low := [w % 58] + low;
      carry := w / 58;
      j, i := j - 1, i + 1;
    }
    ghost var bs := b58[..size];
    assert bs[j + 1..] == b58[..][j + 1..size] == low;
    assert bs[..j + 1] == b58[..][..j + 1] == ds[..j + 1];
    assert b58[size..] == b58[..][size..];
    FinishValue(bs, ds, j + 1, carry, length, v, ch);
    newLength := i;
  }

  lemma ZeroNumber(ds: seq<byte>)
    requires forall k | 0 <= k < |ds| :: ds[k] == 0
    ensures Number(ds, 0, 0)
  {
    ValZeros(ds, 58);
  }

  lemma StepValue(carry: nat, d: nat, low: seq<nat>, dlow: seq<nat>, ch: nat, q: nat, r: nat)
    requires |low| == |dlow| && q * 58 + r == carry + 256 * d
    requires Balanced(carry, low, dlow, ch)
    ensures Balanced(q, [r] + low, [d] + dlow, ch)
  {
    hide Val, Pow;
    ValCons(r, low, 58);
    ValCons(d, dlow, 58);
    PowStep(58, |low|);
    StepArithmetic(carry, d, Pow(58, |low|), q, r, Val(low, 58), Val(dlow, 58), ch);
  }

  lemma StepArithmetic(carry: nat, d: nat, p: nat, q: nat, r: nat, low: nat, dlow: nat, ch: nat)
    requires q * 58 + r == carry + 256 * d
    requires carry * p + low == 256 * dlow + ch
    ensures q * (58 * p) + (r * p + low) == 256 * (d * p + dlow) + ch
  {
    Regroup(q, r, p);
    Distribute(carry, d, p);
  }

  lemma Distribute(x: nat, d: nat, p: nat)
    ensures (x + 256 * d) * p == x * p + 256 * (d * p)
  {}

  lemma Regroup(q: nat, r: nat, p: nat)
    ensures q * (58 * p) + r * p == (q * 58 + r) * p
  {}

  /** What the inner loop leaves: the digits from `cut` on are new, those before it untouched. */
  lemma FinishValue(bs: seq<byte>, ds: seq<byte>, cut: nat, carry: nat, length: nat, v: nat, ch: byte)
    requires |bs| == |ds| && cut <= |ds| && Number(ds, length, v)
    requires bs[..cut] == ds[..cut] && Below(bs[cut..], 58)
    requires cut > 0 ==> carry == 0 && cut <= |ds| - length
    requires Balanced(carry, bs[cut..], ds[cut..], ch)
    requires |ds| - cut > length ==> bs[cut] != 0 || carry != 0
    requires v * 256 + ch < Pow(58, |ds|) && (length > 0 || ch != 0)
    ensures carry == 0 && cut < |ds| && Number(bs, |ds| - cut, v * 256 + ch)
  {
    hide Val, Pow, Digits, Balanced;
    assert Below(ds, 58) && Val(ds, 58) == v;
    AfterZeros(ds, cut, 58);
    if cut == 0 {
      assert bs[0..] == bs && ds[0..] == ds;
      NoCarry(carry, bs, ds, ch);
    }
    BalancedEnd(bs[cut..], ds[cut..], ch);
    TopDigit(bs[cut..], ds[cut..], length, v, ch);
    NewDigits(bs, cut);
    forall k | 0 <= k < cut ensures bs[k] == 0 { assert bs[k] == bs[..cut][k] == ds[k]; }
    AfterZeros(bs, cut, 58);
    assert bs[cut] == bs[cut..][0];
  }

  lemma NoCarry(carry: nat, low: seq<nat>, digits: seq<nat>, ch: nat)
    requires Balanced(carry, low, digits, ch) && Val(digits, 58) * 256 + ch < Pow(58, |low|)
    ensures carry == 0
  {
    hide Val, Pow;
    if carry > 0 { MulMono(Pow(58, |low|), 1, carry); }
  }

  lemma BalancedEnd(low: seq<nat>, digits: seq<nat>, ch: nat)
    requires Balanced(0, low, digits, ch)
    ensures Val(low, 58) == 256 * Val(digits, 58) + ch
  {}

  /** Old digits before `cut` and new ones behind it. */
  lemma NewDigits(bs: seq<byte>, cut: nat)
    requires cut <= |bs| && Below(bs[cut..], 58) && Below(bs[..cut], 58)
    ensures Below(bs, 58)
  {
    forall k | 0 <= k < |bs| ensures bs[k] < 58 {
      if k < cut { assert bs[..cut][k] == bs[k]; } else { assert bs[cut..][k - cut] == bs[k]; }
    }
  }

  /** If the number did not grow a digit, its top digit is still non-zero. */
  lemma TopDigit(bs: seq<nat>, ds: seq<byte>, length: nat, v: nat, ch: byte)
    requires |bs| == |ds| >= length && Number(ds, length, v) && Below(bs, 58)
    requires Val(bs, 58) == 256 * v + ch
    requires (length > 0 || ch != 0) && (|ds| > length ==> bs[0] != 0)
    ensures |ds| > 0 && bs[0] != 0
  {
    hide Val, Pow;
    if |ds| == length {
      assert length > 0;
      ValAtLeast(ds, 58);
      if bs[0] == 0 {
        assert bs == [0] + bs[1..];
        ValCons(0, bs[1..], 58);
        ValBound(bs[1..], 58);
      }
    }
  }

  /** The outer loop: all bytes of `mem[p..pend]` in base 58. */
  method Convert(mem: array<byte>, p0: nat, pend: nat, b58: array<byte>, size: nat) returns (length: nat)
    requires p0 <= pend <= mem.Length && mem != b58
    requires size == (pend - p0) * 138 / 100 + 1 <= b58.Length
    requires p0 < pend ==> mem[p0] != 0
    requires forall k | 0 <= k < size :: b58[k] == 0
    modifies b58
    ensures length <= size && Number(b58[..size], length, Val(mem[p0..pend], 256))
  {
    hide Val, Pow, Number;
    ghost var rest := mem[p0..pend];
    SizeBound(|rest|);
    ZeroNumber(b58[..size]);
    Empty(256);
    var p := p0;
    length := 0;
    while p != pend
      invariant p0 <= p <= pend
      invariant Number(b58[..size], length, Val(rest[..p - p0], 256))
      invariant length > 0 <==> p > p0
      decreases pend - p
    {
      NextByte(rest, p - p0, size);
      length := MulAdd(b58, size, length, mem[p], Val(rest[..p - p0], 256));
      p := p + 1;
    }
    assert rest[..p - p0] == rest;
    NumberFits(b58[..size], length, Val(rest, 256));
  }

  lemma NumberFits(ds: seq<byte>, length: nat, v: nat)
    requires Number(ds, length, v)
    ensures length <= |ds| && Below(ds, 58) && Below([], 58)
  {}

  lemma BelowNone()
    ensures Below([], 58)
  {}

  lemma DigitBelow(ds: seq<nat>, j: nat)
    requires Below(ds, 58) && j < |ds|
    ensures ds[j] < 58
  {}

  lemma BelowCons(d: nat, ds: seq<nat>)
    requires d < 58 && Below(ds, 58)
    ensures Below([d] + ds, 58)
  {}

  /** Counting the leading zero bytes. */
  method CountZeros(mem: array<byte>, pbegin: nat, pend: nat) returns (zeroes: nat)
    requires pbegin <= pend <= mem.Length
    ensures zeroes == LeadingZeros(mem[pbegin..pend])
  {
    hide LeadingZeros;
    ghost var bs := mem[pbegin..pend];
    assert bs[0..] == bs;
    var p := pbegin;
    zeroes := 0;
    while p != pend && mem[p] == 0
      invariant pbegin <= p <= pend && zeroes == p - pbegin
      invariant LeadingZeros(bs) == zeroes + LeadingZeros(bs[zeroes..])
      decreases pend - p
    {
      ZerosStep(bs, zeroes);
      p := p + 1;
      zeroes := zeroes + 1;
    }
    ZerosStop(bs, zeroes);
  }

  lemma ZerosStep(bs: seq<byte>, z: nat)
    requires z < |bs| && bs[z] == 0
    ensures LeadingZeros(bs[z..]) == 1 + LeadingZeros(bs[z + 1..])
  {
    assert bs[z..][1..] == bs[z + 1..];
  }

  lemma ZerosStop(bs: seq<byte>, z: nat)
    requires z <= |bs| && (z < |bs| ==> bs[z] != 0)
    ensures LeadingZeros(bs[z..]) == 0
  {}

  /** Skipping zero digits. */
  method SkipZeros(b58: array<byte>, first: nat, size: nat) returns (j: nat)
    requires first <= size <= b58.Length
    ensures first <= j <= size && (forall k | first <= k < j :: b58[k] == 0) && (j < size ==> b58[j] != 0)
    ensures first < size && b58[first] != 0 ==> j == first
  {
    j := first;
    while j != size && b58[j] == 0
      invariant first <= j <= size && forall k | first <= k < j :: b58[k] == 0
      invariant first < size && b58[first] != 0 ==> j == first
      decreases size - j
    {
      j := j + 1;
    }
  }

  /** encode_base_58: reads `len` bytes at `pbegin` and writes text and terminator at `result`,
      which may overlap the input. */
  method EncodeBase58(mem: array<byte>, pbegin: nat, len: nat, result: nat)
    requires pbegin + len <= mem.Length
    requires var bs := mem[pbegin..pbegin + len];
      && (len - LeadingZeros(bs)) * 138 / 100 + 1 <= ADDRESS_BASE58_LEN
      && result + |Encode(bs)| + 1 <= mem.Length
    modifies mem
    ensures var text := Encode(old(mem[pbegin..pbegin + len]));
      mem[..] == Patched(old(mem[..]), result, text + [0])
  {
    hide Val, Pow, Digits, Encode, Patched, Number, Below, Symbols, Ones, LeadingZeros;
    ghost var bs := mem[pbegin..pbegin + len];
    var zeroes := CountZeros(mem, pbegin, pbegin + len);
    var p, pend := pbegin + zeroes, pbegin + len;
    assert mem[p..pend] == bs[zeroes..];
    var size := (pend - p) * 138 / 100 + 1;
    var b58, j, length := Significant(mem, p, pend, size, bs);
    Output(mem, result, zeroes, b58, j, size, Encode(bs));
  }

  /** The digits of the number behind the leading zeros. The loop that skips zeros does not move: it starts
      at the top digit in use, which is not zero. */
  method Significant(mem: array<byte>, p: nat, pend: nat, size: nat, ghost bs: seq<byte>)
    returns (b58: array<byte>, j: nat, ghost length: nat)
    requires p <= pend <= mem.Length && mem[p..pend] == bs[LeadingZeros(bs)..]
    requires size == (pend - p) * 138 / 100 + 1 <= ADDRESS_BASE58_LEN
    ensures fresh(b58) && j <= size <= b58.Length && Below(b58[j..size], 58)
    ensures length <= size && Number(b58[..size], length, Val(mem[p..pend], 256)) && j == size - length
    ensures Encode(bs) == Ones(LeadingZeros(bs)) + Symbols(b58[j..size])
  {
    hide Val, Pow, Digits, Encode, Number, Below, Symbols, Ones;
    b58 := new byte[ADDRESS_BASE58_LEN](_ => 0);
    assert p < pend ==> mem[p] == mem[p..pend][0] == bs[LeadingZeros(bs)];
    var inUse := Convert(mem, p, pend, b58, size);
    length := inUse;
    j := SkipZeros(b58, size - inUse, size);
    Spelled(bs, b58[..size], length); // the top digit is not zero: nothing was skipped
    assert b58[j..size] == b58[..size][size - length..];
  }

  lemma NextByte(rest: seq<byte>, n: nat, size: nat)
    requires n < |rest| && Pow(256, |rest|) < Pow(58, size)
    ensures Val(rest[..n + 1], 256) == Val(rest[..n], 256) * 256 + rest[n] < Pow(58, size)
  {
    assert rest[..n + 1][..n] == rest[..n];
    ValBound(rest[..n + 1], 256);
    PowMono(256, n + 1, |rest|);
  }

  /** The digits in use are the canonical digits of the input, so the text is its encoding. */
  lemma Spelled(bs: seq<byte>, ds: seq<byte>, length: nat)
    requires length <= |ds| && Number(ds, length, Val(bs[LeadingZeros(bs)..], 256))
    ensures Digits(Val(bs, 256), 58) == ds[|ds| - length..]
    ensures Below(ds[|ds| - length..], 58) && (length > 0 ==> ds[|ds| - length] != 0)
    ensures Encode(bs) == Ones(LeadingZeros(bs)) + Symbols(ds[|ds| - length..])
  {
    hide Val, Pow, Digits;
    var z, top := LeadingZeros(bs), |ds| - length;
    AfterZeros(bs, z, 256);
    AfterZeros(ds, top, 58);
    DigitsOfVal(ds[top..], 58);
  }

  /** The two output loops and the terminator. */
  method Output(mem: array<byte>, result: nat, zeroes: nat, b58: array<byte>, first: nat, size: nat, ghost text: Text)
    requires mem != b58 && first <= size <= b58.Length && Below(b58[first..size], 58)
    requires text == Ones(zeroes) + Symbols(b58[first..size])
    requires result + |text| + 1 <= mem.Length
    modifies mem
    ensures mem[..] == Patched(old(mem[..]), result, text + [0])
  {
    hide Patched, Symbols, Ones;
    ghost var was, ones, syms := mem[..], Ones(zeroes), Symbols(b58[first..size]);
    WriteOnes(mem, result, zeroes);
    WriteSymbols(mem, result + zeroes, b58, first, size);
    PatchedTwice(was, result, ones, syms);
    PatchedEnd(was, result, text, 0);
    mem[result + zeroes + size - first] := 0;
  }

  method WriteSymbols(mem: array<byte>, at: nat, b58: array<byte>, first: nat, size: nat)
    requires mem != b58 && first <= size <= b58.Length && Below(b58[first..size], 58) && at + size - first <= mem.Length
    modifies mem
    ensures mem[..] == Patched(old(mem[..]), at, Symbols(b58[first..size]))
  {
    hide Patched, Symbols, Symbol, Below;
    ghost var was, ds, syms := mem[..], b58[first..size], Symbols(b58[first..size]);
    PatchedNone(was, at);
    assert syms[..0] == [];
    var i, j := at, first;
    while j != size
      invariant first <= j <= size && i == at + j - first && mem != b58
      invariant mem[..] == Patched(was, at, syms[..j - first])
      decreases size - j
    {
      NextSymbol(ds, j - first);
      assert ds[j - first] == b58[j];
      PatchedEnd(was, at, syms[..j - first], Symbol(b58[j]));
      mem[i] := Symbol(b58[j]);
      i, j := i + 1, j + 1;
    }
    assert syms[..j - first] == syms;
  }

  method WriteOnes(mem: array<byte>, result: nat, zeroes: nat)
    requires result + zeroes <= mem.Length
    modifies mem
    ensures mem[..] == Patched(old(mem[..]), result, Ones(zeroes))
  {
    hide Patched;
    PatchedNone(mem[..], result);
    var i := 0;
    while i < zeroes
      invariant i <= zeroes
      invariant mem[..] == Patched(old(mem[..]), result, Ones(i))
    {
      PatchedEnd(old(mem[..]), result, Ones(i), 49);
      assert Ones(i + 1) == Ones(i) + [49];
      mem[result + i] := 49;
      i := i + 1;
    }
  }

  lemma NextSymbol(ds: seq<nat>, k: nat)
    requires Below(ds, 58) && k < |ds|
    ensures ds[k] < 58 && Symbols(ds)[..k + 1] == Symbols(ds)[..k] + [Symbol(ds[k])]
  {}

  lemma NoTerminator(bs: seq<byte>)
    ensures 0 !in Encode(bs)
  {
    hide Val, Digits;
    ValOfDigits(Val(bs, 256), 58);
  }

  // Decoding.

  lemma {:induction false} IndexOfDistinct(s: string, d: nat, c: byte)
    requires d < |s| && s[d] as int == c && forall i | 0 <= i < d :: s[i] as int != c
    ensures Index(s, c) == d
  {
    if d > 0 { IndexOfDistinct(s[1..], d - 1, c); }
  }

  lemma IndexOfSymbol(d: nat)
    requires d < 58
    ensures Index(BASE_58_ALPHABET, Symbol(d)) == d
  {
    SymbolIsAlphabet(d);
    forall i | 0 <= i < d ensures BASE_58_ALPHABET[i] as int != Symbol(d) {
      SymbolIsAlphabet(i);
      SymbolRising(i, d);
    }
    hide BASE_58_ALPHABET;
    IndexOfDistinct(BASE_58_ALPHABET, d, Symbol(d));
  }

  /** The host never meets a foreign character in a text of the device. */
  lemma EncodeInAlphabet(bs: seq<byte>)
    ensures InAlphabet(Encode(bs))
  {
    hide Val, Digits, Symbol, Index, BASE_58_ALPHABET;
    var ds := Digits(Val(bs, 256), 58);
    ValOfDigits(Val(bs, 256), 58);
    SymbolIsAlphabet(0);
    forall i | 0 <= i < |Encode(bs)| ensures Index(BASE_58_ALPHABET, Encode(bs)[i]) < |BASE_58_ALPHABET| {
      if i < LeadingZeros(bs) { SymbolOne(); IndexOfSymbol(0); } else { IndexOfSymbol(ds[i - LeadingZeros(bs)]); }
    }
  }

  lemma SymbolOne()
    ensures Symbol(0) == 49
  {}

  lemma {:induction false} DecodeOnes(z: nat)
    ensures DecodeValue(Ones(z)) == 0
  {
    if z > 0 {
      assert Ones(z)[..z - 1] == Ones(z - 1);
      DecodeOnes(z - 1);
      IndexOfSymbol(0);
    }
  }

  lemma {:induction false} DecodeSymbols(z: nat, ds: seq<nat>)
    requires Below(ds, 58)
    ensures DecodeValue(Ones(z) + Symbols(ds)) == Val(ds, 58)
  {
    hide Symbol, Index, BASE_58_ALPHABET;
    var text := Ones(z) + Symbols(ds);
    if ds == [] {
      assert text == Ones(z);
      DecodeOnes(z);
    } else {
      var init, last := ds[..|ds| - 1], ds[|ds| - 1];
      assert text[..|text| - 1] == Ones(z) + Symbols(init);
      assert text[|text| - 1] == Symbol(last);
      DecodeSymbols(z, init);
      IndexOfSymbol(last);
    }
  }

  /** The host's decoding of a device text is the big-endian value of the encoded bytes. */
  lemma DecodeValueOfEncode(bs: seq<byte>)
    ensures DecodeValue(Encode(bs)) == Val(bs, 256)
  {
    hide DecodeValue, Symbols, Ones, Val, Digits;
    ValOfDigits(Val(bs, 256), 58);
    DecodeSymbols(LeadingZeros(bs), Digits(Val(bs, 256), 58));
  }

  lemma {:induction false} CountOnes(z: nat, tail: Text)
    requires tail == [] || tail[0] != 49
    ensures LeadingOnes(Ones(z) + tail) == z
  {
    if z > 0 {
      assert (Ones(z) + tail)[1..] == Ones(z - 1) + tail;
      CountOnes(z - 1, tail);
    } else {
      assert Ones(z) + tail == tail;
    }
  }

  /** Decoding inverts encoding, leading zeros included. */
  lemma RoundTrip(bs: seq<byte>)
    ensures Decode(Encode(bs)) == bs
  {
    hide Val, Digits, DecodeValue, LeadingOnes;
    var z := LeadingZeros(bs);
    var ds := Digits(Val(bs, 256), 58);
    ValOfDigits(Val(bs, 256), 58);
    if ds != [] { SymbolRising(0, ds[0]); }
    CountOnes(z, Symbols(ds));
    DecodeValueOfEncode(bs);
    AfterZeros(bs, z, 256);
    DigitsOfVal(bs[z..], 256);
    assert seq(z, _ => 0) + bs[z..] == bs;
  }

  lemma Injective(x: seq<byte>, y: seq<byte>)
    requires Encode(x) == Encode(y)
    ensures x == y
  {
    RoundTrip(x);
    RoundTrip(y);
  }

  /** For an address (25 bytes) the text has at most 35 characters. */
  lemma TextLength(bs: seq<byte>)
    ensures |Encode(bs)| <= LeadingZeros(bs) + (|bs| - LeadingZeros(bs)) * 138 / 100 + 1
    ensures |bs| == 25 ==> |Encode(bs)| <= 35
  {
    hide Val, Digits, Symbols, Pow;
    var z := LeadingZeros(bs);
    AfterZeros(bs, z, 256);
    ValBound(bs[z..], 256);
    SizeBound(|bs| - z);
    DigitCount(Val(bs, 256), 58, (|bs| - z) * 138 / 100 + 1);
    ValOfDigits(Val(bs, 256), 58);
  }
}
