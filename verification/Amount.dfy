// The amount line of the approval screen: prepare_output_approval, src/ui/newTransaction.c:35-50.
module Amount {
  import opened Bytes
  import opened Positional
  import opened Decimals

  const SKY_COINS := 1000000
  const SCREEN_MAX_CHARS := 16
  const DOT: byte := 46
  const MINUS: byte := 45
  const ZERO: byte := 48

  /** A C cast to a 32-bit int. */
  function ToInt32(x: nat): (r: int)
    ensures -0x8000_0000 <= r < 0x8000_0000 && (x - r) % 0x1_0000_0000 == 0
  {
    (x + 0x8000_0000) % 0x1_0000_0000 - 0x8000_0000
  }

  function Chars(ds: seq<nat>): (t: Text)
    requires Below(ds, 10)
    ensures |t| == |ds|
  {
    seq(|ds|, i requires 0 <= i < |ds| => ZERO + ds[i])
  }

  function DecDigits(n: nat): (ds: seq<nat>)
    ensures Below(ds, 10) && |ds| > 0 && Val(ds, 10) == n
  {
    ValOfDigits(n, 10);
    Empty(10);
    if n == 0 then [0] else Digits(n, 10)
  }

  /** The conversion %d. */
  function Decimal(x: int): (t: Text)
    ensures |t| > 0
  {
    if x < 0 then [MINUS] + Chars(DecDigits(-x)) else Chars(DecDigits(x))
  }

  /** The six digits of the conversion %06d. */
  function SixDigits(m: nat): (ds: seq<nat>)
    requires m < SKY_COINS
    ensures |ds| == 6 && Below(ds, 10) && Val(ds, 10) == m
  {
    ValOfDigits(m, 10);
    TenPowers();
    DigitCount(m, 10, 6);
    var ds := Digits(m, 10);
    var zeros := seq(6 - |ds|, _ => 0);
    AfterZeros(zeros + ds, |zeros|, 10);
    assert (zeros + ds)[|zeros|..] == ds;
    zeros + ds
  }

  lemma TenPowers()
    ensures Pow(10, 0) == 1 && Pow(10, 1) == 10 && Pow(10, 2) == 100 && Pow(10, 6) == 1000000 && Pow(10, 10) == 10000000000
  {
    assert Pow(10, 4) == 10000;
    PowAdd(10, 4, 2);
    PowAdd(10, 6, 4);
  }

  /** SPRINTF writes at most 15 characters into a 16-byte buffer. */
  function Clip(t: Text): Text {
    if |t| < SCREEN_MAX_CHARS then t else t[..SCREEN_MAX_CHARS - 1]
  }

  function Strip(t: Text): Text {
    if t != [] && t[|t| - 1] == ZERO then Strip(t[..|t| - 1]) else t
  }

  function AmountText(coins: uint64): Text {
    Strip(Clip(Decimal(ToInt32(coins / SKY_COINS)) + [DOT] + Chars(SixDigits(coins % SKY_COINS))))
  }

  /** The amount as the code writes it: format, then delete zeros from the end. The loop always
      stops in time, since it never gets past the dot. */
  method PrepareAmount(coins: uint64) returns (tmpAmount: Text)
    ensures tmpAmount == AmountText(coins)
    ensures |tmpAmount| < 16 && '.' as int in tmpAmount && tmpAmount[|tmpAmount| - 1] != '0' as int
    ensures coins / 1000000 < 100000000 ==> Parse(tmpAmount) == Micro(coins)
  {
    hide Val, Digits, Pow, Decimal, SixDigits, Chars, Parse, AmountText;
    AmountIs(coins);
    var decimalAmount := ToInt32(coins / SKY_COINS);
    var amountMantis := ToInt32(coins % SKY_COINS);
    DecimalLength(decimalAmount);
    tmpAmount := Clip(Decimal(decimalAmount) + [DOT] + Chars(SixDigits(amountMantis)));
    ghost var dot := |Decimal(decimalAmount)|;
    while tmpAmount[|tmpAmount| - 1] == ZERO
      invariant dot < |tmpAmount| < SCREEN_MAX_CHARS && tmpAmount[dot] == DOT
      invariant Strip(tmpAmount) == AmountText(coins)
      decreases |tmpAmount|
    {
      tmpAmount := tmpAmount[..|tmpAmount| - 1];
    }
    if coins / 1000000 < 100000000 { AmountFits(coins); }
  }

  lemma AmountIs(coins: uint64)
    ensures AmountText(coins) == Strip(Clip(Decimal(ToInt32(coins / SKY_COINS)) + [DOT] + Chars(SixDigits(coins % SKY_COINS))))
  {}

  lemma DecimalLength(x: int)
    requires -0x8000_0000 <= x < 0x8000_0000
    ensures |Decimal(x)| <= 11 && (x >= 0 ==> |Decimal(x)| <= 10)
  {
    hide Val, Digits, Pow;
    TenPowers();
    DigitCount(if x < 0 then -x else x, 10, 10);
  }

  // Reading the text back.

  lemma {:induction false} DotAfterDigits(w: Text, rest: Text)
    requires DOT !in w
    ensures DotAt(w + [DOT] + rest) == |w|
  {
    var t := w + [DOT] + rest;
    if w != [] {
      assert t[1..] == w[1..] + [DOT] + rest;
      DotAfterDigits(w[1..], rest);
    }
  }

  lemma CharsAreDigits(ds: seq<nat>)
    requires Below(ds, 10)
    ensures AllDigits(Chars(ds)) && DigitsOf(Chars(ds)) == ds && DOT !in Chars(ds) && MINUS !in Chars(ds)
  {}

  lemma AroundDot(w: Text, f: Text)
    ensures var t := w + [DOT] + f; |t| == |w| + 1 + |f| && t[..|w|] == w && t[|w| + 1..] == f
  {}

  /** Parsing `whole` '.' `frac`. */
  lemma ParseParts(whole: seq<nat>, frac: seq<nat>)
    requires Below(whole, 10) && Below(frac, 10) && |frac| <= 6
    ensures Parse(Chars(whole) + [DOT] + Chars(frac)) == Micro(Scaled(Val(whole, 10), Val(frac, 10), |frac|))
  {
    hide Chars, AllDigits, DigitsOf, Val, Pow, DotAt, Scaled;
    CharsAreDigits(whole);
    CharsAreDigits(frac);
    var w, f := Chars(whole), Chars(frac);
    DotAfterDigits(w, f);
    AroundDot(w, f);
  }

  function StripDigits(ds: seq<nat>): (r: seq<nat>)
    requires Below(ds, 10)
    ensures Below(r, 10) && |r| <= |ds|
  {
    if ds != [] && ds[|ds| - 1] == 0 then StripDigits(ds[..|ds| - 1]) else ds
  }

  lemma {:induction false} StripText(w: Text, ds: seq<nat>)
    requires Below(ds, 10)
    ensures Strip(w + [DOT] + Chars(ds)) == w + [DOT] + Chars(StripDigits(ds))
  {
    var t := w + [DOT] + Chars(ds);
    if ds == [] {
      assert t[|t| - 1] == DOT;
    } else {
      assert t[|t| - 1] == ZERO + ds[|ds| - 1];
      if ds[|ds| - 1] == 0 {
        assert t[..|t| - 1] == w + [DOT] + Chars(ds[..|ds| - 1]);
        StripText(w, ds[..|ds| - 1]);
      }
    }
  }

  /** Deleting zeros at the end of a fraction does not change it. */
  lemma {:induction false} StripKeepsValue(ds: seq<nat>, scale: nat)
    requires Below(ds, 10)
    ensures var r := StripDigits(ds); Val(r, 10) * Pow(10, scale + |ds| - |r|) == Val(ds, 10) * Pow(10, scale)
  {
    if ds != [] && ds[|ds| - 1] == 0 {
      StripKeepsValue(ds[..|ds| - 1], scale + 1);
      assert Pow(10, scale + 1) == 10 * Pow(10, scale);
      Regroup(Val(ds[..|ds| - 1], 10), Pow(10, scale));
    }
  }

  lemma Regroup(v: nat, p: nat)
    ensures v * (10 * p) == (v * 10) * p
  {}

  /** How many fraction digits the 16-byte buffer cuts off. */
  function Lost(whole: nat): nat {
    if |DecDigits(whole)| > 8 then |DecDigits(whole)| - 8 else 0
  }

  function LostUnit(whole: nat): (u: nat)
    ensures u > 0
  {
    PowPositive(10, Lost(whole));
    Pow(10, Lost(whole))
  }

  /** What the buffer cuts off: nothing below 10 ** 8 whole coins, then one digit, then two. */
  lemma LostUnitIs(whole: nat)
    requires whole < 0x8000_0000
    ensures LostUnit(whole) == if whole < 100000000 then 1 else if whole < 1000000000 then 10 else 100
  {
    hide Val, Digits;
    DecimalLength(whole);
    TenPowers();
    NinePowers();
    var n := |DecDigits(whole)|;
    if whole < 1000000000 { DigitCount(whole, 10, 9); }
    if whole < 100000000 { DigitCount(whole, 10, 8); }
    ValBound(DecDigits(whole), 10);
    if n <= 9 { PowMono(10, n, 9); }
    if n <= 8 { PowMono(10, n, 8); }
    hide Pow;
  }

  lemma NinePowers()
    ensures Pow(10, 8) == 100000000 && Pow(10, 9) == 1000000000
  {
    assert Pow(10, 4) == 10000;
    PowAdd(10, 4, 4);
    PowStep(10, 8);
  }

  /** The amounts that fit a C int and the 16-byte buffer. */
  predicate Showable(coins: uint64) {
    var whole, frac := coins / 1000000, coins % 1000000;
    whole < 0x8000_0000 && frac % (if whole < 100000000 then 1 else if whole < 1000000000 then 10 else 100) == 0
  }

  /** The displayed text is the exact amount, a coin being 1000000 units, if and only if the whole coins fit
      a C int and the fraction digits that do not fit the buffer are zero. */
  lemma AmountIsExact(coins: uint64)
    ensures Parse(AmountText(coins)) == Micro(coins) <==> Showable(coins)
  {
    hide Val, Digits, Pow, Parse, SixDigits, DecDigits, Strip, Clip, Decimal, Chars, Shown, LostUnit;
    var whole, frac := coins / SKY_COINS, coins % SKY_COINS;
    var shown := ToInt32(whole);
    if whole < 0x8000_0000 { LostUnitIs(whole); }
    if shown < 0 {
      NegativeText(coins);
    } else {
      ShownText(shown, frac);
      ShownValue(shown, frac, whole);
    }
  }

  /** Below 10 ** 8 whole coins nothing is lost. */
  lemma AmountFits(coins: uint64)
    requires coins / 1000000 < 100000000
    ensures Parse(AmountText(coins)) == Micro(coins)
  {
    AmountIsExact(coins);
  }

  /** The conversion %d as a person reads it: a number without leading zeros, after a '-' if negative. */
  lemma DecimalReads(x: int)
    ensures x >= 0 ==> ReadsAs(Decimal(x), x)
    ensures x < 0 ==> Decimal(x)[0] == '-' as int && ReadsAs(Decimal(x)[1..], -x)
  {
    hide Val, Digits, Pow;
    var n := if x < 0 then -x else x;
    var ds := DecDigits(n);
    CharsAreDigits(ds);
    ValOfDigits(n, 10);
    assert x < 0 ==> Decimal(x)[1..] == Chars(ds);
  }

  /** In front of the dot stands the number of whole coins, without leading zeros. */
  lemma WholeCoins(coins: uint64)
    requires coins / 1000000 < 0x8000_0000
    ensures var t := AmountText(coins); exists d :: 0 <= d < |t| && t[d] == '.' as int && ReadsAs(t[..d], coins / 1000000)
  {
    hide Val, Digits, Pow, SixDigits, Decimal, ReadsAs, Strip, Clip, Chars;
    var w := Decimal(coins / 1000000);
    var f := SixDigits(coins % 1000000);
    DecimalLength(coins / 1000000);
    DecimalReads(coins / 1000000);
    var k := ClipParts(w, f);
    StripText(w, f[..k]);
    var t := w + [DOT] + Chars(StripDigits(f[..k]));
    AmountIs(coins);
    assert ToInt32(coins / 1000000) == coins / 1000000;
    assert AmountText(coins) == t;
    assert t[|w|] == DOT && t[..|w|] == w;
  }

  lemma NegativeText(coins: uint64)
    requires ToInt32(coins / SKY_COINS) < 0
    ensures Parse(AmountText(coins)) == NotANumber
  {
    hide Val, Digits, Pow, DecDigits, SixDigits;
    var whole := coins / SKY_COINS;
    var w := Decimal(ToInt32(whole));
    var f := SixDigits(coins % SKY_COINS);
    DecimalLength(ToInt32(whole));
    CharsAreDigits(DecDigits(-ToInt32(whole)));
    var k := ClipParts(w, f);
    StripText(w, f[..k]);
    var g := Chars(StripDigits(f[..k]));
    DotAfterDigits(w, g);
    assert (w + [DOT] + g)[..|w|][0] == MINUS;
  }

  /** Clipping only ever cuts fraction digits. */
  lemma ClipParts(w: Text, f: seq<nat>) returns (k: nat)
    requires |w| <= 11 && |f| == 6 && Below(f, 10)
    ensures k == (if |w| <= 8 then 6 else 14 - |w|)
    ensures Clip(w + [DOT] + Chars(f)) == w + [DOT] + Chars(f[..k])
  {
    k := if |w| <= 8 then 6 else 14 - |w|;
    assert f[..6] == f;
    if |w| > 8 { assert Chars(f)[..k] == Chars(f[..k]); }
  }

  ghost function Shown(shown: nat, frac: nat): (r: nat)
    requires shown < 0x8000_0000 && frac < SKY_COINS
  {
    hide Val, Pow, SixDigits, Lost;
    var k: nat := if Lost(shown) <= 6 then 6 - Lost(shown) else 0;
    var v: nat, unit: nat := Val(SixDigits(frac)[..k], 10), Pow(10, 6 - k);
    Product(v, unit);
    shown * SKY_COINS + v * unit
  }

  lemma ShownText(shown: nat, frac: nat)
    requires shown < 0x8000_0000 && frac < SKY_COINS
    ensures Parse(Strip(Clip(Decimal(shown) + [DOT] + Chars(SixDigits(frac))))) == Micro(Shown(shown, frac))
  {
    hide Val, Digits, Pow, Parse, SixDigits, DecDigits, StripDigits, Strip, Clip, Chars, Scaled, Shown;
    var d, f := DecDigits(shown), SixDigits(frac);
    DecimalLength(shown);
    var k := ClipParts(Chars(d), f);
    StripText(Chars(d), f[..k]);
    ParseParts(d, StripDigits(f[..k]));
    ShownScaled(shown, frac, k);
  }

  lemma ShownScaled(shown: nat, frac: nat, k: nat)
    requires shown < 0x8000_0000 && frac < SKY_COINS && k == if |DecDigits(shown)| <= 8 then 6 else 14 - |DecDigits(shown)|
    requires |DecDigits(shown)| <= 10
    ensures |StripDigits(SixDigits(frac)[..k])| <= k
    ensures var g := StripDigits(SixDigits(frac)[..k]); Scaled(shown, Val(g, 10), |g|) == Shown(shown, frac)
  {
    hide Val, Digits, Pow, SixDigits, DecDigits, StripDigits;
    StripKeepsValue(SixDigits(frac)[..k], 6 - k);
    TenPowers();
  }

  lemma ShownValue(shown: nat, frac: nat, whole: nat)
    requires shown < 0x8000_0000 && frac < SKY_COINS && shown == ToInt32(whole)
    ensures Shown(shown, frac) == whole * SKY_COINS + frac <==> whole < 0x8000_0000 && frac % LostUnit(whole) == 0
  {
    hide Val, Digits, Pow, SixDigits, DecDigits;
    DecimalLength(shown);
    var k := 6 - Lost(shown);
    var f := SixDigits(frac);
    ValConcat(f[..k], f[k..], 10);
    assert f == f[..k] + f[k..];
    ValBound(f[k..], 10);
    DivModUnique(Val(f[..k], 10), Pow(10, 6 - k), Val(f[k..], 10));
    if whole < 0x8000_0000 {
      assert whole == shown;
    } else {
      assert whole >= shown + 0x1_0000_0000;
    }
  }
}
