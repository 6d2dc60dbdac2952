// Positional numerals in an arbitrary base. Base 58 (addresses), base 256 (byte strings),
// base 16 (the host's hexadecimal text) and base 10 (amounts) are all instances of it.
module Positional {

  function Pow(b: nat, e: nat): nat
  {
    if e == 0 then 1 else b * Pow(b, e - 1)
  }

  ghost predicate Below(ds: seq<nat>, b: nat) {
    forall i | 0 <= i < |ds| :: ds[i] < b
  }

  ghost predicate NoLeadingZero(ds: seq<nat>) {
    ds == [] || ds[0] != 0
  }

  /** The value of `ds` in base `b`, most significant digit first. */
  function Val(ds: seq<nat>, b: nat): nat
  {
    if ds == [] then 0 else Val(ds[..|ds| - 1], b) * b + ds[|ds| - 1]
  }

  /** The digits of `v` in base `b`, most significant first, with no leading zero. */
  function Digits(v: nat, b: nat): seq<nat>
    requires b >= 2
  {
    if v == 0 then []
    else
      DivShrinks(v, b);
      Digits(v / b, b) + [v % b]
  }

  lemma DivShrinks(v: nat, b: nat)
    requires v > 0 && b >= 2
    ensures 0 <= v / b < v
  {
    MulMono(v / b, 2, b);
    assert v == b * (v / b) + v % b;
  }

  lemma MulMono(k: nat, x: nat, y: nat)
    requires x <= y
    ensures k * x <= k * y
  {}

  lemma DivModUnique(q: nat, b: nat, r: nat)
    requires r < b
    ensures (q * b + r) / b == q && (q * b + r) % b == r
  {
    var n := q * b + r;
    var d := n / b - q;
    assert n == (n / b) * b + n % b;
    assert d * b == (n / b) * b - q * b;
    SmallMultiple(d, b);
  }

  lemma DivMod(v: nat, b: nat)
    requires b > 0
    ensures v / b * b + v % b == v && v % b < b
  {}

  lemma SmallMultiple(d: int, b: int)
    requires -b < d * b < b
    ensures d == 0
  {}

  lemma PowStep(b: nat, e: nat)
    ensures Pow(b, e + 1) == b * Pow(b, e)
  {}

  lemma ValStep(ds: seq<nat>, b: nat)
    requires ds != []
    ensures Val(ds, b) == Val(ds[..|ds| - 1], b) * b + ds[|ds| - 1]
  {}

  lemma DigitsStep(v: nat, b: nat)
    requires v > 0 && b >= 2
    ensures 0 <= v / b < v && Digits(v, b) == Digits(v / b, b) + [v % b]
  {
    DivShrinks(v, b);
  }

  lemma MulAssoc(a: nat, p: nat, q: nat)
    ensures a * (p * q) == (a * p) * q
  {}

  lemma MulPositive(a: nat, p: nat)
    requires a > 0 && p > 0
    ensures a * p > 0
  {}

  lemma {:induction false} PowPositive(b: nat, e: nat)
    requires b > 0
    ensures Pow(b, e) > 0
  {
    if e > 0 {
      PowPositive(b, e - 1);
      MulPositive(b, Pow(b, e - 1));
    }
  }

  lemma {:induction false} PowAdd(b: nat, x: nat, y: nat)
    ensures Pow(b, x + y) == Pow(b, x) * Pow(b, y)
  {
    if x == 0 {
      Empty(b);
    } else {
      hide Pow;
      PowAdd(b, x - 1, y);
      PowStep(b, x - 1);
      PowStep(b, x - 1 + y);
      MulAssoc(b, Pow(b, x - 1), Pow(b, y));
    }
  }

  lemma {:induction false} PowMono(b: nat, x: nat, y: nat)
    requires b > 0 && x <= y
    ensures Pow(b, x) <= Pow(b, y)
  {
    hide Pow;
    if x < y {
      PowMono(b, x, y - 1);
      PowStep(b, y - 1);
      MulMono(Pow(b, y - 1), 1, b);
    }
  }

  lemma {:induction false} ValConcat(x: seq<nat>, y: seq<nat>, b: nat)
    ensures Val(x + y, b) == Val(x, b) * Pow(b, |y|) + Val(y, b)
  {
    if y == [] {
      assert x + y == x;
      Empty(b);
    } else {
      hide Val, Pow;
      var y', d := y[..|y| - 1], y[|y| - 1];
      assert (x + y)[..|x + y| - 1] == x + y' && (x + y)[|x + y| - 1] == d;
      ValConcat(x, y', b);
      ValStep(x + y, b);
      ValStep(y, b);
      PowStep(b, |y'|);
      ShiftSum(Val(x, b), Pow(b, |y'|), Val(y', b), b, d);
    }
  }

  lemma ShiftSum(v: nat, p: nat, w: nat, b: nat, d: nat)
    ensures (v * p + w) * b + d == v * (b * p) + (w * b + d)
  {
    MulSwap(v, p, b);
    Distributes(v * p, w, b);
  }

  lemma Distributes(x: nat, y: nat, b: nat)
    ensures (x + y) * b == x * b + y * b
  {}

  lemma MulSwap(v: nat, p: nat, b: nat)
    ensures v * p * b == v * (b * p)
  {}

  lemma ValSnoc(x: seq<nat>, d: nat, b: nat)
    ensures Val(x + [d], b) == Val(x, b) * b + d
  {
    assert (x + [d])[..|x|] == x;
  }

  lemma ValCons(d: nat, y: seq<nat>, b: nat)
    ensures Val([d] + y, b) == d * Pow(b, |y|) + Val(y, b)
  {
    ValConcat([d], y, b);
    assert [d][..0] == [];
  }

  lemma {:induction false} ValBound(ds: seq<nat>, b: nat)
    requires Below(ds, b)
    ensures Val(ds, b) < Pow(b, |ds|)
  {
    if ds == [] {
      Empty(b);
    } else {
      hide Val, Pow;
      var init, last := ds[..|ds| - 1], ds[|ds| - 1];
      ValBound(init, b);
      ValStep(ds, b);
      PowStep(b, |init|);
      RoomForDigit(Val(init, b), Pow(b, |init|), b, last);
    }
  }

  lemma RoomForDigit(v: nat, p: nat, b: nat, d: nat)
    requires v < p && d < b
    ensures v * b + d < b * p
  {
    MulMono(b, v + 1, p);
    Distributes(v, 1, b);
  }

  /** A non-zero top digit makes the value at least the weight of that digit. */
  lemma ValAtLeast(ds: seq<nat>, b: nat)
    requires ds != [] && ds[0] != 0
    ensures Val(ds, b) >= Pow(b, |ds| - 1)
  {
    hide Val, Pow;
    assert ds == [ds[0]] + ds[1..];
    ValCons(ds[0], ds[1..], b);
    MulMono(Pow(b, |ds| - 1), 1, ds[0]);
  }

  lemma {:induction false} ValZeros(ds: seq<nat>, b: nat)
    requires forall i | 0 <= i < |ds| :: ds[i] == 0
    ensures Val(ds, b) == 0
  {
    if ds != [] { ValZeros(ds[..|ds| - 1], b); }
  }

  /** Numerals of the same length are unique. */
  lemma {:induction false} ValTells(x: seq<nat>, y: seq<nat>, b: nat)
    requires |x| == |y| && b > 0 && Below(x, b) && Below(y, b) && Val(x, b) == Val(y, b)
    ensures x == y
  {
    if x != [] {
      hide Val;
      var n := |x| - 1;
      ValStep(x, b);
      ValStep(y, b);
      DivModUnique(Val(x[..n], b), b, x[n]);
      DivModUnique(Val(y[..n], b), b, y[n]);
      ValTells(x[..n], y[..n], b);
      assert x == x[..n] + [x[n]] && y == y[..n] + [y[n]];
    }
  }

  /** Numerals without a leading zero are unique: `Digits` inverts `Val` on them. */
  lemma {:induction false} DigitsOfVal(ds: seq<nat>, b: nat)
    requires b >= 2 && Below(ds, b) && NoLeadingZero(ds)
    ensures Digits(Val(ds, b), b) == ds
  {
    if ds != [] {
      hide Val, Digits, Pow;
      var init, last := ds[..|ds| - 1], ds[|ds| - 1];
      ValAtLeast(ds, b);
      PowPositive(b, |ds| - 1);
      ValStep(ds, b);
      DivModUnique(Val(init, b), b, last);
      DigitsOfVal(init, b);
      DigitsStep(Val(ds, b), b);
    }
  }

  /** `Val` inverts `Digits` on every number. */
  lemma {:induction false} ValOfDigits(v: nat, b: nat)
    requires b >= 2
    ensures Val(Digits(v, b), b) == v
    ensures Below(Digits(v, b), b) && NoLeadingZero(Digits(v, b))
  {
    if v > 0 {
      hide Val, Digits;
      DigitsStep(v, b);
      ValOfDigits(v / b, b);
      ValSnoc(Digits(v / b, b), v % b, b);
      DivMod(v, b);
      if v / b == 0 { NoDigits(b); } else { SomeDigits(v / b, b); }
    }
  }

  lemma NoDigits(b: nat)
    requires b >= 2
    ensures Digits(0, b) == []
  {}

  lemma SomeDigits(v: nat, b: nat)
    requires v > 0 && b >= 2
    ensures Digits(v, b) != []
  {
    DivShrinks(v, b);
  }

  lemma Empty(b: nat)
    ensures Val([], b) == 0 && Pow(b, 0) == 1
  {}

  /** Leading zero digits carry no value. */
  lemma AfterZeros(ds: seq<nat>, cut: nat, b: nat)
    requires cut <= |ds| && (forall k | 0 <= k < cut :: ds[k] == 0)
    ensures Val(ds, b) == Val(ds[cut..], b)
  {
    ValZeros(ds[..cut], b);
    ValConcat(ds[..cut], ds[cut..], b);
    assert ds == ds[..cut] + ds[cut..];
  }

  lemma {:induction false} DigitCount(v: nat, b: nat, e: nat)
    requires b >= 2 && v < Pow(b, e)
    ensures |Digits(v, b)| <= e
  {
    if v == 0 {
      NoDigits(b);
    } else {
      if e == 0 { Empty(b); }
      hide Digits, Pow;
      PowStep(b, e - 1);
      DigitsStep(v, b);
      DivBound(v, b, Pow(b, e - 1));
      DigitCount(v / b, b, e - 1);
    }
  }

  lemma DivBound(v: nat, b: nat, p: nat)
    requires b > 0 && v < b * p
    ensures v / b < p
  {
    DivMod(v, b);
    if v / b >= p { MulMono(b, p, v / b); }
  }
}
