// How a person reads a decimal number on a screen. Nothing here knows how the device writes one.
module Decimals {
  import opened Bytes
  import opened Positional

  datatype Parsed = NotANumber | Micro(value: nat)

  predicate IsDigit(c: byte) { '0' as int <= c <= '9' as int }

  predicate AllDigits(t: Text) { forall i | 0 <= i < |t| :: IsDigit(t[i]) }

  function DigitsOf(t: Text): (ds: seq<int>)
    ensures |ds| == |t|
  {
    seq(|t|, i requires 0 <= i < |t| => t[i] - '0' as int)
  }

  function Number(t: Text): nat
    requires AllDigits(t)
  {
    Val(DigitsOf(t), 10)
  }

  /** Digits that spell `n`, without a leading zero. */
  predicate ReadsAs(t: Text, n: nat) {
    t != [] && AllDigits(t) && Number(t) == n && (|t| > 1 ==> t[0] != '0' as int)
  }

  function DotAt(t: Text): (d: nat)
    ensures d <= |t|
  {
    if t == [] || t[0] == '.' as int then 0 else 1 + DotAt(t[1..])
  }

  /** Whole coins and `k` fraction digits, in units of 10 ** -6. */
  function Scaled(whole: nat, frac: nat, k: nat): nat
    requires k <= 6
  {
    Product(whole, Pow(10, 6));
    Product(frac, Pow(10, 6 - k));
    whole * Pow(10, 6) + frac * Pow(10, 6 - k)
  }

  lemma Product(v: nat, unit: nat)
    ensures v * unit >= 0
  {}

  /** A decimal with at most six fraction digits, in units of 10 ** -6. */
  function Parse(t: Text): Parsed {
    var d := DotAt(t);
    if d == |t| || !AllDigits(t[..d]) || !AllDigits(t[d + 1..]) || |t| - d - 1 > 6 then NotANumber
    else
      Micro(Scaled(Number(t[..d]), Number(t[d + 1..]), |t| - d - 1))
  }
}
