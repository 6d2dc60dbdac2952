// What a person reads on the approval screen, in terms of the output alone.
module DisplayText {
  import opened Bytes
  import opened Transaction
  import opened Crypto
  import opened Decimals
  import opened DeviceModel
  import Addresses
  import Amount

  /** The three texts, read back: "k/m", the address of the output and its amount. */
  ghost predicate DisplayReads(c: Sdk, s: Display, o: Output, k: nat, m: nat) {
    && ProgressReads(s.progress, k, m)
    && Addresses.AddressReads(c, s.address, o.address)
    && (Parse(s.amount) == Micro(o.coins) <==> Amount.Showable(o.coins))
    && (o.coins < 100000000000000 ==> Parse(s.amount) == Micro(o.coins))
  }

  ghost predicate ProgressReads(t: Text, k: nat, m: nat) {
    exists i :: 0 <= i < |t| && t[i] == '/' as int && ReadsAs(t[..i], k) && ReadsAs(t[i + 1..], m)
  }

  lemma ShownReads(c: Sdk, o: Output, k: byte, m: uint32)
    requires m < 0x8000_0000
    ensures DisplayReads(c, ShownFor(c, o, k, m), o, k, m)
  {
    hide ReadsAs, Parse, Amount.AmountText, Amount.Decimal, Addresses.AddressText, Addresses.AddressReads;
    Amount.DecimalReads(k);
    Amount.DecimalReads(m);
    Addresses.AddressTextReads(c, o.address);
    Amount.AmountIsExact(o.coins);
    var x, y := Amount.Decimal(k), Amount.Decimal(m);
    var t := ShownFor(c, o, k, m).progress;
    assert Amount.ToInt32(m) == m;
    Slashed(x, y, t);
  }

  lemma Slashed(x: Text, y: Text, t: Text)
    requires t == x + [SLASH] + y
    ensures |t| > |x| && t[|x|] == '/' as int && t[..|x|] == x && t[|x| + 1..] == y
  {}
}
