// Addresses: the device's address_to_base58 and the host's Output.__init__ that reads its text.
module Addresses {
  import opened Bytes
  import opened Wrappers
  import opened Positional
  import opened Transaction
  import opened Crypto
  import opened Base58
  import opened HostText

  const ADDRESS_LEN := 25
  const RIPMD_HASH_LEN := 20
  const CHECKSUM_LEN := 4

  /** Hash, version, checksum: the version moves from the front to after the hash. */
  function Checked(c: Sdk, a: Address): (bs: seq<byte>)
    ensures |bs| == ADDRESS_LEN
  {
    a[1..] + [a[0]] + c.sha256(a[1..] + [a[0]])[..CHECKSUM_LEN]
  }

  function AddressText(c: Sdk, a: Address): Text { Encode(Checked(c, a)) }

  /** What a wallet reads in an address text: the 20 bytes of the hash, the version, and the first four
      bytes of the digest of these 21. */
  ghost predicate AddressReads(c: Sdk, text: Text, a: Address) {
    var bs := Decode(text);
    && |bs| == 25 && bs[..20] == a[1..21] && bs[20] == a[0]
    && forall i | 0 <= i < 4 :: bs[21 + i] == c.sha256(a[1..21] + [a[0]])[i]
  }

  lemma AddressTextReads(c: Sdk, a: Address)
    ensures AddressReads(c, AddressText(c, a), a)
  {
    hide Encode, Decode;
    RoundTrip(Checked(c, a));
    assert a[1..21] == a[1..];
  }

  /** address_to_base58: builds the 25 bytes in `result` and encodes them over themselves. */
  method AddressToBase58(c: Sdk, address: Address, result: array<byte>)
    requires result.Length >= ADDRESS_BASE58_LEN + 1
    modifies result
    ensures var text := AddressText(c, address);
      |text| <= 35 && result[..|text| + 1] == text + [0] && AddressReads(c, text, address)
  {
    hide Encode, LeadingZeros, AddressReads;
    AddressTextReads(c, address);
    forall i | 0 <= i < RIPMD_HASH_LEN { result[i] := address[1 + i]; }
    result[RIPMD_HASH_LEN] := address[0];
    assert result[..21] == address[1..] + [address[0]];
    var checksum := c.sha256(result[..21]);
    forall i | 0 <= i < CHECKSUM_LEN { result[21 + i] := checksum[i]; }
    assert result[..21] == address[1..] + [address[0]];
    assert result[0..0 + ADDRESS_LEN] == Checked(c, address);
    TextLength(Checked(c, address));
    SizeFits(Checked(c, address));
    EncodeBase58(result, 0, ADDRESS_LEN, 0);
    ghost var text := AddressText(c, address);
    assert result[..|text| + 1] == result[..][0..0 + |text| + 1];
  }

  lemma SizeFits(bs: seq<byte>)
    requires |bs| == ADDRESS_LEN
    ensures (|bs| - LeadingZeros(bs)) * 138 / 100 + 1 <= ADDRESS_BASE58_LEN
  {}

  /** Python slicing: bounds past the end are cut back. */
  function Slice(t: Text, i: nat, j: nat): (r: Text)
    requires i <= j
  {
    if j <= |t| then t[i..j] else if i <= |t| then t[i..] else []
  }

  /** Output.__init__: hash and version picked out of hex(base58decode(text)). */
  function OutputAddr(text: Text): Text {
    var addr := PyHex(DecodeValue(text));
    Slice(addr, 20 * 2, 21 * 2) + Slice(addr, 0, 20 * 2)
  }

  /** Output.__init__, as far as the address goes: None is the exception of base58decode. On the
      device's text for an address it gives the 21 bytes of that address, version first, if and only if
      the hash starts with a byte of at least 0x10. */
  method ReadAddress(base58addr: Text) returns (addr: Option<Text>)
    ensures addr.None? <==> exists i :: 0 <= i < |base58addr| && Index(BASE_58_ALPHABET, base58addr[i]) >= |BASE_58_ALPHABET|
    ensures forall c: Sdk, a: Address | base58addr == AddressText(c, a) :: addr == Some(Hexlify(a)) <==> a[1] >= 0x10
    ensures addr.Some? ==> addr.value == OutputAddr(base58addr)
  {
    hide DecodeValue, PyHex, Encode, Checked, Hexlify, BASE_58_ALPHABET, Index;
    var value := Base58Decode(base58addr);
    if value.None? {
      addr := None;
    } else {
      var hx := PyHex(value.value);
      addr := Some(Slice(hx, 20 * 2, 21 * 2) + Slice(hx, 0, 20 * 2));
    }
    forall c: Sdk, a: Address | base58addr == AddressText(c, a) ensures addr == Some(Hexlify(a)) <==> a[1] >= 0x10 {
      HostReadsAddress(c, a);
    }
  }

  function Nibbles(bs: seq<byte>): (ds: seq<nat>)
    ensures |ds| == 2 * |bs| && Below(ds, 16)
  {
    if bs == [] then [] else Nibbles(bs[..|bs| - 1]) + [bs[|bs| - 1] / 16, bs[|bs| - 1] % 16]
  }

  lemma {:induction false} NibblesVal(bs: seq<byte>)
    ensures Val(Nibbles(bs), 16) == Val(bs, 256)
  {
    if bs != [] {
      var init, b := bs[..|bs| - 1], bs[|bs| - 1];
      NibblesVal(init);
      assert Nibbles(bs) == Nibbles(init) + [b / 16] + [b % 16];
      ValSnoc(Nibbles(init), b / 16, 16);
      ValSnoc(Nibbles(init) + [b / 16], b % 16, 16);
    }
  }

  lemma {:induction false} NibblesText(bs: seq<byte>)
    ensures HexChars(Nibbles(bs)) == Hexlify(bs)
  {
    if bs != [] {
      var init, b := bs[..|bs| - 1], bs[|bs| - 1];
      NibblesText(init);
      HexCharsPair(Nibbles(init), b);
      HexlifyConcat(init, [b]);
      assert init + [b] == bs;
      assert Hexlify([b]) == HexOf(b) by { assert [b][1..] == []; }
    }
  }

  lemma FirstNibble(bs: seq<byte>)
    requires bs != []
    ensures Nibbles(bs)[0] == bs[0] / 16
  {
    if |bs| > 1 { FirstNibble(bs[..|bs| - 1]); }
  }

  /** The host recovers the device's 21 address bytes, version first, if and only if the hash
      starts with a byte of at least 0x10: below that, hex() drops digits. */
  lemma HostReadsAddress(c: Sdk, a: Address)
    ensures InAlphabet(AddressText(c, a))
    ensures OutputAddr(AddressText(c, a)) == Hexlify(a) <==> a[1] >= 0x10
  {
    hide Encode, DecodeValue, InAlphabet, Val, Digits, PyHex, Nibbles, Hexlify, Checked;
    var bs := Checked(c, a);
    EncodeInAlphabet(bs);
    assert bs[0] == a[1] by { CheckedParts(c, a); }
    DecodeValueOfEncode(bs);
    if a[1] >= 0x10 {
      HexOfBytes(bs);
      CheckedSlices(c, a, PyHex(Val(bs, 256)));
    } else {
      LostDigit(Val(bs, 256), a);
    }
  }

  lemma CheckedParts(c: Sdk, a: Address)
    ensures var bs := Checked(c, a); bs[0] == a[1] && bs[..20] == a[1..] && bs[20..21] == [a[0]]
  {}

  /** With a non-zero first digit, hex() of the value spells all the bytes. */
  lemma HexOfBytes(bs: seq<byte>)
    requires bs != [] && bs[0] >= 0x10
    ensures Hexlify(bs) <= PyHex(Val(bs, 256))
  {
    hide Val, Digits, Nibbles, Hexlify;
    FirstNibble(bs);
    NibblesVal(bs);
    DigitsOfVal(Nibbles(bs), 16);
    NibblesText(bs);
    if Val(bs, 256) == 0 { assert Digits(0, 16) == [] by { NoDigits(16); } }
  }

  lemma CheckedSlices(c: Sdk, a: Address, addr: Text)
    requires Hexlify(Checked(c, a)) <= addr
    ensures Slice(addr, 40, 42) + Slice(addr, 0, 40) == Hexlify(a)
  {
    hide Hexlify, Checked;
    var bs := Checked(c, a);
    HexlifySlice(bs, 0, 20);
    HexlifySlice(bs, 20, 21);
    CheckedParts(c, a);
    HexlifyConcat([a[0]], a[1..]);
    assert [a[0]] + a[1..] == a;
    assert addr[40..42] == Hexlify(bs)[40..42] && addr[0..40] == Hexlify(bs)[0..40];
  }

  /** hex() never starts with a zero digit, the address text does. */
  lemma LostDigit(v: nat, a: Address)
    requires a[1] < 0x10
    ensures var addr := PyHex(v); Slice(addr, 40, 42) + Slice(addr, 0, 40) != Hexlify(a)
  {
    hide Digits, Val, Hexlify, HexChar;
    var addr := PyHex(v);
    ThirdChar(a);
    ValOfDigits(v, 16);
    Empty(16);
    if v > 0 {
      assert addr[0] == HexChar(Digits(v, 16)[0]);
      HexCharZero(Digits(v, 16)[0]);
    }
  }

  lemma HexCharZero(d: nat)
    requires d < 16
    ensures HexChar(d) == ZERO <==> d == 0
  {}

  lemma ThirdChar(a: Address)
    ensures a[1] < 0x10 ==> Hexlify(a)[2] == ZERO
  {
    assert Hexlify(a) == HexOf(a[0]) + (HexOf(a[1]) + Hexlify(a[1..][1..]));
  }
}
