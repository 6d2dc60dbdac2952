// get_bip44_path of src/skycoin-api/skycoin_crypto.c: the five words of a BIP-44 path, read from the
// APDU into the shared path that signing uses, and checked on the way and afterwards.
module Bip44 {
  import opened Bytes
  import opened Positional

  const BIP44_PATH_LEN := 5
  const INS_RET_WRONG_DATA := 0x6A80
  const HARDENED := 0x8000_0000

  /** The Ledger SDK macro: four bytes, most significant first. */
  function U4BE(buf: seq<byte>, off: nat): uint32
    requires off + 4 <= |buf|
  {
    var b0: int, b1: int, b2: int, b3: int := buf[off], buf[off + 1], buf[off + 2], buf[off + 3];
    ((b0 * 256 + b1) * 256 + b2) * 256 + b3
  }

  function Word(buf: seq<byte>, i: nat): uint32
    requires 4 * i + 4 <= |buf|
  {
    U4BE(buf, 4 * i)
  }

  /** How many words are stored before the first of the three that must be hardened and is not. */
  function Stored(buf: seq<byte>): (n: nat)
    requires |buf| == 4 * BIP44_PATH_LEN
    ensures n <= 5 && (n < 5 ==> n < 3 && Word(buf, n) < 0x8000_0000)
    ensures forall k | 0 <= k < n && k < 3 :: Word(buf, k) >= 0x8000_0000
  {
    if Word(buf, 0) < HARDENED then 0 else if Word(buf, 1) < HARDENED then 1 else if Word(buf, 2) < HARDENED then 2
    else BIP44_PATH_LEN
  }

  /** m / 44' / coin' / account' / change / index. */
  datatype Path44 = Path44(coin: nat, account: nat, change: nat, index: nat)
  {
    predicate Allowed() {
      coin < HARDENED && account < 10 && change < 2 && index < 1000
    }

    function Words(): (ws: seq<uint32>)
      requires Allowed()
      ensures |ws| == BIP44_PATH_LEN
    {
      [HARDENED + 44, HARDENED + coin, HARDENED + account, change, index]
    }
  }

  function BE4(n: uint32): (s: seq<byte>)
    ensures |s| == 4
  {
    [n / 256 / 256 / 256, n / 256 / 256 % 256, n / 256 % 256, n % 256]
  }

  /** A path on the wire. */
  function PathBytes(ws: seq<uint32>): (s: seq<byte>)
    ensures |s| == 4 * |ws|
  {
    if ws == [] then [] else PathBytes(ws[..|ws| - 1]) + BE4(ws[|ws| - 1])
  }

  /** What get_bip44_path accepts. */
  predicate Accepts(buf: seq<byte>)
    requires |buf| == 4 * BIP44_PATH_LEN
  {
    && Stored(buf) == BIP44_PATH_LEN
    && Word(buf, 0) % HARDENED == 44 && Word(buf, 2) % HARDENED <= 9 && Word(buf, 3) <= 1 && Word(buf, 4) <= 999
  }

  /** get_bip44_path: 0 when nothing is thrown. A rejected path has already overwritten the shared
      one, up to the word that is not hardened. */
  method GetBip44Path(mem: array<byte>, at: nat, path: array<uint32>) returns (thrown: nat)
    requires at + 4 * BIP44_PATH_LEN <= mem.Length && path.Length == BIP44_PATH_LEN
    modifies path
    ensures var buf := mem[at..at + 4 * BIP44_PATH_LEN];
      && thrown == (if Accepts(buf) then 0 else 0x6A80)
      && (forall k | 0 <= k < Stored(buf) :: path[k] == Word(buf, k))
      && (forall k | Stored(buf) <= k < BIP44_PATH_LEN :: path[k] == old(path[k]))
  {
    hide U4BE;
    ghost var buf := mem[at..at + 4 * BIP44_PATH_LEN];
    var dataBuffer, i := at, 0;
    while i < BIP44_PATH_LEN
      invariant i <= Stored(buf) && dataBuffer == at + 4 * i
      invariant forall k | 0 <= k < i :: path[k] == Word(buf, k)
      invariant forall k | i <= k < BIP44_PATH_LEN :: path[k] == old(path[k])
    {
      Here(mem[..], at, i);
      if i < 3 && mem[dataBuffer] / 128 % 2 != 1 {
        return INS_RET_WRONG_DATA;
      }
      path[i] := U4BE(mem[..], dataBuffer);
      dataBuffer, i := dataBuffer + 4, i + 1;
    }
    var wrong := path[0] % HARDENED != 44 || path[2] % HARDENED > 9 || path[3] / 2 * 2 > 0 || path[4] > 999;
    thrown := if wrong then INS_RET_WRONG_DATA else 0;
  }

  /** A word of the APDU, and its first bit. */
  lemma Here(mem: seq<byte>, at: nat, i: nat)
    requires at + 4 * BIP44_PATH_LEN <= |mem| && i < BIP44_PATH_LEN
    ensures U4BE(mem, at + 4 * i) == Word(mem[at..at + 4 * BIP44_PATH_LEN], i)
    ensures mem[at + 4 * i] / 128 % 2 == 1 <==> Word(mem[at..at + 4 * BIP44_PATH_LEN], i) >= HARDENED
  {
    var buf, off := mem[at..at + 4 * BIP44_PATH_LEN], at + 4 * i;
    assert buf[4 * i] == mem[off];
    assert buf[4 * i + 1] == mem[off + 1];
    assert buf[4 * i + 2] == mem[off + 2];
    assert buf[4 * i + 3] == mem[off + 3];
    FirstBit(mem[off], mem[off + 1], mem[off + 2], mem[off + 3]);
  }

  lemma FirstBit(b0: byte, b1: byte, b2: byte, b3: byte)
    ensures var v: int := b0; (v / 128 % 2 == 1 <==> v >= 128) && (((v * 256 + b1) * 256 + b2) * 256 + b3 >= HARDENED <==> v >= 128)
  {}

  /** A word is big-endian. */
  lemma WordIs(buf: seq<byte>, i: nat)
    requires 4 * i + 4 <= |buf|
    ensures Word(buf, i) == Val(buf[4 * i..4 * i + 4], 256)
  {
    var b := buf[4 * i..4 * i + 4];
    var x: seq<nat> := b;
    Empty(256);
    assert x[..0] == [] && x[..1][..0] == [] && x[..2][..1] == x[..1] && x[..3][..2] == x[..2] && x[..4] == x;
    ValStep(x[..1], 256);
    ValStep(x[..2], 256);
    ValStep(x[..3], 256);
    ValStep(x, 256);
  }

  lemma WordBytes(buf: seq<byte>, off: nat, n: uint32)
    requires off + 4 <= |buf|
    ensures U4BE(buf, off) == n <==> buf[off..off + 4] == BE4(n)
  {
    var s := buf[off..off + 4];
    var b0, b1, b2, b3 := s[0], s[1], s[2], s[3];
    assert s == [b0, b1, b2, b3];
    FourBytes(b0, b1, b2, b3, n);
  }

  lemma FourBytes(b0: byte, b1: byte, b2: byte, b3: byte, n: uint32)
    ensures var v: int := b0; ((v * 256 + b1) * 256 + b2) * 256 + b3 == n <==> [b0, b1, b2, b3] == BE4(n)
  {
    var x1: nat := b0 * 256 + b1;
    var x2: nat := x1 * 256 + b2;
    var x3: nat := x2 * 256 + b3;
    var e := BE4(n);
    DivMod(n, 256);
    DivMod(n / 256, 256);
    DivMod(n / 256 / 256, 256);
    assert ((e[0] as int * 256 + e[1]) * 256 + e[2]) * 256 + e[3] == n;
    if x3 == n {
      DivModUnique(x2, 256, b3);
      DivModUnique(x1, 256, b2);
      DivModUnique(b0, 256, b1);
      assert e[3] == b3;
      assert e[2] == b2;
      assert e[1] == b1;
      assert e[0] == b0;
    }
  }

  lemma {:induction false} PathOnWire(buf: seq<byte>, ws: seq<uint32>)
    requires |buf| == 4 * |ws|
    ensures buf == PathBytes(ws) <==> forall i | 0 <= i < |ws| :: Word(buf, i) == ws[i]
  {
    hide U4BE, BE4, PathBytes;
    if ws == [] {
      NoBytes();
    } else {
      var n := |ws| - 1;
      var head, last := buf[..4 * n], buf[4 * n..];
      PathOnWire(head, ws[..n]);
      LastBytes(buf, ws);
      WordBytes(buf, 4 * n, ws[n]);
      assert buf[4 * n..4 * n + 4] == last;
      forall i | 0 <= i < n ensures Word(head, i) == Word(buf, i) {
        SameWord(buf, 4 * n, 4 * i);
      }
      forall i | 0 <= i < n ensures ws[..n][i] == ws[i] {}
    }
  }

  lemma NoBytes()
    ensures PathBytes([]) == []
  {}

  lemma LastBytes(buf: seq<byte>, ws: seq<uint32>)
    requires ws != [] && |buf| == 4 * |ws|
    ensures var n := |ws| - 1; buf == PathBytes(ws) <==> buf[..4 * n] == PathBytes(ws[..n]) && buf[4 * n..] == BE4(ws[n])
  {
    hide BE4;
    var n := |ws| - 1;
    Joins(buf, 4 * n, PathBytes(ws[..n]), BE4(ws[n]));
  }

  lemma Joins(s: seq<byte>, cut: nat, x: seq<byte>, y: seq<byte>)
    requires |s| == |x| + |y| && cut == |x|
    ensures s == x + y <==> s[..cut] == x && s[cut..] == y
  {
    assert s == s[..cut] + s[cut..];
  }

  lemma SameWord(buf: seq<byte>, cut: nat, off: nat)
    requires off + 4 <= cut <= |buf|
    ensures U4BE(buf[..cut], off) == U4BE(buf, off)
  {}

  /** Twenty bytes are accepted if and only if they spell m/44'/coin'/account'/change/index with an
      account below 10, change 0 or 1 and an index below 1000. */
  lemma AcceptsBip44(buf: seq<byte>)
    requires |buf| == 4 * BIP44_PATH_LEN
    ensures Accepts(buf) <==> exists p: Path44 ::
      && p.coin < 0x8000_0000 && p.account < 10 && p.change < 2 && p.index < 1000
      && buf == PathBytes([0x8000_002C, 0x8000_0000 + p.coin, 0x8000_0000 + p.account, p.change, p.index])
  {
    hide U4BE, PathBytes;
    if Accepts(buf) {
      var p := Path44(Word(buf, 1) - HARDENED, Word(buf, 2) - HARDENED, Word(buf, 3), Word(buf, 4));
      PathOnWire(buf, p.Words());
      WordsAre(p);
    }
    forall p: Path44 | p.Allowed() && buf == PathBytes(p.Words()) ensures Accepts(buf) {
      var ws := p.Words();
      PathOnWire(buf, ws);
      assert ws[0] == Word(buf, 0) && ws[1] == Word(buf, 1) && ws[2] == Word(buf, 2) && ws[3] == Word(buf, 3) && ws[4] == Word(buf, 4);
    }
    forall p: Path44 ensures p.Allowed() ==> p.Words() == [0x8000_002C, 0x8000_0000 + p.coin, 0x8000_0000 + p.account, p.change, p.index] {
      WordsAre(p);
    }
  }

  lemma WordsAre(p: Path44)
    ensures p.Allowed() <==> p.coin < 0x8000_0000 && p.account < 10 && p.change < 2 && p.index < 1000
    ensures p.Allowed() ==> p.Words() == [0x8000_002C, 0x8000_0000 + p.coin, 0x8000_0000 + p.account, p.change, p.index]
  {}
}
