// sign of src/skycoin-api/skycoin_crypto.c over an unknown ECDSA, and what the slots hold in its terms.
module Signing {
  import opened Bytes
  import opened Positional
  import opened Transaction
  import opened Crypto
  import opened TxnStream
  import opened DeviceModel
  import opened Protocol
  import opened Approval
  import opened Integrity
  import opened Answers
  import opened Der

  /** The two bits of the SDK's info word that sign looks at. */
  datatype Info = Info(parityOdd: bool, xGTn: bool)

  /** Key derivation and ECDSA: R, S and info for a path and a hash. */
  datatype Ecdsa = Ecdsa(signs: (Path, Digest) -> (Scalar, Scalar, Info))

  function RecoveryId(info: Info): byte {
    (if info.parityOdd then 1 else 0) + (if info.xGTn then 2 else 0)
  }

  const LONG_SCALAR: nat := Pow(2, 247)

  /** Bit 0: the point has odd parity; bit 1: its x coordinate is above the order of the curve. */
  predicate RecoveryRight(id: byte, info: Info) {
    id < 4 && (id % 2 == 1 <==> info.parityOdd) && (id / 2 == 1 <==> info.xGTn)
  }

  lemma RecoveryIdRight(info: Info)
    ensures RecoveryRight(RecoveryId(info), info)
  {}

  /** The 65 bytes that stand for a signature: R and S as 32 big-endian bytes each, then the recovery id. */
  ghost predicate IsRS(sig: seq<byte>, r: Scalar, s: Scalar, info: Info) {
    |sig| == 65 && Val(sig[..32], 256) == r && Val(sig[32..64], 256) == s && RecoveryRight(sig[64], info)
  }

  lemma IsRSBytes(rs: seq<byte>, r: Scalar, s: Scalar, info: Info)
    requires |rs| == 64
    ensures IsRS(rs + [RecoveryId(info)], r, s, info) <==> rs == Fixed32(r) + Fixed32(s)
  {
    hide Val, Fixed32, RecoveryId, RecoveryRight;
    var sig := rs + [RecoveryId(info)];
    assert sig[..32] == rs[..32] && sig[32..64] == rs[32..];
    RecoveryIdRight(info);
    Fixed32Is(r, rs[..32]);
    Fixed32Is(s, rs[32..]);
    Halves(rs[..32], rs[32..], Fixed32(r), Fixed32(s));
    assert rs == rs[..32] + rs[32..];
  }

  /** The SDK has written the DER encoding at `tlv`. */
  ghost predicate DerAt(mem: seq<byte>, tlv: nat, r: Scalar, s: Scalar) {
    var d := DerSignature(r, s);
    tlv >= 32 && tlv + |d| <= |mem| && mem[tlv..tlv + |d|] == d
  }

  lemma DerThere(mem: seq<byte>, tlv: nat, r: Scalar, s: Scalar)
    requires DerAt(mem, tlv, r, s)
    ensures tlv >= 32 && tlv + 5 < |mem|
    ensures tlv + 5 + mem[tlv + 3] < |mem| && tlv + 6 + mem[tlv + 3] + mem[tlv + 5 + mem[tlv + 3]] <= |mem|
    ensures Converted(mem, tlv) == Fixed32(r) + Fixed32(s) <==> r >= LONG_SCALAR && s >= LONG_SCALAR
  {
    hide DerSignature, Fixed32, IntegerBytes, Converted, Pow;
    var d := DerSignature(r, s);
    var pre, post := mem[..tlv], mem[tlv + |d|..];
    DerSize(r, s);
    assert mem == pre + d + post;
    ConversionIsExact(pre, r, s, post);
    LongEnough(r);
    LongEnough(s);
  }

  lemma DerSize(r: Scalar, s: Scalar)
    ensures 6 <= |DerSignature(r, s)| <= 72
  {
    hide IntegerBytes, Octets, Pow;
  }

  /** sign, with its buffer at `tlv` in memory: the signature is right if and only if both halves are at
      least 2 ** 247, whatever lies around the buffer. */
  method Sign(e: Ecdsa, path: Path, hash: Digest, mem: array<byte>, tlv: nat, signature: array<byte>)
    requires mem != signature && signature.Length >= SIG_LEN && tlv >= 32 && tlv + 72 <= mem.Length
    modifies mem, signature
    ensures var (r, s, info) := e.signs(path, hash);
      && (IsRS(signature[..SIG_LEN], r, s, info) <==> r >= LONG_SCALAR && s >= LONG_SCALAR)
      && RecoveryRight(signature[64], info)
      && Made(e, path, hash, signature[..SIG_LEN])
    ensures forall i | SIG_LEN <= i < signature.Length :: signature[i] == old(signature[i])
    ensures forall i | 0 <= i < tlv || tlv + 72 <= i < mem.Length :: mem[i] == old(mem[i])
  {
    hide DerSignature, Fixed32, Converted, Pow, IsRS, RecoveryRight;
    var (r, s, info) := e.signs(path, hash);
    DerSize(r, s);
    Put(mem, tlv, DerSignature(r, s));
    ghost var stack := mem[..];
    assert DerAt(stack, tlv, r, s);
    var recoveryId := 0;
    if info.parityOdd { recoveryId := recoveryId + 1; }
    if info.xGTn { recoveryId := recoveryId + 2; }
    DerThere(stack, tlv, r, s);
    MadeIn(e, path, hash, stack, tlv);
    PutRS(mem, tlv, signature, recoveryId);
    IsRSBytes(Converted(stack, tlv), r, s, info);
    RecoveryIdRight(info);
  }

  method Put(mem: array<byte>, at: nat, bytes: seq<byte>)
    requires at + |bytes| <= mem.Length
    modifies mem
    ensures mem[..][at..at + |bytes|] == bytes
    ensures forall i | 0 <= i < at || at + |bytes| <= i < mem.Length :: mem[i] == old(mem[i])
  {
    forall i | 0 <= i < |bytes| { mem[at + i] := bytes[i]; }
  }

  /** The end of sign: the two halves and the recovery id. */
  method PutRS(mem: array<byte>, tlv: nat, signature: array<byte>, recoveryId: byte)
    requires mem != signature && signature.Length >= SIG_LEN && tlv >= 32 && tlv + 5 < mem.Length
    requires tlv + 5 + mem[tlv + 3] < mem.Length && tlv + 6 + mem[tlv + 3] + mem[tlv + 5 + mem[tlv + 3]] <= mem.Length
    modifies signature
    ensures signature[..SIG_LEN] == Converted(mem[..], tlv) + [recoveryId]
    ensures forall i | SIG_LEN <= i < signature.Length :: signature[i] == old(signature[i])
  {
    hide Converted;
    ConvertSignature(mem, tlv, signature);
    assert forall i | 64 <= i < signature.Length :: signature[i] == signature[64..][i - 64];
    signature[64] := recoveryId;
  }

  /** What sign leaves, for some memory around its buffer. */
  ghost predicate Made(e: Ecdsa, path: Path, hash: Digest, sig: seq<byte>) {
    var (r, s, info) := e.signs(path, hash);
    exists mem, tlv: nat :: DerAt(mem, tlv, r, s) && LeftBy(mem, tlv, sig, RecoveryId(info))
  }

  ghost predicate LeftBy(mem: seq<byte>, tlv: nat, sig: seq<byte>, recoveryId: byte) {
    && tlv >= 32 && tlv + 5 < |mem| && tlv + 5 + mem[tlv + 3] < |mem|
    && tlv + 6 + mem[tlv + 3] + mem[tlv + 5 + mem[tlv + 3]] <= |mem|
    && sig == Converted(mem, tlv) + [recoveryId]
  }

  lemma MadeIn(e: Ecdsa, path: Path, hash: Digest, mem: seq<byte>, tlv: nat)
    requires var (r, s, info) := e.signs(path, hash); DerAt(mem, tlv, r, s)
    ensures var (r, s, info) := e.signs(path, hash);
      && tlv >= 32 && tlv + 5 + mem[tlv + 3] < |mem| && tlv + 6 + mem[tlv + 3] + mem[tlv + 5 + mem[tlv + 3]] <= |mem|
      && Made(e, path, hash, Converted(mem, tlv) + [RecoveryId(info)])
  {
    hide DerAt, Converted, Pow;
    var (r, s, info) := e.signs(path, hash);
    DerThere(mem, tlv, r, s);
    assert LeftBy(mem, tlv, Converted(mem, tlv) + [RecoveryId(info)], RecoveryId(info));
  }

  lemma MadeIsRS(e: Ecdsa, path: Path, hash: Digest, sig: seq<byte>)
    requires Made(e, path, hash, sig)
    ensures var (r, s, info) := e.signs(path, hash); 
      (IsRS(sig, r, s, info) <==> r >= LONG_SCALAR && s >= LONG_SCALAR) && |sig| == 65 && RecoveryRight(sig[64], info)
  {
    hide DerAt, Converted, Fixed32, Pow, IsRS, RecoveryRight;
    var (r, s, info) := e.signs(path, hash);
    var mem, tlv: nat :| DerAt(mem, tlv, r, s) && LeftBy(mem, tlv, sig, RecoveryId(info));
    DerThere(mem, tlv, r, s);
    IsRSBytes(Converted(mem, tlv), r, s, info);
    RecoveryIdRight(info);
  }

  /** The device's signatures are made by sign over `e`. */
  ghost predicate BuiltOn(c: Sdk, e: Ecdsa) {
    forall path: Path, hash: Digest :: Made(e, path, hash, c.sign(path, hash))
  }

  /** R, S and info for input `i` of the transaction. */
  function RSOf(c: Sdk, e: Ecdsa, path: Path, t: Txn, i: nat): (Scalar, Scalar, Info)
    requires i < |t.inputs|
  {
    e.signs(path[4 := t.inputs[i].addressIndex], c.sha256(InnerHash(c, t) + t.inputs[i].uxId))
  }

  /** A signature of the transaction is R | S | recovery id if and only if R and S are at least 2 ** 247; its
      recovery id is right in any case. */
  ghost predicate RightRS(c: Sdk, e: Ecdsa, path: Path, t: Txn, i: nat, sig: seq<byte>)
    requires i < |t.inputs|
  {
    var (r, s, info) := RSOf(c, e, path, t, i);
    (IsRS(sig, r, s, info) <==> r >= LONG_SCALAR && s >= LONG_SCALAR) && |sig| == 65 && RecoveryRight(sig[64], info)
  }

  lemma SigIsRS(c: Sdk, e: Ecdsa, path: Path, t: Txn, i: nat)
    requires BuiltOn(c, e) && i < |t.inputs|
    ensures RightRS(c, e, path, t, i, SigOf(c, path, t, i))
  {
    hide Made, IsRS, RecoveryRight, InnerHash, Pow;
    MadeIsRS(e, path[4 := t.inputs[i].addressIndex], c.sha256(InnerHash(c, t) + t.inputs[i].uxId), SigOf(c, path, t, i));
  }

  /** In every run from an idle device, with any bytes, any split and any cancels, and for any number of
      inputs: a request past the outputs of a session that has some is answered with the next signatures of
      the one transaction consumed and approved, the last page included, and each of them is R | S |
      recovery id of its input under its own index if and only if R and S are at least 2 ** 247. */
  lemma PagesHoldRS(c: Sdk, e: Ecdsa, d: Dev, es: seq<Event>, data: seq<byte>)
    requires BuiltOn(c, e) && Idle(d) && Possible(c, d, es)
    requires var f := Exec(c, d, es); Session(c, f) && Enabled(f, Apdu(1, data)) && f.initialized && f.p.state > TXN_OUT && f.p.outNum > 0
    ensures var f := Exec(c, d, es);
      exists ins :: Approved(c, f.p, ins) && PageFor(c, f, OnApdu(c, f, 1, data), ins)
        && forall i | 0 <= i < |ins| :: RightRS(c, e, f.p.path, Txn(ins, f.p.outs), i, SigOf(c, f.p.path, Txn(ins, f.p.outs), i))
  {
    hide Exec, Possible, RightRS, SigOf, Approved, PageFor, OnApdu, Told, Inv, History, ShownFor, Presses;
    RunSealed(c, d, false, es);
    var f := Exec(c, d, es);
    PageSays(c, f, Presses(es), data);
    var ins: seq<Input> :| Approved(c, f.p, ins) && PageFor(c, f, OnApdu(c, f, 1, data), ins);
    forall i | 0 <= i < |ins| ensures RightRS(c, e, f.p.path, Txn(ins, f.p.outs), i, SigOf(c, f.p.path, Txn(ins, f.p.outs), i)) {
      SigIsRS(c, e, f.p.path, Txn(ins, f.p.outs), i);
    }
  }

  /** The same of the slots, finished sessions included: once they are signed, slot `i` holds R | S | recovery
      id of input `i` of that transaction if and only if R and S are at least 2 ** 247. */
  lemma SlotsHoldRS(c: Sdk, e: Ecdsa, d: Dev, es: seq<Event>)
    requires BuiltOn(c, e) && Idle(d) && Possible(c, d, es)
    ensures var f := Exec(c, d, es);
      (f.initialized || Presses(es)) && f.p.state == TXN_RET_SIGS && f.p.outNum > 0 ==>
        exists ins :: Approved(c, f.p, ins) && |ins| <= MAX_INPUTS
          && forall i | 0 <= i < |ins| :: RightRS(c, e, f.p.path, Txn(ins, f.p.outs), i, f.p.slots[i])
  {
    hide Exec, Possible, RightRS, SigOf, Approved, Presses;
    SignedIsApproved(c, d, es);
    var f := Exec(c, d, es);
    if (f.initialized || Presses(es)) && f.p.state == TXN_RET_SIGS && f.p.outNum > 0 {
      var ins: seq<Input> :| Approved(c, f.p, ins);
      ApprovedSigs(c, f.p, ins);
      forall i | 0 <= i < |ins| ensures RightRS(c, e, f.p.path, Txn(ins, f.p.outs), i, f.p.slots[i]) {
        SigIsRS(c, e, f.p.path, Txn(ins, f.p.outs), i);
      }
    }
  }
}
