// signTxnContext_t of src/ux.h and the functions of src/skycoin-api/txn.c that work on it: one object
// with the 37-byte buffer, the slots of the union and a window into the shared I/O buffer, updated in
// place. Every method is tied to the state functions of TxnStream.
module TxnSigner {
  import opened Bytes
  import opened Transaction
  import opened Crypto
  import opened TxnStream

  const IO_APDU_BUFFER_SIZE := 260
  const BUFFER_SIZE := 37

  /** os_memmove between different buffers. */
  method Memmove(dst: array<byte>, at: nat, src: array<byte>, from: nat, n: nat)
    requires dst != src && at + n <= dst.Length && from + n <= src.Length
    modifies dst
    ensures dst[..at] == old(dst[..at]) && dst[at..at + n] == src[from..from + n] && dst[at + n..] == old(dst[at + n..])
  {
    forall i | 0 <= i < n { dst[at + i] := src[from + i]; }
  }

  lemma Parts(a: array<byte>, k: nat, n: nat)
    requires k <= n <= a.Length
    ensures a[..n] == a[..k] + a[k..n]
  {}

  lemma Window(a: array<byte>, at: nat, len: nat, n: nat)
    requires at + len <= a.Length && n <= len
    ensures a[at..at + len][..n] == a[at..at + n] && a[at..at + len][n..] == a[at + n..at + len]
  {}

  class Signer {
    const sdk: Sdk
    var initialized: bool
    var hash: seq<byte>                  // what the running hash has been fed
    var txnState: nat
    var innerHash: Digest
    var inNum: uint32
    const sigInput: array<Slot>
    var outNum: uint32
    var curOutput: Output
    const buffer: array<byte>
    var offset: nat
    var currObj: byte
    const io: array<byte>                // G_io_apdu_buffer
    var dataBuffer: nat                  // index into the I/O buffer
    var dataLength: nat
    var tx: nat
    var bip44Path: Path                  // in getPublicKeyContext_t, borrowed while signing
    ghost var consumed: seq<byte>
    ghost var outs: seq<Output>

    ghost predicate Valid()
      reads this
    {
      && sigInput.Length == MAX_INPUTS && buffer.Length == BUFFER_SIZE && io.Length == IO_APDU_BUFFER_SIZE
      && buffer != io
      && offset <= BUFFER_SIZE && dataBuffer + dataLength <= io.Length
    }

    ghost function Pending(): seq<byte>
      requires Valid()
      reads this, io
    {
      io[dataBuffer..dataBuffer + dataLength]
    }

    /** The parser state without the data still to be read. */
    ghost function Core(): (p: Parser)
      requires Valid()
      reads this, buffer, sigInput
      ensures p.state == txnState && p.currObj == currObj && p.outNum == outNum && p.curOut == curOutput
      ensures p.innerHash == innerHash && p.data == [] && p.path == bip44Path
    {
      Parser(txnState, buffer[..offset], [], currObj, inNum, outNum, sigInput[..], curOutput, hash, innerHash,
             bip44Path, consumed, outs)
    }

    ghost function View(): (p: Parser)
      requires Valid()
      reads this, io, buffer, sigInput
      ensures p.state == txnState && p.currObj == currObj && p.inNum == inNum && p.outNum == outNum && p.hashed == hash
      ensures |p.carry| == offset && |p.data| == dataLength && p.slots == sigInput[..] && p.innerHash == innerHash && p.path == bip44Path
    {
      Parser(txnState, buffer[..offset], Pending(), currObj, inNum, outNum, sigInput[..], curOutput, hash, innerHash,
             bip44Path, consumed, outs)
    }

    lemma ViewSplits()
      requires Valid()
      ensures View() == Core().(data := Pending())
    {}

    constructor (sdk: Sdk, path: Path, io: array<byte>)
      requires io.Length == IO_APDU_BUFFER_SIZE
      ensures Valid() && fresh(buffer) && fresh(sigInput)
      ensures this.sdk == sdk && this.io == io && !initialized && bip44Path == path
    {
      this.sdk, this.io := sdk, io;
      sigInput := new Slot[MAX_INPUTS](_ => BLANK);
      buffer := new byte[BUFFER_SIZE](_ => 0);
      initialized, hash, txnState, innerHash, inNum, outNum := false, [], TXN_START_IN, seq(32, _ => 0), 0, 0;
      curOutput := Output(seq(21, _ => 0), 0, 0);
      offset, currObj, dataBuffer, dataLength, tx, bip44Path := 0, 0, 0, 0, 0, path;
      consumed, outs := [], [];
    }

    method SaveDataToBuffer()
      requires Valid() && dataLength <= BUFFER_SIZE
      modifies buffer, this`offset, this`dataBuffer, this`dataLength
      ensures Valid() && View() == Save(old(View()))
    {
      ghost var data := Pending();
      Memmove(buffer, 0, io, dataBuffer, dataLength);
      assert buffer[..dataLength] == data by { assert buffer[0..dataLength] == buffer[..dataLength]; }
      offset := dataLength;
      dataBuffer := dataBuffer + dataLength;
      dataLength := 0;
      assert Pending() == [];
    }

    method ReadDataToBuffer(bufferSize: nat)
      requires Valid() && offset <= bufferSize <= offset + dataLength && bufferSize <= BUFFER_SIZE
      modifies buffer, this`offset, this`dataBuffer, this`dataLength, this`consumed
      ensures Valid() && View() == Read(old(View()), bufferSize)
      ensures buffer[..bufferSize] == Elem(old(View()), bufferSize)
    {
      hide View;
      var n := bufferSize - offset;
      Fill(n);
      TakeFrom(n);
    }

    /** The carried bytes and the next `n` bytes, together in the buffer. */
    method Fill(n: nat)
      requires Valid() && n <= dataLength && offset + n <= BUFFER_SIZE
      modifies buffer
      ensures Valid() && View() == old(View()) && buffer[..offset + n] == View().carry + View().data[..n]
    {
      ghost var carry := buffer[..offset];
      Window(io, dataBuffer, dataLength, n);
      Memmove(buffer, offset, io, dataBuffer, n);
      Parts(buffer, offset, offset + n);
    }

    method TakeFrom(n: nat)
      requires Valid() && n <= dataLength && offset + n <= BUFFER_SIZE
      modifies this`offset, this`dataBuffer, this`dataLength, this`consumed
      ensures Valid()
      ensures var p := old(View()); View() == p.(carry := [], data := p.data[n..], consumed := p.consumed + buffer[..old(offset) + n])
    {
      hide View;
      Consume(buffer[..offset + n]);
      MoveWindow(n);
      DropCarry();
    }

    method Consume(bytes: seq<byte>)
      requires Valid()
      modifies this`consumed
      ensures Valid() && View() == old(View()).(consumed := old(View()).consumed + bytes)
    {
      consumed := consumed + bytes;
    }

    method MoveWindow(n: nat)
      requires Valid() && n <= dataLength
      modifies this`dataBuffer, this`dataLength
      ensures Valid() && View() == old(View()).(data := old(View()).data[n..])
    {
      Window(io, dataBuffer, dataLength, n);
      dataBuffer, dataLength := dataBuffer + n, dataLength - n;
    }

    method DropCarry()
      requires Valid()
      modifies this`offset
      ensures Valid() && View() == old(View()).(carry := [])
    {
      offset := 0;
      assert buffer[..0] == [];
    }

    /** A complete element in the buffer, its first `hashed` bytes fed to the hash. */
    method HashElement(bufferSize: nat, hashed: nat)
      requires Valid() && offset <= bufferSize <= offset + dataLength && hashed <= bufferSize <= BUFFER_SIZE
      modifies buffer, this`offset, this`dataBuffer, this`dataLength, this`consumed, this`hash
      ensures Valid() && buffer[..bufferSize] == Elem(old(View()), bufferSize)
      ensures View() == Read(old(View()), bufferSize).(hashed := old(hash) + Elem(old(View()), bufferSize)[..hashed])
    {
      hide Elem, Read, View;
      ReadDataToBuffer(bufferSize);
      assert buffer[..bufferSize][..hashed] == buffer[..hashed];
      Feed(buffer[..hashed]);
    }

    /** cx_hash. */
    method Feed(bytes: seq<byte>)
      requires Valid()
      modifies this`hash
      ensures Valid() && View() == old(View()).(hashed := old(hash) + bytes)
    {
      hash := hash + bytes;
    }

    /** The next state, and the number of objects read in it. */
    method Enter(state: nat, obj: byte)
      requires Valid()
      modifies this`txnState, this`currObj
      ensures Valid() && View() == old(View()).(state := state, currObj := obj)
    {
      txnState, currObj := state, obj;
    }

    method SetInNum(n: uint32)
      requires Valid()
      modifies this`inNum
      ensures Valid() && View() == old(View()).(inNum := n)
    {
      inNum := n;
    }

    method SetOutNum(n: uint32)
      requires Valid()
      modifies this`outNum
      ensures Valid() && View() == old(View()).(outNum := n)
    {
      outNum := n;
    }

    method PutSlot(cell: Slot)
      requires Valid() && currObj < MAX_INPUTS
      modifies sigInput
      ensures Valid() && View() == old(View()).(slots := old(sigInput[..])[currObj := cell])
    {
      sigInput[currObj] := cell;
      assert sigInput[..] == old(sigInput[..])[currObj := cell];
    }

    method StartIn() returns (thrown: nat)
      requires Valid() && txnState == TXN_START_IN && Inv(View()) && offset < 4
      modifies buffer, this`offset, this`dataBuffer, this`dataLength, this`consumed, this`hash, this`inNum, this`txnState, this`currObj
      ensures Valid()
      ensures StepStartIn(old(View())) == if thrown == 0 then Next(View()) else Throw(thrown, View(), [])
    {
      hide Elem, Read, Save, Inv, Sound, U4LE, StepStartIn, View;
      StartInStep(View());
      if offset + dataLength < 4 {
        SaveDataToBuffer();
        return TXN_PARTIAL;
      }
      HashElement(4, 4);
      assert Elem(old(View()), 4)[..4] == Elem(old(View()), 4);
      SetInNum(U4LE(buffer[..4], 0));
      Enter(TXN_IN, 0);
      thrown := 0;
    }

    method In() returns (thrown: nat)
      requires Valid() && txnState == TXN_IN && Inv(View()) && offset < 36 && !StepIn(View()).Undefined?
      modifies buffer, sigInput, this`offset, this`dataBuffer, this`dataLength, this`consumed, this`hash, this`txnState, this`currObj
      ensures Valid()
      ensures StepIn(old(View())) == if thrown == 0 then Next(View()) else Throw(thrown, View(), [])
    {
      hide Elem, Read, Save, Inv, Sound, U4LE, PutInput, StepIn, View;
      InStep(View());
      if offset + dataLength < 36 {
        SaveDataToBuffer();
        return TXN_PARTIAL;
      }
      ghost var p := View();
      HashElement(36, 32);
      ReadKeeps(p, 36);
      PutSlot(PutInput(sigInput[currObj], buffer[..36]));
      Enter(if currObj + 1 == inNum then TXN_START_OUT else TXN_IN, currObj + 1);
      thrown := 0;
    }

    method StartOut() returns (thrown: nat)
      requires Valid() && txnState == TXN_START_OUT && Inv(View()) && offset < 4
      modifies buffer, this`offset, this`dataBuffer, this`dataLength, this`consumed, this`hash, this`outNum, this`txnState, this`currObj
      ensures Valid()
      ensures StepStartOut(old(View())) == if thrown == 0 then Next(View()) else Throw(thrown, View(), [])
    {
      hide Elem, Read, Save, Inv, Sound, U4LE, StepStartOut, View;
      StartOutStep(View());
      if dataLength < 4 {
        SaveDataToBuffer();
        return TXN_PARTIAL;
      }
      HashElement(4, 4);
      assert Elem(old(View()), 4)[..4] == Elem(old(View()), 4);
      SetOutNum(U4LE(buffer[..4], 0));
      Enter(TXN_OUT, 0);
      thrown := 0;
    }

    method Out() returns (thrown: nat)
      requires Valid() && txnState == TXN_OUT && Inv(View()) && offset < 37
      modifies buffer, this`offset, this`dataBuffer, this`dataLength, this`consumed, this`hash, this`innerHash, this`curOutput,
               this`txnState, this`currObj, this`outs
      ensures Valid()
      ensures StepOut(sdk, old(View())) == Throw(thrown, View(), [])
    {
      hide Elem, Read, Save, Sound, ReadOutput, U8LE, ReadOut, View;
      if currObj == outNum {
        Enter(TXN_READY, 0);
        return TXN_READY;
      }
      if offset + dataLength < 37 {
        SaveDataToBuffer();
        return TXN_PARTIAL;
      }
      ReadOneOutput();
      if offset + dataLength < 37 && txnState != TXN_READY {
        SaveDataToBuffer();
        return TXN_PARTIAL_OUT;
      }
      return TXN_APPROVE_OUT;
    }

    method TakeOneOutput()
      requires Valid() && txnState == TXN_OUT && offset < 37 && offset + dataLength >= 37
      modifies buffer, this`offset, this`dataBuffer, this`dataLength, this`consumed, this`hash, this`curOutput,
               this`currObj, this`outs
      ensures Valid() && View() == TakeOut(old(View()))
    {
      hide Elem, Read, ReadOutput, U8LE, View;
      ghost var p := View();
      HashElement(37, 37);
      assert Elem(p, 37)[..37] == Elem(p, 37);
      ReadKeepsOuts(p, 37);
      CountOutput(ReadOutput(buffer[..37]));
    }

    method CountOutput(o: Output)
      requires Valid()
      modifies this`curOutput, this`currObj, this`outs
      ensures Valid()
      ensures View() == old(View()).(curOut := o, outs := old(View()).outs + [o], currObj := (old(currObj) + 1) % 256)
    {
      curOutput, currObj := o, (currObj + 1) % 256;
      outs := outs + [o];
    }

    /** The part of case TXN_OUT that takes in a complete output. */
    method ReadOneOutput()
      requires Valid() && txnState == TXN_OUT && Inv(View()) && offset < 37 && currObj != outNum && offset + dataLength >= 37
      modifies buffer, this`offset, this`dataBuffer, this`dataLength, this`consumed, this`hash, this`innerHash, this`curOutput,
               this`currObj, this`outs
      ensures Valid() && View() == ReadOut(sdk, old(View()))
    {
      hide TakeOut, View;
      TakeOneOutput();
      if currObj == outNum {
        CloseHash();
      }
    }

    method CloseHash()
      requires Valid()
      modifies this`innerHash
      ensures Valid() && View() == old(View()).(innerHash := sdk.sha256(hash))
    {
      innerHash := sdk.sha256(hash);
    }

    /** case TXN_COMPUTE_SIGS: each signature is written over the input it was made from, and the
        address index goes through the shared path. */
    method ComputeSigs()
      requires Valid() && txnState == TXN_COMPUTE_SIGS && Inv(View())
      modifies sigInput, this`currObj, this`txnState, this`bip44Path
      ensures Valid()
      ensures View() == old(View()).(slots := SignAll(sdk, old(View())), currObj := 0, state := TXN_RET_SIGS)
    {
      hide View, SignatureFor;
      ghost var before := View();
      var oldBip44 := bip44Path[4];
      var i := 0;
      while i < inNum
        invariant i <= inNum == before.inNum <= MAX_INPUTS && currObj == i && Valid()
        invariant View() == before.(slots := sigInput[..], currObj := i, path := bip44Path)
        invariant bip44Path[..4] == before.path[..4]
        invariant forall k | 0 <= k < i :: sigInput[..][k] == SignatureFor(sdk, before.innerHash, before.path, before.slots[k])
        invariant forall k | i <= k < MAX_INPUTS :: sigInput[..][k] == before.slots[k]
      {
        SignOne(i, before.path);
        i := i + 1;
      }
      SetIndex(oldBip44);
      assert bip44Path == before.path;
      Enter(TXN_RET_SIGS, 0);
      assert sigInput[..] == SignAll(sdk, before);
    }

    /** The signature of input `i`, written over it. */
    method SignOne(i: nat, ghost path: Path)
      requires Valid() && i < MAX_INPUTS && currObj < 255 && bip44Path[..4] == path[..4]
      modifies sigInput, this`currObj, this`bip44Path
      ensures Valid() && bip44Path[..4] == path[..4]
      ensures View() == old(View()).(
        slots := old(sigInput[..])[i := SignatureFor(sdk, innerHash, path, old(sigInput[i]))],
        currObj := old(currObj) + 1, path := bip44Path)
    {
      var sigHash := sdk.sha256(innerHash + sigInput[i][..32]);
      var newBip44 := U4LE(sigInput[i], 32);
      bip44Path := bip44Path[4 := newBip44];
      assert bip44Path == path[4 := newBip44];
      sigInput[i] := sdk.sign(bip44Path, sigHash);
      assert sigInput[..] == old(sigInput[..])[i := sigInput[i]];
      currObj := currObj + 1;
    }

    /** The last word of the shared path. */
    method SetIndex(n: uint32)
      requires Valid()
      modifies this`bip44Path
      ensures Valid() && bip44Path == old(bip44Path)[4 := n] && View() == old(View()).(path := bip44Path)
    {
      bip44Path := bip44Path[4 := n];
    }

    /** Appending the next signature to the response. */
    method PutSignature()
      requires Valid() && tx + SIG_LEN <= 255 && currObj < MAX_INPUTS
      modifies io, this`tx, this`currObj
      ensures Valid() && Core() == old(Core()).(currObj := old(currObj) + 1)
      ensures tx == old(tx) + SIG_LEN && io[..tx] == old(io[..tx]) + old(sigInput[currObj])
    {
      var sig := sigInput[currObj];
      forall i | 0 <= i < SIG_LEN { io[tx + i] := sig[i]; }
      currObj, tx := currObj + 1, tx + SIG_LEN;
    }

    /** case TXN_RET_SIGS: whole signatures while the response stays within 255 bytes. */
    method RetSigs() returns (thrown: nat)
      requires Valid() && txnState == TXN_RET_SIGS && Inv(View()) && tx == 0
      modifies io, this`currObj, this`tx, this`initialized
      ensures Valid() && tx <= 255
      ensures var r := StepReturn(old(View()));
        r.Throw? && thrown == r.code > 0 && Core() == r.p.(data := []) && io[..tx] == r.body
      ensures initialized == (old(initialized) && thrown != TXN_FINISHED)
    {
      hide Concat, View, Core, Sound, StepReturn;
      ghost var p := View();
      ViewSplits();
      ReturnStarts(p);
      assert io[..0] == [];
      while currObj != inNum
        invariant Valid() && p.currObj <= currObj <= inNum == p.inNum <= MAX_INPUTS && initialized == old(initialized)
        invariant Core() == p.(data := [], currObj := currObj) && sigInput[..] == p.slots
        invariant tx == SIG_LEN * (currObj - p.currObj) <= 255
        invariant io[..tx] == Concat(p.slots[p.currObj..currObj])
      {
        if tx + SIG_LEN > 255 {
          ReturnStep(p, currObj);
          return TXN_PARTIAL;
        }
        ConcatSnoc(p.slots, p.currObj, currObj + 1);
        PutSignature();
      }
      ReturnStep(p, currObj);
      Clear();
      thrown := TXN_FINISHED;
    }

    /** __txn_next_elem: 0 when nothing is thrown. */
    method TxnNextStep() returns (thrown: nat)
      requires Valid() && Inv(View()) && tx == 0 && !Step(sdk, View()).Undefined?
      modifies buffer, sigInput, io, this`offset, this`dataBuffer, this`dataLength, this`consumed, this`hash, this`inNum,
               this`outNum, this`txnState, this`currObj, this`innerHash, this`curOutput, this`outs, this`bip44Path, this`tx,
               this`initialized
      ensures Valid() && tx <= 255
      ensures thrown == 0 ==> Step(sdk, old(View())) == Next(View()) && old(txnState) < TXN_OUT
      ensures var r := Step(sdk, old(View())); thrown != 0 ==>
        && r.Throw? && r.code == thrown && Core() == r.p.(data := []) && io[..tx] == r.body
        && (old(txnState) <= TXN_OUT ==> View() == r.p)
      ensures old(txnState) <= TXN_OUT ==> tx == 0 && initialized == old(initialized)
      ensures old(txnState) > TXN_OUT ==> initialized == (old(initialized) && thrown != TXN_FINISHED)
    {
      hide Step, StepStartIn, StepIn, StepStartOut, StepOut, SignAll, View, Core, Inv;
      assert io[..0] == [];
      OffsetFits(View());
      StepBy(sdk, View());
      if txnState == TXN_START_IN {
        thrown := StartIn();
      } else if txnState == TXN_IN {
        thrown := In();
      } else if txnState == TXN_START_OUT {
        thrown := StartOut();
      } else if txnState == TXN_OUT {
        thrown := Out();
      } else {
        thrown := SignOrReturn();
      }
      ViewSplits();
    }

    /** case TXN_COMPUTE_SIGS falls through to the next case. */
    method SignOrReturn() returns (thrown: nat)
      requires Valid() && Inv(View()) && tx == 0 && txnState > TXN_OUT
      modifies sigInput, io, this`txnState, this`currObj, this`bip44Path, this`tx, this`initialized
      ensures Valid() && tx <= 255 && thrown != 0
      ensures var r := Step(sdk, old(View())); r.Throw? && r.code == thrown && Core() == r.p.(data := []) && io[..tx] == r.body
      ensures initialized == (old(initialized) && thrown != TXN_FINISHED)
    {
      hide StepReturn, SignAll, View, Core;
      if txnState == TXN_COMPUTE_SIGS {
        ComputeSigs();
      }
      thrown := RetSigs();
    }

    /** txn_next_elem: steps until something is thrown. */
    method TxnNextElem() returns (result: nat)
      requires Valid() && Inv(View()) && tx == 0 && Run(sdk, View()).code != UNDEFINED
      modifies buffer, sigInput, io, this`offset, this`dataBuffer, this`dataLength, this`consumed, this`hash, this`inNum,
               this`outNum, this`txnState, this`currObj, this`innerHash, this`curOutput, this`outs, this`bip44Path, this`tx,
               this`initialized
      ensures Valid() && tx <= 255
      ensures var r := Run(sdk, old(View()));
        && result == r.code && Core() == r.p.(data := []) && io[..tx] == r.body
        && (old(txnState) <= TXN_OUT ==> View() == r.p && tx == 0)
      ensures initialized == (old(initialized) && (old(txnState) > TXN_OUT ==> result != TXN_FINISHED))
    {
      hide Step, Inv;
      ghost var before := View();
      StepKnown(sdk, before);
      result := TxnNextStep();
      while result == 0
        invariant Valid() && tx <= 255
        invariant initialized == (old(initialized) && (old(txnState) > TXN_OUT ==> result != TXN_FINISHED))
        invariant result == 0 ==> Inv(View()) && tx == 0 && Run(sdk, View()) == Run(sdk, before) && old(txnState) < TXN_OUT && txnState <= TXN_OUT
        invariant result != 0 ==>
          var r := Run(sdk, before);
          && result == r.code && Core() == r.p.(data := []) && io[..tx] == r.body
          && (old(txnState) <= TXN_OUT ==> View() == r.p && tx == 0)
        decreases if result == 0 then 1 + |View().data| else 0
      {
        StepKnown(sdk, View());
        result := TxnNextStep();
      }
    }

    /** What the handler does first: note where the new data is. */
    method Accept(buf: nat, len: nat)
      requires Valid() && buf + len <= io.Length
      modifies this`dataBuffer, this`dataLength, this`tx
      ensures Valid() && tx == 0 && Core() == old(Core()) && View() == old(Core()).(data := old(io[buf..buf + len]))
    {
      dataBuffer, dataLength, tx := buf, len, 0;
    }

    /** The assignment after the inner hash has gone out; TXN_READY already has this number. */
    method StartSigning()
      requires Valid() && txnState == TXN_READY
      modifies this`txnState
      ensures Valid() && Core() == old(Core())
    {
      txnState := TXN_COMPUTE_SIGS;
    }

    method Clear()
      requires Valid()
      modifies this`initialized
      ensures Valid() && !initialized && Core() == old(Core())
    {
      initialized := false;
    }

    /** The reset in front of the first element. */
    method BeginSession()
      requires Valid()
      modifies this`hash, this`txnState, this`initialized, this`offset, this`consumed, this`outs
      ensures Valid() && initialized && View() == if old(initialized) then old(View()) else Begin(old(View()))
    {
      if !initialized {
        hash, txnState, initialized, offset := [], TXN_START_IN, true, 0;
        consumed, outs := [], [];
      }
    }
  }

  lemma ReadKeeps(p: Parser, size: nat)
    requires |p.carry| <= size <= |p.carry| + |p.data|
    ensures var q := Read(p, size); q.slots == p.slots && q.inNum == p.inNum && q.currObj == p.currObj && q.state == p.state
  {}

  lemma ReadKeepsOuts(p: Parser, size: nat)
    requires |p.carry| <= size <= |p.carry| + |p.data|
    ensures Read(p, size).outs == p.outs && Read(p, size).currObj == p.currObj
  {}

  lemma ReturnStarts(p: Parser)
    requires Inv(p) && p.state == TXN_RET_SIGS
    ensures p.currObj <= p.inNum <= MAX_INPUTS && Concat(p.slots[p.currObj..p.currObj]) == []
  {
    assert p.slots[p.currObj..p.currObj] == [];
  }

  /** A response that stops at slot `next`, either full or at the end. */
  lemma ReturnStep(p: Parser, next: byte)
    requires Inv(p) && p.state == TXN_RET_SIGS && p.currObj <= next <= p.inNum && next - p.currObj <= SIGS_PER_PAGE
    requires next < p.inNum ==> next == p.currObj + SIGS_PER_PAGE
    ensures StepReturn(p) == Throw(if next < p.inNum then TXN_PARTIAL else TXN_FINISHED, p.(currObj := next), Concat(p.slots[p.currObj..next]))
  {
    hide Concat;
  }

  // The steps, written field by field.

  lemma StartInStep(p: Parser)
    requires Inv(p) && p.state == TXN_START_IN
    ensures StepStartIn(p) ==
      if |p.carry| + |p.data| < 4 then Throw(TXN_PARTIAL, Save(p), [])
      else Next(Read(p, 4).(hashed := p.hashed + Elem(p, 4), inNum := U4LE(Elem(p, 4), 0), state := TXN_IN, currObj := 0))
  {
    hide Elem, Save, U4LE;
  }

  lemma InStep(p: Parser)
    requires Inv(p) && p.state == TXN_IN
    ensures StepIn(p) ==
      if |p.carry| + |p.data| < 36 then Throw(TXN_PARTIAL, Save(p), [])
      else if p.currObj >= MAX_INPUTS then Undefined
      else Next(Read(p, 36).(
        hashed := p.hashed + Elem(p, 36)[..32],
        slots := p.slots[p.currObj := PutInput(p.slots[p.currObj], Elem(p, 36))],
        currObj := p.currObj + 1,
        state := if p.currObj + 1 == p.inNum then TXN_START_OUT else TXN_IN))
  {
    hide Elem, Save, PutInput;
  }

  lemma StartOutStep(p: Parser)
    requires Inv(p) && p.state == TXN_START_OUT
    ensures StepStartOut(p) ==
      if |p.data| < 4 then Throw(TXN_PARTIAL, Save(p), [])
      else Next(Read(p, 4).(hashed := p.hashed + Elem(p, 4), outNum := U4LE(Elem(p, 4), 0), state := TXN_OUT, currObj := 0))
  {
    hide Elem, Save, U4LE;
  }

  lemma StepBy(c: Sdk, p: Parser)
    requires Inv(p)
    ensures p.state == TXN_START_IN ==> Step(c, p) == StepStartIn(p)
    ensures p.state == TXN_IN ==> Step(c, p) == StepIn(p)
    ensures p.state == TXN_START_OUT ==> Step(c, p) == StepStartOut(p)
    ensures p.state == TXN_OUT ==> Step(c, p) == StepOut(c, p)
  {
    hide StepStartIn, StepIn, StepStartOut, StepOut, StepReturn, SignAll;
  }

  lemma OffsetFits(p: Parser)
    requires Inv(p)
    ensures p.state <= TXN_RET_SIGS && (p.state <= TXN_OUT ==> |p.carry| < Size(p.state))
  {}

  /** One step of a run that does not end in undefined behaviour. */
  lemma StepKnown(c: Sdk, p: Parser)
    requires Inv(p) && Run(c, p).code != UNDEFINED
    ensures var r := Step(c, p);
      && !r.Undefined?
      && (r.Next? ==> Inv(r.p) && Run(c, r.p) == Run(c, p) && |r.p.data| < |p.data| && r.p.state <= TXN_OUT)
      && (r.Throw? ==> Run(c, p) == Stop(r.code, r.p, r.body) && r.code != 0)
  {
    hide U4LE, ReadOut, Elem, SignAll, Concat, PutInput;
  }
}
