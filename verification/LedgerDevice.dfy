// src/apdu_handlers.c and src/ui/newTransaction.c: the handler of the signing instruction and the
// button handler, working on one signer, the display texts and the shared I/O buffer.
module LedgerDevice {
  import opened Bytes
  import opened Transaction
  import opened Crypto
  import opened TxnStream
  import opened DeviceModel
  import opened DisplayText
  import opened TxnSigner
  import Addresses
  import Amount
  import Base58

  const OFFSET_CDATA := 5

  class Device {
    const signer: Signer
    const io: array<byte>              // G_io_apdu_buffer, the signer's as well
    // transactionContext_t
    var currentOutputDisplay: Text
    var outAddress: Text
    var amount: Text
    // the transport
    var awaiting: bool
    var replies: seq<seq<byte>>
    // history
    ghost var presses: nat
    ghost var unshown: bool

    ghost predicate Valid()
      reads this, signer
    {
      signer.Valid() && io == signer.io && (awaiting ==> signer.tx == 0)
    }

    /** The device as the outside sees it: without an APDU waiting there is no data to read. */
    ghost function State(): Dev
      requires signer.Valid()
      reads this, signer, io, signer.io, signer.buffer, signer.sigInput
    {
      Dev(signer.initialized, signer.Core().(data := if awaiting then signer.Pending() else []), awaiting,
          Display(currentOutputDisplay, outAddress, amount), replies, presses, unshown, false)
    }

    /** What holds between two events. */
    ghost predicate Consistent()
      reads this, signer, io, signer.io, signer.buffer, signer.sigInput
      ensures Consistent() ==> Valid() && Safe(State())
    {
      Valid() && Session(signer.sdk, State())
    }

    constructor (sdk: Sdk, path: Path)
      ensures Consistent() && signer.sdk == sdk && !awaiting && !signer.initialized && replies == []
      ensures signer.bip44Path == path
      ensures fresh(signer) && fresh(io) && fresh(signer.buffer) && fresh(signer.sigInput)
    {
      var buf := new byte[IO_APDU_BUFFER_SIZE](_ => 0);
      io := buf;
      signer := new Signer(sdk, path, buf);
      currentOutputDisplay, outAddress, amount, awaiting, replies := [], [], [], false, [];
      presses, unshown := 0, false;
    }

    method PrepareOutputApproval()
      requires signer.Valid()
      modifies this`currentOutputDisplay, this`outAddress, this`amount, this`unshown
      ensures State() == Prepare(signer.sdk, old(State()))
      ensures signer.outNum < 0x8000_0000 ==>
        DisplayReads(signer.sdk, Display(currentOutputDisplay, outAddress, amount), signer.curOutput, signer.currObj, signer.outNum)
    {
      hide Signer.Core, DisplayReads, ShownFor, Amount.Decimal, Amount.AmountText, Addresses.AddressText;
      FillTexts();
      unshown := false;
      ProgressText(signer.currObj, signer.outNum);
      if signer.outNum < 0x8000_0000 { ShownReads(signer.sdk, signer.curOutput, signer.currObj, signer.outNum); }
    }

    lemma ProgressText(k: byte, m: uint32)
      ensures ShownFor(signer.sdk, signer.curOutput, k, m) == Display(Amount.Decimal(k) + [SLASH] + Amount.Decimal(Amount.ToInt32(m)),
        Addresses.AddressText(signer.sdk, signer.curOutput.address), Amount.AmountText(signer.curOutput.coins))
    {}

    /** The three texts of the screen. */
    method FillTexts()
      requires signer.Valid()
      modifies this`currentOutputDisplay, this`outAddress, this`amount
      ensures currentOutputDisplay == Amount.Decimal(signer.currObj) + [SLASH] + Amount.Decimal(Amount.ToInt32(signer.outNum))
      ensures outAddress == Addresses.AddressText(signer.sdk, signer.curOutput.address)
      ensures amount == Amount.AmountText(signer.curOutput.coins)
    {
      hide Addresses.AddressText, Amount.AmountText, Amount.Decimal, Addresses.AddressReads;
      currentOutputDisplay := Amount.Decimal(signer.currObj) + [SLASH] + Amount.Decimal(Amount.ToInt32(signer.outNum));
      var address := new byte[Base58.ADDRESS_BASE58_LEN + 1](_ => 0);
      Addresses.AddressToBase58(signer.sdk, signer.curOutput.address, address);
      ghost var text := Addresses.AddressText(signer.sdk, signer.curOutput.address);
      assert 0 !in text by { NoNul(signer.sdk, signer.curOutput.address); }
      outAddress := CString(address, text);
      amount := Amount.PrepareAmount(signer.curOutput.coins);
    }

    /** Copying a C string: everything before the terminator. */
    static method CString(mem: array<byte>, ghost text: Text) returns (s: Text)
      requires |text| < mem.Length && mem[..|text| + 1] == text + [0] && 0 !in text
      ensures s == text
    {
      var n := 0;
      while mem[n] != 0
        invariant n <= |text|
        decreases |text| - n
      {
        assert mem[..|text| + 1][n] == (text + [0])[n];
        n := n + 1;
      }
      assert mem[n] == mem[..|text| + 1][n] == (text + [0])[n];
      s := mem[..n];
      assert s == mem[..|text| + 1][..n];
    }

    /** io_exchange_with_code: two status bytes behind the body, and the answer is sent. */
    method IoExchangeWithCode(code: nat, len: nat)
      requires signer.Valid() && io == signer.io && code < 0x1_0000 && len <= 255
      modifies io, this`awaiting, this`replies
      ensures State() == Answer(old(State()), code, old(io[..len]))
      ensures |replies| == |old(replies)| + 1
      ensures var r := replies[|replies| - 1]; |r| == len + 2 && r[..len] == old(io[..len]) && 256 * (r[len] as nat) + r[len + 1] == code
    {
      hide Signer.Core;
      io[len] := code / 256;
      io[len + 1] := code % 256;
      assert io[..len + 2] == old(io[..len]) + StatusWord(code);
      replies := replies + [io[..len + 2]];
      awaiting := false;
    }

    /** The switch of handleSignTxn over what txn_next_elem threw. */
    method SwitchApdu(result: nat, ghost r: Stop)
      requires signer.Valid() && io == signer.io && !awaiting && result == r.code != UNDEFINED && signer.tx <= 255
      requires signer.Core() == r.p.(data := []) && io[..signer.tx] == r.body
      requires result == TXN_OUT ==> signer.Pending() == r.p.data && signer.tx == 0
      modifies io, signer`initialized, this
      ensures Valid() && State() == AfterApdu(signer.sdk, old(State()), r)
    {
      hide StatusWord, ShownFor, Signer.Core;
      if result == TXN_OUT {
        PrepareOutputApproval();
        awaiting := true;
      } else if result == TXN_PARTIAL {
        IoExchangeWithCode(INS_RET_SUCCESS, signer.tx);
      } else if result == TXN_FINISHED {
        signer.Clear();
        IoExchangeWithCode(INS_RET_SUCCESS, signer.tx);
      } else {
        unshown := unshown || result == TXN_PARTIAL_OUT;
        IoExchangeWithCode(INS_RET_SUCCESS, signer.tx);
      }
    }

    method HandleSignTxn(p1: nat, buf: nat, len: nat)
      requires Consistent() && !awaiting && buf + len <= io.Length
      requires !OnApdu(signer.sdk, State(), p1, io[buf..buf + len]).stuck
      modifies this, signer, signer.buffer, signer.sigInput, io
      ensures Consistent()
      ensures State() == OnApdu(signer.sdk, old(State()), p1, old(io[buf..buf + len]))
    {
      hide Inv, Run, StatusWord, ShownFor, History, OnApdu, AfterApdu, Signer.Core, Signer.View, Session;
      ghost var before, data := State(), io[buf..buf + len];
      ghost var q := before.p.(data := data);
      ApduKeepsSession(signer.sdk, before, p1, data);
      ApduCases(signer.sdk, before, p1, data);
      signer.Accept(buf, len);
      signer.ViewSplits();
      if !signer.initialized && p1 == 0 {
        Wait();
      } else if signer.initialized && p1 == 1 {
        if signer.txnState < TXN_START_OUT || signer.txnState == TXN_RET_SIGS || signer.txnState == TXN_COMPUTE_SIGS {
          assert signer.View() == q;
          HandlerRun(signer.sdk, before, data);
          ReadOn(before, q);
        } else {
          Wait();
        }
      } else {
        Refuse();
      }
    }

    /** The screen is up, and the APDU waits for a press. */
    method Wait()
      requires Valid() && !awaiting && signer.tx == 0
      modifies this`awaiting
      ensures Valid() && State() == old(State()).(p := old(signer.View()), awaiting := true)
    {
      hide Signer.Core, Signer.View;
      signer.ViewSplits();
      awaiting := true;
    }

    method Refuse()
      requires Valid() && !awaiting
      modifies io, signer`initialized, this`awaiting, this`replies
      ensures Valid() && State() == Answer(old(State()).(initialized := false), RET_ERROR, [])
    {
      hide StatusWord, Signer.Core;
      signer.Clear();
      assert io[..0] == [];
      IoExchangeWithCode(RET_ERROR, 0);
    }


    /** The handler parses on at once. */
    method ReadOn(ghost before: Dev, ghost q: Parser)
      requires Valid() && !awaiting && signer.tx == 0 && signer.View() == q && Inv(q) && signer.initialized
      requires State() == before.(p := q.(data := []))
      requires Run(signer.sdk, q).code != UNDEFINED && (Run(signer.sdk, q).code == TXN_OUT ==> q.state <= TXN_OUT)
      modifies this, signer, signer.buffer, signer.sigInput, io
      ensures Valid() && State() == AfterApdu(signer.sdk, before, Run(signer.sdk, q))
    {
      hide Inv, Run, StatusWord, ShownFor, AfterApdu, Signer.Core, Signer.View;
      ghost var r := Run(signer.sdk, q);
      var result := signer.TxnNextElem();
      signer.ViewSplits();
      SameApdu(signer.sdk, before, State(), r);
      SwitchApdu(result, r);
    }

    /** case TXN_READY: the inner hash becomes the body of the answer. */
    method SendInnerHash()
      requires signer.Valid() && io == signer.io && signer.tx == 0
      modifies io, signer`tx, this`awaiting, this`replies
      ensures signer.Valid() && State() == Answer(old(State()), INS_RET_SUCCESS, old(signer.innerHash))
    {
      forall i | 0 <= i < 32 { io[i] := signer.innerHash[i]; }
      signer.tx := signer.tx + 32;
      assert io[..signer.tx] == signer.innerHash;
      label filled:
      IoExchangeWithCode(INS_RET_SUCCESS, signer.tx);
    }

    /** The switch of the button handler over what txn_next_elem threw. */
    method SwitchPress(result: nat, ghost r: Stop)
      requires Valid() && awaiting && result == r.code && UNDEFINED < result <= TXN_READY && signer.View() == r.p
      requires result == TXN_READY ==> signer.txnState == TXN_COMPUTE_SIGS
      modifies io, signer`tx, signer`txnState, this
      ensures Valid() && State() == AfterPress(signer.sdk, old(State()), r)
    {
      hide StatusWord, ShownFor, Signer.Core, Signer.View;
      assert io[..0] == [];
      signer.ViewSplits();
      if result == TXN_PARTIAL {
        IoExchangeWithCode(INS_RET_SUCCESS, signer.tx);
      } else if result == TXN_OUT {
        PrepareOutputApproval();
      } else if result == TXN_PARTIAL_OUT {
        PrepareOutputApproval();
        IoExchangeWithCode(INS_RET_SUCCESS, signer.tx);
      } else {
        SendInnerHash();
        signer.StartSigning();
      }
    }

    /** The right button, or both. */
    method RightButton()
      requires Consistent() && awaiting && !OnAccept(signer.sdk, State()).stuck
      modifies this, signer, signer.buffer, signer.sigInput, io
      ensures Consistent() && State() == OnAccept(signer.sdk, old(State()))
    {
      hide Inv, Run, StatusWord, ShownFor, History, AfterPress, Signer.Core, Signer.View, Session, Begun;
      ghost var before := State();
      AcceptKeepsSession(signer.sdk, before);
      Press(signer.sdk, before);
      BeginPress();
      PressOn(State());
    }

    /** The press parses on. */
    method PressOn(ghost begun: Dev)
      requires Valid() && awaiting && signer.tx == 0 && State() == begun && signer.View() == begun.p && Inv(begun.p)
      requires begun.p.state <= TXN_OUT
      requires var r := Run(signer.sdk, begun.p); UNDEFINED < r.code <= TXN_READY && (r.code == TXN_READY ==> r.p.state == TXN_COMPUTE_SIGS)
      modifies this, signer, signer.buffer, signer.sigInput, io
      ensures Valid() && State() == AfterPress(signer.sdk, begun, Run(signer.sdk, begun.p))
    {
      hide Inv, Run, StatusWord, ShownFor, AfterPress, Signer.Core, Signer.View;
      ghost var r := Run(signer.sdk, begun.p);
      var result := signer.TxnNextElem();
      signer.ViewSplits();
      SamePress(signer.sdk, begun, State().p, r);
      SwitchPress(result, r);
    }

    /** The first press of a session resets the parser. */
    method BeginPress()
      requires Valid() && awaiting
      modifies this`presses, this`unshown, signer`hash, signer`txnState, signer`initialized, signer`offset, signer`consumed, signer`outs
      ensures Valid() && awaiting && State() == Begun(old(State())).(presses := Begun(old(State())).presses + 1)
      ensures signer.View() == State().p && signer.txnState == State().p.state
    {
      hide Signer.Core, Signer.View, Begin;
      signer.ViewSplits();
      if !signer.initialized {
        presses, unshown := 0, false;
      }
      signer.BeginSession();
      presses := presses + 1;
      signer.ViewSplits();
    }

    /** The left button. */
    method LeftButton()
      requires Consistent() && awaiting
      modifies this, io
      ensures Consistent() && State() == OnCancel(old(State()))
    {
      hide Inv, StatusWord, ShownFor, History, Signer.Core, Session;
      CancelKeepsSession(signer.sdk, State());
      assert io[..0] == [];
      IoExchangeWithCode(RET_ERROR, 0);
    }

    /** transaction_screen_button: `accept` is the right button or both, otherwise the left one. */
    method TransactionScreenButton(accept: bool)
      requires Consistent() && awaiting
      requires accept ==> !OnAccept(signer.sdk, State()).stuck
      modifies this, signer, signer.buffer, signer.sigInput, io
      ensures Consistent()
      ensures State() == if accept then OnAccept(signer.sdk, old(State())) else OnCancel(old(State()))
    {
      if accept {
        RightButton();
      } else {
        LeftButton();
      }
    }
  }

  /** The branches of the handler. */
  lemma ApduCases(c: Sdk, d: Dev, p1: nat, data: seq<byte>)
    requires Session(c, d) && !d.awaiting
    ensures var q := d.p.(data := data); var atOnce := q.state < TXN_START_OUT || q.state == TXN_RET_SIGS || q.state == TXN_COMPUTE_SIGS;
      if d.initialized && p1 == 1 && atOnce then Inv(q) && OnApdu(c, d, p1, data) == AfterApdu(c, d, Run(c, q))
      else if d.initialized == (p1 == 1) && p1 <= 1 then OnApdu(c, d, p1, data) == d.(p := q, awaiting := true)
      else OnApdu(c, d, p1, data) == Answer(d.(initialized := false), RET_ERROR, [])
  {
    hide AfterApdu, Run, StatusWord, ShownFor, Inv;
    DataKeeps(d.p, data);
  }

  /** What the run behind an APDU can be. */
  lemma HandlerRun(c: Sdk, d: Dev, data: seq<byte>)
    requires Session(c, d) && !d.awaiting && !OnApdu(c, d, 1, data).stuck
    requires d.initialized && (d.p.state < TXN_START_OUT || d.p.state > TXN_OUT)
    ensures var q := d.p.(data := data);
      Inv(q) && Run(c, q).code != UNDEFINED && (Run(c, q).code == TXN_OUT ==> q.state <= TXN_OUT)
  {
    hide Run, ShownFor, Inv;
    DataKeeps(d.p, data);
    RunOutputs(c, d.p.(data := data));
  }

  /** The switches overwrite the parser state. */
  lemma SameApdu(c: Sdk, d: Dev, e: Dev, r: Stop)
    requires e == d.(p := e.p, initialized := e.initialized) && r.code != UNDEFINED
    requires r.code != TXN_FINISHED ==> e.initialized == d.initialized
    ensures AfterApdu(c, d, r) == AfterApdu(c, e, r)
  {
    hide ShownFor, StatusWord;
  }

  lemma SamePress(c: Sdk, d: Dev, p: Parser, r: Stop)
    requires r.code != UNDEFINED
    ensures AfterPress(c, d, r) == AfterPress(c, d.(p := p), r)
  {
    hide ShownFor, StatusWord;
  }

  lemma NoNul(c: Sdk, a: Address)
    ensures 0 !in Addresses.AddressText(c, a)
  {
    Base58.NoTerminator(Addresses.Checked(c, a));
  }

  /** What the run behind a press can be. */
  lemma Press(c: Sdk, d: Dev)
    requires Session(c, d) && d.awaiting && !OnAccept(c, d).stuck
    ensures var p := Begun(d).p; var r := Run(c, p);
      && Inv(p) && p.state <= TXN_OUT && r.code != UNDEFINED && r.body == []
      && r.code <= TXN_READY && (r.code == TXN_READY ==> r.p.state == TXN_COMPUTE_SIGS)
  {
    hide Run, ShownFor;
    RunOutputs(c, Begun(d).p);
  }
}
