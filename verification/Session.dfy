/** The signing session as the app keeps it: a transaction buffer filled in place
    and a few global variables (src/apdu/messages/sign_transaction.c,
    src/apdu/entry.c, src/apdu/global.c).  Every handler takes exactly the step of
    the state machine in SessionSpec. */
module Session {
  import opened Fields
  import opened TransactionSpec
  import opened TypedRows
  import opened Swap
  import opened SessionSpec
  import opened Parser

  datatype SignState = IDLE | WAITING_FOR_MORE | PENDING_REVIEW

  /** `parse_bip32_path` */
  method ParseBip32Path(path: seq<byte>, pathLength: nat) returns (ok: bool, parsed: seq<nat>)
    ensures ok <==> 1 <= pathLength <= 10 && |path| >= 4 * pathLength
    ensures ok ==> parsed == PathOf(path, pathLength) && IsRead(path, parsed)
  {
    parsed := [];
    if pathLength < 1 || pathLength > MAX_BIP32_PATH || |path| < 4 * pathLength {
      return false, parsed;
    }
    for i := 0 to pathLength
      invariant parsed == PathOf(path, i) && IsRead(path, parsed)
    {
      BigEndian4(path[4 * i..4 * i + 4]);
      parsed := parsed + [(path[4 * i] as nat) * 0x100_0000 + (path[4 * i + 1] as nat) * 0x1_0000
                          + (path[4 * i + 2] as nat) * 0x100 + path[4 * i + 3]];
    }
    ok := true;
  }

  lemma PhaseIsReplaced(config: Config, state: State, phase: Phase, upload: Upload, device: Device)
    ensures Complete(config, state.(phase := phase), upload, device) == Complete(config, state, upload, device)
  {
    hide ParseTx, AreTyped, Reviewed;
  }

  class SigningSession {
    const config: Config
    const rawTx: array<byte>
    var rawTxLength: nat
    var length: nat
    var hasData: bool
    var hasEmptyPubKey: bool
    var path: seq<nat>
    var curve: Curve
    var signState: SignState
    var lastIns: byte
    var allowBlind: bool
    var halted: bool

    /** The transaction lies behind room for the prefix; under review it is complete,
        prefixed, and leaves room for the suffix it may need. */
    ghost predicate Valid()
      reads this, rawTx
    {
      && IsConfig(config) && rawTx.Length == MAX_RAW_TX && PREFIX_LENGTH + length <= MAX_RAW_TX
      && (signState == IDLE ==> length == 0)
      && (signState == WAITING_FOR_MORE ==> hasData)
      && (signState == PENDING_REVIEW ==>
          && hasData && rawTxLength == PREFIX_LENGTH + length && rawTx[..PREFIX_LENGTH] == SignPrefix(hasEmptyPubKey)
          && (hasEmptyPubKey ==> rawTxLength + SUFFIX_LENGTH <= MAX_RAW_TX))
    }

    ghost function Content(): seq<byte>
      requires Valid()
      reads this, rawTx
    {
      rawTx[PREFIX_LENGTH..PREFIX_LENGTH + length]
    }

    ghost function CurrentUpload(): Upload
      requires Valid()
      reads this, rawTx
    {
      Upload(path, curve, Content())
    }

    /** The state of the state machine this session is in. */
    ghost function Abstract(): State
      requires Valid()
      reads this, rawTx
    {
      State(
        match signState
        case IDLE => Idle
        case WAITING_FOR_MORE => Receiving(CurrentUpload())
        case PENDING_REVIEW => Reviewing(CurrentUpload(), hasEmptyPubKey),
        lastIns, allowBlind, halted)
    }

    constructor (config: Config)
      requires IsConfig(config)
      ensures Valid() && fresh(rawTx) && this.config == config && Abstract() == START
    {
      this.config := config;
      rawTx := new byte[MAX_RAW_TX](_ => 0);
      rawTxLength, length, hasData, hasEmptyPubKey := 0, 0, false, false;
      path, curve, signState := [], Secp256k1, IDLE;
      lastIns, allowBlind, halted := 0, false, false;
    }

    /** `reset_transaction_context`: nothing of the transaction is left. */
    method ResetTransactionContext()
      requires IsConfig(config) && rawTx.Length == MAX_RAW_TX
      modifies this`rawTxLength, this`length, this`hasData, this`hasEmptyPubKey, this`path, this`curve,
          this`signState, rawTx
      ensures Valid() && Abstract() == State(Idle, lastIns, allowBlind, halted)
      ensures !hasData && !hasEmptyPubKey && length == 0 && path == []
          && forall i :: 0 <= i < MAX_RAW_TX ==> rawTx[i] == 0
    {
      forall i | 0 <= i < rawTx.Length {
        rawTx[i] := 0;
      }
      rawTxLength, length, hasData, hasEmptyPubKey := 0, 0, false, false;
      path, curve, signState := [], Secp256k1, IDLE;
    }

    /** `send_error` */
    method SendError(sw: nat) returns (reply: Reply)
      requires Valid()
      modifies this, rawTx
      ensures Valid() && Abstract() == old(Abstract()).(phase := Idle) && reply == Status(sw)
    {
      ResetTransactionContext();
      reply := Status(sw);
    }

    /** `memmove` into the transaction buffer. */
    method Copy(at: nat, bytes: seq<byte>)
      requires at + |bytes| <= rawTx.Length
      modifies rawTx
      ensures rawTx[..at] == old(rawTx[..at]) && rawTx[at..at + |bytes|] == bytes
      ensures rawTx[at + |bytes|..] == old(rawTx[at + |bytes|..])
    {
      forall i | 0 <= i < |bytes| {
        rawTx[at + i] := bytes[i];
      }
    }

    /** `sign_transaction` */
    method SignTransaction(works: bool) returns (reply: Reply)
      requires Valid() && !halted
      modifies this, rawTx
      ensures Valid() && (Abstract(), reply) == Sign(config, old(Abstract()), works)
    {
      reply := Silence;
      if signState != PENDING_REVIEW {
        ResetTransactionContext();
        return;
      }
      if works {
        ghost var upload, emptyKey := CurrentUpload(), hasEmptyPubKey;
        var message := FinishMessage();
        assert message == Message(config, upload, emptyKey);
        reply := Signed(message, path, curve);
      }
      ResetTransactionContext();
      if !works {
        halted := true;
      }
    }

    /** Puts the hash of the signer's key behind a transaction with an empty signing
        key; the whole buffer is then what gets signed. */
    method FinishMessage() returns (message: seq<byte>)
      requires Valid() && signState == PENDING_REVIEW
      modifies this`rawTxLength, rawTx
      ensures message == Message(config, old(CurrentUpload()), hasEmptyPubKey)
      ensures !hasEmptyPubKey ==> message == [0x53, 0x54, 0x58, 0x00] + old(Content())
      ensures hasEmptyPubKey ==>
        message == [0x53, 0x4D, 0x54, 0x00] + old(Content()) + config.keyHash(path, curve)
    {
      ghost var content, upload := Content(), CurrentUpload();
      var end := rawTxLength;
      assert rawTx[..end] == SignPrefix(hasEmptyPubKey) + content;
      if hasEmptyPubKey {
        Copy(end, config.keyHash(path, curve));
        rawTxLength := rawTxLength + SUFFIX_LENGTH;
        assert rawTx[..rawTxLength] == rawTx[..end] + rawTx[end..rawTxLength];
      } else {
        assert SignPrefix(false) + content + [] == SignPrefix(false) + content;
      }
      MessageInBytes(config, upload, hasEmptyPubKey);
      message := rawTx[..rawTxLength];
    }

    /** `reject_transaction` */
    method RejectTransaction() returns (reply: Reply)
      requires Valid() && !halted
      modifies this, rawTx
      ensures Valid() && (Abstract(), reply) == Refuse(config, old(Abstract()))
    {
      if signState != PENDING_REVIEW {
        ResetTransactionContext();
        return Silence;
      }
      reply := Status(SW_REJECTED);
      if config.swap {
        return;
      }
      ResetTransactionContext();
    }

    /** `review_transaction`: in a swap the app ends once it has answered. */
    method ReviewTransaction(context: ParseContext, blind: bool, device: Device) returns (reply: Reply)
      requires Valid() && !halted && signState == PENDING_REVIEW
      requires context.Valid() && AreTyped(context.input, context.Rows())
      modifies this, rawTx
      ensures Valid()
      ensures (Abstract(), reply)
           == Reviewed(config, old(Abstract()), context.input, old(context.Rows()), blind, device)
    {
      hide IsApproved, Message, SignPrefix;
      if config.swap {
        var accepted := CheckSwapConditions(config.sha256, context.input, context.fields, context.numFields,
            config.approval, device.hashes);
        if accepted {
          reply := SignTransaction(device.signs);
        } else {
          reply := RejectTransaction();
        }
        halted := true;
      } else if blind && !allowBlind {
        reply := RejectTransaction();
      } else {
        reply := UnderReview;
      }
    }

    /** Space for the prefix has been kept free in front of the transaction. */
    method SetPrefix()
      requires Valid() && hasData && rawTxLength == PREFIX_LENGTH + length
      requires hasEmptyPubKey ==> rawTxLength + SUFFIX_LENGTH <= MAX_RAW_TX
      modifies this`signState, rawTx
      ensures Valid() && signState == PENDING_REVIEW && Content() == old(Content())
    {
      ghost var content := Content();
      Copy(0, SignPrefix(hasEmptyPubKey));
      signState := PENDING_REVIEW;
      assert rawTx[PREFIX_LENGTH..] == old(rawTx[PREFIX_LENGTH..]);
      assert content == rawTx[PREFIX_LENGTH..][..length];
      assert Content() == content;
    }

    /** The last packet is in: `handle_packet_content` from the call of the parser on. */
    method FinishUpload(device: Device) returns (reply: Reply)
      requires Valid() && !halted && hasData && signState != PENDING_REVIEW
      modifies this, rawTx
      ensures Valid()
      ensures (Abstract(), reply) == Complete(config, old(Abstract()), old(CurrentUpload()), device)
    {
      hide ParseTx, AreTyped, Reviewed, SignPrefix;
      ghost var upload := CurrentUpload();
      rawTxLength := PREFIX_LENGTH + length;
      var context := new ParseContext(rawTx[PREFIX_LENGTH..rawTxLength]);
      assert context.input == upload.content;
      var exception := context.ParseTransaction();
      if exception != SUCCESS && exception != BLIND_SIGN_REQUIRED {
        reply := SendError(SW_PARSE_ERROR + exception);
        return;
      }
      hasEmptyPubKey := context.hasEmptyPubKey;
      if hasEmptyPubKey && rawTxLength + SUFFIX_LENGTH > MAX_RAW_TX {
        reply := SendError(SW_TOO_LONG);
        return;
      }
      SetPrefix();
      ReviewedRowsAreTyped(upload.content);
      reply := ReviewTransaction(context, exception == BLIND_SIGN_REQUIRED, device);
    }

    method AppendContent(data: seq<byte>)
      requires Valid() && hasData && PREFIX_LENGTH + length + |data| <= MAX_RAW_TX
      modifies this`length, this`signState, rawTx
      ensures Valid() && signState == WAITING_FOR_MORE && Content() == old(Content()) + data
    {
      Copy(PREFIX_LENGTH + length, data);
      length := length + |data|;
      signState := WAITING_FOR_MORE;
      assert Content() == old(Content()) + data by {
        assert rawTx[..PREFIX_LENGTH + old(length)] == old(rawTx[..PREFIX_LENGTH + length]);
        assert Content() == rawTx[..PREFIX_LENGTH + old(length)][PREFIX_LENGTH..]
                            + rawTx[PREFIX_LENGTH + old(length)..PREFIX_LENGTH + length];
        assert old(Content()) == old(rawTx[..PREFIX_LENGTH + length])[PREFIX_LENGTH..];
      }
    }

    /** `handle_packet_content` */
    method HandlePacketContent(apdu: Apdu, data: seq<byte>, device: Device) returns (reply: Reply)
      requires Valid() && !halted && hasData && signState != PENDING_REVIEW && |data| <= 255
      modifies this, rawTx
      ensures Valid()
      ensures (Abstract(), reply) == Receive(config, old(Abstract()), old(CurrentUpload()), apdu, data, device)
    {
      hide Complete;
      ghost var upload := CurrentUpload().(content := Content() + data);
      // A 16-bit sum; it never wraps.
      var totalLength := (PREFIX_LENGTH + length + |data|) % 0x1_0000;
      if totalLength > MAX_RAW_TX {
        reply := SendError(SW_TOO_LONG);
        return;
      }
      PhaseIsReplaced(config, old(Abstract()), Receiving(upload), upload, device);
      AppendContent(data);
      if HasMore(apdu.p1) {
        reply := Status(SW_OK);
      } else {
        reply := FinishUpload(device);
      }
    }

    /** Forgets the previous transaction and takes path and curve from the packet. */
    method OpenUpload(apdu: Apdu) returns (reply: Reply)
      requires Valid() && signState == IDLE && |apdu.data| >= 1
      modifies this`rawTxLength, this`length, this`hasData, this`hasEmptyPubKey, this`path, this`curve,
          this`signState, rawTx
      ensures Valid() && signState == IDLE
      ensures !HasPath(apdu.data) ==> reply == Status(SW_BAD_PATH)
      ensures HasPath(apdu.data) && !NamesCurve(apdu.p2) ==> reply == Status(SW_BAD_PARAMETERS)
      ensures HasPath(apdu.data) && NamesCurve(apdu.p2) ==>
        reply == Silence && hasData && CurrentUpload() == FirstUpload(apdu).(content := [])
    {
      hide PathOf;
      ResetTransactionContext();
      hasData := true;
      var pathLength: nat := apdu.data[0];
      var ok, parsed := ParseBip32Path(apdu.data[1..], pathLength);
      if !ok {
        return Status(SW_BAD_PATH);
      }
      path := parsed;
      if apdu.p2 / 64 % 2 == 0 && apdu.p2 / 128 == 0 {
        return Status(SW_BAD_PARAMETERS);
      }
      if apdu.p2 / 64 % 2 != 0 && apdu.p2 / 128 != 0 {
        return Status(SW_BAD_PARAMETERS);
      }
      curve := if apdu.p2 / 128 != 0 then Ed25519 else Secp256k1;
      reply := Silence;
    }

    /** `handle_first_packet` */
    method HandleFirstPacket(apdu: Apdu, device: Device) returns (reply: Reply)
      requires Valid() && !halted && signState == IDLE && |apdu.data| <= 255
      modifies this, rawTx
      ensures Valid() && (Abstract(), reply) == StepSign(config, old(Abstract()), apdu, device)
    {
      hide Receive, PathOf, CurveOf, NamesCurve;
      if !IsFirst(apdu.p1) {
        return Status(SW_BAD_STATE);
      }
      if |apdu.data| < 1 {
        return Status(SW_BAD_STATE);
      }
      reply := OpenUpload(apdu);
      if reply != Silence { return; }
      var pathLength: nat := apdu.data[0];
      reply := HandlePacketContent(apdu, apdu.data[1 + 4 * pathLength..], device);
    }

    /** `handle_sign` */
    method HandleSign(apdu: Apdu, device: Device) returns (reply: Reply)
      requires Valid() && !halted && |apdu.data| <= 255
      modifies this, rawTx
      ensures Valid() && (Abstract(), reply) == StepSign(config, old(Abstract()), apdu, device)
    {
      match signState {
        case IDLE =>
          reply := HandleFirstPacket(apdu, device);
        case WAITING_FOR_MORE =>
          if IsFirst(apdu.p1) {
            return Status(SW_BAD_STATE);
          }
          reply := HandlePacketContent(apdu, apdu.data, device);
        case PENDING_REVIEW =>
          reply := Status(SW_BAD_STATE);
      }
    }

    /** `handle_apdu` */
    method HandleApdu(apdu: Apdu, device: Device) returns (reply: Reply)
      requires Valid() && !halted && |apdu.data| <= 255
      modifies this, rawTx
      ensures Valid() && (Abstract(), reply) == StepPacket(config, old(Abstract()), apdu, device)
    {
      if apdu.cla != CLA {
        return Status(SW_BAD_CLASS);
      }
      if apdu.ins != lastIns {
        ResetTransactionContext();
      }
      lastIns := apdu.ins;
      if apdu.ins == INS_SIGN {
        reply := HandleSign(apdu, device);
      } else {
        reply := Elsewhere;
      }
    }

    /** Whatever comes next: a packet from the host or an answer of the user. */
    method Handle(event: Event) returns (reply: Reply)
      requires Valid() && IsEvent(event)
      modifies this, rawTx
      ensures Valid() && (Abstract(), reply) == Step(config, old(Abstract()), event)
    {
      if halted {
        return Silence;
      }
      match event {
        case Packet(apdu, device) =>
          reply := HandleApdu(apdu, device);
        case Truncated =>
          ResetTransactionContext();
          reply := BadLength;
        case Approve(works) =>
          reply := SignTransaction(works);
        case Reject =>
          reply := RejectTransaction();
        case AllowBlindSigning(allowed) =>
          allowBlind := allowed;
          reply := Silence;
      }
    }
  }
}
