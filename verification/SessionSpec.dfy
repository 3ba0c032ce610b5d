/** The signing session as a state machine over command packets and the user's
    answers (src/apdu/entry.c, src/apdu/messages/sign_transaction.c,
    src/transaction/transaction.c). */
module SessionSpec {
  import opened Fields
  import opened TransactionSpec
  import opened Address
  import opened TypedRows
  import opened Swap
  import Numerals

  const MAX_BIP32_PATH: nat := 10
  const PREFIX_LENGTH: nat := 4
  const SUFFIX_LENGTH: nat := 20

  const CLA: byte := 0xE0
  const INS_SIGN: byte := 0x04

  const SW_OK: nat := 0x9000
  const SW_REJECTED: nat := 0x6985
  const SW_TOO_LONG: nat := 0x6700
  const SW_BAD_STATE: nat := 0x6A80
  const SW_BAD_PATH: nat := 0x6A81
  const SW_BAD_PARAMETERS: nat := 0x6B00
  const SW_BAD_CLASS: nat := 0x6E00
  const SW_PARSE_ERROR: nat := 0x6800

  datatype Curve = Secp256k1 | Ed25519

  datatype Upload = Upload(path: seq<nat>, curve: Curve, content: seq<byte>)

  datatype Phase = Idle | Receiving(upload: Upload) | Reviewing(upload: Upload, emptyKey: bool)

  datatype State = State(phase: Phase, lastIns: byte, allowBlind: bool, halted: bool)

  const START := State(Idle, 0, false, false)

  /** What does not change while the app runs: whether an exchange called it, what the
      user approved there, and the device's digests. */
  datatype Config = Config(swap: bool, approval: Approval, sha256: seq<byte> -> Digest,
                           keyHash: (seq<nat>, Curve) -> AccountBytes)

  predicate IsConfig(config: Config) {
    config.approval.amount < Numerals.TWO_64 && config.approval.fee < Numerals.TWO_64
  }

  datatype Apdu = Apdu(cla: byte, ins: byte, p1: byte, p2: byte, data: seq<byte>)

  /** Whether the calls of the device's hash and signing functions succeed, should
      they be made. */
  datatype Device = Device(hashes: bool, signs: bool)

  datatype Event =
    | Packet(apdu: Apdu, device: Device)
    | Truncated
    | Approve(works: bool)
    | Reject
    | AllowBlindSigning(allowed: bool)

  datatype Reply =
    | Silence
    | Status(sw: nat)
    | BadLength
    | Elsewhere
    | UnderReview
    | Signed(message: seq<byte>, path: seq<nat>, curve: Curve)

  predicate IsEvent(event: Event) {
    event.Packet? ==> |event.apdu.data| <= 255
  }

  // ---------- Packets ----------

  predicate IsFirst(p1: byte) { p1 % 2 == 0 }

  predicate HasMore(p1: byte) { p1 / 128 == 1 }

  /** Exactly one of the two curve bits is set. */
  predicate NamesCurve(p2: byte) { p2 / 128 != p2 / 64 % 2 }

  function CurveOf(p2: byte): Curve { if p2 / 128 == 1 then Ed25519 else Secp256k1 }

  /** `length` 32-bit numbers, big-endian. */
  function PathOf(bytes: seq<byte>, length: nat): (path: seq<nat>)
    requires |bytes| >= 4 * length
    ensures |path| == length
  {
    seq(length, i requires 0 <= i < length => BigEndian(bytes[4 * i..4 * i + 4]))
  }

  /** The numbers stand in the bytes, four bytes each, the most significant first. */
  ghost predicate IsRead(bytes: seq<byte>, numbers: seq<nat>) {
    && |bytes| >= 4 * |numbers|
    && forall i :: 0 <= i < |numbers| ==>
         numbers[i] == (bytes[4 * i] as nat) * 0x100_0000 + (bytes[4 * i + 1] as nat) * 0x1_0000
                       + (bytes[4 * i + 2] as nat) * 0x100 + bytes[4 * i + 3]
  }

  /** So it is for the path that is taken, whatever stands behind it. */
  lemma PathIsRead(bytes: seq<byte>, length: nat)
    requires |bytes| >= 4 * length
    ensures IsRead(bytes, PathOf(bytes, length))
  {
    forall i | 0 <= i < length
      ensures PathOf(bytes, length)[i] == (bytes[4 * i] as nat) * 0x100_0000 + (bytes[4 * i + 1] as nat) * 0x1_0000
                                          + (bytes[4 * i + 2] as nat) * 0x100 + bytes[4 * i + 3]
    {
      BigEndian4(bytes[4 * i..4 * i + 4]);
    }
  }

  /** The first packet starts with the derivation path. */
  predicate HasPath(data: seq<byte>) {
    |data| >= 1 && 1 <= data[0] <= MAX_BIP32_PATH && |data| - 1 >= 4 * (data[0] as nat)
  }

  function FirstContent(data: seq<byte>): seq<byte>
    requires HasPath(data)
  {
    data[1 + 4 * (data[0] as nat)..]
  }

  function FirstUpload(apdu: Apdu): Upload
    requires HasPath(apdu.data)
  {
    Upload(PathOf(apdu.data[1..], apdu.data[0]), CurveOf(apdu.p2), FirstContent(apdu.data))
  }

  // ---------- Signing ----------

  function SignPrefix(emptyKey: bool): (prefix: seq<byte>)
    ensures |prefix| == PREFIX_LENGTH
  {
    if emptyKey then [0x53, 0x4D, 0x54, 0x00] else [0x53, 0x54, 0x58, 0x00]
  }

  /** What is signed: a prefix, the transaction, and for a multi-signature the signer. */
  function Message(config: Config, upload: Upload, emptyKey: bool): seq<byte> {
    SignPrefix(emptyKey) + upload.content + if emptyKey then config.keyHash(upload.path, upload.curve) else []
  }

  /** In bytes: STX and a zero in front of the transaction, or SMT and a zero, and then
      the hash of the signer's key behind it. */
  lemma MessageInBytes(config: Config, upload: Upload, emptyKey: bool)
    ensures !emptyKey ==> Message(config, upload, emptyKey) == [0x53, 0x54, 0x58, 0x00] + upload.content
    ensures emptyKey ==>
      Message(config, upload, emptyKey)
      == [0x53, 0x4D, 0x54, 0x00] + upload.content + config.keyHash(upload.path, upload.curve)
  {
    assert SignPrefix(false) + upload.content + [] == SignPrefix(false) + upload.content;
  }

  function Sign(config: Config, state: State, works: bool): (State, Reply) {
    match state.phase
    case Reviewing(upload, emptyKey) =>
      if works
      then (state.(phase := Idle), Signed(Message(config, upload, emptyKey), upload.path, upload.curve))
      else (state.(phase := Idle, halted := true), Silence)
    case _ => (state.(phase := Idle), Silence)
  }

  function Refuse(config: Config, state: State): (State, Reply) {
    if !state.phase.Reviewing? then (state.(phase := Idle), Silence)
    else if config.swap then (state, Status(SW_REJECTED))
    else (state.(phase := Idle), Status(SW_REJECTED))
  }

  function Halted(step: (State, Reply)): (State, Reply) {
    (step.0.(halted := true), step.1)
  }

  /** A transaction that parsed: shown, signed or refused, `state` being the state under review. */
  ghost function Reviewed(config: Config, state: State, content: seq<byte>, rows: seq<Field>, blind: bool,
                          device: Device): (State, Reply) {
    if config.swap then
      if device.hashes && AreTyped(content, rows) && IsApproved(config.sha256, content, rows, config.approval)
      then Halted(Sign(config, state, device.signs)) else Halted(Refuse(config, state))
    else if blind && !state.allowBlind then Refuse(config, state)
    else (state, UnderReview)
  }

  /** The last packet is in. */
  ghost function Complete(config: Config, state: State, upload: Upload, device: Device): (State, Reply) {
    match ParseTx(upload.content)
    case Failed(error) => (state.(phase := Idle), Status(SW_PARSE_ERROR + Code(error)))
    case Reviewable(blind, rows, _, emptyKey) =>
      if emptyKey && PREFIX_LENGTH + |upload.content| + SUFFIX_LENGTH > MAX_RAW_TX
      then (state.(phase := Idle), Status(SW_TOO_LONG))
      else Reviewed(config, state.(phase := Reviewing(upload, emptyKey)), upload.content, rows, blind, device)
  }

  /** More content for `upload`. */
  ghost function Receive(config: Config, state: State, upload: Upload, apdu: Apdu, data: seq<byte>,
                         device: Device): (State, Reply) {
    var longer := upload.(content := upload.content + data);
    if PREFIX_LENGTH + |longer.content| > MAX_RAW_TX then (state.(phase := Idle), Status(SW_TOO_LONG))
    else if HasMore(apdu.p1) then (state.(phase := Receiving(longer)), Status(SW_OK))
    else Complete(config, state, longer, device)
  }

  ghost function StepSign(config: Config, state: State, apdu: Apdu, device: Device): (State, Reply) {
    match state.phase
    case Idle =>
      if !IsFirst(apdu.p1) || |apdu.data| < 1 then (state, Status(SW_BAD_STATE))
      else if !HasPath(apdu.data) then (state, Status(SW_BAD_PATH))
      else if !NamesCurve(apdu.p2) then (state, Status(SW_BAD_PARAMETERS))
      else
        var upload := FirstUpload(apdu);
        Receive(config, state, upload.(content := []), apdu, upload.content, device)
    case Receiving(upload) =>
      if IsFirst(apdu.p1) then (state, Status(SW_BAD_STATE))
      else Receive(config, state, upload, apdu, apdu.data, device)
    case Reviewing(_, _) => (state, Status(SW_BAD_STATE))
  }

  /** A packet of another instruction ends whatever was going on. */
  ghost function StepPacket(config: Config, state: State, apdu: Apdu, device: Device): (State, Reply) {
    if apdu.cla != CLA then (state, Status(SW_BAD_CLASS))
    else
      var here := if apdu.ins != state.lastIns then state.(phase := Idle, lastIns := apdu.ins) else state;
      if apdu.ins == INS_SIGN then StepSign(config, here, apdu, device) else (here, Elsewhere)
  }

  ghost function Step(config: Config, state: State, event: Event): (State, Reply) {
    if state.halted then (state, Silence)
    else match event
      case Packet(apdu, device) => StepPacket(config, state, apdu, device)
      case Truncated => (state.(phase := Idle), BadLength)
      case Approve(works) => Sign(config, state, works)
      case Reject => Refuse(config, state)
      case AllowBlindSigning(allowed) => (state.(allowBlind := allowed), Silence)
  }

  // ---------- Runs ----------

  ghost function StateAt(config: Config, events: seq<Event>, k: nat): State
    requires k <= |events|
  {
    if k == 0 then START else Step(config, StateAt(config, events, k - 1), events[k - 1]).0
  }

  ghost function ReplyAt(config: Config, events: seq<Event>, k: nat): Reply
    requires k < |events|
  {
    Step(config, StateAt(config, events, k), events[k]).1
  }
}
