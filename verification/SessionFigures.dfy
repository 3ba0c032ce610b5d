/** What the session answers to a packet, in figures. */
module SessionFigures {
  import opened Fields
  import opened TransactionSpec
  import opened TypedRows
  import opened Swap
  import opened SessionSpec

  /** Nothing is in progress for this packet: another instruction resets the session. */
  predicate StartsAfresh(state: State, apdu: Apdu) {
    state.phase.Idle? || state.lastIns != apdu.ins
  }

  /** A path of one to ten numbers of four bytes each, its length in front. */
  predicate CarriesPath(data: seq<byte>) {
    |data| >= 1 && 1 <= data[0] <= 10 && |data| >= 1 + 4 * (data[0] as nat)
  }

  /** An even first parameter opens an upload, with a path and one of the two curve bits. */
  predicate OpensUpload(apdu: Apdu) {
    apdu.p1 % 2 == 0 && CarriesPath(apdu.data) && 64 <= apdu.p2 < 192
  }

  /** The transaction so far, with what the packet brings. */
  function ContentWith(state: State, apdu: Apdu): seq<byte>
    requires StartsAfresh(state, apdu) ==> OpensUpload(apdu)
  {
    if StartsAfresh(state, apdu) then apdu.data[1 + 4 * (apdu.data[0] as nat)..]
    else if state.phase.Receiving? then state.phase.upload.content + apdu.data
    else []
  }

  /** The packet brings content: it opens an upload or goes on with the one in progress. */
  predicate BringsContent(state: State, apdu: Apdu) {
    && apdu.cla == 0xE0 && apdu.ins == 0x04
    && if StartsAfresh(state, apdu) then OpensUpload(apdu) else state.phase.Receiving? && apdu.p1 % 2 == 1
  }

  /** The state in which the packet is taken: another instruction has reset it. */
  function Entered(state: State, apdu: Apdu): State {
    if state.lastIns != apdu.ins then state.(phase := Idle, lastIns := apdu.ins) else state
  }

  /** Packets that are refused as they are, and change nothing but for that reset. */
  lemma RefusedPackets(config: Config, state: State, apdu: Apdu, device: Device)
    requires !state.halted
    ensures var next := Step(config, state, Packet(apdu, device));
      && (apdu.cla != 0xE0 ==> next == (state, Status(0x6E00)))
      && (apdu.cla == 0xE0 && apdu.ins != 0x04 ==> next == (Entered(state, apdu), Elsewhere))
    ensures var next := Step(config, state, Packet(apdu, device));
      apdu.cla == 0xE0 && apdu.ins == 0x04 && StartsAfresh(state, apdu) ==>
        && (apdu.p1 % 2 == 1 || apdu.data == [] ==> next == (Entered(state, apdu), Status(0x6A80)))
        && (apdu.p1 % 2 == 0 && apdu.data != [] && !CarriesPath(apdu.data) ==>
            next == (Entered(state, apdu), Status(0x6A81)))
        && (apdu.p1 % 2 == 0 && CarriesPath(apdu.data) && !(64 <= apdu.p2 < 192) ==>
            next == (Entered(state, apdu), Status(0x6B00)))
    ensures var next := Step(config, state, Packet(apdu, device));
      apdu.cla == 0xE0 && apdu.ins == 0x04 && !StartsAfresh(state, apdu) && !BringsContent(state, apdu) ==>
        next == (state, Status(0x6A80))
  {
    hide Receive, FirstUpload;
  }

  /** Packets that bring content: too much of it, more to come, or the last one, which
      is answered by the error of the parser, by a refusal or by the review. */
  lemma AnsweredPackets(config: Config, state: State, apdu: Apdu, device: Device)
    requires !state.halted && BringsContent(state, apdu)
    ensures var (next, reply), content := Step(config, state, Packet(apdu, device)), ContentWith(state, apdu);
      && (|content| > 9996 ==> reply == Status(0x6700) && next == Entered(state, apdu).(phase := Idle))
      && (|content| <= 9996 && apdu.p1 >= 128 ==>
          reply == Status(0x9000) && next.phase.Receiving? && next.phase.upload.content == content)
      && (|content| <= 9996 && apdu.p1 < 128 ==> LastAnswer(config, state.allowBlind, content, device, next, reply))
  {
    hide Complete, PathOf, ParseTx, LastAnswer;
    var here := Entered(state, apdu);
    var upload := if StartsAfresh(state, apdu) then FirstUpload(apdu)
                  else state.phase.upload.(content := state.phase.upload.content + apdu.data);
    assert upload.content == ContentWith(state, apdu);
    assert [] + upload.content == upload.content;
    LastPacket(config, here, upload, device);
  }

  /** 0x6800 and the parser's code; 0x6700 without room for the key hash; 0x6985 for a
      blind transaction that is not allowed and for a swap that is not the approved one.
      Nothing is left of a transaction that is refused, and an app called for a swap ends. */
  ghost predicate LastAnswer(config: Config, allowBlind: bool, content: seq<byte>, device: Device, next: State,
                             reply: Reply) {
    match ParseTx(content)
    case Failed(error) =>
      && next.phase.Idle?
      && reply == Status(0x6800 + match error
                                  case Overflow => 3
                                  case NotSupported => 8
                                  case InvalidState => 9
                                  case NotEnoughSpace => 19)
    case Reviewable(blind, rows, _, emptyKey) =>
      if emptyKey && |content| > 9976 then next.phase.Idle? && reply == Status(0x6700)
      else if config.swap then
        && next.halted
        && if device.hashes && AreTyped(content, rows) && IsApproved(config.sha256, content, rows, config.approval)
           then next.phase.Idle? && (reply.Signed? <==> device.signs)
           else reply == Status(0x6985)
      else if blind && !allowBlind then next.phase.Idle? && reply == Status(0x6985)
      else next.phase.Reviewing? && next.phase.upload.content == content && reply == UnderReview
  }

  lemma LastPacket(config: Config, state: State, upload: Upload, device: Device)
    ensures var (next, reply) := Complete(config, state, upload, device);
      LastAnswer(config, state.allowBlind, upload.content, device, next, reply)
  {
    hide ParseTx, AreTyped, IsApproved, Message;
  }

  /** The user's answers: a signature or the end of the app, a refusal, or nothing to say. */
  lemma UserAnswers(config: Config, state: State, works: bool)
    requires !state.halted
    ensures state.phase.Reviewing? ==> (Step(config, state, Approve(works)).1.Signed? <==> works)
    ensures Step(config, state, Approve(works)).0.halted <==> state.phase.Reviewing? && !works
    ensures state.phase.Reviewing? ==> Step(config, state, Reject).1 == Status(0x6985)
    ensures !state.phase.Reviewing? ==>
      Step(config, state, Approve(works)).1 == Silence == Step(config, state, Reject).1
    ensures Step(config, state, Approve(works)).0.phase.Idle?
    ensures !config.swap ==> Step(config, state, Reject).0.phase.Idle?
    ensures Step(config, state, Truncated) == (state.(phase := Idle), BadLength)
  {
    hide Message;
  }
}
