/** The other direction: a transaction that needs no warning, sent in packets of any
    sizes and approved, is signed as it was sent. */
module HonestRun {
  import opened Fields
  import opened TransactionSpec
  import opened SessionSpec
  import opened Serializer
  import opened LeafRoundTrip
  import opened Numerals
  import opened Review
  import opened Address
  import opened TopLevel
  import opened OwnFields
  import opened NestedSwaps
  import opened Swap
  import opened TypedRows

  const WORKING := Device(true, true)

  /** The parameter byte: whether this is the first packet, whether more follow. */
  function P1(first: bool, more: bool): byte {
    (if first then 0 else 1) + if more then 128 else 0
  }

  function P2(curve: Curve): byte {
    if curve.Ed25519? then 128 else 64
  }

  /** Packet `k` of `chunks`; the first one carries the path in front. */
  function PacketFor(path: seq<byte>, curve: Curve, chunks: seq<seq<byte>>, k: nat): Event
    requires k < |chunks| && |path| % 4 == 0 && |path| <= 4 * MAX_BIP32_PATH
  {
    var data := if k == 0 then [|path| / 4] + path + chunks[0] else chunks[k];
    Packet(Apdu(0xE0, 0x04, P1(k == 0, k + 1 < |chunks|), P2(curve), data), WORKING)
  }

  /** All packets, then the user's approval. */
  function Sending(path: seq<byte>, curve: Curve, chunks: seq<seq<byte>>): (events: seq<Event>)
    requires |path| % 4 == 0 && |path| <= 4 * MAX_BIP32_PATH
    ensures |events| == |chunks| + 1
  {
    seq(|chunks|, k requires 0 <= k < |chunks| => PacketFor(path, curve, chunks, k)) + [Approve(true)]
  }

  function SentUpload(path: seq<byte>, curve: Curve, content: seq<byte>): Upload
    requires |path| % 4 == 0
  {
    Upload(PathOf(path, |path| / 4), curve, content)
  }

  // ---------- Packet by packet ----------

  lemma {:induction false} ConcatGrows(chunks: seq<seq<byte>>, k: nat)
    requires k <= |chunks|
    ensures |Concat(chunks[..k])| <= |Concat(chunks)| && Concat(chunks[..0]) == []
    ensures k < |chunks| ==> Concat(chunks[..k + 1]) == Concat(chunks[..k]) + chunks[k]
    decreases |chunks| - k
  {
    if k == |chunks| {
      assert chunks[..k] == chunks;
    } else {
      assert chunks[..k + 1][..k] == chunks[..k];
      ConcatGrows(chunks, k + 1);
    }
  }

  lemma FirstPacketIsTaken(path: seq<byte>, curve: Curve, chunks: seq<seq<byte>>)
    requires chunks != [] && |path| % 4 == 0 && 4 <= |path| <= 4 * MAX_BIP32_PATH
    ensures var apdu := PacketFor(path, curve, chunks, 0).apdu;
      && IsFirst(apdu.p1) && HasPath(apdu.data) && NamesCurve(apdu.p2) && HasMore(apdu.p1) == (1 < |chunks|)
      && FirstUpload(apdu) == SentUpload(path, curve, chunks[0])
  {
    var data := [|path| / 4] + path + chunks[0];
    var n: nat := data[0];
    assert n == |path| / 4 && 4 * n == |path|;
    assert data[1 + 4 * n..] == chunks[0];
    assert data[1..][..|path|] == path;
    forall i | 0 <= i < n ensures data[1..][4 * i..4 * i + 4] == path[4 * i..4 * i + 4] {
      assert data[1..][4 * i..4 * i + 4] == data[1..][..|path|][4 * i..4 * i + 4];
    }
    hide BigEndian;
    assert PathOf(data[1..], n) == PathOf(path, n);
  }

  lemma NextPacketIsTaken(path: seq<byte>, curve: Curve, chunks: seq<seq<byte>>, k: nat)
    requires 0 < k < |chunks| && |path| % 4 == 0 && |path| <= 4 * MAX_BIP32_PATH
    ensures var apdu := PacketFor(path, curve, chunks, k).apdu;
      !IsFirst(apdu.p1) && HasMore(apdu.p1) == (k + 1 < |chunks|) && apdu.data == chunks[k]
  {
  }

  /** What packet `k` is received into. */
  lemma PacketIsReceived(config: Config, path: seq<byte>, curve: Curve, chunks: seq<seq<byte>>, k: nat, state: State)
    requires k < |chunks| && |path| % 4 == 0 && 4 <= |path| <= 4 * MAX_BIP32_PATH && !state.halted
    requires if k == 0 then state.phase == Idle
             else state.phase == Receiving(SentUpload(path, curve, Concat(chunks[..k]))) && state.lastIns == INS_SIGN
    requires PREFIX_LENGTH + |Concat(chunks)| <= MAX_RAW_TX
    ensures var longer := SentUpload(path, curve, Concat(chunks[..k + 1]));
      var here := state.(lastIns := INS_SIGN);
      SessionSpec.Step(config, state, PacketFor(path, curve, chunks, k))
      == if k + 1 < |chunks| then (here.(phase := Receiving(longer)), Status(SW_OK)) else Complete(config, here,
          longer, WORKING)
  {
    hide Complete, Concat, HasPath, FirstUpload, SentUpload, NamesCurve, IsFirst, HasMore;
    ConcatGrows(chunks, k);
    ConcatGrows(chunks, k + 1);
    var apdu := PacketFor(path, curve, chunks, k).apdu;
    if k == 0 {
      FirstPacketIsTaken(path, curve, chunks);
      assert Concat(chunks[..1]) == chunks[0] by {
        ConcatGrows(chunks, 0);
        assert [] + chunks[0] == chunks[0];
      }
      SentContent(path, curve, chunks[0], []);
    } else {
      NextPacketIsTaken(path, curve, chunks, k);
      SentContent(path, curve, Concat(chunks[..k]), Concat(chunks[..k + 1]));
    }
  }

  lemma SentContent(path: seq<byte>, curve: Curve, content: seq<byte>, other: seq<byte>)
    requires |path| % 4 == 0
    ensures SentUpload(path, curve, content).content == content
    ensures SentUpload(path, curve, content).(content := other) == SentUpload(path, curve, other)
    ensures [] + content == content
  {
  }

  lemma {:induction false} SameStart(config: Config, before: seq<Event>, more: seq<Event>, k: nat)
    requires k <= |before|
    ensures StateAt(config, before + more, k) == StateAt(config, before, k)
    decreases k
  {
    hide SessionSpec.Step;
    if k > 0 {
      SameStart(config, before, more, k - 1);
      assert (before + more)[k - 1] == before[k - 1];
    }
  }

  /** Nothing is being received or reviewed, and the app runs. */
  ghost predicate IsReady(state: State) {
    state.phase == Idle && !state.halted
  }

  lemma {:induction false} ReceivedSoFar(config: Config, before: seq<Event>, path: seq<byte>, curve: Curve,
                                         chunks: seq<seq<byte>>, k: nat)
    requires 0 < k < |chunks| && |path| % 4 == 0 && 4 <= |path| <= 4 * MAX_BIP32_PATH
    requires PREFIX_LENGTH + |Concat(chunks)| <= MAX_RAW_TX && IsReady(StateAt(config, before, |before|))
    ensures StateAt(config, before + Sending(path, curve, chunks), |before| + k)
         == State(Receiving(SentUpload(path, curve, Concat(chunks[..k]))), INS_SIGN,
                  StateAt(config, before, |before|).allowBlind, false)
    decreases k
  {
    hide SessionSpec.Step, SentUpload, Concat, PacketFor;
    var events := before + Sending(path, curve, chunks);
    var here := |before| + (k - 1);
    if k > 1 {
      ReceivedSoFar(config, before, path, curve, chunks, k - 1);
    } else {
      SameStart(config, before, Sending(path, curve, chunks), |before|);
    }
    assert events[here] == PacketFor(path, curve, chunks, k - 1);
    PacketIsReceived(config, path, curve, chunks, k - 1, StateAt(config, events, here));
  }

  // ---------- The whole exchange ----------

  /** The same for the bytes of the path. */
  lemma UploadIsSigned(config: Config, before: seq<Event>, path: seq<byte>, curve: Curve, chunks: seq<seq<byte>>)
    requires chunks != [] && |path| % 4 == 0 && 4 <= |path| <= 4 * MAX_BIP32_PATH && !config.swap
    requires IsReady(StateAt(config, before, |before|)) && ParseTx(Concat(chunks)).Reviewable?
    requires ParseTx(Concat(chunks)).blind ==> StateAt(config, before, |before|).allowBlind
    requires |Message(config, SentUpload(path, curve, Concat(chunks)), ParseTx(Concat(chunks)).emptyKey)| <= MAX_RAW_TX
    ensures var upload := SentUpload(path, curve, Concat(chunks));
      ReplyAt(config, before + Sending(path, curve, chunks), |before| + |chunks|)
      == Signed(Message(config, upload, ParseTx(Concat(chunks)).emptyKey), upload.path, upload.curve)
  {
    hide ParseTx, Concat, SentUpload, PacketFor, PathOf, Complete, SessionSpec.Step, StateAt, Message;
    var events, last := before + Sending(path, curve, chunks), |chunks| - 1;
    var upload := SentUpload(path, curve, Concat(chunks));
    SentContent(path, curve, Concat(chunks), []);
    MessageIsLonger(config, upload, ParseTx(Concat(chunks)).emptyKey);
    var state := BeforeLast(config, before, path, curve, chunks);
    PacketIsReceived(config, path, curve, chunks, last, state);
    UploadIsReviewed(config, state.(lastIns := INS_SIGN), upload);
    NextState(config, events, |before| + last);
    NextState(config, events, |before| + |chunks|);
    ApprovalSigns(config, StateAt(config, events, |before| + |chunks|));
  }

  lemma MessageIsLonger(config: Config, upload: Upload, emptyKey: bool)
    ensures |Message(config, upload, emptyKey)| >= PREFIX_LENGTH + |upload.content|
  {
  }

  lemma NextState(config: Config, events: seq<Event>, k: nat)
    requires k < |events|
    ensures StateAt(config, events, k + 1) == SessionSpec.Step(config, StateAt(config, events, k), events[k]).0
    ensures ReplyAt(config, events, k) == SessionSpec.Step(config, StateAt(config, events, k), events[k]).1
  {
    hide SessionSpec.Step;
  }

  /** All packets but the last are in. */
  lemma BeforeLast(config: Config, before: seq<Event>, path: seq<byte>, curve: Curve, chunks: seq<seq<byte>>)
    returns (state: State)
    requires chunks != [] && |path| % 4 == 0 && 4 <= |path| <= 4 * MAX_BIP32_PATH
    requires PREFIX_LENGTH + |Concat(chunks)| <= MAX_RAW_TX && IsReady(StateAt(config, before, |before|))
    ensures var events, last := before + Sending(path, curve, chunks), |chunks| - 1;
      && state == StateAt(config, events, |before| + last) && !state.halted
      && state.allowBlind == StateAt(config, before, |before|).allowBlind
      && (if last == 0 then state.phase == Idle
          else state.phase == Receiving(SentUpload(path, curve, Concat(chunks[..last]))) && state.lastIns == INS_SIGN)
      && events[|before| + last] == PacketFor(path, curve, chunks, last)
      && events[|before| + |chunks|] == Approve(true) && chunks[..|chunks|] == chunks
  {
    hide Concat, SentUpload, PacketFor, StateAt;
    var last := |chunks| - 1;
    state := StateAt(config, before + Sending(path, curve, chunks), |before| + last);
    if last > 0 {
      ReceivedSoFar(config, before, path, curve, chunks, last);
    } else {
      SameStart(config, before, Sending(path, curve, chunks), |before|);
    }
  }

  lemma UploadIsReviewed(config: Config, state: State, upload: Upload)
    requires !config.swap && ParseTx(upload.content).Reviewable?
    requires ParseTx(upload.content).blind ==> state.allowBlind
    requires |Message(config, upload, ParseTx(upload.content).emptyKey)| <= MAX_RAW_TX
    ensures Complete(config, state, upload, WORKING)
         == (state.(phase := Reviewing(upload, ParseTx(upload.content).emptyKey)), UnderReview)
  {
    hide ParseTx;
  }

  lemma ApprovalSigns(config: Config, state: State)
    requires !state.halted && state.phase.Reviewing?
    ensures var upload := state.phase.upload;
      SessionSpec.Step(config, state, Approve(true)).1
      == Signed(Message(config, upload, state.phase.emptyKey), upload.path, upload.curve)
  {
    hide Message, StepPacket;
  }

  /** A derivation path: one to ten 32-bit numbers, hardened ones with the top bit set. */
  ghost predicate IsPath(numbers: seq<nat>) {
    1 <= |numbers| <= 10 && forall i :: 0 <= i < |numbers| ==> numbers[i] < 0x1_0000_0000
  }

  function PathBytes(numbers: seq<nat>): (bytes: seq<byte>)
    ensures |bytes| == 4 * |numbers|
  {
    if numbers == [] then []
    else PathBytes(numbers[..|numbers| - 1]) + EncodeNumber(numbers[|numbers| - 1], 4)
  }

  lemma {:induction false} NumberInPath(numbers: seq<nat>, rest: seq<byte>, i: nat)
    requires i < |numbers|
    ensures (PathBytes(numbers) + rest)[4 * i..4 * i + 4] == EncodeNumber(numbers[i], 4)
  {
    hide EncodeNumber;
    var last := |numbers| - 1;
    var init, tail := PathBytes(numbers[..last]), EncodeNumber(numbers[last], 4);
    assert PathBytes(numbers) + rest == init + (tail + rest);
    if i < last {
      NumberInPath(numbers[..last], tail + rest, i);
    }
  }

  lemma NumberReadsBack(n: nat)
    requires n < 0x1_0000_0000
    ensures BigEndian(EncodeNumber(n, 4)) == n
  {
    assert Pow(256, 4) == 0x1_0000_0000;
    hide EncodeNumber, BigEndian, Pow;
    NumberRoundTrip(n, 4);
  }

  lemma PathAt(bytes: seq<byte>, length: nat, i: nat)
    requires i < length && |bytes| >= 4 * length
    ensures PathOf(bytes, length)[i] == BigEndian(bytes[4 * i..4 * i + 4])
  {
    hide BigEndian;
  }

  /** The numbers of a path read back from their bytes, whatever stands behind them. */
  lemma PathReadsBack(numbers: seq<nat>, rest: seq<byte>)
    requires forall i :: 0 <= i < |numbers| ==> numbers[i] < 0x1_0000_0000
    ensures PathOf(PathBytes(numbers) + rest, |numbers|) == numbers
  {
    hide PathBytes, EncodeNumber, BigEndian, PathOf;
    var bytes := PathBytes(numbers) + rest;
    forall i | 0 <= i < |numbers| ensures PathOf(bytes, |numbers|)[i] == numbers[i] {
      PathAt(bytes, |numbers|, i);
      NumberInPath(numbers, rest, i);
      NumberReadsBack(numbers[i]);
    }
  }

  lemma PathIsSent(numbers: seq<nat>, curve: Curve, content: seq<byte>)
    requires IsPath(numbers)
    ensures |PathBytes(numbers)| % 4 == 0 && 4 <= |PathBytes(numbers)| <= 4 * MAX_BIP32_PATH
    ensures SentUpload(PathBytes(numbers), curve, content) == Upload(numbers, curve, content)
  {
    hide PathOf, PathBytes;
    PathReadsBack(numbers, []);
    assert PathBytes(numbers) + [] == PathBytes(numbers);
    WholeNumbers(|numbers|);
  }

  lemma WholeNumbers(count: nat)
    ensures 4 * count % 4 == 0 && 4 * count / 4 == count
  {
  }

  /** However a transaction is cut into packets, and whatever came before: if the app
      runs and nothing is going on, the transaction parses, there is room for four bytes
      in front and, with an empty signing key, 20 behind, and no warning stands against
      it that is not allowed for, then the approval yields the signature of the whole of
      it, for the very numbers of the path and the curve. */
  lemma ApprovedUploadIsSigned(config: Config, before: seq<Event>, numbers: seq<nat>, curve: Curve,
                               chunks: seq<seq<byte>>)
    requires chunks != [] && IsPath(numbers) && !config.swap && IsReady(StateAt(config, before, |before|))
    requires ParseTx(Concat(chunks)).Reviewable?
    requires ParseTx(Concat(chunks)).blind ==> StateAt(config, before, |before|).allowBlind
    requires |Concat(chunks)| + (if ParseTx(Concat(chunks)).emptyKey then 24 else 4) <= 10000
    ensures |PathBytes(numbers)| % 4 == 0 && |PathBytes(numbers)| <= 40
    ensures var reply :=
      ReplyAt(config, before + Sending(PathBytes(numbers), curve, chunks), |before| + |chunks|);
      && (!ParseTx(Concat(chunks)).emptyKey ==>
          reply == Signed([0x53, 0x54, 0x58, 0x00] + Concat(chunks), numbers, curve))
      && (ParseTx(Concat(chunks)).emptyKey ==>
          reply == Signed([0x53, 0x4D, 0x54, 0x00] + Concat(chunks) + config.keyHash(numbers, curve), numbers, curve))
  {
    PathIsSent(numbers, curve, Concat(chunks));
    var upload := Upload(numbers, curve, Concat(chunks));
    MessageInBytes(config, upload, ParseTx(Concat(chunks)).emptyKey);
    hide ParseTx, Concat, SentUpload, PathBytes, Sending, ReplyAt, StateAt, Message;
    UploadIsSigned(config, before, PathBytes(numbers), curve, chunks);
  }

  /** From fields to signature: a transaction that can be shown, with a warning only if
      that is allowed, is signed over its own serialization, packets and parser in
      between. */
  lemma TransactionIsSigned(config: Config, before: seq<Event>, numbers: seq<nat>, curve: Curve, nodes: seq<Node>,
                            chunks: seq<seq<byte>>)
    requires chunks != [] && IsPath(numbers) && !config.swap && IsReady(StateAt(config, before, |before|))
    requires AreNodes(nodes) && Concat(chunks) == Encode(nodes)
    requires ReviewOf(nodes).Shown? && (ReviewOf(nodes).blind ==> StateAt(config, before, |before|).allowBlind)
    requires |Encode(nodes)| + (if ReviewOf(nodes).emptyKey then 24 else 4) <= 10000
    ensures |PathBytes(numbers)| % 4 == 0 && |PathBytes(numbers)| <= 40
    ensures var reply :=
      ReplyAt(config, before + Sending(PathBytes(numbers), curve, chunks), |before| + |chunks|);
      && (!ReviewOf(nodes).emptyKey ==> reply == Signed([0x53, 0x54, 0x58, 0x00] + Encode(nodes), numbers, curve))
      && (ReviewOf(nodes).emptyKey ==>
          reply == Signed([0x53, 0x4D, 0x54, 0x00] + Encode(nodes) + config.keyHash(numbers, curve), numbers, curve))
  {
    hide ParseTx, ReviewOf, Encode, AreNodes, Concat, ReplyAt, Sending, StateAt, PathBytes;
    ParsingReviewsTheTransaction(nodes);
    ApprovedUploadIsSigned(config, before, numbers, curve, chunks);
  }

  /** What is accepted for a swap is signed: here a Payment with no tag, amount, fee
      or destination of its own, sent in one packet. */
  lemma NestedSwapIsSigned(config: Config, hidden: bool, numbers: seq<nat>, curve: Curve, account: AccountBytes,
                           destination: AccountBytes, amount: seq<byte>, fee: seq<byte>)
    requires config.swap && IsPath(numbers)
    requires IsDropsBytes(amount, config.approval.amount) && IsDropsBytes(fee, config.approval.fee)
    requires config.approval.destinationTag == "7"
    requires config.approval.address == AddressText(config.sha256, 0, destination)
    ensures var nodes := NestedSwap(hidden, account, destination, amount, fee);
      AreNodes(nodes) && !OnlyOwnRows(nodes)
    ensures |PathBytes(numbers)| % 4 == 0 && |PathBytes(numbers)| <= 40
    ensures var content := Encode(NestedSwap(hidden, account, destination, amount, fee));
      SessionSpec.Step(config, START, PacketFor(PathBytes(numbers), curve, [content], 0)).1
      == Signed([0x53, 0x54, 0x58, 0x00] + content, numbers, curve)
  {
    NestedSwapIsAccepted(hidden, config.sha256, account, destination, amount, fee, config.approval);
    NestedSwapLength(hidden, account, destination, amount, fee);
    hide ParseTx, Encode, NestedSwap, AreNodes, IsApproved, AreTyped, SentUpload, PacketFor, AddressText, IsDropsBytes,
         Message, SessionSpec.Step, OnlyOwnRows, AllRowsTopLevel, PathBytes;
    var content := Encode(NestedSwap(hidden, account, destination, amount, fee));
    PathIsSent(numbers, curve, content);
    MessageInBytes(config, Upload(numbers, curve, content), false);
    ApprovedPacketIsSigned(config, PathBytes(numbers), curve, content);
  }

  /** A transaction sent in one packet that the check for a swap accepts is signed. */
  lemma ApprovedPacketIsSigned(config: Config, path: seq<byte>, curve: Curve, content: seq<byte>)
    requires config.swap && |path| % 4 == 0 && 4 <= |path| <= 4 * MAX_BIP32_PATH
    requires PREFIX_LENGTH + |content| <= MAX_RAW_TX
    requires ParseTx(content).Reviewable? && !ParseTx(content).emptyKey
    requires AreTyped(content, ParseTx(content).rows)
    requires IsApproved(config.sha256, content, ParseTx(content).rows, config.approval)
    ensures var upload := SentUpload(path, curve, content);
      SessionSpec.Step(config, START, PacketFor(path, curve, [content], 0)).1
      == Signed(Message(config, upload, false), upload.path, upload.curve)
  {
    SentContent(path, curve, content, []);
    hide ParseTx, IsApproved, AreTyped, SentUpload, PacketFor, Message, Concat, PathOf, Complete, SessionSpec.Step;
    ApprovedIsSigned(config, START.(lastIns := INS_SIGN), SentUpload(path, curve, content));
    OneChunk(content);
    PacketIsReceived(config, path, curve, [content], 0, START);
    assert [content][..1] == [content];
  }

  /** A complete upload that the check for a swap accepts is signed. */
  lemma ApprovedIsSigned(config: Config, state: State, upload: Upload)
    requires config.swap && ParseTx(upload.content).Reviewable? && !ParseTx(upload.content).emptyKey
    requires AreTyped(upload.content, ParseTx(upload.content).rows)
    requires IsApproved(config.sha256, upload.content, ParseTx(upload.content).rows, config.approval)
    ensures Complete(config, state, upload, WORKING).1
         == Signed(Message(config, upload, false), upload.path, upload.curve)
  {
    hide ParseTx, IsApproved, AreTyped, Message;
  }

  lemma OneChunk(content: seq<byte>)
    ensures Concat([content]) == content
  {
    assert [content][..0] == [];
    assert [] + content == content;
  }
}
