/** What no sequence of packets and answers can bring the session to do. */
module SessionSafety {
  import opened Fields
  import opened TransactionSpec
  import opened Address
  import opened TypedRows
  import opened Swap
  import opened SessionSpec
  import opened SigningKey
  import Flags
  import Numerals

  // ---------- Uploads, told by packets and replies alone ----------

  /** The packet was taken in. */
  ghost predicate Accepted(config: Config, events: seq<Event>, k: nat)
    requires k < |events|
  {
    events[k].Packet? && (ReplyAt(config, events, k) in {Status(SW_OK), UnderReview}
        || ReplyAt(config, events, k).Signed?)
  }

  /** Packet `s` opens an upload for this path and curve. */
  ghost predicate Opens(config: Config, events: seq<Event>, s: nat, path: seq<nat>, curve: Curve)
    requires s < |events|
  {
    && Accepted(config, events, s)
    && var apdu := events[s].apdu;
       && IsFirst(apdu.p1) && HasPath(apdu.data) && NamesCurve(apdu.p2)
       && path == PathOf(apdu.data[1..], apdu.data[0]) && curve == CurveOf(apdu.p2)
  }

  /** The contents of the packets taken in from `s` up to `t`. */
  ghost function Contents(config: Config, events: seq<Event>, s: nat, t: nat): seq<byte>
    requires s < t <= |events| && events[s].Packet? && HasPath(events[s].apdu.data)
  {
    if t == s + 1 then events[s].apdu.data[1 + 4 * (events[s].apdu.data[0] as nat)..]
    else Contents(config, events, s, t - 1) + if Accepted(config, events, t - 1) then events[t - 1].apdu.data else []
  }

  /** The packets taken in from `s` up to `t` are one upload: the first one and its
      followers, with nothing that ended it in between. */
  ghost predicate Uploaded(config: Config, events: seq<Event>, s: nat, t: nat, upload: Upload) {
    && s < t <= |events|
    && Opens(config, events, s, upload.path, upload.curve)
    && upload.content == Contents(config, events, s, t)
    && (forall k :: s < k < t && Accepted(config, events, k) ==> !IsFirst(events[k].apdu.p1))
    && (forall k :: s < k < t ==> StateAt(config, events, k).phase.Receiving?)
  }

  /** Packet `e` is the last one of the upload, which parses and has room for what
      signing appends. */
  ghost predicate Completes(config: Config, events: seq<Event>, s: nat, e: nat, upload: Upload, emptyKey: bool) {
    && s <= e < |events| && Uploaded(config, events, s, e + 1, upload)
    && Accepted(config, events, e) && !HasMore(events[e].apdu.p1)
    && ParseTx(upload.content).Reviewable? && ParseTx(upload.content).emptyKey == emptyKey
    && |Message(config, upload, emptyKey)| <= MAX_RAW_TX
  }

  // ---------- Single steps ----------

  /** Nothing was taken in and nothing signed. */
  ghost predicate Quiet(reply: Reply) {
    reply != Status(SW_OK) && !reply.UnderReview? && !reply.Signed?
  }

  /** The packet opens an upload or goes on with the one in progress. */
  ghost predicate CanTake(state: State, apdu: Apdu) {
    if IsFirst(apdu.p1) then HasPath(apdu.data) && NamesCurve(apdu.p2) else state.phase.Receiving?
  }

  ghost function Taken(state: State, apdu: Apdu): Upload
    requires CanTake(state, apdu)
  {
    if IsFirst(apdu.p1) then FirstUpload(apdu)
    else state.phase.upload.(content := state.phase.upload.content + apdu.data)
  }

  /** The upload is complete and now under review, or signed for a swap. */
  ghost predicate Completed(config: Config, state: State, next: State, reply: Reply, upload: Upload) {
    && ParseTx(upload.content).Reviewable?
    && var outcome := ParseTx(upload.content);
       && |Message(config, upload, outcome.emptyKey)| <= MAX_RAW_TX
       && (if reply.UnderReview? then
             && next.phase == Reviewing(upload, outcome.emptyKey) && !next.halted
             && !config.swap && (outcome.blind ==> state.allowBlind)
           else
             && reply == Signed(Message(config, upload, outcome.emptyKey), upload.path, upload.curve)
             && config.swap && next.phase == Idle && next.halted && AreTyped(upload.content, outcome.rows)
             && IsApproved(config.sha256, upload.content, outcome.rows, config.approval))
  }

  /** The session did not get anywhere with this packet. */
  ghost predicate Unmoved(state: State, next: State, reply: Reply) {
    Quiet(reply) && (next.phase == state.phase || next.phase == Idle || (next.halted && next.phase.Reviewing?))
  }

  lemma MessageLength(config: Config, upload: Upload, emptyKey: bool)
    ensures |Message(config, upload, emptyKey)|
        == PREFIX_LENGTH + |upload.content| + if emptyKey then SUFFIX_LENGTH else 0
  {
  }

  lemma CompleteStep(config: Config, state: State, upload: Upload, device: Device)
    requires !state.halted && PREFIX_LENGTH + |upload.content| <= MAX_RAW_TX
    ensures var (next, reply) := Complete(config, state, upload, device);
      Unmoved(state, next, reply) || (!Quiet(reply) && reply != Status(SW_OK)
          && Completed(config, state, next, reply, upload))
  {
    hide ParseTx, IsApproved, AreTyped, Message;
    var outcome := ParseTx(upload.content);
    if outcome.Reviewable? {
      MessageLength(config, upload, outcome.emptyKey);
    }
  }

  lemma PacketStep(config: Config, state: State, apdu: Apdu, device: Device)
    requires !state.halted
    ensures var (next, reply) := StepPacket(config, state, apdu, device);
      || Unmoved(state, next, reply)
      || (CanTake(state, apdu) && HasMore(apdu.p1) && reply == Status(SW_OK)
          && next.phase == Receiving(Taken(state, apdu)) && PREFIX_LENGTH + |Taken(state, apdu).content| <= MAX_RAW_TX)
      || (CanTake(state, apdu) && !HasMore(apdu.p1) && !Quiet(reply) && reply != Status(SW_OK)
          && Completed(config, state, next, reply, Taken(state, apdu)))
  {
    hide Complete, Completed, HasPath, FirstContent, PathOf;
    var here := if apdu.ins != state.lastIns then state.(phase := Idle, lastIns := apdu.ins) else state;
    if CanTake(here, apdu) {
      var upload := Taken(here, apdu);
      assert upload == Taken(state, apdu);
      if IsFirst(apdu.p1) {
        assert [] + upload.content == upload.content;
      }
      if PREFIX_LENGTH + |upload.content| <= MAX_RAW_TX {
        CompleteStep(config, here, upload, device);
        OnlyTheSettingCounts(config, here, state, Complete(config, here, upload, device), upload);
      }
    }
  }

  lemma OnlyTheSettingCounts(config: Config, state: State, other: State, step: (State, Reply), upload: Upload)
    requires state.allowBlind == other.allowBlind
    ensures Completed(config, state, step.0, step.1, upload) == Completed(config, other, step.0, step.1, upload)
  {
  }

  lemma ReceivingStep(config: Config, state: State, event: Event)
    requires Step(config, state, event).0.phase.Receiving?
    ensures var (next, reply) := Step(config, state, event);
      || (next.phase == state.phase && Quiet(reply))
      || (event.Packet? && reply == Status(SW_OK) && CanTake(state, event.apdu) && HasMore(event.apdu.p1)
          && next.phase.upload == Taken(state, event.apdu)
          && PREFIX_LENGTH + |next.phase.upload.content| <= MAX_RAW_TX)
  {
    hide StepPacket, CanTake, Taken, IsApproved, AreTyped, Message, ParseTx;
    if event.Packet? && !state.halted {
      PacketStep(config, state, event.apdu, event.device);
    }
  }

  lemma ReviewingStep(config: Config, state: State, event: Event)
    requires Step(config, state, event).0.phase.Reviewing? && !Step(config, state, event).0.halted
    ensures var (next, reply) := Step(config, state, event);
      || (next.phase == state.phase && Quiet(reply))
      || (event.Packet? && reply.UnderReview? && CanTake(state, event.apdu) && !HasMore(event.apdu.p1)
          && Completed(config, state, next, reply, Taken(state, event.apdu)))
  {
    hide StepPacket, CanTake, Taken, IsApproved, AreTyped, Message, ParseTx;
    if event.Packet? {
      PacketStep(config, state, event.apdu, event.device);
    }
  }

  lemma SigningStep(config: Config, state: State, event: Event)
    requires Step(config, state, event).1.Signed?
    ensures var (next, reply) := Step(config, state, event);
      || (event.Approve? && !state.halted && state.phase.Reviewing? && next.phase == Idle
          && reply == Signed(Message(config, state.phase.upload, state.phase.emptyKey), state.phase.upload.path,
                             state.phase.upload.curve))
      || (event.Packet? && CanTake(state, event.apdu) && !HasMore(event.apdu.p1)
          && Completed(config, state, next, reply, Taken(state, event.apdu)))
  {
    hide StepPacket, CanTake, Taken, IsApproved, AreTyped, Message, ParseTx;
    if event.Packet? {
      PacketStep(config, state, event.apdu, event.device);
    }
  }

  // ---------- Uploads in a run ----------

  lemma UploadOpens(config: Config, events: seq<Event>, k: nat)
    requires k < |events| && Accepted(config, events, k) && IsFirst(events[k].apdu.p1)
    requires HasPath(events[k].apdu.data) && NamesCurve(events[k].apdu.p2)
    ensures Uploaded(config, events, k, k + 1, FirstUpload(events[k].apdu))
  {
    hide StateAt, Accepted, HasPath;
  }

  lemma UploadGoesOn(config: Config, events: seq<Event>, s: nat, k: nat, upload: Upload)
    requires k < |events| && Uploaded(config, events, s, k, upload) && StateAt(config, events, k).phase.Receiving?
    ensures !Accepted(config, events, k) ==> Uploaded(config, events, s, k + 1, upload)
    ensures Accepted(config, events, k) && !IsFirst(events[k].apdu.p1) ==>
      Uploaded(config, events, s, k + 1, upload.(content := upload.content + events[k].apdu.data))
  {
    hide StateAt, HasPath, Step;
    assert Contents(config, events, s, k + 1)
      == Contents(config, events, s, k) + if Accepted(config, events, k) then events[k].apdu.data else [];
    if !Accepted(config, events, k) {
      assert Contents(config, events, s, k + 1) == Contents(config, events, s, k);
    }
    hide Contents, Opens;
  }

  /** Whatever is being received at `k` came in as one upload. */
  lemma {:induction false} ReceivingIsUploaded(config: Config, events: seq<Event>, k: nat) returns (s: nat)
    requires k <= |events| && StateAt(config, events, k).phase.Receiving?
    ensures Uploaded(config, events, s, k, StateAt(config, events, k).phase.upload)
    ensures PREFIX_LENGTH + |StateAt(config, events, k).phase.upload.content| <= MAX_RAW_TX
    decreases k, 0
  {
    hide Uploaded, CanTake, Taken, Step;
    var before, event := StateAt(config, events, k - 1), events[k - 1];
    ReceivingStep(config, before, event);
    if event.Packet? && ReplyAt(config, events, k - 1) == Status(SW_OK) {
      s := TakenIsUploaded(config, events, k - 1);
    } else {
      s := ReceivingIsUploaded(config, events, k - 1);
      UploadGoesOn(config, events, s, k - 1, before.phase.upload);
    }
  }

  lemma {:induction false} TakenIsUploaded(config: Config, events: seq<Event>, k: nat) returns (s: nat)
    requires k < |events| && Accepted(config, events, k) && CanTake(StateAt(config, events, k), events[k].apdu)
    ensures s <= k && Uploaded(config, events, s, k + 1, Taken(StateAt(config, events, k), events[k].apdu))
    decreases k, 1
  {
    assert events[k].Packet?;
    hide Uploaded, Accepted, HasPath, FirstUpload;
    if IsFirst(events[k].apdu.p1) {
      s := k;
      UploadOpens(config, events, k);
    } else {
      s := ReceivingIsUploaded(config, events, k);
      UploadGoesOn(config, events, s, k, StateAt(config, events, k).phase.upload);
      UploadStartsBefore(config, events, s, k, StateAt(config, events, k).phase.upload);
    }
  }

  lemma UploadStartsBefore(config: Config, events: seq<Event>, s: nat, t: nat, upload: Upload)
    requires Uploaded(config, events, s, t, upload)
    ensures s < t <= |events|
  {
  }

  // ---------- Reviews and signatures in a run ----------

  /** A packet that completed its upload. */
  lemma CompletedIsUploaded(config: Config, events: seq<Event>, e: nat) returns (s: nat)
    requires e < |events| && Accepted(config, events, e) && CanTake(StateAt(config, events, e), events[e].apdu)
    requires !HasMore(events[e].apdu.p1)
    requires Completed(config, StateAt(config, events, e), StateAt(config, events, e + 1), ReplyAt(config, events, e),
                       Taken(StateAt(config, events, e), events[e].apdu))
    ensures var upload := Taken(StateAt(config, events, e), events[e].apdu);
      Completes(config, events, s, e, upload, ParseTx(upload.content).emptyKey)
  {
    hide Uploaded, Accepted, HasPath, Taken, CanTake, StateAt, ReplyAt, ParseTx, AreTyped, IsApproved, Message;
    s := TakenIsUploaded(config, events, e);
  }

  /** Whatever is under review at `k` was uploaded in one go and has been waiting since. */
  ghost predicate UnderReviewSince(config: Config, events: seq<Event>, k: nat, s: nat, e: nat, upload: Upload,
                                   emptyKey: bool) {
    && e < k <= |events| && Completes(config, events, s, e, upload, emptyKey)
    && ReplyAt(config, events, e).UnderReview? && !config.swap
    && (ParseTx(upload.content).blind ==> StateAt(config, events, e).allowBlind)
    && (forall j :: e < j < k ==> Quiet(ReplyAt(config, events, j)))
    && (forall j :: e < j <= k ==> StateAt(config, events, j).phase == Reviewing(upload, emptyKey))
  }

  lemma {:induction false} ReviewingIsCompleted(config: Config, events: seq<Event>, k: nat) returns (s: nat, e: nat)
    requires k <= |events| && StateAt(config, events, k).phase.Reviewing? && !StateAt(config, events, k).halted
    ensures var phase := StateAt(config, events, k).phase;
      UnderReviewSince(config, events, k, s, e, phase.upload, phase.emptyKey)
    decreases k
  {
    hide Step, Completes, CanTake, Taken, ParseTx, AreTyped, IsApproved, Message;
    var before, event := StateAt(config, events, k - 1), events[k - 1];
    ReviewingStep(config, before, event);
    if ReplyAt(config, events, k - 1).UnderReview? {
      e := k - 1;
      s := CompletedIsUploaded(config, events, e);
    } else {
      HaltedStays(config, before, event);
      s, e := ReviewingIsCompleted(config, events, k - 1);
    }
  }

  lemma HaltedStays(config: Config, state: State, event: Event)
    ensures state.halted ==> Step(config, state, event) == (state, Silence)
  {
  }

  /** The signature given at `i` covers this upload: reviewed on screen and approved
      at `i` with nothing happening in between, or accepted for a swap at once. */
  ghost predicate SignedFor(config: Config, events: seq<Event>, i: nat, s: nat, e: nat, upload: Upload,
                            emptyKey: bool) {
    && i < |events| && e <= i && Completes(config, events, s, e, upload, emptyKey)
    && ReplyAt(config, events, i) == Signed(Message(config, upload, emptyKey), upload.path, upload.curve)
    && (if config.swap then
          && i == e && AreTyped(upload.content, ParseTx(upload.content).rows)
          && IsApproved(config.sha256, upload.content, ParseTx(upload.content).rows, config.approval)
        else events[i].Approve? && UnderReviewSince(config, events, i, s, e, upload, emptyKey))
  }

  /** Every message that is ever signed is the prefix and the contents of one upload,
      the very bytes that were parsed for its review, for the path and curve that
      upload named.  The signer's key hash follows exactly if the parser, before it
      came to the end or stopped for blind signing, read an empty signing key that it
      took for a field outside of every array and object: one that is, or one that
      strays (Outermost.Strays). */
  lemma EverySignatureIsReviewed(config: Config, events: seq<Event>, i: nat)
    returns (s: nat, e: nat, upload: Upload, emptyKey: bool)
    requires i < |events| && ReplyAt(config, events, i).Signed?
    ensures SignedFor(config, events, i, s, e, upload, emptyKey)
    ensures var items := ParseLoop(upload.content).items;
      && (emptyKey <==> HasTakenKey(upload.content, items))
      && (emptyKey <==> HasOutermostKey(upload.content, items) || HasStrayKey(upload.content, items))
    ensures !emptyKey ==>
      ReplyAt(config, events, i) == Signed([0x53, 0x54, 0x58, 0x00] + upload.content, upload.path, upload.curve)
    ensures emptyKey ==>
      ReplyAt(config, events, i)
      == Signed([0x53, 0x4D, 0x54, 0x00] + upload.content + config.keyHash(upload.path, upload.curve),
                upload.path, upload.curve)
    ensures Names(events[s], upload.path, upload.curve)
  {
    hide Step, Completes, CanTake, Taken, ParseTx, ParseLoop, AreTyped, IsApproved, Message, UnderReviewSince,
         HasTakenKey, HasOutermostKey, HasStrayKey;
    var before := StateAt(config, events, i);
    SigningStep(config, before, events[i]);
    if events[i].Approve? {
      upload, emptyKey := before.phase.upload, before.phase.emptyKey;
      s, e := ReviewingIsCompleted(config, events, i);
      NoSwapReview(config, events, i, s, e, upload, emptyKey);
    } else {
      upload := Taken(before, events[i].apdu);
      emptyKey := ParseTx(upload.content).emptyKey;
      e := i;
      s := CompletedIsUploaded(config, events, i);
    }
    CompletesWithKey(config, events, s, e, upload, emptyKey);
    EmptyKeyIsAnItem(upload.content);
    MessageInBytes(config, upload, emptyKey);
    OpeningNames(config, events, s, e, upload, emptyKey);
  }

  /** The packet is a signing instruction that begins with this path, one byte for its
      length and four for each of its numbers, and asks for this curve. */
  ghost predicate Names(event: Event, path: seq<nat>, curve: Curve) {
    && event.Packet? && event.apdu.cla == 0xE0 && event.apdu.ins == 0x04 && event.apdu.p1 % 2 == 0
    && 1 <= |path| <= 10 && |event.apdu.data| >= 1 + 4 * |path| && event.apdu.data[0] == |path|
    && IsRead(event.apdu.data[1..], path)
    && (curve == Ed25519 <==> 128 <= event.apdu.p2 < 192) && (curve == Secp256k1 <==> 64 <= event.apdu.p2 < 128)
  }

  lemma OpeningNames(config: Config, events: seq<Event>, s: nat, e: nat, upload: Upload, emptyKey: bool)
    requires Completes(config, events, s, e, upload, emptyKey)
    ensures s < |events| && Names(events[s], upload.path, upload.curve)
  {
    hide ParseTx, Message, Contents, StateAt, ReplyAt;
    AcceptedIsSigning(config, events, s);
    PathIsRead(events[s].apdu.data[1..], events[s].apdu.data[0]);
    hide PathOf, IsRead;
  }

  lemma AcceptedIsSigning(config: Config, events: seq<Event>, k: nat)
    requires k < |events| && Accepted(config, events, k)
    ensures events[k].apdu.cla == 0xE0 && events[k].apdu.ins == 0x04
  {
    hide StepSign, StateAt;
  }

  lemma CompletesWithKey(config: Config, events: seq<Event>, s: nat, e: nat, upload: Upload, emptyKey: bool)
    requires Completes(config, events, s, e, upload, emptyKey)
    ensures ParseTx(upload.content).Reviewable? && ParseTx(upload.content).emptyKey == emptyKey
  {
    hide Uploaded, Accepted, ParseTx, Message;
  }

  lemma NoSwapReview(config: Config, events: seq<Event>, k: nat, s: nat, e: nat, upload: Upload, emptyKey: bool)
    requires UnderReviewSince(config, events, k, s, e, upload, emptyKey)
    ensures !config.swap && e < k && Completes(config, events, s, e, upload, emptyKey)
  {
    hide Completes;
  }

  /** The setting is what was last chosen, and off at the start. */
  lemma {:induction false} SettingWasChosen(config: Config, events: seq<Event>, k: nat) returns (j: nat)
    requires k <= |events| && StateAt(config, events, k).allowBlind
    ensures j < k && events[j] == AllowBlindSigning(true)
    ensures forall i :: j < i < k && events[i].AllowBlindSigning? ==>
      events[i].allowed || StateAt(config, events, i).halted
  {
    hide StepPacket, Sign, Refuse;
    var before, event := StateAt(config, events, k - 1), events[k - 1];
    StepKeepsSetting(config, before, event);
    if event == AllowBlindSigning(true) && !before.halted {
      j := k - 1;
    } else {
      j := SettingWasChosen(config, events, k - 1);
    }
  }

  lemma StepKeepsSetting(config: Config, state: State, event: Event)
    ensures Step(config, state, event).0.allowBlind
         == if event.AllowBlindSigning? && !state.halted then event.allowed else state.allowBlind
  {
    hide ParseTx, AreTyped, IsApproved, Message, FirstUpload;
  }

  /** Outside of a swap, what is signed although its review calls for a warning was
      uploaded after the user had allowed that, and had not taken it back. */
  lemma BlindNeedsPermission(config: Config, events: seq<Event>, i: nat, s: nat, e: nat, upload: Upload,
                             emptyKey: bool)
    returns (j: nat)
    requires SignedFor(config, events, i, s, e, upload, emptyKey) && !config.swap && ParseTx(upload.content).blind
    ensures j < e && events[j] == AllowBlindSigning(true)
    ensures forall k :: j < k < e && events[k].AllowBlindSigning? ==>
      events[k].allowed || StateAt(config, events, k).halted
  {
    hide Completes, ParseTx, StateAt, ReplyAt, Message;
    j := SettingWasChosen(config, events, e);
  }

  /** Right after a signature nothing is being received. */
  lemma SignatureEndsTheUpload(config: Config, events: seq<Event>, i: nat)
    requires i < |events|
    ensures ReplyAt(config, events, i).Signed? ==>
      StateAt(config, events, i + 1).phase == Idle
      && (config.swap ==> StateAt(config, events, i + 1).halted || events[i].Approve?)
  {
    hide Step, CanTake, Taken, ParseTx, AreTyped, IsApproved, Message;
    if ReplyAt(config, events, i).Signed? {
      SigningStep(config, StateAt(config, events, i), events[i]);
    }
  }

  lemma {:induction false} HaltedForGood(config: Config, events: seq<Event>, i: nat, k: nat)
    requires i <= k < |events| && StateAt(config, events, i).halted
    ensures StateAt(config, events, k).halted && ReplyAt(config, events, k) == Silence
    decreases k
  {
    hide Step;
    if i < k {
      HaltedForGood(config, events, i, k - 1);
      HaltedStays(config, StateAt(config, events, k - 1), events[k - 1]);
    }
    HaltedStays(config, StateAt(config, events, k), events[k]);
  }

  /** No upload is signed twice: what a later signature covers began to come in only
      after the earlier signature was given. */
  lemma EachUploadIsSignedOnce(config: Config, events: seq<Event>, i: nat, i': nat)
    returns (s': nat, e': nat, upload': Upload, emptyKey': bool)
    requires i < i' < |events| && ReplyAt(config, events, i).Signed? && ReplyAt(config, events, i').Signed?
    ensures SignedFor(config, events, i', s', e', upload', emptyKey') && i < s'
  {
    hide Step, ParseTx, AreTyped, IsApproved, Message, Contents, Opens, StateAt, ParseLoop, HasTakenKey,
         HasOutermostKey, HasStrayKey;
    s', e', upload', emptyKey' := EverySignatureIsReviewed(config, events, i');
    if config.swap {
      SignatureEndsTheUpload(config, events, i);
      var s, e, upload, emptyKey := EverySignatureIsReviewed(config, events, i);
      HaltedForGood(config, events, i + 1, i');
    } else {
      NothingSignedMeanwhile(config, events, i, i', s', e', upload', emptyKey');
    }
  }

  /** Nothing is signed while an upload comes in or waits for its approval. */
  lemma NothingSignedMeanwhile(config: Config, events: seq<Event>, i: nat, k: nat, s: nat, e: nat, upload: Upload,
                               emptyKey: bool)
    requires UnderReviewSince(config, events, k, s, e, upload, emptyKey) && i < k <= |events|
    ensures s <= i ==> !ReplyAt(config, events, i).Signed?
  {
    hide Step, ParseTx, AreTyped, IsApproved, Message, Contents, Opens, StateAt;
    SignatureEndsTheUpload(config, events, i);
    if s <= i < e {
      assert StateAt(config, events, i + 1).phase.Receiving?;
    }
  }

  /** What is signed for an exchange without a review on screen is of type Payment,
      read to its last byte, nothing a review would warn about, and shows six rows: an
      amount of the approved drops, the approved fee, and a destination that is the one
      account with the approved address among them.  That these rows are fields of the
      Payment itself is not checked (NestedSwaps.NestedSwapIsAccepted); when they are,
      OwnRows.SwapRowsAreOwn says. */
  lemma SwapSignatureIsTheApprovedPayment(config: Config, events: seq<Event>, i: nat)
    returns (s: nat, upload: Upload, emptyKey: bool, rows: seq<Field>)
    requires config.swap && i < |events| && ReplyAt(config, events, i).Signed?
    ensures SignedFor(config, events, i, s, i, upload, emptyKey)
    ensures ParseTx(upload.content) == Reviewable(false, rows, Flags.TRANSACTION_PAYMENT, emptyKey)
    ensures ParseLoop(upload.content).stop == AtEnd
    ensures AreTyped(upload.content, rows) && |rows| == 6
      && rows[3].data.Ptr? && rows[3].data.pos + 8 <= |upload.content|
      && rows[4].data.Ptr? && rows[4].data.pos + 8 <= |upload.content|
      && rows[5].data.Ptr? && rows[5].data.pos + ACCOUNT_SIZE <= |upload.content|
    ensures rows[0].dataType == 1 && rows[0].id == 2 && rows[0].data == U16(0)
    ensures rows[3].dataType == 6 && rows[3].id == 1
      && NumberAt(upload.content, rows[3].data.pos) == 0x4000_0000_0000_0000 + config.approval.amount
    ensures rows[4].dataType == 6 && rows[4].id == 8
      && NumberAt(upload.content, rows[4].data.pos) == 0x4000_0000_0000_0000 + config.approval.fee
    ensures rows[5].dataType == 8 && rows[5].id == 3
    ensures forall account: AccountBytes :: AddressText(config.sha256, 0, account) == config.approval.address ==>
      upload.content[rows[5].data.pos..rows[5].data.pos + ACCOUNT_SIZE] == account
  {
    var e;
    s, e, upload, emptyKey := EverySignatureIsReviewed(config, events, i);
    hide ParseTx, Message, Uploaded, Accepted, ReplyAt, StateAt, NumberAt, AddressText, Names, HasTakenKey,
         HasOutermostKey, HasStrayKey, IsTyped;
    var content := upload.content;
    rows := ParseTx(content).rows;
    SwapNeedsNoBlindSigning(config.sha256, content, config.approval);
    AcceptedSwapIsTheApprovedOne(config.sha256, content, rows, config.approval);
  }

  /** What ends an upload or a review: another instruction, a truncated packet, or
      the user's answer. */
  predicate Interrupts(event: Event) {
    match event
    case Packet(apdu, _) => apdu.cla == 0xE0 && apdu.ins != 0x04
    case AllowBlindSigning(_) => false
    case _ => true
  }

  lemma InterruptedStep(config: Config, state: State, event: Event)
    requires !state.halted && !config.swap && Interrupts(event)
    ensures Step(config, state, event).0.phase == Idle || (event.Packet? && state.lastIns != INS_SIGN)
  {
    hide Message;
  }

  /** While an upload comes in or waits, the last instruction is the signing one. */
  lemma {:induction false} SigningIsTheInstruction(config: Config, events: seq<Event>, k: nat)
    requires k <= |events| && StateAt(config, events, k).phase != Idle
    ensures StateAt(config, events, k).lastIns == INS_SIGN
    decreases k
  {
    hide StepSign, Sign, Refuse;
    var before, event := StateAt(config, events, k - 1), events[k - 1];
    if before.phase != Idle {
      SigningIsTheInstruction(config, events, k - 1);
    }
    StepKeepsInstruction(config, before, event);
  }

  lemma StepKeepsInstruction(config: Config, state: State, event: Event)
    ensures var next := Step(config, state, event).0;
      if !state.halted && event.Packet? && event.apdu.cla == CLA
      then next.lastIns == event.apdu.ins
           && (event.apdu.ins != INS_SIGN && state.lastIns != event.apdu.ins ==> next.phase == Idle)
      else next.lastIns == state.lastIns && (next.phase == state.phase || next.phase == Idle)
    ensures !state.halted && event.Packet? && event.apdu.cla == CLA && event.apdu.ins != INS_SIGN && state.phase == Idle
      ==> Step(config, state, event).0.phase == Idle
  {
    hide Message, ParseTx, AreTyped, IsApproved, FirstUpload, HasPath;
  }

  /** From the first packet of an upload to the approval that signs it nothing else
      comes between: no other instruction, no truncated packet, no other answer. */
  lemma NothingComesBetween(config: Config, events: seq<Event>, i: nat, s: nat, e: nat, upload: Upload, emptyKey: bool,
                            k: nat)
    requires SignedFor(config, events, i, s, e, upload, emptyKey) && !config.swap && s < k < i
    ensures !Interrupts(events[k])
  {
    hide Step, Completes, Contents, Opens, ParseTx, AreTyped, IsApproved, Message, Interrupts;
    WaitsOrReceives(config, events, i, s, e, upload, emptyKey, k);
    WaitsOrReceives(config, events, i, s, e, upload, emptyKey, k + 1);
    SigningIsTheInstruction(config, events, k);
    HaltedForever(config, events, k, i);
    if Interrupts(events[k]) {
      InterruptedStep(config, StateAt(config, events, k), events[k]);
    }
  }

  lemma HaltedForever(config: Config, events: seq<Event>, k: nat, i: nat)
    requires k <= i < |events|
    ensures ReplyAt(config, events, i) != Silence ==> !StateAt(config, events, k).halted
  {
    hide Step, ReplyAt, StateAt;
    if StateAt(config, events, k).halted {
      HaltedForGood(config, events, k, i);
    }
  }

  lemma WaitsOrReceives(config: Config, events: seq<Event>, i: nat, s: nat, e: nat, upload: Upload, emptyKey: bool,
                        k: nat)
    requires SignedFor(config, events, i, s, e, upload, emptyKey) && !config.swap && s < k <= i
    ensures StateAt(config, events, k).phase != Idle
  {
    hide Step, Contents, Opens, ParseTx, AreTyped, IsApproved, Message, StateAt;
  }

  /** An exchange gets at most one signature from a run of the app. */
  lemma SwapSignsOnce(config: Config, events: seq<Event>, i: nat, i': nat)
    requires config.swap && i < i' < |events| && ReplyAt(config, events, i).Signed?
    ensures !ReplyAt(config, events, i').Signed?
  {
    hide Step, Completes, Contents, Opens, ParseTx, AreTyped, IsApproved, Message;
    var s, e, upload, emptyKey := EverySignatureIsReviewed(config, events, i);
    SignatureEndsTheUpload(config, events, i);
    CompletingEventIsPacket(config, events, s, e, upload, emptyKey);
    HaltedForGood(config, events, i + 1, i');
  }

  lemma CompletingEventIsPacket(config: Config, events: seq<Event>, s: nat, e: nat, upload: Upload, emptyKey: bool)
    requires Completes(config, events, s, e, upload, emptyKey)
    ensures e < |events| && events[e].Packet?
  {
    hide Uploaded, ParseTx, Message;
  }
}
