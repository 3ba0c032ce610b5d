/** What the empty-key bit says, which decides whether a signature covers the
    signer's key hash. */
module SigningKey {
  import opened Fields
  import opened TransactionSpec
  import opened Conservation
  import opened Nesting
  import opened Outermost
  import opened Serializer
  import opened LeafRoundTrip
  import opened Review
  import opened TopLevel
  import Currency

  /** A SigningPubKey of length 0. */
  ghost predicate IsEmptyKeyItem(input: seq<byte>, item: Item) {
    && item.before.currentArray != ARRAY_PATHSET
    && var header := Header(input, item.start);
       && header.Ok? && header.value.0 == STI_VL && header.value.1 == VL_SIGNING_PUB_KEY
       && var length := VlLength(input, header.value.2);
          length.Ok? && length.value.0 == 0
  }

  /** One that the parser takes for a field outside of every array and object. */
  ghost predicate HasTakenKey(input: seq<byte>, items: seq<Item>) {
    exists k :: 0 <= k < |items| && IsEmptyKeyItem(input, items[k]) && IsTaken(items, k)
  }

  /** One that is outside of every array and object. */
  ghost predicate HasOutermostKey(input: seq<byte>, items: seq<Item>) {
    exists k :: 0 <= k < |items| && IsEmptyKeyItem(input, items[k]) && IsOutermost(input, items, k)
  }

  /** One that strays: it stands inside something, but not so by the parser's marks. */
  ghost predicate HasStrayKey(input: seq<byte>, items: seq<Item>) {
    exists k :: 0 <= k < |items| && IsEmptyKeyItem(input, items[k]) && Strays(input, items, k)
  }

  lemma FieldValueKey(input: seq<byte>, offset: nat, row: Field, frame: Frame, used: nat)
    requires used <= MAX_FIELD_COUNT && FieldValue(input, offset, row, frame, used).Ok?
    ensures var value := FieldValue(input, offset, row, frame, used).value;
      && value.frame.emptyKey == frame.emptyKey && value.row.dataType == row.dataType && value.row.id == row.id
      && (row.dataType == STI_VL ==>
          && VlLength(input, offset).Ok? && value.row.length == VlLength(input, offset).value.0
          && value.row.arrayInfo == row.arrayInfo && value.frame == frame)
  {
    hide VlLength, Currency.IsValid, Currency.IsNonStandard, Currency.AllZeros, BigEndian;
  }

  lemma ItemKey(input: seq<byte>, offset: nat, frame: Frame, used: nat)
    requires used <= MAX_FIELD_COUNT && ParseItem(input, offset, frame, used).Parsed?
    ensures var item := ParseItem(input, offset, frame, used).item;
      item.after.emptyKey
      <==> frame.emptyKey || (IsEmptyKeyItem(input, item) && frame.currentArray == ARRAY_NONE && frame.depth == 0)
  {
    hide IsHidden, FieldValue, Header, VlLength;
    if frame.currentArray != ARRAY_PATHSET {
      var header := Header(input, offset).value;
      FieldValueKey(input, header.2, Slot(frame).(dataType := header.0, id := header.1), frame, used + 1);
    }
  }

  lemma {:induction false} RunKey(input: seq<byte>, k: nat)
    requires k <= |ParseLoop(input).items|
    ensures var items := ParseLoop(input).items;
      FrameAt(items, k).emptyKey <==> exists i :: 0 <= i < k && IsEmptyKeyItem(input, items[i]) && IsTaken(items, i)
  {
    hide ParseItem, ParseItems, IsEmptyKeyItem;
    if k > 0 {
      var items := ParseLoop(input).items;
      RunKey(input, k - 1);
      var taken := ItemAt(input, 0, INITIAL_FRAME, 0, k - 1);
      ItemKey(input, items[k - 1].start, items[k - 1].before, taken);
    }
  }

  /** For all bytes: the bit is set exactly if one of the items read before the parser
      stopped is an empty signing key that is taken for outermost: one that is, or one
      that strays. */
  lemma EmptyKeyIsAnItem(input: seq<byte>)
    ensures var run := ParseLoop(input);
      && (run.frame.emptyKey <==> HasTakenKey(input, run.items))
      && (run.frame.emptyKey <==> HasOutermostKey(input, run.items) || HasStrayKey(input, run.items))
    ensures ParseTx(input).Reviewable? ==> ParseTx(input).emptyKey == ParseLoop(input).frame.emptyKey
  {
    hide ParseItems, RowsOf, HasField, IsEmptyKeyItem, IsTaken, IsOutermost, Strays, FrameOf, NestAt;
    var run := ParseLoop(input);
    RunEnds(input, 0, INITIAL_FRAME, 0);
    RunKey(input, |run.items|);
    assert run.items[..|run.items|] == run.items;
    hide ParseLoop, ParseTx;
    forall k | 0 <= k < |run.items|
      ensures IsTaken(run.items, k) <==> IsOutermost(input, run.items, k) || Strays(input, run.items, k)
    {
      TakenIsOutermostOrStrays(input, k);
    }
  }

  /** Exactly when the bit tells whether an outermost empty signing key was read: unless
      one strays and there is no outermost one. */
  lemma KeyBitIsTrue(input: seq<byte>)
    ensures var run := ParseLoop(input);
      (run.frame.emptyKey <==> HasOutermostKey(input, run.items))
      <==> (HasStrayKey(input, run.items) ==> HasOutermostKey(input, run.items))
  {
    hide ParseLoop, ParseTx, HasTakenKey, HasOutermostKey, HasStrayKey;
    EmptyKeyIsAnItem(input);
  }

  // ---------- A key in a forgotten array ----------

  /** Array 9 with an empty array 3 and an empty signing key in it: the key sets the
      bit, although it stands in an open array. */
  lemma KeyInArrayIsTaken()
    ensures var input: seq<byte> := [0xF9, 0xF3, 0xF1, 0x73, 0x00, 0xF1];
      var run := ParseLoop(input);
      && run.stop == AtEnd && run.frame.emptyKey && |run.items| == 5
      && IsEmptyKeyItem(input, run.items[3]) && NestAt(input, run.items, 3) == Nest(0, [9])
      && !HasOutermostKey(input, run.items)
  {
    hide ParseItem, ParseItems, MarkerOf;
    var input: seq<byte> := [0xF9, 0xF3, 0xF1, 0x73, 0x00, 0xF1];
    var f1 := INITIAL_FRAME.(currentArray := 9);
    var f2 := INITIAL_FRAME.(currentArray := 3);
    var f4 := INITIAL_FRAME.(emptyKey := true);
    var items := [Item(0, 1, INITIAL_FRAME, f1, []), Item(1, 2, f1, f2, []), Item(2, 3, f2, INITIAL_FRAME, []),
                  Item(3, 5, INITIAL_FRAME, f4, []), Item(5, 6, f4, f4, [])];
    MarkerStep(input, 0, INITIAL_FRAME);
    MarkerStep(input, 1, f1);
    MarkerStep(input, 2, f2);
    KeyStep(input);
    MarkerStep(input, 5, f4);
    ParseItemsStep(input, 0, INITIAL_FRAME, 0);
    ParseItemsStep(input, 1, f1, 0);
    ParseItemsStep(input, 2, f2, 0);
    ParseItemsStep(input, 3, INITIAL_FRAME, 0);
    ParseItemsStep(input, 5, f4, 0);
    ParseItemsStep(input, 6, f4, 0);
    assert ParseLoop(input) == Loop(items, f4, AtEnd);
    FiveMarkers(input, items);
  }

  lemma KeyStep(input: seq<byte>)
    requires input == [0xF9, 0xF3, 0xF1, 0x73, 0x00, 0xF1]
    ensures ParseItem(input, 3, INITIAL_FRAME, 0)
         == Parsed(Item(3, 5, INITIAL_FRAME, INITIAL_FRAME.(emptyKey := true), []))
  {
    assert Header(input, 3) == Ok((STI_VL, VL_SIGNING_PUB_KEY, 4));
    assert VlLength(input, 4) == Ok((0, 5));
    hide Header, VlLength;
  }

  lemma FiveMarkers(input: seq<byte>, items: seq<Item>)
    requires input == [0xF9, 0xF3, 0xF1, 0x73, 0x00, 0xF1] && |items| == 5
    requires items[0].start == 0 && items[1].start == 1 && items[2].start == 2 && items[3].start == 3
    requires items[4].start == 5
    requires forall i :: 0 <= i < 5 ==> items[i].before.currentArray != ARRAY_PATHSET
    ensures IsEmptyKeyItem(input, items[3]) && NestAt(input, items, 3) == Nest(0, [9])
    ensures !HasOutermostKey(input, items)
  {
    assert MarkerOf(input, items[0]) == OpenArray(9) && MarkerOf(input, items[1]) == OpenArray(3);
    assert MarkerOf(input, items[2]) == CloseArray && MarkerOf(input, items[3]) == OtherItem;
    assert Header(input, 0).value.0 == Header(input, 1).value.0 == Header(input, 2).value.0 == STI_ARRAY;
    assert Header(input, 5).value.0 == STI_ARRAY;
    hide MarkerOf, Header;
    assert NestAt(input, items, 1) == Nest(0, [9]);
    assert NestAt(input, items, 2) == Nest(0, [9, 3]);
    assert NestAt(input, items, 3) == Nest(0, [9]);
  }

  // ---------- A key behind the stop ----------

  /** Two types and then an empty signing key. */
  function KeyBehindStop(): seq<Node> {
    [TypeNode(0), TypeNode(0), EMPTY_KEY]
  }

  function KeyBehindStopBytes(): seq<byte> {
    [0x12, 0x00, 0x00, 0x12, 0x00, 0x00, 0x73, 0x00]
  }

  lemma KeyBehindStopEncoded()
    ensures AreNodes(KeyBehindStop()) && Encode(KeyBehindStop()) == KeyBehindStopBytes()
  {
    var nodes := KeyBehindStop();
    var two, one := nodes[1..], nodes[1..][1..];
    assert two == [nodes[1], nodes[2]] && one == [nodes[2]] && one[1..] == [];
    assert EncodeNumber(0, 0) == [] && EncodeNumber(0, 1) == [0] && EncodeNumber(0, 2) == [0, 0];
    assert EncodeNode(nodes[0]) == [0x12, 0x00, 0x00] == EncodeNode(nodes[1]) && EncodeNode(nodes[2]) == [0x73, 0x00];
    hide EncodeNode, IsNode;
    assert Encode(one) == [0x73, 0x00] + Encode([]);
    assert Encode(two) == [0x12, 0x00, 0x00] + Encode(one);
    assert Encode(nodes) == [0x12, 0x00, 0x00] + Encode(two);
  }

  lemma KeyBehindStopRead()
    requires AreNodes(KeyBehindStop())
    ensures var reading := ReadTransaction(KeyBehindStop());
      reading.ending.Halted? && reading.tally.txType == 0 && !reading.tally.emptyKey
  {
    var nodes := KeyBehindStop();
    var first := ReadNode(nodes[0], ARRAY_NONE, 0, NOTHING_READ);
    assert first.ending.Finished? && first.tally.txType == 0 && !first.tally.emptyKey && first.tally.rows == 1;
    var second := ReadNode(nodes[1], ARRAY_NONE, 0, first.tally);
    assert second.ending.Halted? && second.tally == first.tally;
    assert nodes[1..][0] == nodes[1];
    hide ReadNode, IsNode;
    assert Read(nodes[1..], ARRAY_NONE, 0, first.tally) == second;
  }

  lemma KeyBehindStopHeader()
    ensures Header(KeyBehindStopBytes(), 6) == Ok((STI_VL, VL_SIGNING_PUB_KEY, 7))
    ensures VlLength(KeyBehindStopBytes(), 7) == Ok((0, 8))
  {
  }

  /** The bit is not set, although the transaction has an empty signing key at top
      level: the parser stopped for blind signing before it came to the key. */
  lemma KeyBehindTheStopIsMissed()
    ensures var input := KeyBehindStopBytes();
      && ParseTx(input).Reviewable? && ParseTx(input).blind && !ParseTx(input).emptyKey
      && Header(input, 6) == Ok((STI_VL, VL_SIGNING_PUB_KEY, 7)) && VlLength(input, 7) == Ok((0, 8))
  {
    hide ParseTx, Encode, ReadTransaction, AreNodes;
    KeyBehindStopHeader();
    hide KeyBehindStop, KeyBehindStopBytes, Header, VlLength;
    KeyBehindStopEncoded();
    KeyBehindStopRead();
    ParsingReviewsTheTransaction(KeyBehindStop());
  }

  /** A transaction that is read to its end sets the bit exactly if it has an empty
      signing key where no array and no object is recorded; one that is not, only if it
      has.  Its own are all recorded there, and where the filing is true no others are. */
  lemma EmptyKeyOfTransaction(nodes: seq<Node>)
    requires AreNodes(nodes) && ParseTx(Encode(nodes)).Reviewable?
    ensures ParseTx(Encode(nodes)).emptyKey ==> FileOutside(nodes, EMPTY_KEY, ARRAY_NONE, 0)
    ensures ReadTransaction(nodes).ending.Finished? ==>
      (ParseTx(Encode(nodes)).emptyKey <==> FileOutside(nodes, EMPTY_KEY, ARRAY_NONE, 0))
    ensures EMPTY_KEY in nodes ==> FileOutside(nodes, EMPTY_KEY, ARRAY_NONE, 0)
    ensures IsFlatTransaction(nodes) ==> (FileOutside(nodes, EMPTY_KEY, ARRAY_NONE, 0) <==> EMPTY_KEY in nodes)
  {
    hide ParseTx, Encode, Read, AreNodes, IsFlat, ReviewOfAll, Judged, FileOutside;
    ParsingReviewsTheTransaction(nodes);
    EmptyKeyIsANode(nodes, ARRAY_NONE, 0, NOTHING_READ);
    OwnFieldsAreFiledOutside(nodes, EMPTY_KEY);
    var reading := ReadTransaction(nodes);
    ReviewKeepsKey(reading.views, reading.tally.txType, reading.tally.emptyKey);
  }

  lemma ReviewKeepsKey(views: seq<View>, txType: nat, emptyKey: bool)
    ensures ReviewOfAll(views, txType, emptyKey).Shown? ==>
      ReviewOfAll(views, txType, emptyKey).emptyKey == emptyKey && ReviewOfAll(views, txType, emptyKey).txType == txType
  {
    hide HasField, InReviewOrder, RowsIn, FlagsNeedBlindSigning, AllRecognized;
  }
}
