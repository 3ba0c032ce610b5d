/** For all bytes: which rows of a review stem from items outside of every array and
    object. */
module OwnRows {
  import opened Fields
  import opened FieldSort
  import opened TransactionSpec
  import opened Conservation
  import opened Nesting
  import opened Outermost
  import opened ClearSigning
  import opened TypedRows
  import opened TopLevel
  import opened OwnFields
  import opened Serializer
  import opened Review
  import opened HiddenFields
  import opened Address
  import opened Swap
  import Flags

  // ---------- Rows and items ----------

  ghost predicate IsRowOfItem(items: seq<Item>, row: Field) {
    exists k :: 0 <= k < |items| && row in items[k].rows
  }

  /** The rows of a review without warning are those of the items, and the row of a
      removed regular key. */
  lemma ClearRowsAreOfItems(input: seq<byte>, row: Field)
    requires ParseTx(input).Reviewable? && !ParseTx(input).blind
    ensures var run := ParseLoop(input);
      row in ParseTx(input).rows
      <==> IsRowOfItem(run.items, row)
           || (NeedsRegularKeyRow(RowsOf(run.items), run.frame.txType) && row == EmptyRegularKey(run.frame))
  {
    hide ParseItems, RowsOf, HasField, Sorted, IsSupported, FlagsNeedBlindSigning, AllRecognized, NeedsRegularKeyRow,
         EmptyRegularKey;
    var run := ParseLoop(input);
    RowsOfItems(run.items, row);
    SortedMembers(RowsOf(run.items), row);
    SortedMembers(RowsOf(run.items) + [EmptyRegularKey(run.frame)], row);
  }

  // ---------- TransactionType ----------

  ghost predicate ShowsType(item: Item) {
    exists i :: 0 <= i < |item.rows| && IsTransactionType(item.rows[i])
  }

  /** For all bytes: an item that shows a TransactionType shows nothing else, and is
      taken for outermost. */
  lemma TypesAreTaken(input: seq<byte>, k: nat)
    requires k < |ParseLoop(input).items| && ShowsType(ParseLoop(input).items[k])
    ensures |ParseLoop(input).items[k].rows| == 1 && IsTaken(ParseLoop(input).items, k)
  {
    var items := ParseLoop(input).items;
    hide ParseItem, ParseItems, ParseLoop;
    var taken := ItemOfRun(input, k);
    ItemTypes(input, items[k].start, items[k].before, taken);
    RowsAreFiled(input, k);
    assert IsTopLevelType(items[k].rows[0], items[k].after.txType);
  }

  lemma ItemOfRun(input: seq<byte>, k: nat) returns (taken: nat)
    requires k < |ParseLoop(input).items|
    ensures var item := ParseLoop(input).items[k];
      taken <= MAX_FIELD_COUNT && ParseItem(input, item.start, item.before, taken) == Parsed(item)
  {
    hide ParseItem, ParseItems;
    taken := ItemAt(input, 0, INITIAL_FRAME, 0, k);
  }

  /** Every item that shows a TransactionType is outside of every array and object. */
  ghost predicate TypesAreOutermost(input: seq<byte>, items: seq<Item>) {
    forall k :: 0 <= k < |items| && ShowsType(items[k]) ==> IsOutermost(input, items, k)
  }

  ghost predicate NoTypeStrays(input: seq<byte>, items: seq<Item>) {
    forall k :: 0 <= k < |items| && ShowsType(items[k]) ==> !Strays(input, items, k)
  }

  /** For all bytes: the TransactionTypes shown are all outermost exactly if none strays. */
  lemma TypesAreOwn(input: seq<byte>)
    ensures var items := ParseLoop(input).items;
      TypesAreOutermost(input, items) <==> NoTypeStrays(input, items)
  {
    hide ParseLoop, IsTaken, IsOutermost, Strays, ShowsType;
    var items := ParseLoop(input).items;
    forall k | 0 <= k < |items| && ShowsType(items[k])
      ensures IsOutermost(input, items, k) <==> !Strays(input, items, k)
    {
      TypesAreTaken(input, k);
      TakenIsOutermostOrStrays(input, k);
      OutermostStrays(input, items, k);
    }
  }

  /** The TransactionType rows of a review without warning are the single rows of the
      items that show one, and these are all taken for outermost. */
  lemma ClearTypesAreTaken(input: seq<byte>)
    requires ParseTx(input).Reviewable? && !ParseTx(input).blind
    ensures var items, rows := ParseLoop(input).items, ParseTx(input).rows;
      && (forall row :: row in rows && IsTransactionType(row) ==>
            exists k :: 0 <= k < |items| && items[k].rows == [row] && ShowsType(items[k]) && IsTaken(items, k))
      && (forall k :: 0 <= k < |items| && ShowsType(items[k]) ==> |items[k].rows| == 1 && items[k].rows[0] in rows)
  {
    var items, rows := ParseLoop(input).items, ParseTx(input).rows;
    hide ParseTx, ParseLoop, IsTaken, IsTransactionType;
    forall row | row in rows && IsTransactionType(row)
      ensures exists k :: 0 <= k < |items| && items[k].rows == [row] && ShowsType(items[k]) && IsTaken(items, k)
    {
      var k := TypeRowIsOfItem(input, row);
    }
    forall k | 0 <= k < |items| && ShowsType(items[k]) ensures |items[k].rows| == 1 && items[k].rows[0] in rows {
      TypesAreTaken(input, k);
      assert items[k].rows[0] in items[k].rows;
      ClearRowsAreOfItems(input, items[k].rows[0]);
    }
  }

  lemma TypeRowIsOfItem(input: seq<byte>, row: Field) returns (k: nat)
    requires ParseTx(input).Reviewable? && !ParseTx(input).blind
    requires row in ParseTx(input).rows && IsTransactionType(row)
    ensures var items := ParseLoop(input).items;
      k < |items| && items[k].rows == [row] && ShowsType(items[k]) && IsTaken(items, k)
  {
    var items := ParseLoop(input).items;
    KeyRowIsNoType(ParseLoop(input).frame);
    hide *;
    ClearRowsAreOfItems(input, row);
    k := OwnerOf(items, row);
    TypeIsShown(items[k], row);
    TypesAreTaken(input, k);
    OneRowOnly(items[k].rows, row);
  }

  lemma KeyRowIsNoType(frame: Frame)
    ensures !IsTransactionType(EmptyRegularKey(frame))
  {
  }

  lemma OwnerOf(items: seq<Item>, row: Field) returns (k: nat)
    requires IsRowOfItem(items, row)
    ensures k < |items| && row in items[k].rows
  {
    k :| 0 <= k < |items| && row in items[k].rows;
  }

  lemma TypeIsShown(item: Item, row: Field)
    requires row in item.rows && IsTransactionType(row)
    ensures ShowsType(item)
  {
    hide IsTransactionType;
  }

  lemma OneRowOnly(rows: seq<Field>, row: Field)
    requires row in rows && |rows| == 1
    ensures rows == [row]
  {
  }

  /** A TransactionType behind an empty array at the beginning of an array. */
  lemma TypeBehindEmptyArray(input: seq<byte>)
    requires |input| >= 6 && input[0] == 0xF9 && input[1] == 0xF3 && input[2] == 0xF1 && input[3] == 0x12
    ensures var items := ParseLoop(input).items;
      |items| > 3 && ShowsType(items[3]) && !TypesAreOutermost(input, items) && !NoTypeStrays(input, items)
  {
    TypeItem(input, 3);
    hide ParseItem, ParseItems, NestAt, ShowsType, Strays;
    BehindEmptyArray(input);
    ParseItemsStep(input, 3, INITIAL_FRAME, 0);
    var items := ParseLoop(input).items;
    assert items[3] == items[3..][0];
    OutermostStrays(input, items, 3);
  }

  lemma TypeItem(input: seq<byte>, offset: nat)
    requires offset + 3 <= |input| && input[offset] == 0x12
    ensures ParseItem(input, offset, INITIAL_FRAME, 0).Parsed?
    ensures ShowsType(ParseItem(input, offset, INITIAL_FRAME, 0).item)
  {
    assert Header(input, offset) == Ok((STI_UINT16, UINT16_TRANSACTION_TYPE, offset + 1));
    hide Header, BigEndian;
    var item := ParseItem(input, offset, INITIAL_FRAME, 0).item;
    assert IsTransactionType(item.rows[0]);
  }

  /** A transaction whose type and sender both stand in an array, and which is shown
      without a warning. */
  lemma HiddenTypeIsNotOwn(txType: nat, account: AccountBytes)
    requires IsSupported(txType) && txType != TRANSACTION_SET_REGULAR_KEY
    ensures AreNodes(Head(txType, account))
    ensures var input: seq<byte> := [0xF9, 0xF3, 0xF1] + Encode(Head(txType, account)) + [0xF1];
      && VerdictOn(input, ParseTx(input)) == Shown(false, HeadViews(txType, account), txType, false)
      && !TypesAreOutermost(input, ParseLoop(input).items)
  {
    HiddenTypeIsShown(txType, account);
    HeadStartsWithType(txType, account);
    hide ParseTx, ParseLoop, Head, HeadViews, Encode, AreNodes, TypesAreOutermost, NoTypeStrays, ShowsType;
    TypeBehindEmptyArray([0xF9, 0xF3, 0xF1] + Encode(Head(txType, account)) + [0xF1]);
  }

  lemma HeadStartsWithType(txType: nat, account: AccountBytes)
    requires AreNodes(Head(txType, account)) && txType < TRANSACTION_INVALID
    ensures |Encode(Head(txType, account))| >= 3 && Encode(Head(txType, account))[0] == 0x12
  {
    var nodes := Head(txType, account);
    assert EncodeNode(nodes[0])[0] == 0x12 && |EncodeNode(nodes[0])| == 3;
    hide EncodeNode, IsNode;
  }

  // ---------- Swaps ----------

  /** Every item that shows a row is taken for outermost. */
  ghost predicate RowsAreTaken(items: seq<Item>) {
    forall k :: 0 <= k < |items| && items[k].rows != [] ==> IsTaken(items, k)
  }

  ghost predicate RowsAreOutermost(input: seq<byte>, items: seq<Item>) {
    forall k :: 0 <= k < |items| && items[k].rows != [] ==> IsOutermost(input, items, k)
  }

  ghost predicate NoRowStrays(input: seq<byte>, items: seq<Item>) {
    forall k :: 0 <= k < |items| && items[k].rows != [] ==> !Strays(input, items, k)
  }

  /** For all bytes accepted for a swap: the six rows are all outermost exactly if they
      are filed at top level and none strays. */
  lemma SwapRowsAreOwn(sha256: seq<byte> -> Digest, input: seq<byte>, approval: Approval)
    requires ParseTx(input).Reviewable? && AreTyped(input, ParseTx(input).rows)
    requires IsApproved(sha256, input, ParseTx(input).rows, approval)
    ensures var items, rows := ParseLoop(input).items, ParseTx(input).rows;
      RowsAreOutermost(input, items) <==> AllRowsTopLevel(rows) && NoRowStrays(input, items)
  {
    var items, rows := ParseLoop(input).items, ParseTx(input).rows;
    SwapNeedsNoBlindSigning(sha256, input, approval);
    ApprovedHasNoHashes(sha256, input, rows, approval);
    hide IsApproved, AreTyped, IsTaken, IsOutermost, Strays, AllRowsTopLevel;
    SwapRowsAreTaken(input);
    hide ParseTx, ParseLoop;
    forall k | 0 <= k < |items|
      ensures IsOutermost(input, items, k) <==> IsTaken(items, k) && !Strays(input, items, k)
    {
      OutermostStrays(input, items, k);
      TakenIsOutermostOrStrays(input, k);
    }
  }

  /** In a review of a Payment without hashes, the rows are filed at top level exactly
      if their items are taken for outermost. */
  lemma SwapRowsAreTaken(input: seq<byte>)
    requires ParseTx(input).Reviewable? && !ParseTx(input).blind && ParseTx(input).txType == Flags.TRANSACTION_PAYMENT
    requires forall i :: 0 <= i < |ParseTx(input).rows| ==> ParseTx(input).rows[i].dataType != STI_HASH256
    ensures AllRowsTopLevel(ParseTx(input).rows) <==> RowsAreTaken(ParseLoop(input).items)
  {
    var items, rows := ParseLoop(input).items, ParseTx(input).rows;
    PaymentNeedsNoKey(input);
    hide ParseTx, ParseLoop, IsTopLevel, IsTaken;
    forall row ensures row in rows <==> IsRowOfItem(items, row) {
      ClearRowsAreOfItems(input, row);
    }
    forall k | 0 <= k < |items| ensures FiledAsTaken(items, k, rows) {
      ItemFiledAsTaken(input, k, rows);
    }
    AllFiledAsTaken(items, rows);
  }

  /** The rows of item `k`, which are among `rows`, are at top level exactly if it is taken for outermost. */
  ghost predicate FiledAsTaken(items: seq<Item>, k: nat, rows: seq<Field>)
    requires k < |items|
  {
    forall row :: row in items[k].rows && row in rows ==> (IsTopLevel(row) <==> IsTaken(items, k))
  }

  lemma ItemFiledAsTaken(input: seq<byte>, k: nat, rows: seq<Field>)
    requires k < |ParseLoop(input).items| && forall row :: row in rows ==> row.dataType != STI_HASH256
    ensures FiledAsTaken(ParseLoop(input).items, k, rows)
  {
    hide ParseLoop, FrameAt;
    RowsAreFiled(input, k);
  }

  lemma AllFiledAsTaken(items: seq<Item>, rows: seq<Field>)
    requires forall row :: row in rows <==> IsRowOfItem(items, row)
    requires forall k :: 0 <= k < |items| ==> FiledAsTaken(items, k, rows)
    ensures AllRowsTopLevel(rows) <==> RowsAreTaken(items)
  {
    hide IsTopLevel, IsTaken;
    if AllRowsTopLevel(rows) {
      forall k | 0 <= k < |items| && items[k].rows != [] ensures IsTaken(items, k) {
        var row := items[k].rows[0];
        assert IsRowOfItem(items, row);
        assert FiledAsTaken(items, k, rows);
      }
    }
    if RowsAreTaken(items) {
      forall i | 0 <= i < |rows| ensures IsTopLevel(rows[i]) {
        assert IsRowOfItem(items, rows[i]);
        var k :| 0 <= k < |items| && rows[i] in items[k].rows;
        assert FiledAsTaken(items, k, rows);
      }
    }
  }

  lemma PaymentNeedsNoKey(input: seq<byte>)
    requires ParseTx(input).Reviewable? && !ParseTx(input).blind && ParseTx(input).txType == Flags.TRANSACTION_PAYMENT
    ensures var run := ParseLoop(input);
      !NeedsRegularKeyRow(RowsOf(run.items), run.frame.txType)
  {
    hide ParseItems, RowsOf, HasField, Sorted, IsSupported, FlagsNeedBlindSigning, AllRecognized;
  }
}
