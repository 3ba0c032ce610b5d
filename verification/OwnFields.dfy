/** Which rows of a review are the transaction's own fields: statements on the
    transaction itself, where the parser only knows its registers. */
module OwnFields {
  import opened Fields
  import opened FieldSort
  import opened TransactionSpec
  import opened Serializer
  import opened LeafRoundTrip
  import opened Review
  import opened TopLevel
  import opened TypedRows
  import opened Address
  import opened Swap
  import ClearSigning
  import Decimal
  import Flags
  import Numerals

  // ---------- Rows of a review and views of a reading ----------

  lemma {:induction false} OfScoreMembers(views: seq<View>, score: nat, view: View)
    ensures view in ViewsOfScore(views, score) <==> view in views && Score(view.row) == score
  {
    hide Score;
    if views != [] {
      var init := views[..|views| - 1];
      OfScoreMembers(init, score, view);
      assert view in views <==> view in init || view == views[|views| - 1];
    }
  }

  lemma OrderedMembers(views: seq<View>, view: View)
    ensures view in InReviewOrder(views) <==> view in views
  {
    OfScoreMembers(views, 0, view);
    OfScoreMembers(views, 1, view);
    OfScoreMembers(views, 2, view);
    hide ViewsOfScore;
  }

  /** Every view shown is one that was read, or the row of a removed regular key. */
  lemma ShownIsRead(views: seq<View>, txType: nat, emptyKey: bool, view: View)
    requires ReviewOfAll(views, txType, emptyKey).Shown?
    ensures view in ReviewOfAll(views, txType, emptyKey).views <==>
      view in views || (NeedsRegularKeyRow(RowsIn(views), txType) && view == NO_REGULAR_KEY)
  {
    hide HasField, InReviewOrder, RowsIn, FlagsNeedBlindSigning, AllRecognized, NeedsRegularKeyRow;
    OrderedMembers(views, view);
    OrderedMembers(views + [NO_REGULAR_KEY], view);
  }

  // ---------- TransactionType ----------

  lemma TypeInViews(views: seq<View>, others: seq<View>, n: nat)
    requires forall view :: view in views && IsTransactionType(view.row) ==> view in others
    ensures HasType(views, n) ==> HasType(others, n)
  {
    hide IsTransactionType;
    if HasType(views, n) {
      var i :| 0 <= i < |views| && IsTransactionType(views[i].row) && views[i].row.data == U16(n);
      assert views[i] in others;
      var j :| 0 <= j < |others| && others[j] == views[i];
    }
  }

  lemma ShownTypes(views: seq<View>, txType: nat, emptyKey: bool, n: nat)
    requires ReviewOfAll(views, txType, emptyKey).Shown?
    ensures HasType(ReviewOfAll(views, txType, emptyKey).views, n) <==> HasType(views, n)
  {
    var shown := ReviewOfAll(views, txType, emptyKey).views;
    assert !IsTransactionType(NO_REGULAR_KEY.row);
    hide ReviewOfAll, HasType, IsTransactionType, NeedsRegularKeyRow;
    forall view ensures view in shown && IsTransactionType(view.row) ==> view in views {
      ShownIsRead(views, txType, emptyKey, view);
    }
    forall view ensures view in views ==> view in shown {
      ShownIsRead(views, txType, emptyKey, view);
    }
    TypeInViews(shown, views, n);
    TypeInViews(views, shown, n);
  }

  /** Rows that are transaction types carry their number in their views. */
  lemma RowsWithType(input: seq<byte>, rows: seq<Field>, n: nat)
    requires forall i :: 0 <= i < |rows| && IsTransactionType(rows[i]) ==> rows[i].data.U16?
    ensures HasType(ViewsOf(input, rows), n)
      <==> exists i :: 0 <= i < |rows| && IsTransactionType(rows[i]) && rows[i].data == U16(n)
  {
    var views := ViewsOf(input, rows);
    assert forall i :: 0 <= i < |rows| ==> views[i] == ViewOf(input, rows[i]);
    assert forall i :: 0 <= i < |rows| ==> IsTransactionType(views[i].row) == IsTransactionType(rows[i]);
    hide IsTransactionType;
    if i :| 0 <= i < |rows| && IsTransactionType(rows[i]) && rows[i].data == U16(n) {
      assert views[i].row.data == U16(n);
    }
  }

  /** A transaction shown without a warning has just one TransactionType row exactly
      if it has no TransactionType of 0xFFFF, wherever. */
  lemma OneTypeNode(nodes: seq<Node>)
    requires AreNodes(nodes) && ReviewOf(nodes).Shown? && !ReviewOf(nodes).blind
    ensures (forall i :: 0 <= i < |ReviewOf(nodes).views| ==>
              (IsTransactionType(ReviewOf(nodes).views[i].row) <==> i == 0))
      <==> !Hold(nodes, TypeNode(TRANSACTION_INVALID))
  {
    hide ParseTx, Encode, Read, AreNodes, Hold, ReviewOfAll, ViewsOf, HasType, IsTransactionType, HasName;
    ParsingReviewsTheTransaction(nodes);
    var input, reading := Encode(nodes), ReadTransaction(nodes);
    var outcome := ParseTx(input);
    TypesAreNodes(nodes, ARRAY_NONE, 0, NOTHING_READ, TRANSACTION_INVALID);
    ShownTypes(reading.views, reading.tally.txType, reading.tally.emptyKey, TRANSACTION_INVALID);
    OneTypeOfRows(input, outcome.rows, outcome.txType, outcome.emptyKey);
  }

  lemma OneTypeOfRows(input: seq<byte>, rows: seq<Field>, txType: nat, emptyKey: bool)
    requires ParseTx(input) == Reviewable(false, rows, txType, emptyKey)
    ensures var views := ViewsOf(input, rows);
      (forall i :: 0 <= i < |views| ==> (IsTransactionType(views[i].row) <==> i == 0))
      <==> !HasType(views, TRANSACTION_INVALID)
  {
    var views := ViewsOf(input, rows);
    var count := ClearSigning.ClearSigningIsSound(input, rows, txType, emptyKey);
    ClearSigning.OneTypeRow(input, rows, txType, emptyKey);
    assert forall i :: 0 <= i < |rows| ==> views[i] == ViewOf(input, rows[i]);
    assert forall i :: 0 <= i < |rows| ==> IsTransactionType(views[i].row) == IsTransactionType(rows[i]);
    hide ParseTx, IsTransactionType, ViewsOf, ViewOf, HasName, TopLevelFlags, HasType;
    RowsWithType(input, rows, TRANSACTION_INVALID);
  }

  // ---------- Swaps ----------

  ghost predicate AllRowsTopLevel(rows: seq<Field>) {
    forall i :: 0 <= i < |rows| ==> IsTopLevel(rows[i])
  }

  lemma TopLevelViews(input: seq<byte>, rows: seq<Field>)
    ensures AllTopLevel(ViewsOf(input, rows)) <==> AllRowsTopLevel(rows)
    ensures (forall i :: 0 <= i < |rows| ==> rows[i].dataType != STI_HASH256) <==> NoHashes(ViewsOf(input, rows))
  {
    var views := ViewsOf(input, rows);
    assert forall i :: 0 <= i < |rows| ==> views[i] == ViewOf(input, rows[i]);
    assert forall i :: 0 <= i < |rows| ==>
      IsTopLevel(views[i].row) == IsTopLevel(rows[i]) && views[i].row.dataType == rows[i].dataType;
    hide ViewOf, ViewsOf, IsTopLevel;
  }

  lemma SameMembersTopLevel(views: seq<View>, others: seq<View>)
    requires forall view :: view in views <==> view in others
    ensures AllTopLevel(views) <==> AllTopLevel(others)
    ensures NoHashes(views) <==> NoHashes(others)
  {
    hide IsTopLevel;
    assert AllTopLevel(views) <==> forall view :: view in views ==> IsTopLevel(view.row);
    assert AllTopLevel(others) <==> forall view :: view in others ==> IsTopLevel(view.row);
    assert NoHashes(views) <==> forall view :: view in views ==> view.row.dataType != STI_HASH256;
    assert NoHashes(others) <==> forall view :: view in others ==> view.row.dataType != STI_HASH256;
  }

  lemma ApprovedHasNoHashes(sha256: seq<byte> -> Digest, input: seq<byte>, rows: seq<Field>, approval: Approval)
    requires AreTyped(input, rows) && IsApproved(sha256, input, rows, approval)
    ensures forall i :: 0 <= i < |rows| ==> rows[i].dataType != STI_HASH256
  {
    hide AddressText, NumberAt, Decimal.UnsignedText;
  }

  /** A review of a Payment shows just what was read. */
  lemma PaymentShowsReading(views: seq<View>, emptyKey: bool)
    requires ReviewOfAll(views, Flags.TRANSACTION_PAYMENT, emptyKey).Shown?
    ensures var shown := ReviewOfAll(views, Flags.TRANSACTION_PAYMENT, emptyKey).views;
      (AllTopLevel(shown) <==> AllTopLevel(views)) && (NoHashes(shown) <==> NoHashes(views))
  {
    var shown := ReviewOfAll(views, Flags.TRANSACTION_PAYMENT, emptyKey).views;
    assert !NeedsRegularKeyRow(RowsIn(views), Flags.TRANSACTION_PAYMENT);
    hide ReviewOfAll, NeedsRegularKeyRow;
    forall view ensures view in shown <==> view in views {
      ShownIsRead(views, Flags.TRANSACTION_PAYMENT, emptyKey, view);
    }
    SameMembersTopLevel(shown, views);
  }

  /** The check for a swap does not look at nesting.  The six rows of an accepted
      transaction are all filed at top level exactly if none of its fields files one in
      an array or object.  So it is if no object, array or path set in it shows a row,
      and where the filing is true, only then. */
  lemma SwapRowsAreTopLevel(sha256: seq<byte> -> Digest, nodes: seq<Node>, approval: Approval)
    requires AreNodes(nodes) && ParseTx(Encode(nodes)).Reviewable?
    requires AreTyped(Encode(nodes), ParseTx(Encode(nodes)).rows)
    requires IsApproved(sha256, Encode(nodes), ParseTx(Encode(nodes)).rows, approval)
    ensures AllRowsTopLevel(ParseTx(Encode(nodes)).rows) <==> !FileInside(nodes, ARRAY_NONE, 0)
    ensures OnlyOwnRows(nodes) ==> !FileInside(nodes, ARRAY_NONE, 0)
    ensures IsFlatTransaction(nodes) ==> (!FileInside(nodes, ARRAY_NONE, 0) <==> OnlyOwnRows(nodes))
  {
    hide ParseTx, Encode, Read, AreNodes, IsFlat, ReviewOfAll, ViewsOf, AllTopLevel, NoHashes, OnlyOwnRows, AreTyped,
         FileInside;
    var input, reading := Encode(nodes), ReadTransaction(nodes);
    var rows := ParseTx(input).rows;
    SwapNeedsNoBlindSigning(sha256, input, approval);
    ApprovedHasNoHashes(sha256, input, rows, approval);
    hide IsApproved, ParseLoop;
    ParsingReviewsTheTransaction(nodes);
    TopLevelViews(input, rows);
    assert reading.ending.Finished?;
    ReviewKeepsType(reading.views, reading.tally.txType, reading.tally.emptyKey);
    PaymentShowsReading(reading.views, reading.tally.emptyKey);
    NodesTopLevel(nodes, ARRAY_NONE, 0, NOTHING_READ);
    OwnRowsAreFiledOutside(nodes);
  }

  lemma ReviewKeepsType(views: seq<View>, txType: nat, emptyKey: bool)
    ensures ReviewOfAll(views, txType, emptyKey).Shown? ==> ReviewOfAll(views, txType, emptyKey).txType == txType
  {
    hide HasField, InReviewOrder, RowsIn, FlagsNeedBlindSigning, AllRecognized;
  }
}
