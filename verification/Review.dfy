/** What the user sees of a serialized transaction: the parse of its bytes,
    down to the final checks, told in terms of the transaction itself. */
module Review {
  import opened Fields
  import opened FieldSort
  import opened TransactionSpec
  import opened Serializer
  import opened LeafRoundTrip
  import opened RoundTrip
  import Flags

  // ---------- The review of a transaction ----------

  function RowsIn(views: seq<View>): seq<Field> {
    seq(|views|, i requires 0 <= i < |views| => views[i].row)
  }

  function ViewsOfScore(views: seq<View>, score: nat): seq<View> {
    if views == [] then []
    else ViewsOfScore(views[..|views| - 1], score)
         + if Score(views[|views| - 1].row) == score then [views[|views| - 1]] else []
  }

  /** The type first, then the account, then the rest as it was sent. */
  function InReviewOrder(views: seq<View>): seq<View> {
    ViewsOfScore(views, 0) + ViewsOfScore(views, 1) + ViewsOfScore(views, 2)
  }

  /** Stands for a regular key that is taken away. */
  const NO_REGULAR_KEY := View(Field(ACCOUNT_REGULAR_KEY, STI_ACCOUNT, 0, Null, NO_ARRAY, 0), [])

  datatype Verdict = Unreadable(error: Error) | Shown(blind: bool, views: seq<View>, txType: nat, emptyKey: bool)

  function Judged(views: seq<View>, txType: nat, emptyKey: bool): Verdict {
    if !HasField(RowsIn(views), STI_UINT16, UINT16_TRANSACTION_TYPE, true)
       || !HasField(RowsIn(views), STI_ACCOUNT, ACCOUNT_ACCOUNT, true)
    then Unreadable(NotSupported)
    else
      var shown := InReviewOrder(views);
      var blind := txType == TRANSACTION_INVALID || !IsSupported(txType)
                   || FlagsNeedBlindSigning(RowsIn(shown), txType) || !AllRecognized(RowsIn(shown));
      Shown(blind, shown, txType, emptyKey)
  }

  /** What a transaction read to its end leads to. */
  function ReviewOfAll(views: seq<View>, txType: nat, emptyKey: bool): Verdict {
    if NeedsRegularKeyRow(RowsIn(views), txType) then
      if |views| >= MAX_FIELD_COUNT then Unreadable(NotEnoughSpace)
      else Judged(views + [NO_REGULAR_KEY], txType, emptyKey)
    else Judged(views, txType, emptyKey)
  }

  /** What a transaction leads to.  One with a misplaced TransactionType is shown with
      a warning, up to that field, in the order in which it was sent. */
  function ReviewOf(nodes: seq<Node>): Verdict
    requires AreNodes(nodes)
  {
    var reading := ReadTransaction(nodes);
    match reading.ending
    case Over(error) => Unreadable(error)
    case Halted(view) => Shown(true, reading.views + [view], reading.tally.txType, reading.tally.emptyKey)
    case Finished => ReviewOfAll(reading.views, reading.tally.txType, reading.tally.emptyKey)
  }

  // ---------- Decisions do not look through pointers ----------

  /** The same row but for the pointer. */
  ghost predicate Alike(row: Field, other: Field) {
    && row.id == other.id && row.dataType == other.dataType
    && row.arrayInfo == other.arrayInfo && row.depth == other.depth && FlagsValue(row) == FlagsValue(other)
  }

  ghost predicate AllAlike(rows: seq<Field>, others: seq<Field>) {
    |rows| == |others| && forall i :: 0 <= i < |rows| ==> Alike(rows[i], others[i])
  }

  lemma ViewsAreAlike(input: seq<byte>, rows: seq<Field>)
    ensures AllAlike(rows, RowsIn(ViewsOf(input, rows)))
  {
    forall i | 0 <= i < |rows| ensures Alike(rows[i], RowsIn(ViewsOf(input, rows))[i]) {
      assert RowsIn(ViewsOf(input, rows))[i] == ViewOf(input, rows[i]).row;
    }
  }

  lemma SameFields(rows: seq<Field>, others: seq<Field>, dataType: nat, id: nat, topLevelOnly: bool)
    requires AllAlike(rows, others)
    ensures HasField(rows, dataType, id, topLevelOnly) == HasField(others, dataType, id, topLevelOnly)
  {
    hide FlagsValue;
    if HasField(rows, dataType, id, topLevelOnly) {
      var i :| 0 <= i < |rows| && IsWanted(rows[i], dataType, id, topLevelOnly);
      assert IsWanted(others[i], dataType, id, topLevelOnly);
    }
    if HasField(others, dataType, id, topLevelOnly) {
      var i :| 0 <= i < |rows| && IsWanted(others[i], dataType, id, topLevelOnly);
      assert IsWanted(rows[i], dataType, id, topLevelOnly);
    }
  }

  lemma {:induction false} SameFlags(rows: seq<Field>, others: seq<Field>)
    requires AllAlike(rows, others)
    ensures AllAlike(TopLevelFlags(rows), TopLevelFlags(others))
  {
    hide FlagsValue;
    if rows != [] {
      var last := |rows| - 1;
      SameFlags(rows[..last], others[..last]);
      assert Alike(rows[last], others[last]);
    }
  }

  lemma SameJudgement(rows: seq<Field>, others: seq<Field>, txType: nat)
    requires AllAlike(rows, others)
    ensures FlagsNeedBlindSigning(rows, txType) == FlagsNeedBlindSigning(others, txType)
    ensures AllRecognized(rows) == AllRecognized(others)
  {
    SameFlags(rows, others);
    hide TopLevelFlags, Flags.HasUnknownFlags, FlagsValue;
    assert forall i :: 0 <= i < |rows| ==> IsRecognized(rows[i]) == IsRecognized(others[i]) by {
      hide HasName;
    }
    hide IsRecognized;
    assert AllRecognized(rows) == AllRecognized(others) by {
      hide Alike;
    }
  }

  lemma {:induction false} ViewsInOrder(input: seq<byte>, rows: seq<Field>, score: nat)
    ensures ViewsOfScore(ViewsOf(input, rows), score) == ViewsOf(input, OfScore(rows, score))
  {
    if rows != [] {
      var last := |rows| - 1;
      ViewsInOrder(input, rows[..last], score);
      assert ViewsOf(input, rows)[..last] == ViewsOf(input, rows[..last]);
      SameScore(input, rows[last]);
      OneView(input, rows[last]);
      hide ViewOf, Score;
    }
  }

  lemma SameScore(input: seq<byte>, row: Field)
    ensures Score(ViewOf(input, row).row) == Score(row)
  {
  }

  lemma SortedViews(input: seq<byte>, rows: seq<Field>)
    ensures InReviewOrder(ViewsOf(input, rows)) == ViewsOf(input, Sorted(rows))
  {
    hide ViewsOf, OfScore, ViewsOfScore;
    ViewsInOrder(input, rows, 0);
    ViewsInOrder(input, rows, 1);
    ViewsInOrder(input, rows, 2);
    ViewsAppend(input, OfScore(rows, 0) + OfScore(rows, 1), OfScore(rows, 2));
    ViewsAppend(input, OfScore(rows, 0), OfScore(rows, 1));
  }

  // ---------- The theorem ----------

  function VerdictOn(input: seq<byte>, outcome: Outcome): Verdict {
    match outcome
    case Failed(error) => Unreadable(error)
    case Reviewable(blind, rows, txType, emptyKey) => Shown(blind, ViewsOf(input, rows), txType, emptyKey)
  }

  lemma ConcludeIsJudged(input: seq<byte>, rows: seq<Field>, frame: Frame)
    ensures VerdictOn(input, Conclude(rows, frame)) == Judged(ViewsOf(input, rows), frame.txType, frame.emptyKey)
  {
    hide ViewsOf, RowsIn, HasField, FlagsNeedBlindSigning, AllRecognized, Sorted, InReviewOrder, AllAlike, IsSupported;
    ViewsAreAlike(input, rows);
    SameFields(rows, RowsIn(ViewsOf(input, rows)), STI_UINT16, UINT16_TRANSACTION_TYPE, true);
    SameFields(rows, RowsIn(ViewsOf(input, rows)), STI_ACCOUNT, ACCOUNT_ACCOUNT, true);
    SortedViews(input, rows);
    ViewsAreAlike(input, Sorted(rows));
    SameJudgement(Sorted(rows), RowsIn(ViewsOf(input, Sorted(rows))), frame.txType);
  }

  /** The checks behind a loop that came to the end. */
  function ConcludeAll(rows: seq<Field>, frame: Frame): Outcome {
    if NeedsRegularKeyRow(rows, frame.txType) then
      if |rows| >= MAX_FIELD_COUNT then Failed(NotEnoughSpace)
      else Conclude(rows + [EmptyRegularKey(frame)], frame)
    else Conclude(rows, frame)
  }

  lemma ConcludeAllIsReviewed(input: seq<byte>, rows: seq<Field>, frame: Frame)
    requires frame.currentArray == ARRAY_NONE && frame.depth == 0
    ensures VerdictOn(input, ConcludeAll(rows, frame))
         == ReviewOfAll(ViewsOf(input, rows), frame.txType, frame.emptyKey)
  {
    hide HasField, ViewsOf, Judged, Conclude, RowsIn, AllAlike;
    ViewsAreAlike(input, rows);
    SameFields(rows, RowsIn(ViewsOf(input, rows)), STI_ACCOUNT, ACCOUNT_REGULAR_KEY, false);
    ConcludeIsJudged(input, rows, frame);
    var key := EmptyRegularKey(frame);
    ConcludeIsJudged(input, rows + [key], frame);
    ViewsAppend(input, rows, [key]);
    OneView(input, key);
  }

  /** Serializing a transaction and parsing the bytes leads to the review of that very
      transaction: the same rows with the same contents in the same order, the same
      type, the same error if it is over a limit or malformed, and a blind-signing
      warning exactly when the transaction itself calls for one. */
  lemma ParsingReviewsTheTransaction(nodes: seq<Node>)
    requires AreNodes(nodes)
    ensures VerdictOn(Encode(nodes), ParseTx(Encode(nodes))) == ReviewOf(nodes)
  {
    hide ParseLoop, ReadTransaction, Encode, AreNodes, RowsOf, ViewsOf, ViewOf, Conclude, NeedsRegularKeyRow, Judged,
         ReviewOfAll;
    ParserUndoesSerializer(nodes);
    var input := Encode(nodes);
    var run := ParseLoop(input);
    var rows := RowsOf(run.items);
    match run.stop {
      case StoppedBy(_) =>
      case StoppedBlind(row) =>
        ViewsAppend(input, rows, [row]);
        OneView(input, row);
      case AtEnd =>
        assert ParseTx(input) == ConcludeAll(rows, run.frame);
        ConcludeAllIsReviewed(input, rows, run.frame);
    }
  }

  // ---------- A review with two types ----------

  /** A TransactionType of 0xFFFF, one of 0 (Payment), and an account. */
  function TwoTypes(account: seq<byte>): seq<Node> {
    [Single(UINT16_TRANSACTION_TYPE, UInt16(TRANSACTION_INVALID)), Single(UINT16_TRANSACTION_TYPE, UInt16(0)),
     Single(ACCOUNT_ACCOUNT, AccountId(account))]
  }

  /** It is shown without a warning, with two TransactionType rows. */
  lemma TwoTypesAreShown(account: seq<byte>)
    requires |account| == 20
    ensures AreNodes(TwoTypes(account))
    ensures var outcome := ParseTx(Encode(TwoTypes(account)));
      && outcome.Reviewable? && !outcome.blind && |outcome.rows| == 3
      && IsTransactionType(outcome.rows[0]) && outcome.rows[0].data == U16(TRANSACTION_INVALID)
      && IsTransactionType(outcome.rows[1]) && outcome.rows[1].data == U16(0)
  {
    var nodes := TwoTypes(account);
    ReadTwoTypes(account);
    ReviewTwoTypes(account);
    hide ReadTransaction, ReviewOf, ParseTx, Encode;
    ParsingReviewsTheTransaction(nodes);
    var outcome := ParseTx(Encode(nodes));
    var views := TwoTypeViews(account);
    assert ViewsOf(Encode(nodes), outcome.rows) == views;
    assert ViewOf(Encode(nodes), outcome.rows[0]) == views[0] && ViewOf(Encode(nodes), outcome.rows[1]) == views[1];
  }

  function TwoTypeViews(account: seq<byte>): seq<View> {
    [Numeric(STI_UINT16, UINT16_TRANSACTION_TYPE, NO_ARRAY, 0, 2, U16(TRANSACTION_INVALID)),
     Numeric(STI_UINT16, UINT16_TRANSACTION_TYPE, NO_ARRAY, 0, 2, U16(0)),
     Raw(STI_ACCOUNT, ACCOUNT_ACCOUNT, NO_ARRAY, 0, account)]
  }

  lemma ReadTwoTypes(account: seq<byte>)
    requires |account| == 20
    ensures AreNodes(TwoTypes(account))
    ensures ReadTransaction(TwoTypes(account)) == Reading(Finished, TwoTypeViews(account), Tally(3, 0, 0, false))
  {
    var nodes, views := TwoTypes(account), TwoTypeViews(account);
    assert nodes[1..] == [nodes[1], nodes[2]] && nodes[1..][1..] == [nodes[2]] && nodes[1..][1..][1..] == [];
    assert ReadNode(nodes[0], ARRAY_NONE, 0, NOTHING_READ) == Reading(Finished, [views[0]], Tally(1, 0, 0xFFFF, false));
    assert ReadNode(nodes[1], ARRAY_NONE, 0, Tally(1, 0, 0xFFFF, false))
        == Reading(Finished, [views[1]], Tally(2, 0, 0, false));
    assert ReadNode(nodes[2], ARRAY_NONE, 0, Tally(2, 0, 0, false))
        == Reading(Finished, [views[2]], Tally(3, 0, 0, false));
    hide ReadNode, IsNode;
    assert Read(nodes[1..][1..], ARRAY_NONE, 0, Tally(2, 0, 0, false))
        == Reading(Finished, [views[2]], Tally(3, 0, 0, false));
    assert Read(nodes[1..], ARRAY_NONE, 0, Tally(1, 0, 0xFFFF, false))
        == Reading(Finished, [views[1], views[2]], Tally(3, 0, 0, false));
  }

  lemma TwoTypesInOrder(views: seq<View>)
    requires |views| == 3 && IsTransactionType(views[0].row) && IsTransactionType(views[1].row)
    requires IsNormalAccount(views[2].row)
    ensures InReviewOrder(views) == views
  {
    var one, two := views[..2][..1], views[..2];
    assert one[..0] == [] && ViewsOfScore([], 0) == [] && ViewsOfScore([], 1) == [] && ViewsOfScore([], 2) == [];
    assert ViewsOfScore(one, 0) == [views[0]] && ViewsOfScore(one, 1) == [] && ViewsOfScore(one, 2) == [];
    assert ViewsOfScore(two, 0) == [views[0], views[1]] && ViewsOfScore(two, 1) == [] && ViewsOfScore(two, 2) == [];
    assert ViewsOfScore(views, 0) == [views[0], views[1]] && ViewsOfScore(views, 1) == [views[2]];
    assert ViewsOfScore(views, 2) == [];
  }

  lemma ReviewTwoTypes(account: seq<byte>)
    requires |account| == 20 && AreNodes(TwoTypes(account))
    ensures ReviewOf(TwoTypes(account)) == Shown(false, TwoTypeViews(account), 0, false)
  {
    var views := TwoTypeViews(account);
    ReadTwoTypes(account);
    assert RowsIn(views)[0] == views[0].row && RowsIn(views)[2] == views[2].row;
    assert IsWanted(RowsIn(views)[0], STI_UINT16, UINT16_TRANSACTION_TYPE, true);
    assert IsWanted(RowsIn(views)[2], STI_ACCOUNT, ACCOUNT_ACCOUNT, true);
    TwoTypesInOrder(views);
    assert TopLevelFlags(RowsIn(views)) == [] by {
      var rows := RowsIn(views);
      assert rows[..2][..1][..0] == [];
      assert TopLevelFlags(rows[..2][..1]) == [];
      assert TopLevelFlags(rows[..2]) == [];
    }
    assert AllRecognized(RowsIn(views));
  }
}
