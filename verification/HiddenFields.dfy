/** Fields the parser takes for the transaction's own although they stand in an
    array: those behind an empty array in it. */
module HiddenFields {
  import opened Fields
  import opened FieldSort
  import opened TransactionSpec
  import opened Serializer
  import opened LeafRoundTrip
  import opened Review
  import opened RoundTrip
  import opened TopLevel
  import opened Address

  lemma {:induction false} ReadBoth(left: seq<Node>, right: seq<Node>, kind: nat, depth: nat, tally: Tally)
    requires AreNodes(left) && AreNodes(right) && AreNodes(left + right)
    ensures var first := Read(left, kind, depth, tally);
      Read(left + right, kind, depth, tally)
      == Then(first, Read(right, KindBehind(left, kind), DepthBehind(left, depth), first.tally))
    decreases left
  {
    hide ReadNode, IsNode, KindAfter, DepthAfter;
    var rest := Read(right, KindBehind(left, kind), DepthBehind(left, depth), Read(left, kind, depth, tally).tally);
    if left == [] {
      assert left + right == right;
      assert [] + rest.views == rest.views;
    } else {
      assert (left + right)[1..] == left[1..] + right;
      var first := ReadNode(left[0], kind, depth, tally);
      ReadBoth(left[1..], right, KindAfter(left[0], kind), DepthAfter(left[0], depth), first.tally);
      ThenThen(first, Read(left[1..], KindAfter(left[0], kind), DepthAfter(left[0], depth), first.tally), rest);
    }
  }

  lemma ReadOne(node: Node, kind: nat, depth: nat, tally: Tally)
    requires IsNode(node) && AreNodes([node])
    ensures Read([node], kind, depth, tally) == ReadNode(node, kind, depth, tally)
  {
    hide ReadNode, IsNode;
    var first := ReadNode(node, kind, depth, tally);
    assert first.views + [] == first.views;
  }

  /** An array that holds an empty array and then further fields. */
  function Hiding(outer: nat, empty: nat, inner: seq<Node>): Node {
    List(outer, [List(empty, [])] + inner)
  }

  lemma HidingIsNode(outer: nat, empty: nat, inner: seq<Node>)
    requires 2 <= outer < 256 && 2 <= empty < 256 && AreNodes(inner)
    ensures IsNode(Hiding(outer, empty, inner)) && AreNodes([Hiding(outer, empty, inner)])
    ensures IsNode(List(empty, [])) && AreNodes([List(empty, [])] + inner) && AreNodes([List(empty, [])])
  {
    assert AreNodes([]);
    assert IsNode(List(empty, []));
    hide IsNode;
    assert AreNodes([List(empty, [])] + inner);
    HidingOf(outer, [List(empty, [])] + inner);
  }

  lemma HidingOf(outer: nat, members: seq<Node>)
    requires 2 <= outer < 256 && AreNodes(members)
    ensures IsNode(List(outer, members))
  {
  }

  lemma EmptyListIsRead(empty: nat, kind: nat, tally: Tally)
    requires IsNode(List(empty, [])) && AreNodes([List(empty, [])]) && tally.rows < MAX_FIELD_COUNT
    ensures Read([List(empty, [])], kind, 0, tally) == Reading(Finished, [], tally.(objects := 0))
    ensures KindBehind([List(empty, [])], kind) == ARRAY_NONE && DepthBehind([List(empty, [])], 0) == 0
  {
    ReadOne(List(empty, []), kind, 0, tally);
    assert DepthBehind([], 0) == 0 && DepthAfter(List(empty, []), 0) == 0;
    assert [List(empty, [])][1..] == [];
  }

  /** The fields behind the empty array are read as if they stood at top level. */
  lemma HidingIsRead(outer: nat, empty: nat, inner: seq<Node>, tally: Tally)
    requires IsNode(Hiding(outer, empty, inner)) && AreNodes(inner) && IsNode(List(empty, []))
    requires AreNodes([List(empty, [])] + inner) && AreNodes([List(empty, [])])
    requires tally.rows < MAX_FIELD_COUNT
    requires var reading := Read(inner, ARRAY_NONE, 0, tally.(objects := 0));
      reading.ending.Finished? ==> reading.tally.rows < MAX_FIELD_COUNT
    ensures ReadNode(Hiding(outer, empty, inner), ARRAY_NONE, 0, tally)
         == Read(inner, ARRAY_NONE, 0, tally.(objects := 0))
  {
    hide Read, IsNode, KindBehind, DepthBehind;
    EmptyListIsRead(empty, outer, tally.(objects := 0));
    ReadBoth([List(empty, [])], inner, outer, 0, tally.(objects := 0));
    var reading := Read(inner, ARRAY_NONE, 0, tally.(objects := 0));
    assert [] + reading.views == reading.views;
    assert reading.views + [] == reading.views;
  }

  /** For all fields in front and behind: what is read and shown is what the fields in
      front show, and then what the hidden ones show at top level. */
  lemma HiddenFieldsAreRead(front: seq<Node>, outer: nat, empty: nat, inner: seq<Node>)
    requires 2 <= outer < 256 && 2 <= empty < 256 && AreNodes(front) && AreNodes(inner)
    requires ReadTransaction(front).tally.rows < MAX_FIELD_COUNT
    requires var reading := Read(inner, ARRAY_NONE, 0, ReadTransaction(front).tally.(objects := 0));
      reading.ending.Finished? ==> reading.tally.rows < MAX_FIELD_COUNT
    ensures AreNodes(front + [Hiding(outer, empty, inner)])
    ensures ReadTransaction(front + [Hiding(outer, empty, inner)])
         == Then(ReadTransaction(front), Read(inner, ARRAY_NONE, 0, ReadTransaction(front).tally.(objects := 0)))
  {
    HidingIsNode(outer, empty, inner);
    hide Read, IsNode, ReadNode, Hiding;
    var node := Hiding(outer, empty, inner);
    assert AreNodes(front + [node]);
    ReadBoth(front, [node], ARRAY_NONE, 0, NOTHING_READ);
    OutsideStaysOutside(front);
    ReadOne(node, ARRAY_NONE, 0, ReadTransaction(front).tally);
    HidingIsRead(outer, empty, inner, ReadTransaction(front).tally);
  }

  /** So hiding fields in this way changes nothing in the review, the error or the
      warning, although none of them is the transaction's own any more. */
  lemma HiddenFieldsAreReviewed(front: seq<Node>, outer: nat, empty: nat, inner: seq<Node>)
    requires 2 <= outer < 256 && 2 <= empty < 256 && AreNodes(front) && AreNodes(inner)
    requires ReadTransaction(front).ending.Finished? && ReadTransaction(front).tally.rows < MAX_FIELD_COUNT
    requires var reading := Read(inner, ARRAY_NONE, 0, ReadTransaction(front).tally.(objects := 0));
      reading.ending.Finished? && reading.tally.rows < MAX_FIELD_COUNT
    ensures AreNodes(front + [Hiding(outer, empty, inner)])
    ensures var input := Encode(front + [Hiding(outer, empty, inner)]);
      var reading := Read(inner, ARRAY_NONE, 0, ReadTransaction(front).tally.(objects := 0));
      VerdictOn(input, ParseTx(input))
      == ReviewOfAll(ReadTransaction(front).views + reading.views, reading.tally.txType, reading.tally.emptyKey)
  {
    hide Read, AreNodes, Encode, ParseTx, ReviewOfAll, Hiding;
    HiddenFieldsAreRead(front, outer, empty, inner);
    ParsingReviewsTheTransaction(front + [Hiding(outer, empty, inner)]);
  }

  lemma ListBytes(id: nat, members: seq<Node>)
    requires 2 <= id < 16 && AreNodes(members) && IsNode(List(id, members)) && AreNodes([List(id, members)])
    ensures Encode([List(id, members)]) == [0xF0 + id] + (Encode(members) + [0xF1])
  {
    assert EncodeNode(List(id, members)) == [0xF0 + id] + (Encode(members) + [0xF1]);
    hide EncodeNode, IsNode;
    var nodes := [List(id, members)];
    assert nodes[1..] == [] && Encode(nodes[1..]) == [];
  }

  /** The bytes of such an array of codes 9 and 3. */
  lemma HidingBytes(inner: seq<Node>)
    requires AreNodes(inner)
    ensures AreNodes([Hiding(9, 3, inner)])
    ensures Encode([Hiding(9, 3, inner)]) == [0xF9, 0xF3, 0xF1] + Encode(inner) + [0xF1]
  {
    HidingIsNode(9, 3, inner);
    var empty := List(3, []);
    assert Encode([]) == [];
    hide *;
    ListBytes(3, []);
    ListBytes(9, [empty] + inner);
    EncodeBoth([empty], inner);
    BytesTogether(Encode(inner));
  }

  lemma BytesTogether(bytes: seq<byte>)
    ensures [0xF3] + ([] + [0xF1]) == [0xF3, 0xF1]
    ensures [0xF9] + (([0xF3, 0xF1] + bytes) + [0xF1]) == [0xF9, 0xF3, 0xF1] + bytes + [0xF1]
  {
  }

  lemma {:induction false} EncodeBoth(left: seq<Node>, right: seq<Node>)
    requires AreNodes(left) && AreNodes(right) && AreNodes(left + right)
    ensures Encode(left + right) == Encode(left) + Encode(right)
    decreases left
  {
    hide EncodeNode, IsNode;
    if left == [] {
      assert left + right == right;
    } else {
      assert (left + right)[1..] == left[1..] + right;
      EncodeBoth(left[1..], right);
    }
  }

  // ---------- A hidden type, a hidden signing key ----------

  /** The type and the sender of a transaction. */
  function Head(txType: nat, account: AccountBytes): seq<Node> {
    [TypeNode(txType), Single(ACCOUNT_ACCOUNT, AccountId(account))]
  }

  function HeadViews(txType: nat, account: AccountBytes): seq<View> {
    [Numeric(STI_UINT16, UINT16_TRANSACTION_TYPE, NO_ARRAY, 0, 2, U16(txType)),
     Raw(STI_ACCOUNT, ACCOUNT_ACCOUNT, NO_ARRAY, 0, account)]
  }

  lemma HeadIsRead(txType: nat, account: AccountBytes)
    requires txType < TRANSACTION_INVALID
    ensures AreNodes(Head(txType, account))
    ensures ReadTransaction(Head(txType, account))
         == Reading(Finished, HeadViews(txType, account), Tally(2, 0, txType, false))
    ensures KindBehind(Head(txType, account), ARRAY_NONE) == ARRAY_NONE && DepthBehind(Head(txType, account), 0) == 0
  {
    var nodes, views := Head(txType, account), HeadViews(txType, account);
    assert nodes[1..] == [nodes[1]] && nodes[1..][1..] == [];
    assert ReadNode(nodes[0], ARRAY_NONE, 0, NOTHING_READ) == Reading(Finished, [views[0]], Tally(1, 0, txType, false));
    assert ReadNode(nodes[1], ARRAY_NONE, 0, Tally(1, 0, txType, false))
        == Reading(Finished, [views[1]], Tally(2, 0, txType, false));
    OutsideStaysOutside(nodes);
    hide ReadNode, IsNode, KindBehind, DepthBehind;
    assert Read(nodes[1..], ARRAY_NONE, 0, Tally(1, 0, txType, false))
        == Reading(Finished, [views[1]], Tally(2, 0, txType, false));
  }

  lemma {:induction false} FirstTwoInOrder(views: seq<View>, k: nat)
    requires 2 <= k <= |views| && IsTransactionType(views[0].row) && IsNormalAccount(views[1].row)
    requires forall i :: 2 <= i < |views| ==> Score(views[i].row) == 2
    ensures ViewsOfScore(views[..k], 0) == [views[0]] && ViewsOfScore(views[..k], 1) == [views[1]]
    ensures ViewsOfScore(views[..k], 2) == views[2..k]
  {
    var init := views[..k][..k - 1];
    assert init == views[..k - 1];
    if k > 2 {
      FirstTwoInOrder(views, k - 1);
    } else {
      assert init[..0] == [] && ViewsOfScore([], 0) == [] && ViewsOfScore([], 1) == [] && ViewsOfScore([], 2) == [];
      assert ViewsOfScore(init, 0) == [views[0]] && ViewsOfScore(init, 1) == [] && ViewsOfScore(init, 2) == [];
    }
    hide IsTransactionType, IsNormalAccount;
  }

  /** Views in review order, all named and with nothing against their flags, are shown as they are. */
  lemma ShownAsRead(views: seq<View>, txType: nat, emptyKey: bool)
    requires IsSupported(txType) && txType != TRANSACTION_SET_REGULAR_KEY && InReviewOrder(views) == views
    requires HasField(RowsIn(views), STI_UINT16, UINT16_TRANSACTION_TYPE, true)
    requires HasField(RowsIn(views), STI_ACCOUNT, ACCOUNT_ACCOUNT, true)
    requires !FlagsNeedBlindSigning(RowsIn(views), txType) && AllRecognized(RowsIn(views))
    ensures ReviewOfAll(views, txType, emptyKey) == Shown(false, views, txType, emptyKey)
  {
    hide HasField, FlagsNeedBlindSigning, AllRecognized, InReviewOrder, RowsIn;
  }

  lemma StartsWithHead(views: seq<View>)
    requires |views| >= 2
    requires IsWanted(views[0].row, STI_UINT16, UINT16_TRANSACTION_TYPE, true)
    requires IsWanted(views[1].row, STI_ACCOUNT, ACCOUNT_ACCOUNT, true)
    ensures HasField(RowsIn(views), STI_UINT16, UINT16_TRANSACTION_TYPE, true)
    ensures HasField(RowsIn(views), STI_ACCOUNT, ACCOUNT_ACCOUNT, true)
  {
    var rows := RowsIn(views);
    assert rows[0] == views[0].row && rows[1] == views[1].row;
    hide IsWanted, RowsIn;
  }

  /** The type, the account, and rows of no rank are in review order. */
  lemma HeadFirst(views: seq<View>)
    requires |views| >= 2 && IsTransactionType(views[0].row) && IsNormalAccount(views[1].row)
    requires forall i :: 2 <= i < |views| ==> Score(views[i].row) == 2
    ensures InReviewOrder(views) == views
  {
    FirstTwoInOrder(views, |views|);
    hide ViewsOfScore, IsTransactionType, IsNormalAccount, Score;
    assert views[..|views|] == views;
    assert [views[0]] + [views[1]] + views[2..|views|] == views;
  }

  lemma HeadIsReviewed(txType: nat, account: AccountBytes, emptyKey: bool)
    requires IsSupported(txType) && txType != TRANSACTION_SET_REGULAR_KEY
    ensures ReviewOfAll(HeadViews(txType, account), txType, emptyKey)
         == Shown(false, HeadViews(txType, account), txType, emptyKey)
  {
    var views := HeadViews(txType, account);
    StartsWithHead(views);
    HeadFirst(views);
    var rows := RowsIn(views);
    assert rows[..1][..0] == [] && rows[..1][0] == rows[0];
    assert TopLevelFlags(rows[..1]) == [];
    assert TopLevelFlags(rows) == [];
    assert AllRecognized(rows);
    hide *;
    ShownAsRead(views, txType, emptyKey);
  }

  /** A transaction whose type and sender both stand in an array is shown without a
      warning.  Item 3 of its parse, the type, is in array 9 (Outermost.BehindEmptyArray). */
  lemma HiddenTypeIsShown(txType: nat, account: AccountBytes)
    requires IsSupported(txType) && txType != TRANSACTION_SET_REGULAR_KEY
    ensures AreNodes(Head(txType, account))
    ensures var input: seq<byte> := [0xF9, 0xF3, 0xF1] + Encode(Head(txType, account)) + [0xF1];
      VerdictOn(input, ParseTx(input)) == Shown(false, HeadViews(txType, account), txType, false)
  {
    HeadIsRead(txType, account);
    HeadIsReviewed(txType, account, false);
    NothingIsRead();
    hide Read, Head, HeadViews, Hiding, IsNode, AreNodes, Encode, ParseTx, ReviewOfAll;
    HidingBytes(Head(txType, account));
    HiddenFieldsAreReviewed([], 9, 3, Head(txType, account));
    var nodes := [Hiding(9, 3, Head(txType, account))];
    assert [] + nodes == nodes;
    assert [] + HeadViews(txType, account) == HeadViews(txType, account);
  }

  lemma NothingIsRead()
    ensures AreNodes([]) && ReadTransaction([]) == Reading(Finished, [], NOTHING_READ)
  {
  }

  lemma KeyIsRead(tally: Tally)
    requires tally.rows < MAX_FIELD_COUNT
    ensures AreNodes([EMPTY_KEY])
    ensures Read([EMPTY_KEY], ARRAY_NONE, 0, tally) == Reading(Finished, [], tally.(emptyKey := true))
  {
    assert IsNode(EMPTY_KEY);
    ReadOne(EMPTY_KEY, ARRAY_NONE, 0, tally);
  }

  /** A transaction without an empty signing key of its own whose review says that it
      has one, so that the signature covers the signer's key hash. */
  lemma HiddenKeyIsTaken(txType: nat, account: AccountBytes)
    requires IsSupported(txType) && txType != TRANSACTION_SET_REGULAR_KEY
    ensures var nodes := Head(txType, account) + [Hiding(9, 3, [EMPTY_KEY])];
      && AreNodes(nodes) && EMPTY_KEY !in nodes
      && VerdictOn(Encode(nodes), ParseTx(Encode(nodes)))
         == Shown(false, HeadViews(txType, account), txType, true)
  {
    HeadIsRead(txType, account);
    HeadIsReviewed(txType, account, true);
    KeyIsRead(Tally(2, 0, txType, false));
    assert EMPTY_KEY !in Head(txType, account) && EMPTY_KEY != Hiding(9, 3, [EMPTY_KEY]);
    hide Read, Head, HeadViews, Hiding, IsNode, AreNodes, Encode, ParseTx, ReviewOfAll;
    HiddenFieldsAreReviewed(Head(txType, account), 9, 3, [EMPTY_KEY]);
    assert HeadViews(txType, account) + [] == HeadViews(txType, account);
  }
}
