/** What the review of a transaction says of regular keys. */
module RegularKey {
  import opened Fields
  import opened TransactionSpec
  import opened Serializer
  import opened Review
  import opened TopLevel
  import opened ShownFields

  /** A row of the regular key `k`. */
  ghost predicate ShowsKey(views: seq<View>, k: seq<byte>) {
    exists i :: 0 <= i < |views| && IsKeyView(views[i]) && views[i].bytes == k
  }

  predicate IsKeyView(view: View) {
    view.row.dataType == 8 && view.row.id == 8
  }

  lemma ShowsKeyInBoth(left: seq<View>, right: seq<View>, k: seq<byte>)
    ensures ShowsKey(left + right, k) <==> ShowsKey(left, k) || ShowsKey(right, k)
  {
    hide IsKeyView;
    var all := left + right;
    if ShowsKey(left, k) {
      var i :| 0 <= i < |left| && IsKeyView(left[i]) && left[i].bytes == k;
      assert all[i] == left[i];
    }
    if ShowsKey(right, k) {
      var i :| 0 <= i < |right| && IsKeyView(right[i]) && right[i].bytes == k;
      assert all[|left| + i] == right[i];
    }
    if ShowsKey(all, k) {
      var i :| 0 <= i < |all| && IsKeyView(all[i]) && all[i].bytes == k;
      assert all[i] == if i < |left| then left[i] else right[i - |left|];
    }
  }

  lemma LeafKey(id: nat, leaf: Leaf, kind: nat, objects: nat, depth: nat, k: seq<byte>)
    requires IsLeaf(leaf)
    ensures ShowsKey(LeafRows(id, leaf, kind, objects, depth), k) <==> id == 8 && leaf == AccountId(k)
  {
    hide Concat;
    var rows := LeafRows(id, leaf, kind, objects, depth);
    if id == 8 && leaf == AccountId(k) {
      assert rows[0].bytes == k;
    }
  }

  lemma {:induction false} PathsShowNoKey(paths: seq<seq<Step>>, index1: nat, depth: nat, k: seq<byte>)
    ensures !ShowsKey(PathSetRows(paths, index1, depth), k)
    decreases paths
  {
    hide PathRows, ShowsKey;
    if paths != [] {
      PathShowsNoKey(paths[0], index1, 1, depth, k);
      PathsShowNoKey(paths[1..], index1 + 1, depth, k);
      ShowsKeyInBoth(PathRows(paths[0], index1, 1, depth), PathSetRows(paths[1..], index1 + 1, depth), k);
    } else {
      NothingShowsNoKey(k);
    }
  }

  lemma NothingShowsNoKey(k: seq<byte>)
    ensures !ShowsKey([], k)
  {
  }

  lemma {:induction false} PathShowsNoKey(path: seq<Step>, index1: nat, j: nat, depth: nat, k: seq<byte>)
    ensures !ShowsKey(PathRows(path, index1, j, depth), k)
    decreases path
  {
    if path != [] {
      PathShowsNoKey(path[1..], index1, j + 1, depth, k);
      ShowsKeyInBoth(StepViews(path[0], ArrayInfo(1, index1, j), depth), PathRows(path[1..], index1, j + 1, depth), k);
    }
  }

  lemma {:induction false} NodeKey(node: Node, kind: nat, depth: nat, objects: nat, k: seq<byte>)
    requires IsNode(node)
    ensures ShowsKey(NodeRows(node, kind, depth, objects), k) <==> Holds(node, Single(8, AccountId(k)))
    decreases node, 0
  {
    hide LeafRows, PathSetRows, AllRows, ShowsKey;
    match node
    case Single(id, leaf) => LeafKey(id, leaf, kind, objects, depth, k);
    case Object(_, members) => AllKeys(members, kind, (depth + 1) % 256, objects + 1, k);
    case List(id, members) => AllKeys(members, id, depth, 0, k);
    case PathSet(_, paths) => PathsShowNoKey(paths, 1, depth, k);
  }

  /** The regular keys shown are those the transaction holds, wherever they stand. */
  lemma {:induction false} AllKeys(nodes: seq<Node>, kind: nat, depth: nat, objects: nat, k: seq<byte>)
    requires AreNodes(nodes)
    ensures ShowsKey(AllRows(nodes, kind, depth, objects), k) <==> Hold(nodes, Single(8, AccountId(k)))
    decreases nodes, 1
  {
    hide NodeRows, ShowsKey, Holds, IsNode, KindAfter, DepthAfter, ObjectsAfter;
    if nodes != [] {
      var kind', depth', objects' := KindAfter(nodes[0], kind), DepthAfter(nodes[0], depth),
                                     ObjectsAfter(nodes[0], objects);
      NodeKey(nodes[0], kind, depth, objects, k);
      AllKeys(nodes[1..], kind', depth', objects', k);
      ShowsKeyInBoth(NodeRows(nodes[0], kind, depth, objects), AllRows(nodes[1..], kind', depth', objects'), k);
    } else {
      NothingShowsNoKey(k);
    }
  }

  lemma {:induction false} OfRankMembers(views: seq<View>, rank: nat, view: View)
    ensures view in OfRank(views, rank) <==> view in views && Rank(view.row) == rank
  {
    hide Rank;
    if views != [] {
      var init := views[..|views| - 1];
      OfRankMembers(init, rank, view);
      assert view in views <==> view in init || view == views[|views| - 1];
    }
  }

  lemma SameKeys(rows: seq<View>, shown: seq<View>, k: seq<byte>)
    requires forall view :: view in shown <==> view in rows
    ensures ShowsKey(shown, k) <==> ShowsKey(rows, k)
  {
    hide IsKeyView;
    if ShowsKey(shown, k) {
      var i :| 0 <= i < |shown| && IsKeyView(shown[i]) && shown[i].bytes == k;
      assert shown[i] in rows;
      var j :| 0 <= j < |rows| && rows[j] == shown[i];
    }
    if ShowsKey(rows, k) {
      var i :| 0 <= i < |rows| && IsKeyView(rows[i]) && rows[i].bytes == k;
      assert rows[i] in shown;
      var j :| 0 <= j < |shown| && shown[j] == rows[i];
    }
  }

  lemma ShownAreRows(all: seq<View>, view: View)
    ensures view in OfRank(all, 0) + OfRank(all, 1) + OfRank(all, 2) <==> view in all
  {
    OfRankMembers(all, 0, view);
    OfRankMembers(all, 1, view);
    OfRankMembers(all, 2, view);
  }

  /** The row of a removed regular key is shown exactly if a SetRegularKey names none. */
  lemma NoKeyRow(rows: seq<View>, txType: nat)
    requires NO_KEY !in rows
    ensures NO_KEY in WithKeyRow(rows, txType) <==> txType == 5 && !HasRow(rows, 8, 8)
  {
    hide HasRow;
  }

  lemma KeysOfRows(rows: seq<View>)
    ensures HasRow(rows, 8, 8) <==> exists k :: ShowsKey(rows, k)
  {
    if i :| 0 <= i < |rows| && IsKeyView(rows[i]) {
      assert ShowsKey(rows, rows[i].bytes);
    }
  }

  /** In the review of any transaction read to its end: a regular key of 20 bytes is
      shown exactly if the transaction holds it; and that a key is taken away exactly in
      a SetRegularKey that holds none. */
  lemma RegularKeyIsShown(nodes: seq<Node>, k: seq<byte>)
    requires AreNodes(nodes) && ReadTransaction(nodes).ending.Finished? && |k| == 20
    requires ParseTx(Encode(nodes)).Reviewable?
    ensures var review := VerdictOn(Encode(nodes), ParseTx(Encode(nodes)));
      && (ShowsKey(review.views, k) <==> Hold(nodes, Single(8, AccountId(k))))
      && (NO_KEY in review.views <==>
            review.txType == 5 && forall k' :: |k'| == 20 ==> !Hold(nodes, Single(8, AccountId(k'))))
  {
    var rows := RowsOfTransaction(nodes);
    var txType := TypeOfRows(rows, 65535);
    TransactionIsShownAsExpected(nodes);
    TransactionTells(nodes);
    AllAreFull(nodes, ARRAY_NONE, 0, NOTHING_READ);
    var all := WithKeyRow(rows, txType);
    hide ParseTx, Encode, AreNodes, Read, AllRows, TypeOfRows, CallsForWarning, HasRowOutside, OfRank, ShowsKey, HasRow,
         FileOutside, Hold, WithKeyRow, AccountsAreFull;
    var shown := OfRank(all, 0) + OfRank(all, 1) + OfRank(all, 2);
    forall view ensures view in shown <==> view in all {
      ShownAreRows(all, view);
    }
    SameKeys(all, shown, k);
    KeysWithRow(rows, txType, k);
    NoKeyRow(rows, txType);
    KeysOfRows(rows);
    forall k' ensures ShowsKey(rows, k') <==> Hold(nodes, Single(8, AccountId(k'))) {
      AllKeys(nodes, 0, 0, 0, k');
    }
    forall k' ensures ShowsKey(rows, k') ==> |k'| == 20 {
      KeyIsFull(rows, k');
    }
  }

  lemma KeysWithRow(rows: seq<View>, txType: nat, k: seq<byte>)
    requires k != []
    ensures ShowsKey(WithKeyRow(rows, txType), k) <==> ShowsKey(rows, k)
  {
    hide HasRow, ShowsKey;
    assert !ShowsKey([NO_KEY], k) && !ShowsKey([], k) by {
      NoKeyInRow(k);
      NothingShowsNoKey(k);
    }
    ShowsKeyInBoth(rows, [NO_KEY], k);
    assert rows + [] == rows;
  }

  lemma NoKeyInRow(k: seq<byte>)
    requires k != []
    ensures !ShowsKey([NO_KEY], k)
  {
  }

  /** Accounts that are read have 20 bytes. */
  ghost predicate AccountsAreFull(views: seq<View>) {
    forall i :: 0 <= i < |views| && IsKeyView(views[i]) ==> |views[i].bytes| == 20
  }

  lemma FullInBoth(left: seq<View>, right: seq<View>)
    requires AccountsAreFull(left) && AccountsAreFull(right)
    ensures AccountsAreFull(left + right)
  {
    hide IsKeyView;
  }

  lemma LeafIsFull(id: nat, leaf: Leaf, kind: nat, depth: nat, tally: Tally)
    requires IsLeaf(leaf)
    ensures AccountsAreFull(ReadLeaf(id, leaf, kind, depth, tally).views)
  {
    hide Concat;
  }

  lemma {:induction false} PathIsFull(path: seq<Step>, index1: nat, j: nat, depth: nat, tally: Tally)
    ensures AccountsAreFull(ReadPath(path, index1, j, depth, tally).views)
    decreases path
  {
    if path != [] {
      PathIsFull(path[1..], index1, j + 1, depth, ReadStep(path[0], index1, j, depth, tally).tally);
    }
  }

  lemma {:induction false} PathsAreFull(paths: seq<seq<Step>>, index1: nat, depth: nat, tally: Tally)
    requires paths != []
    ensures AccountsAreFull(ReadPaths(paths, index1, depth, tally).views)
    decreases paths
  {
    hide ReadPath, IsKeyView;
    PathIsFull(paths[0], index1, 1, depth, tally);
    if |paths| > 1 {
      var first := ReadPath(paths[0], index1, 1, depth, tally);
      var mark := ReadMark(first.tally, index1 < MAX_PATH_COUNT, InvalidState, first.tally);
      PathsAreFull(paths[1..], index1 + 1, depth, mark.tally);
    }
  }

  lemma {:induction false} NodeIsFull(node: Node, kind: nat, depth: nat, tally: Tally)
    requires IsNode(node)
    ensures AccountsAreFull(ReadNode(node, kind, depth, tally).views)
    decreases node, 0
  {
    hide ReadLeaf, ReadPaths, Read, IsKeyView;
    match node
    case Single(id, leaf) => LeafIsFull(id, leaf, kind, depth, tally);
    case Object(_, members) => AllAreFull(members, kind, (depth + 1) % 256, tally.(objects := tally.objects + 1));
    case List(id, members) => AllAreFull(members, id, depth, tally.(objects := 0));
    case PathSet(_, paths) => PathsAreFull(paths, 1, depth, tally);
  }

  lemma {:induction false} AllAreFull(nodes: seq<Node>, kind: nat, depth: nat, tally: Tally)
    requires AreNodes(nodes)
    ensures AccountsAreFull(Read(nodes, kind, depth, tally).views)
    decreases nodes, 1
  {
    hide ReadNode, IsNode, KindAfter, DepthAfter, AccountsAreFull;
    if nodes != [] {
      var first := ReadNode(nodes[0], kind, depth, tally);
      var rest := Read(nodes[1..], KindAfter(nodes[0], kind), DepthAfter(nodes[0], depth), first.tally);
      NodeIsFull(nodes[0], kind, depth, tally);
      AllAreFull(nodes[1..], KindAfter(nodes[0], kind), DepthAfter(nodes[0], depth), first.tally);
      FullInBoth(first.views, rest.views);
    } else {
      NothingIsFull();
    }
  }

  lemma NothingIsFull()
    ensures AccountsAreFull([])
  {
  }

  lemma KeyIsFull(rows: seq<View>, k: seq<byte>)
    requires AccountsAreFull(rows)
    ensures ShowsKey(rows, k) ==> |k| == 20
    ensures NO_KEY !in rows
  {
  }
}
