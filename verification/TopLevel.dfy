/** Which fields of a transaction are its own and which the app files as such, told
    from its tree. */
module TopLevel {
  import opened Fields
  import opened TransactionSpec
  import opened Serializer
  import opened RoundTrip
  import Wire

  // ---------- Which nodes show a row ----------

  /** Whether the row of a leaf is shown does not depend on how often it is nested. */
  predicate IsShown(id: nat, leaf: Leaf, kind: nat) {
    !IsLeftOut(id, leaf, kind)
  }

  ghost predicate ShowsRow(node: Node, kind: nat)
    decreases node
  {
    match node
    case Single(id, leaf) => IsShown(id, leaf, kind)
    case Object(_, members) => ShowRow(members, kind)
    case List(id, members) => ShowRow(members, id)
    case PathSet(_, paths) => HasStep(paths)
  }

  /** `kind` is the array recorded before the first of the fields. */
  ghost predicate ShowRow(nodes: seq<Node>, kind: nat)
    decreases nodes
  {
    nodes != [] && (ShowsRow(nodes[0], kind) || ShowRow(nodes[1..], KindAfter(nodes[0], kind)))
  }

  ghost predicate HasStep(paths: seq<seq<Step>>) {
    exists i :: 0 <= i < |paths| && paths[i] != []
  }

  lemma LeafShows(id: nat, leaf: Leaf, kind: nat, depth: nat, tally: Tally)
    requires leaf.IssuedAmount? ==> |leaf.currency| == CURRENCY_SIZE
    requires ReadLeaf(id, leaf, kind, depth, tally).ending.Finished?
    ensures ReadLeaf(id, leaf, kind, depth, tally).views != [] <==> IsShown(id, leaf, kind)
  {
    hide Concat;
  }

  lemma {:induction false} PathShows(path: seq<Step>, index1: nat, j: nat, depth: nat, tally: Tally)
    requires ReadPath(path, index1, j, depth, tally).ending.Finished?
    ensures ReadPath(path, index1, j, depth, tally).views != [] <==> path != []
    decreases path
  {
  }

  lemma {:induction false} PathsShow(paths: seq<seq<Step>>, index1: nat, depth: nat, tally: Tally)
    requires paths != [] && ReadPaths(paths, index1, depth, tally).ending.Finished?
    ensures ReadPaths(paths, index1, depth, tally).views != [] <==> HasStep(paths)
    decreases paths
  {
    hide ReadPath;
    PathShows(paths[0], index1, 1, depth, tally);
    if |paths| > 1 {
      var first := ReadPath(paths[0], index1, 1, depth, tally);
      var mark := ReadMark(first.tally, index1 < MAX_PATH_COUNT, InvalidState, first.tally);
      PathsShow(paths[1..], index1 + 1, depth, mark.tally);
      FirstOrLater(paths);
    }
  }

  lemma FirstOrLater(paths: seq<seq<Step>>)
    requires paths != []
    ensures HasStep(paths) <==> paths[0] != [] || HasStep(paths[1..])
  {
    if i :| 0 < i < |paths| && paths[i] != [] {
      assert paths[1..][i - 1] != [];
    }
  }

  lemma {:induction false} NodeShows(node: Node, kind: nat, depth: nat, tally: Tally)
    requires IsNode(node) && ReadNode(node, kind, depth, tally).ending.Finished?
    ensures ReadNode(node, kind, depth, tally).views != [] <==> ShowsRow(node, kind)
    decreases node, 0
  {
    hide ReadLeaf, ReadPaths, Read, IsShown, HasStep;
    match node
    case Single(id, leaf) =>
      LeafShows(id, leaf, kind, depth, tally);
    case Object(_, members) =>
      NodesShow(members, kind, (depth + 1) % 256, tally.(objects := tally.objects + 1));
    case List(id, members) =>
      NodesShow(members, id, depth, tally.(objects := 0));
    case PathSet(_, paths) =>
      PathsShow(paths, 1, depth, tally);
  }

  /** Fields that are read to the end show a row exactly if one of them does. */
  lemma {:induction false} NodesShow(nodes: seq<Node>, kind: nat, depth: nat, tally: Tally)
    requires AreNodes(nodes) && Read(nodes, kind, depth, tally).ending.Finished?
    ensures Read(nodes, kind, depth, tally).views != [] <==> ShowRow(nodes, kind)
    decreases nodes, 1
  {
    hide ReadNode, IsNode;
    if nodes != [] {
      hide ShowsRow;
      NodeShows(nodes[0], kind, depth, tally);
      NodesShow(nodes[1..], KindAfter(nodes[0], kind), DepthAfter(nodes[0], depth),
                ReadNode(nodes[0], kind, depth, tally).tally);
    }
  }

  /** What is shown of the inside of an object, array or path set. */
  function ViewsInside(node: Node, kind: nat, depth: nat, tally: Tally): seq<View>
    requires IsNode(node)
  {
    match node
    case Single(id, leaf) => ReadLeaf(id, leaf, kind, depth, tally).views
    case Object(_, members) => Read(members, kind, (depth + 1) % 256, tally.(objects := tally.objects + 1)).views
    case List(id, members) => Read(members, id, depth, tally.(objects := 0)).views
    case PathSet(_, paths) => ReadPaths(paths, 1, depth, tally).views
  }

  /** Markers show nothing. */
  lemma InsideIsShown(node: Node, kind: nat, depth: nat, tally: Tally)
    requires IsNode(node) && ReadNode(node, kind, depth, tally).ending.Finished?
    ensures ReadNode(node, kind, depth, tally).views == ViewsInside(node, kind, depth, tally)
  {
    hide ReadLeaf, ReadPaths, Read;
  }

  // ---------- Where the rows are ----------

  predicate IsTopLevel(row: Field) {
    row.arrayInfo.kind == ARRAY_NONE && row.depth == 0
  }

  ghost predicate AreInPathSet(views: seq<View>) {
    forall i :: 0 <= i < |views| ==> views[i].row.arrayInfo.kind == ARRAY_PATHSET
  }

  lemma {:induction false} PathIsInside(path: seq<Step>, index1: nat, j: nat, depth: nat, tally: Tally)
    ensures AreInPathSet(ReadPath(path, index1, j, depth, tally).views)
    decreases path
  {
    if path != [] {
      PathIsInside(path[1..], index1, j + 1, depth, ReadStep(path[0], index1, j, depth, tally).tally);
    }
  }

  lemma {:induction false} PathsAreInside(paths: seq<seq<Step>>, index1: nat, depth: nat, tally: Tally)
    requires paths != []
    ensures AreInPathSet(ReadPaths(paths, index1, depth, tally).views)
    decreases paths
  {
    hide ReadPath;
    PathIsInside(paths[0], index1, 1, depth, tally);
    if |paths| > 1 {
      var first := ReadPath(paths[0], index1, 1, depth, tally);
      var mark := ReadMark(first.tally, index1 < MAX_PATH_COUNT, InvalidState, first.tally);
      PathsAreInside(paths[1..], index1 + 1, depth, mark.tally);
    }
  }

  ghost predicate AllTopLevel(views: seq<View>) {
    forall i :: 0 <= i < |views| ==> IsTopLevel(views[i].row)
  }

  ghost predicate NoHashes(views: seq<View>) {
    forall i :: 0 <= i < |views| ==> views[i].row.dataType != STI_HASH256
  }

  /** A row of the field is filed in an array or an object. */
  ghost predicate FilesInside(node: Node, kind: nat, depth: nat)
    decreases node
  {
    match node
    case Single(id, leaf) => IsShown(id, leaf, kind) && !(kind == ARRAY_NONE && depth == 0)
    case Object(_, members) => FileInside(members, kind, (depth + 1) % 256)
    case List(id, members) => FileInside(members, id, depth)
    case PathSet(_, paths) => HasStep(paths)
  }

  ghost predicate FileInside(nodes: seq<Node>, kind: nat, depth: nat)
    decreases nodes
  {
    && nodes != []
    && (FilesInside(nodes[0], kind, depth)
        || FileInside(nodes[1..], KindAfter(nodes[0], kind), DepthAfter(nodes[0], depth)))
  }

  /** Entries of a vector are filed under the vector and not at top level. */
  lemma LeafPlaces(id: nat, leaf: Leaf, kind: nat, depth: nat, tally: Tally)
    requires leaf.IssuedAmount? ==> |leaf.currency| == CURRENCY_SIZE
    ensures var views := ReadLeaf(id, leaf, kind, depth, tally).views;
      forall i :: 0 <= i < |views| ==>
        (IsTopLevel(views[i].row) <==> kind == ARRAY_NONE && depth == 0) || views[i].row.dataType == STI_HASH256
  {
    hide Concat;
  }

  lemma BothTopLevel(left: seq<View>, right: seq<View>)
    ensures AllTopLevel(left + right) <==> AllTopLevel(left) && AllTopLevel(right)
  {
    hide IsTopLevel;
    if AllTopLevel(left + right) {
      assert forall i :: 0 <= i < |left| ==> left[i] == (left + right)[i];
      assert forall i :: 0 <= i < |right| ==> right[i] == (left + right)[|left| + i];
    }
  }

  lemma BothHashless(left: seq<View>, right: seq<View>)
    requires NoHashes(left + right)
    ensures NoHashes(left) && NoHashes(right)
  {
    assert forall i :: 0 <= i < |left| ==> left[i] == (left + right)[i];
    assert forall i :: 0 <= i < |right| ==> right[i] == (left + right)[|left| + i];
  }

  lemma {:induction false} NodeTopLevel(node: Node, kind: nat, depth: nat, tally: Tally)
    requires IsNode(node) && ReadNode(node, kind, depth, tally).ending.Finished?
    requires NoHashes(ReadNode(node, kind, depth, tally).views)
    ensures AllTopLevel(ReadNode(node, kind, depth, tally).views) <==> !FilesInside(node, kind, depth)
    decreases node, 0
  {
    hide ReadLeaf, ReadPaths, Read, HasStep, IsShown, IsTopLevel;
    InsideIsShown(node, kind, depth, tally);
    match node
    case Single(id, leaf) =>
      LeafShows(id, leaf, kind, depth, tally);
      LeafPlaces(id, leaf, kind, depth, tally);
      var views := ReadLeaf(id, leaf, kind, depth, tally).views;
      assert views != [] ==> views[0].row.dataType != STI_HASH256;
    case Object(_, members) =>
      NodesTopLevel(members, kind, (depth + 1) % 256, tally.(objects := tally.objects + 1));
    case List(id, members) =>
      NodesTopLevel(members, id, depth, tally.(objects := 0));
    case PathSet(_, paths) =>
      PathsShow(paths, 1, depth, tally);
      PathsAreInside(paths, 1, depth, tally);
      AllInPathSet(ReadPaths(paths, 1, depth, tally).views);
  }

  lemma AllInPathSet(views: seq<View>)
    requires AreInPathSet(views)
    ensures AllTopLevel(views) <==> views == []
  {
    assert views != [] ==> !IsTopLevel(views[0].row);
  }

  /** All rows read off fields that show no hashes are filed at top level exactly if
      none of the fields files one in an array or an object. */
  lemma {:induction false} NodesTopLevel(nodes: seq<Node>, kind: nat, depth: nat, tally: Tally)
    requires AreNodes(nodes) && Read(nodes, kind, depth, tally).ending.Finished?
    requires NoHashes(Read(nodes, kind, depth, tally).views)
    ensures AllTopLevel(Read(nodes, kind, depth, tally).views) <==> !FileInside(nodes, kind, depth)
    decreases nodes, 1
  {
    hide ReadNode, IsNode, FilesInside, NoHashes, AllTopLevel, KindAfter, DepthAfter;
    if nodes != [] {
      var first := ReadNode(nodes[0], kind, depth, tally);
      var kind', depth' := KindAfter(nodes[0], kind), DepthAfter(nodes[0], depth);
      var rest := Read(nodes[1..], kind', depth', first.tally);
      BothHashless(first.views, rest.views);
      NodeTopLevel(nodes[0], kind, depth, tally);
      NodesTopLevel(nodes[1..], kind', depth', first.tally);
      BothTopLevel(first.views, rest.views);
    } else {
      NoViewsTopLevel();
    }
  }

  lemma NoViewsTopLevel()
    ensures AllTopLevel([])
  {
  }

  /** Where the filing is true, what is shown inside something is filed inside. */
  lemma {:induction false} FlatNodeFilesInside(node: Node, kind: nat, depth: nat)
    requires IsNode(node) && IsFlatNode(node, kind, depth)
    requires kind != ARRAY_NONE || depth != 0 || !node.Single?
    ensures FilesInside(node, kind, depth) <==> ShowsRow(node, kind)
    decreases node, 0
  {
    hide IsShown, HasStep;
    match node
    case Single(_, _) =>
    case Object(_, members) => FlatFileInside(members, kind, depth + 1);
    case List(id, members) => FlatFileInside(members, id, depth);
    case PathSet(_, _) =>
  }

  lemma {:induction false} FlatFileInside(nodes: seq<Node>, kind: nat, depth: nat)
    requires AreNodes(nodes) && IsFlat(nodes, kind, depth) && (kind != ARRAY_NONE || depth != 0)
    ensures FileInside(nodes, kind, depth) <==> ShowRow(nodes, kind)
    decreases nodes, 1
  {
    hide FilesInside, ShowsRow, KindAfter, DepthAfter, IsNode, IsFlatNode;
    if nodes != [] {
      FlatNodeFilesInside(nodes[0], kind, depth);
      FlatNodeIsFiledInPlace(nodes[0], kind, depth);
      FlatFileInside(nodes[1..], kind, depth);
    }
  }

  /** Only single fields of the transaction itself show rows. */
  ghost predicate OnlyOwnRows(nodes: seq<Node>) {
    forall i :: 0 <= i < |nodes| && !nodes[i].Single? ==> !ShowsRow(nodes[i], ARRAY_NONE)
  }

  lemma {:induction false} FiledIsShown(node: Node, kind: nat, depth: nat)
    ensures FilesInside(node, kind, depth) ==> ShowsRow(node, kind)
    decreases node, 0
  {
    hide IsShown, HasStep;
    match node
    case Single(_, _) =>
    case Object(_, members) => AllFiledAreShown(members, kind, (depth + 1) % 256);
    case List(id, members) => AllFiledAreShown(members, id, depth);
    case PathSet(_, _) =>
  }

  lemma {:induction false} AllFiledAreShown(nodes: seq<Node>, kind: nat, depth: nat)
    ensures FileInside(nodes, kind, depth) ==> ShowRow(nodes, kind)
    decreases nodes, 1
  {
    hide FilesInside, ShowsRow, KindAfter, DepthAfter;
    if nodes != [] {
      FiledIsShown(nodes[0], kind, depth);
      AllFiledAreShown(nodes[1..], KindAfter(nodes[0], kind), DepthAfter(nodes[0], depth));
    }
  }

  /** If only the transaction's own fields show rows, none is filed inside; where the
      filing is true, not otherwise. */
  lemma {:induction false} OwnRowsAreFiledOutside(nodes: seq<Node>)
    requires AreNodes(nodes)
    ensures OnlyOwnRows(nodes) ==> !FileInside(nodes, ARRAY_NONE, 0)
    ensures IsFlatTransaction(nodes) ==> (OnlyOwnRows(nodes) <==> !FileInside(nodes, ARRAY_NONE, 0))
    decreases nodes
  {
    if nodes != [] {
      NoArrayAfter(nodes[0]);
      DepthFalls(nodes[0], 0);
      FiledIsShown(nodes[0], ARRAY_NONE, 0);
      if IsFlatTransaction(nodes) && !nodes[0].Single? {
        FlatNodeFilesInside(nodes[0], ARRAY_NONE, 0);
      }
      assert nodes[0].Single? ==> !FilesInside(nodes[0], ARRAY_NONE, 0);
      hide FilesInside, ShowsRow, KindAfter, DepthAfter, IsNode, IsFlatNode;
      OwnRowsAreFiledOutside(nodes[1..]);
      FirstOwnRows(nodes);
    }
  }

  lemma FirstOwnRows(nodes: seq<Node>)
    requires nodes != []
    ensures OnlyOwnRows(nodes) <==>
      (nodes[0].Single? || !ShowsRow(nodes[0], ARRAY_NONE)) && OnlyOwnRows(nodes[1..])
  {
    hide ShowsRow;
    if OnlyOwnRows(nodes) {
      assert forall i :: 0 <= i < |nodes[1..]| ==> nodes[1..][i] == nodes[i + 1];
    } else {
      var i :| 0 <= i < |nodes| && !nodes[i].Single? && ShowsRow(nodes[i], ARRAY_NONE);
      assert i > 0 ==> nodes[1..][i - 1] == nodes[i];
    }
  }

  // ---------- Types and the signing key ----------

  ghost predicate HasType(views: seq<View>, n: nat) {
    exists i :: 0 <= i < |views| && IsTransactionType(views[i].row) && views[i].row.data == U16(n)
  }

  ghost predicate NoTypeViews(views: seq<View>) {
    forall i :: 0 <= i < |views| ==> !IsTransactionType(views[i].row)
  }

  lemma LeafType(id: nat, leaf: Leaf, kind: nat, depth: nat, tally: Tally, n: nat)
    requires leaf.IssuedAmount? ==> |leaf.currency| == CURRENCY_SIZE
    requires IsLeaf(leaf) && ReadLeaf(id, leaf, kind, depth, tally).ending.Finished?
    ensures HasType(ReadLeaf(id, leaf, kind, depth, tally).views, n) <==> Single(id, leaf) == TypeNode(n)
  {
    hide Concat;
    var views := ReadLeaf(id, leaf, kind, depth, tally).views;
    if IsTypeLeaf(id, leaf) {
      assert views[0] == OwnView(id, leaf, Place(kind, tally.objects, 0), depth);
    } else {
      assert NoTypeViews(views);
    }
  }

  lemma {:induction false} PathHasNoType(path: seq<Step>, index1: nat, j: nat, depth: nat, tally: Tally)
    ensures NoTypeViews(ReadPath(path, index1, j, depth, tally).views)
    decreases path
  {
    if path != [] {
      PathHasNoType(path[1..], index1, j + 1, depth, ReadStep(path[0], index1, j, depth, tally).tally);
    }
  }

  lemma {:induction false} PathsHaveNoType(paths: seq<seq<Step>>, index1: nat, depth: nat, tally: Tally)
    requires paths != []
    ensures NoTypeViews(ReadPaths(paths, index1, depth, tally).views)
    decreases paths
  {
    hide ReadPath;
    PathHasNoType(paths[0], index1, 1, depth, tally);
    if |paths| > 1 {
      var first := ReadPath(paths[0], index1, 1, depth, tally);
      var mark := ReadMark(first.tally, index1 < MAX_PATH_COUNT, InvalidState, first.tally);
      PathsHaveNoType(paths[1..], index1 + 1, depth, mark.tally);
    }
  }

  /** The single field `target` stands in the field, or is the field. */
  ghost predicate Holds(node: Node, target: Node)
    decreases node
  {
    match node
    case Single(_, _) => node == target
    case Object(_, members) => Hold(members, target)
    case List(_, members) => Hold(members, target)
    case PathSet(_, _) => false
  }

  ghost predicate Hold(nodes: seq<Node>, target: Node)
    decreases nodes
  {
    nodes != [] && (Holds(nodes[0], target) || Hold(nodes[1..], target))
  }

  function TypeNode(n: nat): Node {
    Single(Wire.TRANSACTION_TYPE, UInt16(n))
  }

  lemma {:induction false} NodeTypes(node: Node, kind: nat, depth: nat, tally: Tally, n: nat)
    requires IsNode(node) && ReadNode(node, kind, depth, tally).ending.Finished?
    ensures HasType(ReadNode(node, kind, depth, tally).views, n) <==> Holds(node, TypeNode(n))
    decreases node, 0
  {
    hide ReadLeaf, ReadPaths, Read, IsTransactionType, HasType;
    InsideIsShown(node, kind, depth, tally);
    match node
    case Single(id, leaf) =>
      LeafType(id, leaf, kind, depth, tally, n);
    case Object(_, members) =>
      TypesAreNodes(members, kind, (depth + 1) % 256, tally.(objects := tally.objects + 1), n);
    case List(id, members) =>
      TypesAreNodes(members, id, depth, tally.(objects := 0), n);
    case PathSet(_, paths) =>
      PathsHaveNoType(paths, 1, depth, tally);
      NoTypesNone(ReadPaths(paths, 1, depth, tally).views, n);
  }

  lemma NoTypesNone(views: seq<View>, n: nat)
    requires NoTypeViews(views)
    ensures !HasType(views, n)
  {
  }

  /** A transaction read to its end shows a TransactionType of value `n` exactly if
      there is one anywhere in it: all that are not the first one at top level have
      stopped the reading. */
  lemma {:induction false} TypesAreNodes(nodes: seq<Node>, kind: nat, depth: nat, tally: Tally, n: nat)
    requires AreNodes(nodes) && Read(nodes, kind, depth, tally).ending.Finished?
    ensures HasType(Read(nodes, kind, depth, tally).views, n) <==> Hold(nodes, TypeNode(n))
    decreases nodes, 1
  {
    hide ReadNode, IsNode, HasType, Holds, KindAfter, DepthAfter;
    if nodes != [] {
      var first := ReadNode(nodes[0], kind, depth, tally);
      var kind', depth' := KindAfter(nodes[0], kind), DepthAfter(nodes[0], depth);
      NodeTypes(nodes[0], kind, depth, tally, n);
      TypesAreNodes(nodes[1..], kind', depth', first.tally, n);
      BothTypes(first.views, Read(nodes[1..], kind', depth', first.tally).views, n);
    } else {
      NoTypesNone([], n);
    }
  }

  lemma BothTypes(left: seq<View>, right: seq<View>, n: nat)
    ensures HasType(left + right, n) <==> HasType(left, n) || HasType(right, n)
  {
    hide IsTransactionType;
    var all := left + right;
    if HasType(left, n) {
      var i :| 0 <= i < |left| && IsTransactionType(left[i].row) && left[i].row.data == U16(n);
      assert all[i] == left[i];
    }
    if HasType(right, n) {
      var i :| 0 <= i < |right| && IsTransactionType(right[i].row) && right[i].row.data == U16(n);
      assert all[|left| + i] == right[i];
    }
    if HasType(all, n) {
      var i :| 0 <= i < |all| && IsTransactionType(all[i].row) && all[i].row.data == U16(n);
      assert all[i] == if i < |left| then left[i] else right[i - |left|];
    }
  }

  const EMPTY_KEY := Single(Wire.SIGNING_PUB_KEY, VariableBytes([]))

  lemma LeafEmptyKey(id: nat, leaf: Leaf, kind: nat, depth: nat, tally: Tally)
    requires leaf.IssuedAmount? ==> |leaf.currency| == CURRENCY_SIZE
    ensures var reading := ReadLeaf(id, leaf, kind, depth, tally);
      reading.tally.emptyKey
      == (tally.emptyKey
          || (reading.ending.Finished? && kind == ARRAY_NONE && depth == 0 && Single(id, leaf) == EMPTY_KEY))
  {
    hide OwnView, ExtraViews, IsHidden, IsMalformed;
  }

  /** The single field `target` stands in the field where no array and no object is
      recorded. */
  ghost predicate FilesOutside(node: Node, target: Node, kind: nat, depth: nat)
    decreases node
  {
    match node
    case Single(_, _) => node == target && kind == ARRAY_NONE && depth == 0
    case Object(_, members) => FileOutside(members, target, kind, (depth + 1) % 256)
    case List(id, members) => FileOutside(members, target, id, depth)
    case PathSet(_, _) => false
  }

  ghost predicate FileOutside(nodes: seq<Node>, target: Node, kind: nat, depth: nat)
    decreases nodes
  {
    && nodes != []
    && (FilesOutside(nodes[0], target, kind, depth)
        || FileOutside(nodes[1..], target, KindAfter(nodes[0], kind), DepthAfter(nodes[0], depth)))
  }

  lemma {:induction false} NodeEmptyKey(node: Node, kind: nat, depth: nat, tally: Tally)
    requires IsNode(node)
    ensures var reading := ReadNode(node, kind, depth, tally);
      && (reading.tally.emptyKey ==> tally.emptyKey || FilesOutside(node, EMPTY_KEY, kind, depth))
      && (tally.emptyKey ==> reading.tally.emptyKey)
      && (reading.ending.Finished? && FilesOutside(node, EMPTY_KEY, kind, depth) ==> reading.tally.emptyKey)
    decreases node, 0
  {
    hide ReadLeaf, ReadPaths, Read;
    match node
    case Single(id, leaf) =>
      LeafEmptyKey(id, leaf, kind, depth, tally);
    case Object(_, members) =>
      EmptyKeyIsANode(members, kind, (depth + 1) % 256, tally.(objects := tally.objects + 1));
    case List(id, members) =>
      EmptyKeyIsANode(members, id, depth, tally.(objects := 0));
    case PathSet(_, paths) =>
      PathsKeepTally(paths, 1, depth, tally);
  }

  /** An empty signing key is noticed only if there is one where no array and no
      object is recorded, and then it is if the transaction is read to its end. */
  lemma {:induction false} EmptyKeyIsANode(nodes: seq<Node>, kind: nat, depth: nat, tally: Tally)
    requires AreNodes(nodes)
    ensures var reading := Read(nodes, kind, depth, tally);
      && (reading.tally.emptyKey ==> tally.emptyKey || FileOutside(nodes, EMPTY_KEY, kind, depth))
      && (tally.emptyKey ==> reading.tally.emptyKey)
      && (reading.ending.Finished? && FileOutside(nodes, EMPTY_KEY, kind, depth) ==> reading.tally.emptyKey)
    decreases nodes, 1
  {
    hide ReadNode, IsNode, FilesOutside, KindAfter, DepthAfter;
    if nodes != [] {
      NodeEmptyKey(nodes[0], kind, depth, tally);
      EmptyKeyIsANode(nodes[1..], KindAfter(nodes[0], kind), DepthAfter(nodes[0], depth),
                      ReadNode(nodes[0], kind, depth, tally).tally);
    }
  }

  lemma {:induction false} FlatNodeFilesOutside(node: Node, target: Node, kind: nat, depth: nat)
    requires IsNode(node) && IsFlatNode(node, kind, depth) && (kind != ARRAY_NONE || depth != 0 || !node.Single?)
    ensures !FilesOutside(node, target, kind, depth)
    decreases node, 0
  {
    match node
    case Single(_, _) =>
    case Object(_, members) => FlatFileOutside(members, target, kind, depth + 1);
    case List(id, members) => FlatFileOutside(members, target, id, depth);
    case PathSet(_, _) =>
  }

  lemma {:induction false} FlatFileOutside(nodes: seq<Node>, target: Node, kind: nat, depth: nat)
    requires AreNodes(nodes) && IsFlat(nodes, kind, depth) && (kind != ARRAY_NONE || depth != 0)
    ensures !FileOutside(nodes, target, kind, depth)
    decreases nodes, 1
  {
    hide FilesOutside, KindAfter, DepthAfter, IsNode, IsFlatNode;
    if nodes != [] {
      FlatNodeFilesOutside(nodes[0], target, kind, depth);
      FlatNodeIsFiledInPlace(nodes[0], kind, depth);
      FlatFileOutside(nodes[1..], target, kind, depth);
    }
  }

  /** The transaction's own fields are always filed outside; where the filing is true,
      no others are. */
  lemma {:induction false} OwnFieldsAreFiledOutside(nodes: seq<Node>, target: Node)
    requires AreNodes(nodes) && target.Single?
    ensures target in nodes ==> FileOutside(nodes, target, ARRAY_NONE, 0)
    ensures IsFlatTransaction(nodes) ==> (target in nodes <==> FileOutside(nodes, target, ARRAY_NONE, 0))
    decreases nodes
  {
    if nodes != [] {
      NoArrayAfter(nodes[0]);
      DepthFalls(nodes[0], 0);
      if IsFlatTransaction(nodes) && !nodes[0].Single? {
        FlatNodeFilesOutside(nodes[0], target, ARRAY_NONE, 0);
      }
      assert nodes[0].Single? ==> (FilesOutside(nodes[0], target, ARRAY_NONE, 0) <==> nodes[0] == target);
      hide FilesOutside, KindAfter, DepthAfter, IsNode, IsFlatNode;
      OwnFieldsAreFiledOutside(nodes[1..], target);
      assert target in nodes <==> target == nodes[0] || target in nodes[1..];
    }
  }
}
