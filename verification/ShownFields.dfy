/** What the review of a transaction holds, told in figures from its tree alone: which
    fields leave a row, in which order the rows stand, and what calls for a warning. */
module ShownFields {
  import opened Fields
  import opened FieldSort
  import opened TransactionSpec
  import opened Serializer
  import opened LeafRoundTrip
  import opened RoundTrip
  import opened Review
  import opened TopLevel
  import opened ClearSigning
  import Flags

  // ---------- The rows of all fields ----------

  /** Every leaf leaves its row, and the rows it brings along, but for: UINT32 4 and 27
      and VL 3 where no array is recorded, and UINT32 2, 33 and 34 of value 0 or 2^31. */
  function LeafRows(id: nat, leaf: Leaf, kind: nat, objects: nat, depth: nat): seq<View>
    requires leaf.IssuedAmount? ==> |leaf.currency| == CURRENCY_SIZE
  {
    (if || (kind == 0 && leaf.UInt32? && (id == 4 || id == 27))
        || (kind == 0 && leaf.VariableBytes? && id == 3)
        || (leaf.UInt32? && (id == 2 || id == 33 || id == 34) && (leaf.n == 0 || leaf.n == 2147483648))
     then [] else [OwnView(id, leaf, Place(kind, objects, 0), depth)])
    + ExtraViews(id, leaf, Place(kind, objects, 0), depth)
  }

  function PathRows(path: seq<Step>, index1: nat, j: nat, depth: nat): seq<View> {
    if path == [] then []
    else StepViews(path[0], ArrayInfo(1, index1, j), depth) + PathRows(path[1..], index1, j + 1, depth)
  }

  /** Paths and steps are numbered from 1. */
  function PathSetRows(paths: seq<seq<Step>>, index1: nat, depth: nat): seq<View> {
    if paths == [] then [] else PathRows(paths[0], index1, 1, depth) + PathSetRows(paths[1..], index1 + 1, depth)
  }

  /** How many objects are counted behind a field, if `objects` were before it. */
  function ObjectsAfter(node: Node, objects: nat): nat
    decreases node
  {
    match node
    case Single(_, _) => objects
    case Object(_, members) => ObjectsBehind(members, objects + 1)
    case List(_, members) => ObjectsBehind(members, 0)
    case PathSet(_, paths) => |paths|
  }

  function ObjectsBehind(nodes: seq<Node>, objects: nat): nat
    decreases nodes
  {
    if nodes == [] then objects else ObjectsBehind(nodes[1..], ObjectsAfter(nodes[0], objects))
  }

  /** Objects, arrays and path sets leave no row of their own. */
  function NodeRows(node: Node, kind: nat, depth: nat, objects: nat): seq<View>
    requires IsNode(node)
    decreases node
  {
    match node
    case Single(id, leaf) => LeafRows(id, leaf, kind, objects, depth)
    case Object(_, members) => AllRows(members, kind, (depth + 1) % 256, objects + 1)
    case List(id, members) => AllRows(members, id, depth, 0)
    case PathSet(_, paths) => PathSetRows(paths, 1, depth)
  }

  function AllRows(nodes: seq<Node>, kind: nat, depth: nat, objects: nat): seq<View>
    requires AreNodes(nodes)
    decreases nodes
  {
    if nodes == [] then []
    else NodeRows(nodes[0], kind, depth, objects)
         + AllRows(nodes[1..], KindAfter(nodes[0], kind), DepthAfter(nodes[0], depth), ObjectsAfter(nodes[0], objects))
  }

  function RowsOfTransaction(nodes: seq<Node>): seq<View>
    requires AreNodes(nodes)
  {
    AllRows(nodes, 0, 0, 0)
  }

  /** The value of the last TransactionType row, `before` if there is none. */
  function TypeOfRows(views: seq<View>, before: nat): nat {
    if views == [] then before
    else
      var last := views[|views| - 1].row;
      if last.dataType == 1 && last.id == 2 && last.data.U16? then last.data.n
      else TypeOfRows(views[..|views| - 1], before)
  }

  lemma {:induction false} TypeOfBoth(left: seq<View>, right: seq<View>, before: nat)
    ensures TypeOfRows(left + right, before) == TypeOfRows(right, TypeOfRows(left, before))
  {
    if right == [] {
      assert left + right == left;
    } else {
      var init := right[..|right| - 1];
      assert (left + right)[..|left + right| - 1] == left + init;
      TypeOfBoth(left, init, before);
    }
  }

  /** What a reading shows and counts is what the fields say. */
  ghost predicate Tells(reading: Reading, rows: seq<View>, objects: nat, before: nat) {
    && reading.views == rows && reading.tally.objects == objects
    && reading.tally.txType == TypeOfRows(rows, before)
  }

  lemma NothingTold(tally: Tally)
    ensures Tells(Reading(Finished, [], tally), [], tally.objects, tally.txType)
  {
  }

  lemma TellsOn(first: Reading, rows: seq<View>, objects: nat, before: nat, next: Reading, rows': seq<View>,
                objects': nat)
    requires first.ending.Finished? && Tells(first, rows, objects, before)
    requires Tells(next, rows', objects', first.tally.txType)
    ensures Tells(Then(first, next), rows + rows', objects', before)
  {
    TypeOfBoth(rows, rows', before);
  }

  predicate IsTypeRow(row: Field) {
    row.dataType == 1 && row.id == 2 && row.data.U16?
  }

  ghost predicate NoTypeRows(views: seq<View>) {
    forall i :: 0 <= i < |views| ==> !IsTypeRow(views[i].row)
  }

  lemma {:induction false} NoTypeIn(views: seq<View>, before: nat)
    requires NoTypeRows(views)
    ensures TypeOfRows(views, before) == before
  {
    if views != [] {
      NoTypeIn(views[..|views| - 1], before);
    }
  }

  lemma LeafTells(id: nat, leaf: Leaf, kind: nat, depth: nat, tally: Tally)
    requires IsLeaf(leaf) && ReadLeaf(id, leaf, kind, depth, tally).ending.Finished?
    ensures Tells(ReadLeaf(id, leaf, kind, depth, tally), LeafRows(id, leaf, kind, tally.objects, depth),
                  tally.objects, tally.txType)
  {
    hide Concat, TypeOfRows;
    var rows := LeafRows(id, leaf, kind, tally.objects, depth);
    if IsTypeLeaf(id, leaf) {
      assert rows == [OwnView(id, leaf, Place(kind, tally.objects, 0), depth)];
      OneRowType(rows[0], tally.txType);
    } else {
      NoTypeIn(rows, tally.txType);
    }
  }

  lemma OneRowType(view: View, before: nat)
    ensures TypeOfRows([view], before) == if IsTypeRow(view.row) then view.row.data.n else before
  {
    assert [view][..0] == [];
  }

  lemma NoTypeInBoth(left: seq<View>, right: seq<View>)
    ensures NoTypeRows(left) && NoTypeRows(right) ==> NoTypeRows(left + right)
    ensures NoTypeRows([])
  {
    hide IsTypeRow;
  }

  lemma {:induction false} PathTells(path: seq<Step>, index1: nat, j: nat, depth: nat, tally: Tally)
    requires ReadPath(path, index1, j, depth, tally).ending.Finished?
    ensures ReadPath(path, index1, j, depth, tally).views == PathRows(path, index1, j, depth)
    ensures NoTypeRows(PathRows(path, index1, j, depth))
    decreases path
  {
    if path != [] {
      PathTells(path[1..], index1, j + 1, depth, ReadStep(path[0], index1, j, depth, tally).tally);
    }
  }

  lemma {:induction false} PathsTell(paths: seq<seq<Step>>, index1: nat, depth: nat, tally: Tally)
    requires paths != [] && ReadPaths(paths, index1, depth, tally).ending.Finished?
    ensures ReadPaths(paths, index1, depth, tally).views == PathSetRows(paths, index1, depth)
    ensures ReadPaths(paths, index1, depth, tally).tally.objects == index1 + |paths| - 1
    ensures NoTypeRows(PathSetRows(paths, index1, depth))
    decreases paths
  {
    hide ReadPath, PathRows, NoTypeRows;
    PathTells(paths[0], index1, 1, depth, tally);
    NoTypeInBoth(PathRows(paths[0], index1, 1, depth), PathSetRows(paths[1..], index1 + 1, depth));
    var first := ReadPath(paths[0], index1, 1, depth, tally);
    if |paths| > 1 {
      var mark := ReadMark(first.tally, index1 < MAX_PATH_COUNT, InvalidState, first.tally);
      PathsTell(paths[1..], index1 + 1, depth, mark.tally);
    } else {
      assert PathSetRows(paths[1..], index1 + 1, depth) == [];
      assert first.views + [] == first.views;
    }
  }

  lemma {:induction false} NodeTells(node: Node, kind: nat, depth: nat, tally: Tally)
    requires IsNode(node) && ReadNode(node, kind, depth, tally).ending.Finished?
    ensures Tells(ReadNode(node, kind, depth, tally), NodeRows(node, kind, depth, tally.objects),
                  ObjectsAfter(node, tally.objects), tally.txType)
    decreases node, 0
  {
    hide ReadLeaf, ReadPaths, Read, LeafRows, PathSetRows, AllRows, TypeOfRows;
    InsideIsShown(node, kind, depth, tally);
    match node
    case Single(id, leaf) =>
      LeafTells(id, leaf, kind, depth, tally);
    case Object(_, members) =>
      AllTell(members, kind, (depth + 1) % 256, tally.(objects := tally.objects + 1));
    case List(id, members) =>
      AllTell(members, id, depth, tally.(objects := 0));
    case PathSet(_, paths) =>
      PathsTell(paths, 1, depth, tally);
      PathsKeepTally(paths, 1, depth, tally);
      NoTypeIn(PathSetRows(paths, 1, depth), tally.txType);
  }

  lemma {:induction false} AllTell(nodes: seq<Node>, kind: nat, depth: nat, tally: Tally)
    requires AreNodes(nodes) && Read(nodes, kind, depth, tally).ending.Finished?
    ensures Tells(Read(nodes, kind, depth, tally), AllRows(nodes, kind, depth, tally.objects),
                  ObjectsBehind(nodes, tally.objects), tally.txType)
    decreases nodes, 1
  {
    if nodes == [] {
      NothingTold(tally);
    } else {
      hide ReadNode, IsNode, KindAfter, DepthAfter, ObjectsAfter, NodeRows, Tells;
      var first := ReadNode(nodes[0], kind, depth, tally);
      NodeTells(nodes[0], kind, depth, tally);
      ToldCount(first, NodeRows(nodes[0], kind, depth, tally.objects), ObjectsAfter(nodes[0], tally.objects),
                tally.txType);
      AllTell(nodes[1..], KindAfter(nodes[0], kind), DepthAfter(nodes[0], depth), first.tally);
      TellsOn(first, NodeRows(nodes[0], kind, depth, tally.objects), ObjectsAfter(nodes[0], tally.objects),
              tally.txType, Read(nodes[1..], KindAfter(nodes[0], kind), DepthAfter(nodes[0], depth), first.tally),
              AllRows(nodes[1..], KindAfter(nodes[0], kind), DepthAfter(nodes[0], depth), first.tally.objects),
              ObjectsBehind(nodes[1..], first.tally.objects));
    }
  }

  lemma ToldCount(reading: Reading, rows: seq<View>, objects: nat, before: nat)
    requires Tells(reading, rows, objects, before)
    ensures reading.tally.objects == objects
  {
  }

  /** In every transaction read to its end, just these rows are read, and its type is
      the value of the last TransactionType row. */
  lemma TransactionTells(nodes: seq<Node>)
    requires AreNodes(nodes) && ReadTransaction(nodes).ending.Finished?
    ensures ReadTransaction(nodes).views == RowsOfTransaction(nodes)
    ensures ReadTransaction(nodes).tally.txType == TypeOfRows(RowsOfTransaction(nodes), 65535)
  {
    hide Read, AllRows, TypeOfRows;
    AllTell(nodes, ARRAY_NONE, 0, NOTHING_READ);
  }

  // ---------- The review ----------

  /** The types come first, then the senders outside of arrays, then all other rows. */
  function Rank(row: Field): nat {
    if row.dataType == 1 && row.id == 2 then 0
    else if row.dataType == 8 && row.id == 1 && row.arrayInfo.kind == 0 then 1
    else 2
  }

  function OfRank(views: seq<View>, rank: nat): seq<View> {
    if views == [] then []
    else OfRank(views[..|views| - 1], rank)
         + if Rank(views[|views| - 1].row) == rank then [views[|views| - 1]] else []
  }

  predicate HasRow(views: seq<View>, dataType: nat, id: nat) {
    exists i :: 0 <= i < |views| && views[i].row.dataType == dataType && views[i].row.id == id
  }

  predicate HasRowOutside(views: seq<View>, dataType: nat, id: nat) {
    exists i :: 0 <= i < |views| && views[i].row.dataType == dataType && views[i].row.id == id
                && views[i].row.arrayInfo.kind == 0
  }

  /** The types of transactions the app knows. */
  predicate IsKnownType(txType: nat) {
    || txType <= 5 || 7 <= txType <= 8 || 10 <= txType <= 21 || 25 <= txType <= 28 || txType == 30
    || 35 <= txType <= 40
  }

  /** The fields the app has a name for. */
  predicate IsNamed(dataType: nat, id: nat) {
    match dataType
    case 1 => 2 <= id <= 6
    case 2 => 1 <= id <= 4 || 10 <= id <= 12 || id == 14 || 20 <= id <= 21 || 25 <= id <= 27 || id == 29
              || 33 <= id <= 37 || 39 <= id <= 42
    case 4 => id == 1
    case 5 => id == 5 || id == 7 || 9 <= id <= 10 || id == 14 || id == 17 || 21 <= id <= 22 || id == 24
              || 28 <= id <= 29 || id == 254
    case 6 => 1 <= id <= 5 || 8 <= id <= 13 || id == 19 || 25 <= id <= 31
    case 7 => 1 <= id <= 7 || 12 <= id <= 14 || 16 <= id <= 17
    case 8 => 1 <= id <= 6 || 8 <= id <= 9
    case 14 => 10 <= id <= 12 || id == 16 || id == 27
    case 15 => 3 <= id <= 4 || 9 <= id <= 10 || id == 25
    case 16 => id == 16
    case 18 => id == 1
    case 19 => id == 4
    case 24 => 3 <= id <= 4
    case 240 => id == 1
    case _ => false
  }

  /** Bits of a Flags field that have no label, for the nine types that have labels. */
  predicate HasOtherBits(txType: nat, value: bv32) {
    match txType
    case 0 => value & 0x7FF8_FFFF != 0
    case 3 => value & 0x7FC0_FFFF != 0
    case 7 => value & 0x7FF0_FFFF != 0
    case 15 => value & 0x7FFC_FFFF != 0
    case 20 => value & 0x7FC8_FFFF != 0
    case 25 => value & 0x7FFF_FFE4 != 0
    case 27 => value & 0x7FFF_FFFE != 0
    case 36 => value & 0x7F06_FFFF != 0
    case 37 => value & 0x7F80_FFFF != 0
    case _ => false
  }

  predicate IsOwnFlags(row: Field) {
    row.dataType == 2 && row.id == 2 && row.arrayInfo.kind == 0 && row.depth == 0
  }

  function OwnFlags(views: seq<View>): seq<bv32> {
    if views == [] then []
    else OwnFlags(views[..|views| - 1])
         + if IsOwnFlags(views[|views| - 1].row) then [FlagsValue(views[|views| - 1].row)] else []
  }

  /** An unknown type, two Flags fields or a bit without a label, a field without a name. */
  predicate CallsForWarning(views: seq<View>, txType: nat) {
    || !IsKnownType(txType)
    || |OwnFlags(views)| >= 2 || (|OwnFlags(views)| == 1 && HasOtherBits(txType, OwnFlags(views)[0]))
    || exists i :: 0 <= i < |views| && !IsNamed(views[i].row.dataType, views[i].row.id)
  }

  /** The row of a SetRegularKey that names no key. */
  const NO_KEY := View(Field(8, 8, 0, Null, ArrayInfo(0, 0, 0), 0), [])

  function WithKeyRow(rows: seq<View>, txType: nat): seq<View> {
    rows + if txType == 5 && !HasRow(rows, 8, 8) then [NO_KEY] else []
  }

  /** What the review of a transaction with these rows is: refused for want of space if
      the 60 rows leave none for the one of a removed regular key, refused as not
      supported without a type or a sender outside of arrays, and otherwise shown. */
  function Expected(rows: seq<View>, txType: nat, emptyKey: bool): Verdict {
    var all := WithKeyRow(rows, txType);
    var shown := OfRank(all, 0) + OfRank(all, 1) + OfRank(all, 2);
    if |all| > |rows| >= 60 then Unreadable(NotEnoughSpace)
    else if !HasRowOutside(all, 1, 2) || !HasRowOutside(all, 8, 1) then Unreadable(NotSupported)
    else Shown(CallsForWarning(shown, txType), shown, txType, emptyKey)
  }

  // ---------- Figures and names agree ----------

  lemma {:induction false} SameRank(views: seq<View>, rank: nat)
    ensures OfRank(views, rank) == ViewsOfScore(views, rank)
  {
    if views != [] {
      SameRank(views[..|views| - 1], rank);
    }
  }

  lemma SameRows(views: seq<View>, dataType: nat, id: nat)
    ensures HasRow(views, dataType, id) <==> HasField(RowsIn(views), dataType, id, false)
    ensures HasRowOutside(views, dataType, id) <==> HasField(RowsIn(views), dataType, id, true)
  {
    var rows := RowsIn(views);
    assert forall i :: 0 <= i < |views| ==> rows[i] == views[i].row;
    if i :| 0 <= i < |views| && views[i].row.dataType == dataType && views[i].row.id == id {
      assert IsWanted(rows[i], dataType, id, false);
    }
    if HasRowOutside(views, dataType, id) {
      var i :| 0 <= i < |views| && views[i].row.dataType == dataType && views[i].row.id == id &&
        views[i].row.arrayInfo.kind == 0;
      assert IsWanted(rows[i], dataType, id, true);
    }
  }

  lemma SameTypes(txType: nat)
    ensures IsKnownType(txType) <==> IsSupported(txType) && txType != TRANSACTION_INVALID
  {
  }

  lemma SameNames(dataType: nat, id: nat)
    ensures IsNamed(dataType, id) <==> HasName(dataType, id)
  {
  }

  lemma SameBits(txType: nat, value: bv32)
    ensures HasOtherBits(txType, value) <==> Flags.HasUnknownFlags(txType, value)
  {
  }

  lemma {:induction false} SameOwnFlags(views: seq<View>)
    ensures |OwnFlags(views)| == |TopLevelFlags(RowsIn(views))|
    ensures forall i :: 0 <= i < |OwnFlags(views)| ==>
      OwnFlags(views)[i] == FlagsValue(TopLevelFlags(RowsIn(views))[i])
  {
    hide FlagsValue;
    if views != [] {
      var init := views[..|views| - 1];
      SameOwnFlags(init);
      assert RowsIn(views)[..|views| - 1] == RowsIn(init);
      assert RowsIn(views)[|views| - 1] == views[|views| - 1].row;
    }
  }

  lemma SameNamed(views: seq<View>)
    ensures AllRecognized(RowsIn(views))
      <==> forall i :: 0 <= i < |views| ==> IsNamed(views[i].row.dataType, views[i].row.id)
  {
    hide IsNamed, HasName;
    var rows := RowsIn(views);
    forall i | 0 <= i < |views| ensures IsNamed(views[i].row.dataType, views[i].row.id) <==> IsRecognized(rows[i]) {
      SameNames(views[i].row.dataType, views[i].row.id);
    }
  }

  lemma SameWarning(views: seq<View>, txType: nat)
    ensures CallsForWarning(views, txType)
      <==> txType == TRANSACTION_INVALID || !IsSupported(txType) || FlagsNeedBlindSigning(RowsIn(views), txType)
           || !AllRecognized(RowsIn(views))
  {
    SameTypes(txType);
    SameOwnFlags(views);
    SameNamed(views);
    hide IsKnownType, IsSupported, OwnFlags, TopLevelFlags, HasOtherBits, Flags.HasUnknownFlags, IsNamed, AllRecognized,
         RowsIn, FlagsValue;
    if |OwnFlags(views)| == 1 {
      SameBits(txType, OwnFlags(views)[0]);
    }
  }

  lemma JudgedAsExpected(rows: seq<View>, txType: nat, emptyKey: bool)
    ensures ReviewOfAll(rows, txType, emptyKey) == Expected(rows, txType, emptyKey)
  {
    var all := WithKeyRow(rows, txType);
    var shown := OfRank(all, 0) + OfRank(all, 1) + OfRank(all, 2);
    SameRows(rows, 8, 8);
    SameRows(all, 1, 2);
    SameRows(all, 8, 1);
    SameRank(all, 0);
    SameRank(all, 1);
    SameRank(all, 2);
    SameWarning(shown, txType);
    assert rows + [] == rows;
    hide HasRow, HasRowOutside, HasField, OfRank, ViewsOfScore, CallsForWarning, IsSupported, FlagsNeedBlindSigning,
         AllRecognized, RowsIn;
  }

  // ---------- The theorem ----------

  /** Serializing a transaction that is read to its end and parsing the bytes leads to
      just this review. */
  lemma TransactionIsShownAsExpected(nodes: seq<Node>)
    requires AreNodes(nodes) && ReadTransaction(nodes).ending.Finished?
    ensures var rows := RowsOfTransaction(nodes);
      VerdictOn(Encode(nodes), ParseTx(Encode(nodes)))
      == Expected(rows, TypeOfRows(rows, 65535), FileOutside(nodes, Single(3, VariableBytes([])), 0, 0))
  {
    TransactionTells(nodes);
    ParsingReviewsTheTransaction(nodes);
    EmptyKeyIsANode(nodes, ARRAY_NONE, 0, NOTHING_READ);
    var rows := RowsOfTransaction(nodes);
    hide AllRows, ReviewOfAll, Expected, TypeOfRows, ParseTx, Encode, AreNodes, Read, FileOutside;
    JudgedAsExpected(rows, TypeOfRows(rows, 65535), FileOutside(nodes, Single(3, VariableBytes([])), 0, 0));
  }

  // ---------- Reviews of any bytes ----------

  lemma {:induction false} OwnFlagsAreFound(rows: seq<Field>, i: nat)
    requires i < |rows| && IsOwnFlags(rows[i])
    ensures rows[i] in TopLevelFlags(rows)
  {
    var init := rows[..|rows| - 1];
    if i < |init| {
      OwnFlagsAreFound(init, i);
    }
  }

  /** For all bytes shown without a warning: the type is one the app knows, all rows have
      names, the types stand first and then the senders outside of arrays, there is at
      least one of both, and the Flags filed at top level have no bit without a label. */
  lemma ClearReviewInFigures(input: seq<byte>, rows: seq<Field>, txType: nat, emptyKey: bool)
    returns (types: nat, accounts: nat)
    requires ParseTx(input) == Reviewable(false, rows, txType, emptyKey)
    ensures IsKnownType(txType) && types > 0 && accounts > 0 && types + accounts <= |rows|
    ensures forall i :: 0 <= i < |rows| ==>
      && IsNamed(rows[i].dataType, rows[i].id)
      && (i < types <==> rows[i].dataType == 1 && rows[i].id == 2)
      && (types <= i < types + accounts <==>
          rows[i].dataType == 8 && rows[i].id == 1 && rows[i].arrayInfo.kind == 0)
      && (IsOwnFlags(rows[i]) ==> !HasOtherBits(txType, FlagsValue(rows[i])))
    ensures forall i :: 0 <= i < types ==>
      rows[i].depth == 0 && rows[i].arrayInfo.kind == 0 && rows[i].data == U16(if i == types - 1 then txType else 65535)
  {
    types := ClearSigningIsSound(input, rows, txType, emptyKey);
    accounts := ClearAccounts(input, rows, txType, emptyKey, types);
    SameTypes(txType);
    hide ParseTx, IsKnownType, IsSupported, IsNamed, HasName, TopLevelFlags, HasOtherBits, Flags.HasUnknownFlags,
         FlagsValue;
    forall i | 0 <= i < |rows|
      ensures IsNamed(rows[i].dataType, rows[i].id)
      ensures IsOwnFlags(rows[i]) ==> !HasOtherBits(txType, FlagsValue(rows[i]))
    {
      SameNames(rows[i].dataType, rows[i].id);
      SameBits(txType, FlagsValue(rows[i]));
      if IsOwnFlags(rows[i]) {
        OwnFlagsAreFound(rows, i);
      }
    }
  }

  lemma ClearAccounts(input: seq<byte>, rows: seq<Field>, txType: nat, emptyKey: bool, types: nat)
    returns (accounts: nat)
    requires ParseTx(input) == Reviewable(false, rows, txType, emptyKey) && types <= |rows|
    requires forall i :: 0 <= i < |rows| ==> (IsTransactionType(rows[i]) <==> i < types)
    ensures 0 < accounts && types + accounts <= |rows|
    ensures forall i :: 0 <= i < |rows| ==>
      (types <= i < types + accounts
       <==> rows[i].dataType == 8 && rows[i].id == 1 && rows[i].arrayInfo.kind == 0)
  {
    var all := ClearRowsAreSorted(input, rows, txType, emptyKey);
    hide ParseTx, Sorted;
    var first;
    first, accounts := SortedInFigures(all);
    SameBorder(rows, first, types);
    var j :| 0 <= j < |all| && IsWanted(all[j], STI_ACCOUNT, ACCOUNT_ACCOUNT, true);
    SortedMembers(all, all[j]);
  }

  lemma SameBorder(rows: seq<Field>, first: nat, types: nat)
    requires first <= |rows| && types <= |rows|
    requires forall i :: 0 <= i < |rows| ==> (i < first <==> rows[i].dataType == 1 && rows[i].id == 2)
    requires forall i :: 0 <= i < |rows| ==> (IsTransactionType(rows[i]) <==> i < types)
    ensures first == types
  {
    var atFirst := if first < |rows| then rows[first] else ZERO_FIELD;
    var atTypes := if types < |rows| then rows[types] else ZERO_FIELD;
    assert IsTransactionType(atFirst) <==> first < types && first < |rows|;
    assert IsTransactionType(atTypes) <==> types < first && types < |rows|;
  }

  lemma ClearRowsAreSorted(input: seq<byte>, rows: seq<Field>, txType: nat, emptyKey: bool) returns (all: seq<Field>)
    requires ParseTx(input) == Reviewable(false, rows, txType, emptyKey)
    ensures rows == Sorted(all) && HasField(all, STI_ACCOUNT, ACCOUNT_ACCOUNT, true)
  {
    hide ParseItems, RowsOf, HasField, Sorted, IsSupported, FlagsNeedBlindSigning, AllRecognized, NeedsRegularKeyRow,
         EmptyRegularKey;
    var run := ParseLoop(input);
    var read := RowsOf(run.items);
    all := if NeedsRegularKeyRow(read, run.frame.txType) then read + [EmptyRegularKey(run.frame)] else read;
  }
}
