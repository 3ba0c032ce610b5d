/** Swaps whose fields are not the transaction's own, and which are accepted and
    shown as if they were. */
module NestedSwaps {
  import opened Fields
  import opened FieldSort
  import opened TransactionSpec
  import opened Serializer
  import opened LeafRoundTrip
  import opened Review
  import opened TopLevel
  import opened OwnFields
  import opened HiddenFields
  import opened TypedRows
  import opened Address
  import opened Swap
  import Decimal
  import Flags
  import Numerals

  // ---------- The transactions ----------

  function SwapMembers(destination: AccountBytes, amount: seq<byte>, fee: seq<byte>): seq<Node> {
    [Single(UINT32_DESTINATION_TAG, UInt32(7)), Single(AMOUNT_AMOUNT, NativeAmount(amount)),
     Single(AMOUNT_FEE, NativeAmount(fee)), Single(ACCOUNT_DESTINATION, AccountId(destination))]
  }

  /** Inside an object, or hidden in an array behind an empty one. */
  function Wrapped(hidden: bool, members: seq<Node>): Node {
    if hidden then Hiding(9, 3, members) else Object(10, members)
  }

  /** A Payment whose tag, amount, fee and destination are not its own fields. */
  function NestedSwap(hidden: bool, account: AccountBytes, destination: AccountBytes, amount: seq<byte>,
                      fee: seq<byte>): seq<Node> {
    Head(Flags.TRANSACTION_PAYMENT, account) + [Wrapped(hidden, SwapMembers(destination, amount, fee))]
  }

  // ---------- What is read of them ----------

  function MemberViews(destination: AccountBytes, amount: seq<byte>, fee: seq<byte>, depth: nat): seq<View> {
    [Numeric(STI_UINT32, UINT32_DESTINATION_TAG, NO_ARRAY, depth, 4, U32(7)),
     Raw(STI_AMOUNT, AMOUNT_AMOUNT, NO_ARRAY, depth, amount),
     Raw(STI_AMOUNT, AMOUNT_FEE, NO_ARRAY, depth, fee),
     Raw(STI_ACCOUNT, ACCOUNT_DESTINATION, NO_ARRAY, depth, destination)]
  }

  /** The rows hidden in an array are filed at depth 0, those in an object at depth 1. */
  function SwapViews(hidden: bool, account: AccountBytes, destination: AccountBytes, amount: seq<byte>,
                     fee: seq<byte>): seq<View> {
    HeadViews(Flags.TRANSACTION_PAYMENT, account) + MemberViews(destination, amount, fee, if hidden then 0 else 1)
  }

  /** A native amount of `drops` on the wire. */
  ghost predicate IsDropsBytes(bytes: seq<byte>, drops: nat) {
    |bytes| == 8 && bytes[0] < 128 && Numerals.Value(256, bytes) == Numerals.TWO_62 + drops
  }

  /** A field with one row and nothing to remember. */
  lemma PlainIsRead(id: nat, leaf: Leaf, depth: nat, tally: Tally)
    requires !leaf.IssuedAmount? && !IsMalformed(leaf) && tally.rows < MAX_FIELD_COUNT
    requires ExtraViews(id, leaf, NO_ARRAY, depth) == [] && !IsLeftOut(id, leaf, ARRAY_NONE)
    requires !IsTypeLeaf(id, leaf) && !IsEmptyKeyLeaf(id, leaf)
    ensures ReadLeaf(id, leaf, ARRAY_NONE, depth, tally)
         == Reading(Finished, [OwnView(id, leaf, NO_ARRAY, depth)], tally.(rows := tally.rows + 1))
  {
    hide OwnView, ExtraViews, IsLeftOut, IsMalformed, IsTypeLeaf, IsEmptyKeyLeaf;
  }

  lemma SwapLeaf(i: nat, destination: AccountBytes, amount: seq<byte>, fee: seq<byte>, depth: nat, tally: Tally)
    requires |amount| == 8 && amount[0] < 128 && |fee| == 8 && fee[0] < 128 && tally.rows < MAX_FIELD_COUNT && i < 4
    ensures var member := SwapMembers(destination, amount, fee)[i];
      && member.Single? && IsNode(member)
      && ReadNode(member, ARRAY_NONE, depth, tally)
         == Reading(Finished, [MemberViews(destination, amount, fee, depth)[i]], tally.(rows := tally.rows + 1))
  {
    var member := SwapMembers(destination, amount, fee)[i];
    hide ReadLeaf;
    PlainIsRead(member.id, member.leaf, depth, tally);
  }

  lemma MembersAreRead(destination: AccountBytes, amount: seq<byte>, fee: seq<byte>, depth: nat, objects: nat)
    requires |amount| == 8 && amount[0] < 128 && |fee| == 8 && fee[0] < 128
    ensures var members, views := SwapMembers(destination, amount, fee), MemberViews(destination, amount, fee, depth);
      AreNodes(members)
      && Read(members, ARRAY_NONE, depth, Tally(2, objects, 0, false))
         == Reading(Finished, views, Tally(6, objects, 0, false))
  {
    var members, views := SwapMembers(destination, amount, fee), MemberViews(destination, amount, fee, depth);
    SwapLeaf(0, destination, amount, fee, depth, Tally(2, objects, 0, false));
    SwapLeaf(1, destination, amount, fee, depth, Tally(3, objects, 0, false));
    SwapLeaf(2, destination, amount, fee, depth, Tally(4, objects, 0, false));
    SwapLeaf(3, destination, amount, fee, depth, Tally(5, objects, 0, false));
    hide ReadNode, IsNode, SwapMembers, MemberViews;
    var three, two, one := members[1..], members[1..][1..], members[1..][1..][1..];
    assert three == [members[1], members[2], members[3]] && two == [members[2], members[3]] && one == [members[3]];
    assert one[1..] == [] && AreNodes(members);
    assert Read(one, ARRAY_NONE, depth, Tally(5, objects, 0, false))
        == Reading(Finished, [views[3]], Tally(6, objects, 0, false));
    assert Read(two, ARRAY_NONE, depth, Tally(4, objects, 0, false))
        == Reading(Finished, [views[2], views[3]], Tally(6, objects, 0, false));
    assert Read(three, ARRAY_NONE, depth, Tally(3, objects, 0, false))
        == Reading(Finished, [views[1], views[2], views[3]], Tally(6, objects, 0, false));
  }

  lemma ObjectIsRead(members: seq<Node>, views: seq<View>)
    requires AreNodes(members)
    requires Read(members, ARRAY_NONE, 1, Tally(2, 1, 0, false)) == Reading(Finished, views, Tally(6, 1, 0, false))
    ensures IsNode(Object(10, members)) && AreNodes([Object(10, members)])
    ensures Read([Object(10, members)], ARRAY_NONE, 0, Tally(2, 0, 0, false))
         == Reading(Finished, views, Tally(6, 1, 0, false))
  {
    hide Read;
    assert [] + (views + []) == views;
    ReadOne(Object(10, members), ARRAY_NONE, 0, Tally(2, 0, 0, false));
  }

  lemma SwapIsRead(hidden: bool, account: AccountBytes, destination: AccountBytes, amount: seq<byte>, fee: seq<byte>)
    requires |amount| == 8 && amount[0] < 128 && |fee| == 8 && fee[0] < 128
    ensures var nodes := NestedSwap(hidden, account, destination, amount, fee);
      && AreNodes(nodes)
      && ReadTransaction(nodes) == Reading(Finished, SwapViews(hidden, account, destination, amount, fee),
                                           Tally(6, if hidden then 0 else 1, 0, false))
  {
    HeadIsRead(Flags.TRANSACTION_PAYMENT, account);
    hide Read, Head, HeadViews, SwapMembers, MemberViews, Hiding, IsNode, AreNodes;
    var head, members := Head(Flags.TRANSACTION_PAYMENT, account), SwapMembers(destination, amount, fee);
    if hidden {
      MembersAreRead(destination, amount, fee, 0, 0);
      HiddenFieldsAreRead(head, 9, 3, members);
    } else {
      MembersAreRead(destination, amount, fee, 1, 1);
      ObjectIsRead(members, MemberViews(destination, amount, fee, 1));
      AllNodes(head, Object(10, members));
      ReadBoth(head, [Object(10, members)], ARRAY_NONE, 0, NOTHING_READ);
    }
  }

  lemma AllNodes(head: seq<Node>, node: Node)
    requires AreNodes(head) && IsNode(node)
    ensures AreNodes(head + [node])
  {
    hide IsNode;
  }

  // ---------- Their review ----------

  lemma SwapIsReviewed(hidden: bool, account: AccountBytes, destination: AccountBytes, amount: seq<byte>,
                       fee: seq<byte>)
    requires |amount| == 8 && amount[0] < 128 && |fee| == 8 && fee[0] < 128
    ensures var views := SwapViews(hidden, account, destination, amount, fee);
      ReviewOfAll(views, Flags.TRANSACTION_PAYMENT, false) == Shown(false, views, Flags.TRANSACTION_PAYMENT, false)
  {
    var views := SwapViews(hidden, account, destination, amount, fee);
    StartsWithHead(views);
    HeadFirst(views);
    var rows := RowsIn(views);
    assert forall i :: 0 <= i < 6 ==> rows[i] == views[i].row;
    assert NoFlags(rows) && AllRecognized(rows);
    NoFlagsNoDoubt(rows);
    hide SwapViews, RowsIn, InReviewOrder, TopLevelFlags, AllRecognized, HasField, NoFlags;
    ShownAsRead(views, Flags.TRANSACTION_PAYMENT, false);
  }

  // ---------- Their approval ----------

  lemma ViewAt(input: seq<byte>, rows: seq<Field>, i: nat)
    requires i < |rows|
    ensures ViewsOf(input, rows)[i] == ViewOf(input, rows[i])
  {
  }

  /** What a view of 8 or 20 bytes says of its row. */
  lemma RowBehindView(input: seq<byte>, row: Field, dataType: nat, id: nat, info: ArrayInfo, depth: nat,
                      bytes: seq<byte>)
    requires IsTyped(input, row) && ViewOf(input, row) == Raw(dataType, id, info, depth, bytes)
    requires (dataType == STI_AMOUNT && |bytes| == 8)
          || (dataType == STI_ACCOUNT && id != ACCOUNT_REGULAR_KEY && |bytes| == 20)
    ensures row.dataType == dataType && row.id == id && row.length == |bytes| && row.depth == depth
    ensures row.data.Ptr? && row.data.pos + |bytes| <= |input| && input[row.data.pos..row.data.pos + |bytes|] == bytes
  {
  }

  lemma DropsBehindView(input: seq<byte>, row: Field, id: nat, depth: nat, bytes: seq<byte>, drops: nat)
    requires IsTyped(input, row) && ViewOf(input, row) == Raw(STI_AMOUNT, id, NO_ARRAY, depth, bytes)
    requires IsDropsBytes(bytes, drops)
    ensures IsDrops(input, row, id, drops) && row.depth == depth
  {
    RowBehindView(input, row, STI_AMOUNT, id, NO_ARRAY, depth, bytes);
  }

  lemma AddressBehindView(sha256: seq<byte> -> Digest, input: seq<byte>, row: Field, depth: nat, account: AccountBytes)
    requires IsTyped(input, row)
    requires ViewOf(input, row) == Raw(STI_ACCOUNT, ACCOUNT_DESTINATION, NO_ARRAY, depth, account)
    ensures IsAccountOf(sha256, input, row, AddressText(sha256, 0, account)) && row.depth == depth
  {
    RowBehindView(input, row, STI_ACCOUNT, ACCOUNT_DESTINATION, NO_ARRAY, depth, account);
    hide AddressText;
  }

  lemma SwapRows(hidden: bool, sha256: seq<byte> -> Digest, input: seq<byte>, rows: seq<Field>, account: AccountBytes,
                 destination: AccountBytes, amount: seq<byte>, fee: seq<byte>, approval: Approval)
    requires AreTyped(input, rows)
    requires ViewsOf(input, rows) == SwapViews(hidden, account, destination, amount, fee)
    requires IsDropsBytes(amount, approval.amount) && IsDropsBytes(fee, approval.fee)
    requires approval.destinationTag == "7" && approval.address == AddressText(sha256, 0, destination)
    ensures IsApproved(sha256, input, rows, approval)
  {
    assert |rows| == 6;
    FirstRows(hidden, input, rows, account, destination, amount, fee);
    var views, depth := SwapViews(hidden, account, destination, amount, fee), if hidden then 0 else 1;
    assert views[3] == Raw(STI_AMOUNT, AMOUNT_AMOUNT, NO_ARRAY, depth, amount);
    assert views[4] == Raw(STI_AMOUNT, AMOUNT_FEE, NO_ARRAY, depth, fee);
    assert views[5] == Raw(STI_ACCOUNT, ACCOUNT_DESTINATION, NO_ARRAY, depth, destination);
    hide ViewsOf, ViewOf, SwapViews, Raw, IsTyped, IsDrops, IsAccountOf, AddressText, IsTransactionType, IsField,
         Decimal.UnsignedText, IsDropsBytes;
    ViewAt(input, rows, 3);
    ViewAt(input, rows, 4);
    ViewAt(input, rows, 5);
    DropsBehindView(input, rows[3], AMOUNT_AMOUNT, depth, amount, approval.amount);
    DropsBehindView(input, rows[4], AMOUNT_FEE, depth, fee, approval.fee);
    AddressBehindView(sha256, input, rows[5], depth, destination);
  }

  lemma FirstRows(hidden: bool, input: seq<byte>, rows: seq<Field>, account: AccountBytes, destination: AccountBytes,
                  amount: seq<byte>, fee: seq<byte>)
    requires AreTyped(input, rows)
    requires ViewsOf(input, rows) == SwapViews(hidden, account, destination, amount, fee) && |rows| == 6
    ensures IsTransactionType(rows[0]) && rows[0].data == U16(Flags.TRANSACTION_PAYMENT)
    ensures IsField(rows[1], STI_ACCOUNT, ACCOUNT_ACCOUNT)
    ensures IsField(rows[2], STI_UINT32, UINT32_DESTINATION_TAG) && rows[2].data == U32(7)
    ensures Decimal.UnsignedText(7) == "7"
  {
    ViewAt(input, rows, 0);
    ViewAt(input, rows, 1);
    ViewAt(input, rows, 2);
    assert IsTyped(input, rows[0]) && IsTyped(input, rows[2]);
    hide ViewsOf, AreTyped;
  }

  /** Neither transaction shows only fields of its own. */
  lemma SwapShowsOthers(hidden: bool, account: AccountBytes, destination: AccountBytes, amount: seq<byte>,
                        fee: seq<byte>)
    ensures !OnlyOwnRows(NestedSwap(hidden, account, destination, amount, fee))
  {
    var nodes, members := NestedSwap(hidden, account, destination, amount, fee), SwapMembers(destination, amount, fee);
    assert ShowsRow(members[0], ARRAY_NONE);
    assert ShowRow(members, ARRAY_NONE);
    var all := [List(3, [])] + members;
    assert all[1..] == members && KindAfter(all[0], 9) == ARRAY_NONE;
    hide ShowRow, SwapMembers;
    assert hidden ==> nodes[2] == List(9, all);
    assert ShowRow(all, 9) by { ShowsLater(all, 9); }
    assert !nodes[2].Single? && ShowsRow(nodes[2], ARRAY_NONE);
  }

  lemma ShowsLater(nodes: seq<Node>, kind: nat)
    requires nodes != [] && ShowRow(nodes[1..], KindAfter(nodes[0], kind))
    ensures ShowRow(nodes, kind)
  {
  }

  /** Both are parsed without a warning and approved, although only the type and the
      sender are fields of the transaction itself.  The rows hidden in the array are
      even filed at top level. */
  lemma NestedSwapIsAccepted(hidden: bool, sha256: seq<byte> -> Digest, account: AccountBytes,
                             destination: AccountBytes, amount: seq<byte>, fee: seq<byte>, approval: Approval)
    requires IsDropsBytes(amount, approval.amount) && IsDropsBytes(fee, approval.fee)
    requires approval.destinationTag == "7" && approval.address == AddressText(sha256, 0, destination)
    ensures var nodes := NestedSwap(hidden, account, destination, amount, fee);
      AreNodes(nodes) && !OnlyOwnRows(nodes)
    ensures var input := Encode(NestedSwap(hidden, account, destination, amount, fee));
      && ParseTx(input).Reviewable? && AreTyped(input, ParseTx(input).rows) && !ParseTx(input).emptyKey
      && IsApproved(sha256, input, ParseTx(input).rows, approval)
      && (AllRowsTopLevel(ParseTx(input).rows) <==> hidden)
  {
    SwapIsRead(hidden, account, destination, amount, fee);
    SwapIsReviewed(hidden, account, destination, amount, fee);
    SwapShowsOthers(hidden, account, destination, amount, fee);
    SwapIsFiled(hidden, account, destination, amount, fee);
    hide NestedSwap, SwapViews, ParseTx, Encode, ReadTransaction, ReviewOfAll, AreNodes, OnlyOwnRows, AllRowsTopLevel,
         IsApproved, IsDropsBytes, AddressText, AreTyped, AllTopLevel;
    var nodes := NestedSwap(hidden, account, destination, amount, fee);
    ParsingReviewsTheTransaction(nodes);
    var input := Encode(nodes);
    ReviewedRowsAreTyped(input);
    TopLevelViews(input, ParseTx(input).rows);
    SwapRows(hidden, sha256, input, ParseTx(input).rows, account, destination, amount, fee, approval);
  }

  lemma SwapIsFiled(hidden: bool, account: AccountBytes, destination: AccountBytes, amount: seq<byte>, fee: seq<byte>)
    ensures AllTopLevel(SwapViews(hidden, account, destination, amount, fee)) <==> hidden
  {
    var views := SwapViews(hidden, account, destination, amount, fee);
    assert views[2].row.depth == if hidden then 0 else 1;
  }

  // ---------- Their length ----------

  lemma LengthOfOne(node: Node)
    requires IsNode(node) && AreNodes([node])
    ensures |Encode([node])| == |EncodeNode(node)|
    ensures node.List? ==> |EncodeNode(node)| <= 6 + |Encode(node.members)|
    ensures node.Object? ==> |EncodeNode(node)| <= 6 + |Encode(node.members)|
  {
    hide EncodeHeader, LeafBytes, PathSetBytes;
  }

  lemma SinglesLength(destination: AccountBytes, amount: seq<byte>, fee: seq<byte>)
    requires |amount| == 8 && |fee| == 8 && AreNodes(SwapMembers(destination, amount, fee))
    ensures |Encode(SwapMembers(destination, amount, fee))| == 45
  {
    var members := SwapMembers(destination, amount, fee);
    assert members[1..][1..][1..][1..] == [];
    assert |EncodeNode(members[0])| == 5 && |EncodeNode(members[1])| == 9 && |EncodeNode(members[2])| == 9;
    assert |EncodeNode(members[3])| == 22;
    hide EncodeNode, IsNode, SwapMembers;
    assert |Encode(members[1..][1..][1..])| == |EncodeNode(members[3])|;
    assert |Encode(members[1..][1..])| == |EncodeNode(members[2])| + |EncodeNode(members[3])|;
    assert |Encode(members[1..])| == |EncodeNode(members[1])| + |EncodeNode(members[2])| + |EncodeNode(members[3])|;
  }

  lemma HeadLength(account: AccountBytes)
    requires AreNodes(Head(Flags.TRANSACTION_PAYMENT, account))
    ensures |Encode(Head(Flags.TRANSACTION_PAYMENT, account))| == 25
  {
    var nodes := Head(Flags.TRANSACTION_PAYMENT, account);
    assert nodes[1..][1..] == [];
    assert |EncodeNode(nodes[0])| == 3 && |EncodeNode(nodes[1])| == 22;
    hide EncodeNode, IsNode;
    assert |Encode(nodes[1..])| == |EncodeNode(nodes[1])|;
  }

  lemma NestedSwapLength(hidden: bool, account: AccountBytes, destination: AccountBytes, amount: seq<byte>,
                         fee: seq<byte>)
    requires |amount| == 8 && amount[0] < 128 && |fee| == 8 && fee[0] < 128
    requires AreNodes(NestedSwap(hidden, account, destination, amount, fee))
    ensures |Encode(NestedSwap(hidden, account, destination, amount, fee))| <= 100
  {
    HeadIsRead(Flags.TRANSACTION_PAYMENT, account);
    MembersAreRead(destination, amount, fee, 0, 0);
    HeadLength(account);
    SinglesLength(destination, amount, fee);
    var head, members := Head(Flags.TRANSACTION_PAYMENT, account), SwapMembers(destination, amount, fee);
    hide Encode, Head, SwapMembers, AreNodes, IsNode, EncodeNode, Read;
    var node := Wrapped(hidden, members);
    OneOfAll(head, node);
    EncodeBoth(head, [node]);
    LengthOfOne(node);
    if hidden {
      HidingIsNode(9, 3, members);
      EncodeBoth([List(3, [])], members);
      LengthOfOne(List(3, []));
      assert Encode([]) == [] by { NothingEncoded(); }
    }
  }

  lemma NothingEncoded()
    ensures AreNodes([]) && Encode([]) == []
  {
  }

  lemma OneOfAll(head: seq<Node>, node: Node)
    requires AreNodes(head + [node])
    ensures IsNode(node) && AreNodes([node])
  {
    hide IsNode;
    assert (head + [node])[|head|] == node;
  }
}
