/** Reviews without a warning in which different flags read alike: the check for
    unknown bits looks only at Flags filed at top level, and of types with a formatter. */
module FlagReviews {
  import opened Fields
  import opened FieldSort
  import opened TransactionSpec
  import opened Serializer
  import opened LeafRoundTrip
  import opened Review
  import opened Address
  import opened HiddenFields
  import opened FlagFields
  import Flags

  /** Flags at top level or inside an object. */
  function FlagNode(value: nat, inside: bool): Node {
    if inside then Object(10, [Single(UINT32_FLAGS, UInt32(value))]) else Single(UINT32_FLAGS, UInt32(value))
  }

  function FlagView(value: nat, inside: bool): View {
    Numeric(STI_UINT32, UINT32_FLAGS, NO_ARRAY, if inside then 1 else 0, 4, U32(value))
  }

  function FlagNodes(txType: nat, account: AccountBytes, value: nat, inside: bool): seq<Node> {
    Head(txType, account) + [FlagNode(value, inside)]
  }

  function FlagViews(txType: nat, account: AccountBytes, value: nat, inside: bool): seq<View> {
    HeadViews(txType, account) + [FlagView(value, inside)]
  }

  predicate IsVisible(value: nat) {
    value < 0x1_0000_0000 && value != 0 && value != TF_FULLY_CANONICAL_SIG
  }

  lemma FlagIsRead(txType: nat, value: nat, inside: bool)
    requires IsVisible(value) && txType < TRANSACTION_INVALID
    ensures IsNode(FlagNode(value, inside)) && AreNodes([FlagNode(value, inside)])
    ensures Read([FlagNode(value, inside)], ARRAY_NONE, 0, Tally(2, 0, txType, false))
         == Reading(Finished, [FlagView(value, inside)], Tally(3, if inside then 1 else 0, txType, false))
  {
    var single := Single(UINT32_FLAGS, UInt32(value));
    assert IsNode(single) && AreNodes([single]);
    ReadOne(single, ARRAY_NONE, 1, Tally(2, 1, txType, false));
    assert inside ==> [] + ([FlagView(value, inside)] + []) == [FlagView(value, inside)];
    ReadOne(FlagNode(value, inside), ARRAY_NONE, 0, Tally(2, 0, txType, false));
  }

  lemma FlagNodesAreRead(txType: nat, account: AccountBytes, value: nat, inside: bool)
    requires IsVisible(value) && txType < TRANSACTION_INVALID
    ensures AreNodes(FlagNodes(txType, account, value, inside))
    ensures ReadTransaction(FlagNodes(txType, account, value, inside))
         == Reading(Finished, FlagViews(txType, account, value, inside),
                    Tally(3, if inside then 1 else 0, txType, false))
  {
    HeadIsRead(txType, account);
    FlagIsRead(txType, value, inside);
    hide Read, Head, HeadViews, FlagNode, FlagView, IsNode, KindBehind, DepthBehind;
    var head := Head(txType, account);
    assert AreNodes(head + [FlagNode(value, inside)]);
    ReadBoth(head, [FlagNode(value, inside)], ARRAY_NONE, 0, NOTHING_READ);
  }

  lemma OneTopLevelFlags(rows: seq<Field>)
    requires |rows| == 3 && !IsTopLevelFlags(rows[0]) && !IsTopLevelFlags(rows[1])
    ensures TopLevelFlags(rows) == if IsTopLevelFlags(rows[2]) then [rows[2]] else []
  {
    hide IsTopLevelFlags;
    var two, one := rows[..2], rows[..2][..1];
    assert one[0] == rows[0] && two[1] == rows[1] && one[..0] == [];
    assert TopLevelFlags(one) == [];
    assert TopLevelFlags(two) == [];
  }

  /** Flags inside an object, and Flags of a type without a formatter, are shown
      without a warning whatever their value. */
  lemma FlagsAreShown(txType: nat, account: AccountBytes, value: nat, inside: bool)
    requires IsVisible(value) && IsSupported(txType) && txType != TRANSACTION_SET_REGULAR_KEY
    requires inside || !Flags.HasFormatter(txType)
    ensures AreNodes(FlagNodes(txType, account, value, inside))
    ensures ReviewOf(FlagNodes(txType, account, value, inside))
         == Shown(false, FlagViews(txType, account, value, inside), txType, false)
  {
    FlagNodesAreRead(txType, account, value, inside);
    FlagViewsAreShown(txType, account, value, inside);
    hide FlagNodes, FlagViews, ReadTransaction, ReviewOfAll;
  }

  lemma FlagViewsAreShown(txType: nat, account: AccountBytes, value: nat, inside: bool)
    requires IsSupported(txType) && txType != TRANSACTION_SET_REGULAR_KEY && (inside || !Flags.HasFormatter(txType))
    ensures var views := FlagViews(txType, account, value, inside);
      ReviewOfAll(views, txType, false) == Shown(false, views, txType, false)
  {
    var views := FlagViews(txType, account, value, inside);
    StartsWithHead(views);
    HeadFirst(views);
    FlagRows(txType, account, value, inside);
    hide *;
    NoDoubt(txType, RowsIn(views), inside);
    ShownAsRead(views, txType, false);
  }

  lemma FlagRows(txType: nat, account: AccountBytes, value: nat, inside: bool)
    ensures var rows := RowsIn(FlagViews(txType, account, value, inside));
      && AllRecognized(rows)
      && |rows| == 3 && !IsTopLevelFlags(rows[0]) && !IsTopLevelFlags(rows[1])
      && (IsTopLevelFlags(rows[2]) <==> !inside)
  {
    var views := FlagViews(txType, account, value, inside);
    var rows := RowsIn(views);
    assert rows[0] == views[0].row && rows[1] == views[1].row && rows[2] == views[2].row;
  }

  lemma NoDoubt(txType: nat, rows: seq<Field>, inside: bool)
    requires |rows| == 3 && !IsTopLevelFlags(rows[0]) && !IsTopLevelFlags(rows[1])
    requires IsTopLevelFlags(rows[2]) <==> !inside
    requires inside || !Flags.HasFormatter(txType)
    ensures !FlagsNeedBlindSigning(rows, txType)
  {
    OneTopLevelFlags(rows);
    NoFormatterNoDoubt(txType, FlagsValue(rows[2]));
    hide TopLevelFlags, IsTopLevelFlags, FlagsValue, Flags.HasUnknownFlags, Flags.HasFormatter;
  }

  lemma NoFormatterNoDoubt(txType: nat, value: bv32)
    ensures !Flags.HasFormatter(txType) ==> !Flags.HasUnknownFlags(txType, value)
  {
  }

  /** So any two values that agree on the bits the type has labels for are shown
      without a warning and with the same text: in a type without a formatter any two. */
  lemma ShownFlagsReadAlike(txType: nat, account: AccountBytes, value: nat, other: nat, inside: bool)
    requires IsSupported(txType) && txType != TRANSACTION_SET_REGULAR_KEY && (inside || !Flags.HasFormatter(txType))
    requires IsVisible(value) && IsVisible(other)
    requires KnownPart(txType, ToBits(value)) == KnownPart(txType, ToBits(other))
    ensures AreNodes(FlagNodes(txType, account, value, inside)) && AreNodes(FlagNodes(txType, account, other, inside))
    ensures var input, input' := Encode(FlagNodes(txType, account, value, inside)),
                                 Encode(FlagNodes(txType, account, other, inside));
      && VerdictOn(input, ParseTx(input)) == Shown(false, FlagViews(txType, account, value, inside), txType, false)
      && VerdictOn(input', ParseTx(input')) == Shown(false, FlagViews(txType, account, other, inside), txType, false)
    ensures FieldText(UINT32_FLAGS, txType, ToBits(value)) == FieldText(UINT32_FLAGS, txType, ToBits(other))
  {
    hide KnownPart, ToBits, FieldText, ParseTx, Encode, AreNodes, FlagNodes, FlagViews, ReviewOf;
    FlagsAreShown(txType, account, value, inside);
    FlagsAreShown(txType, account, other, inside);
    ParsingReviewsTheTransaction(FlagNodes(txType, account, value, inside));
    ParsingReviewsTheTransaction(FlagNodes(txType, account, other, inside));
    FieldTextsAlike(UINT32_FLAGS, txType, ToBits(value), ToBits(other));
  }

  /** For example, a Payment with flags 0x20001 or 0x20000 in an object, and an
      EscrowCreate (type 1) with any two values at top level. */
  lemma TwoFlagsReadAlike(account: AccountBytes, value: nat, other: nat)
    requires IsVisible(value) && IsVisible(other)
    ensures FieldText(UINT32_FLAGS, Flags.TRANSACTION_PAYMENT, ToBits(0x2_0001))
         == FieldText(UINT32_FLAGS, Flags.TRANSACTION_PAYMENT, ToBits(0x2_0000))
    ensures FieldText(UINT32_FLAGS, 1, ToBits(value)) == FieldText(UINT32_FLAGS, 1, ToBits(other))
    ensures ReviewOfFlags(Flags.TRANSACTION_PAYMENT, account, 0x2_0001, true)
    ensures ReviewOfFlags(Flags.TRANSACTION_PAYMENT, account, 0x2_0000, true)
    ensures ReviewOfFlags(1, account, value, false) && ReviewOfFlags(1, account, other, false)
  {
    NoKnownPart(1, ToBits(value));
    NoKnownPart(1, ToBits(other));
    PaymentParts();
    hide KnownPart, ToBits, FieldText, ParseTx, Encode, AreNodes, FlagNodes, FlagViews;
    ShownFlagsReadAlike(Flags.TRANSACTION_PAYMENT, account, 0x2_0001, 0x2_0000, true);
    ShownFlagsReadAlike(1, account, value, other, false);
  }

  lemma PaymentParts()
    ensures KnownPart(Flags.TRANSACTION_PAYMENT, ToBits(0x2_0001))
         == KnownPart(Flags.TRANSACTION_PAYMENT, ToBits(0x2_0000))
  {
    LiteralBits();
    LiteralParts();
    assert Flags.KnownFlags(Flags.TRANSACTION_PAYMENT) == 0x0007_0000;
    hide Flags.KnownFlags, Masked, ToBits;
  }

  lemma LiteralBits()
    ensures ToBits(0x2_0001) == 0x2_0001 && ToBits(0x2_0000) == 0x2_0000
  {
    var one, zero: bv32 := 0x2_0001, 0x2_0000;
    assert one as nat == 0x2_0001 && zero as nat == 0x2_0000;
    BackToBits(one);
    BackToBits(zero);
    hide ToBits;
  }

  lemma BackToBits(value: bv32)
    ensures ToBits(value as nat) == value
  {
    hide ToBits;
    SmallBits(value as nat);
    assert (value as nat) as bv32 == value;
  }

  lemma SmallBits(n: nat)
    requires n < 0x1_0000_0000
    ensures ToBits(n) == n as bv32
  {
    assert n % 0x1_0000_0000 == n;
  }

  lemma LiteralParts()
    ensures Masked(0x2_0001, 0x0007_0000) == Masked(0x2_0000, 0x0007_0000)
  {
  }

  /** The transaction with these flags is shown as it is, without a warning. */
  ghost predicate ReviewOfFlags(txType: nat, account: AccountBytes, value: nat, inside: bool) {
    var nodes := FlagNodes(txType, account, value, inside);
    && AreNodes(nodes)
    && VerdictOn(Encode(nodes), ParseTx(Encode(nodes)))
       == Shown(false, FlagViews(txType, account, value, inside), txType, false)
  }
}
