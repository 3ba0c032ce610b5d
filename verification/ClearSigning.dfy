/** What a review without the blind-signing warning guarantees. */
module ClearSigning {
  import opened Fields
  import opened FieldSort
  import opened TransactionSpec
  import opened TypedRows
  import Currency
  import Flags

  // ---------- One item ----------

  ghost predicate NoTypes(rows: seq<Field>) {
    forall i :: 0 <= i < |rows| ==> !IsTransactionType(rows[i])
  }

  /** A TransactionType of value `n`, filed outside of every array and object. */
  ghost predicate IsTopLevelType(row: Field, n: nat) {
    && IsTransactionType(row) && row.data == U16(n)
    && row.arrayInfo.kind == ARRAY_NONE && row.depth == 0
  }

  /** Only a UINT16 header makes a UINT16 row, and it keeps the fresh slot's position. */
  lemma FieldValueTypes(input: seq<byte>, offset: nat, row: Field, frame: Frame, used: nat)
    requires used <= MAX_FIELD_COUNT && FieldValue(input, offset, row, frame, used).Ok?
    ensures var value := FieldValue(input, offset, row, frame, used).value;
      && value.frame.txType == frame.txType && NoTypes(value.extra)
      && (IsTransactionType(value.row) ==>
          value.frame == frame && value.row.data.U16? && value.row.arrayInfo == row.arrayInfo
              && value.row.depth == row.depth)
      && (value.extra != [] ==> !IsTransactionType(value.row))
  {
    hide VlLength, Currency.IsValid, Currency.IsNonStandard, Currency.AllZeros, BigEndian;
  }

  lemma PathItemTypes(input: seq<byte>, offset: nat, frame: Frame, used: nat)
    requires PathItem(input, offset, frame, used).Ok?
    ensures var value := PathItem(input, offset, frame, used).value;
      value.frame.txType == frame.txType && NoTypes([value.row] + value.extra)
  {
  }

  lemma ValueTypes(input: seq<byte>, offset: nat, frame: Frame, used: nat)
    requires used <= MAX_FIELD_COUNT && ParseValue(input, offset, frame, used).Ok?
    ensures var value := ParseValue(input, offset, frame, used).value;
      && value.frame.txType == frame.txType && NoTypes(value.extra)
      && (IsTransactionType(value.row) ==>
          && value.extra == [] && value.frame == frame && value.row.data.U16?
          && value.row.arrayInfo == Slot(frame).arrayInfo && value.row.depth == frame.depth)
  {
    hide FieldValue, PathItem, IsTransactionType;
    var value := ParseValue(input, offset, frame, used).value;
    if frame.currentArray == ARRAY_PATHSET {
      PathItemTypes(input, offset, frame, used);
      assert !IsTransactionType(([value.row] + value.extra)[0]);
      assert forall i :: 0 <= i < |value.extra| ==> value.extra[i] == ([value.row] + value.extra)[i + 1];
    } else {
      var header := Header(input, offset).value;
      FieldValueTypes(input, header.2, Slot(frame).(dataType := header.0, id := header.1), frame, used);
    }
  }

  /** An item records a TransactionType only as the first one, filed at top level, and on its own. */
  lemma ItemTypes(input: seq<byte>, offset: nat, frame: Frame, used: nat)
    requires used <= MAX_FIELD_COUNT && ParseItem(input, offset, frame, used).Parsed?
    ensures var item := ParseItem(input, offset, frame, used).item;
      || (item.after.txType == frame.txType && NoTypes(item.rows))
      || (frame.txType == TRANSACTION_INVALID && |item.rows| == 1 && IsTopLevelType(item.rows[0], item.after.txType))
  {
    hide ParseValue;
    ValueTypes(input, offset, frame, used + 1);
    var value := ParseValue(input, offset, frame, used + 1).value;
    if IsTransactionType(value.row) {
      assert value.row == [value.row][0];
    } else {
      hide IsTransactionType;
      var rows := ParseItem(input, offset, frame, used).item.rows;
      assert rows == value.extra || rows == [value.row] + value.extra;
      assert NoTypes(rows);
    }
  }

  // ---------- The run ----------

  /** TransactionType rows of value 0xFFFF leave the type open; the first other one settles it. */
  ghost predicate TypesSettle(types: seq<Field>, txType: nat) {
    if txType == TRANSACTION_INVALID then AllOpen(types)
    else types != [] && AllOpen(types[..|types| - 1]) && IsTopLevelType(types[|types| - 1], txType)
  }

  ghost predicate AllOpen(types: seq<Field>) {
    forall i :: 0 <= i < |types| ==> IsTopLevelType(types[i], TRANSACTION_INVALID)
  }

  lemma {:induction false} NoTypesNoGroup(rows: seq<Field>)
    requires NoTypes(rows)
    ensures OfScore(rows, 0) == []
  {
    if rows != [] {
      NoTypesNoGroup(rows[..|rows| - 1]);
    }
  }

  lemma OneTypeIsTheGroup(row: Field)
    requires IsTransactionType(row)
    ensures OfScore([row], 0) == [row]
  {
    assert [row][..0] == [];
  }

  lemma TypesAppend(types: seq<Field>, more: seq<Field>, txType: nat, txType': nat)
    requires TypesSettle(types, txType)
    requires
      || (txType' == txType && more == [])
      || (txType == TRANSACTION_INVALID && |more| == 1 && IsTopLevelType(more[0], txType'))
    ensures TypesSettle(types + more, txType')
  {
    hide IsTopLevelType;
    if more == [] {
      assert types + more == types;
    } else {
      assert (types + more)[..|types|] == types;
    }
  }

  lemma StillSettles(before: seq<Field>, more: seq<Field>, txType: nat, txType': nat)
    requires TypesSettle(OfScore(before, 0), txType)
    requires
      || (txType' == txType && NoTypes(more))
      || (txType == TRANSACTION_INVALID && |more| == 1 && IsTopLevelType(more[0], txType'))
    ensures TypesSettle(OfScore(before + more, 0), txType')
  {
    hide OfScore, TypesSettle;
    OfScoreAppend(before, more, 0);
    if NoTypes(more) && txType' == txType {
      NoTypesNoGroup(more);
    } else {
      OneTypeIsTheGroup(more[0]);
      assert more == [more[0]];
    }
    TypesAppend(OfScore(before, 0), OfScore(more, 0), txType, txType');
  }

  lemma {:induction false} RunTypes(input: seq<byte>, offset: nat, frame: Frame, used: nat, before: seq<Field>)
    requires offset <= |input| && used <= MAX_FIELD_COUNT && TypesSettle(OfScore(before, 0), frame.txType)
    ensures var run := ParseItems(input, offset, frame, used);
      TypesSettle(OfScore(before + RowsOf(run.items), 0), run.frame.txType)
    decreases |input| - offset
  {
    hide ParseItem, ParseItems, TypesSettle, OfScore, NoTypes, IsTopLevelType;
    ParseItemsStep(input, offset, frame, used);
    if offset < |input| && ParseItem(input, offset, frame, used).Parsed? {
      var item := ParseItem(input, offset, frame, used).item;
      var rest := ParseItems(input, item.end, item.after, used + |item.rows|);
      ItemTypes(input, offset, frame, used);
      StillSettles(before, item.rows, frame.txType, item.after.txType);
      RunTypes(input, item.end, item.after, used + |item.rows|, before + item.rows);
      assert ([item] + rest.items)[1..] == rest.items;
      assert before + item.rows + RowsOf(rest.items) == before + (item.rows + RowsOf(rest.items));
    } else {
      assert before + [] == before;
    }
  }

  // ---------- The review ----------

  /** When a transaction is shown without a warning: its type is one the app
      supports; the first `count` rows are its TransactionType rows, all filed at top
      level, the last of them holding the type and the others the value 0xFFFF;
      every row has a name; and there is at most one Flags row filed at top level,
      whose bits the formatter of the type can all name.  Filed is not the same as
      standing there: OwnRows.TypesAreOwn. */
  lemma ClearSigningIsSound(input: seq<byte>, rows: seq<Field>, txType: nat, emptyKey: bool) returns (count: nat)
    requires ParseTx(input) == Reviewable(false, rows, txType, emptyKey)
    ensures IsSupported(txType) && txType != TRANSACTION_INVALID
    ensures 0 < count <= |rows| && forall i :: 0 <= i < |rows| ==> (IsTransactionType(rows[i]) <==> i < count)
    ensures forall i :: 0 <= i < count ==>
      IsTopLevelType(rows[i], if i == count - 1 then txType else TRANSACTION_INVALID)
    ensures forall i :: 0 <= i < |rows| ==> HasName(rows[i].dataType, rows[i].id)
    ensures |TopLevelFlags(rows)| <= 1
    ensures forall i :: 0 <= i < |TopLevelFlags(rows)| ==>
      !Flags.HasUnknownFlags(txType, FlagsValue(TopLevelFlags(rows)[i]))
  {
    hide ParseItems, TopLevelFlags, Flags.HasUnknownFlags, HasField, FlagsValue, OfScore, RowsOf;
    var all := TableOfTypes(input);
    assert rows == Sorted(all) && txType == ParseLoop(input).frame.txType;
    assert txType != TRANSACTION_INVALID && IsSupported(txType) && !FlagsNeedBlindSigning(rows, txType);
    hide ParseTx, ParseLoop, RowsOf, OfScore, Sorted, IsTopLevelType, IsSupported;
    count := SortedTypesFirst(all, txType);
  }

  /** There is just one TransactionType row exactly if none of them holds 0xFFFF. */
  lemma OneTypeRow(input: seq<byte>, rows: seq<Field>, txType: nat, emptyKey: bool)
    requires ParseTx(input) == Reviewable(false, rows, txType, emptyKey)
    ensures (forall i :: 0 <= i < |rows| ==> (IsTransactionType(rows[i]) <==> i == 0))
      <==> (forall i :: 0 <= i < |rows| && IsTransactionType(rows[i]) ==> rows[i].data != U16(TRANSACTION_INVALID))
  {
    var count := ClearSigningIsSound(input, rows, txType, emptyKey);
    hide ParseTx, IsTransactionType, HasName, TopLevelFlags;
    assert IsTopLevelType(rows[0], if count == 1 then txType else TRANSACTION_INVALID);
    if count > 1 {
      assert IsTransactionType(rows[1]);
    }
  }

  /** The table at the end of the loop, with the row of a removed regular key. */
  lemma TableOfTypes(input: seq<byte>) returns (all: seq<Field>)
    ensures var run := ParseLoop(input);
      && (all == if NeedsRegularKeyRow(RowsOf(run.items), run.frame.txType)
                 then RowsOf(run.items) + [EmptyRegularKey(run.frame)] else RowsOf(run.items))
      && TypesSettle(OfScore(all, 0), run.frame.txType)
  {
    assert OfScore([], 0) == [] && TypesSettle([], TRANSACTION_INVALID);
    var run := ParseLoop(input);
    var read, extra := RowsOf(run.items), [EmptyRegularKey(run.frame)];
    assert NoTypes(extra);
    hide ParseItems, HasField, RowsOf, OfScore, TypesSettle, NoTypes, NeedsRegularKeyRow, EmptyRegularKey;
    RunTypes(input, 0, INITIAL_FRAME, 0, []);
    assert [] + read == read;
    OfScoreAppend(read, extra, 0);
    NoTypesNoGroup(extra);
    assert OfScore(read, 0) + [] == OfScore(read, 0);
    all := if NeedsRegularKeyRow(read, run.frame.txType) then read + extra else read;
  }

  lemma SortedTypesFirst(all: seq<Field>, txType: nat) returns (count: nat)
    requires TypesSettle(OfScore(all, 0), txType) && txType != TRANSACTION_INVALID
    ensures var rows := Sorted(all);
      && 0 < count <= |rows|
      && (forall i :: 0 <= i < |rows| ==> (IsTransactionType(rows[i]) <==> i < count))
      && forall i :: 0 <= i < count ==>
           IsTopLevelType(rows[i], if i == count - 1 then txType else TRANSACTION_INVALID)
  {
    OfScoreScores(all, 0);
    OfScoreScores(all, 1);
    OfScoreScores(all, 2);
    hide OfScore;
    var types := OfScore(all, 0);
    count := |types|;
    assert forall i :: 0 <= i < count - 1 ==> types[i] == types[..count - 1][i];
  }

  // ---------- Flags ----------

  ghost predicate AllVisible(rows: seq<Field>) {
    forall i :: 0 <= i < |rows| ==> !IsFlagHidden(rows[i])
  }

  /** Rows that a value brings along are never numbers. */
  lemma ExtraRowsAreNoFlags(input: seq<byte>, offset: nat, frame: Frame, used: nat)
    requires used <= MAX_FIELD_COUNT && ParseValue(input, offset, frame, used).Ok?
    ensures AllVisible(ParseValue(input, offset, frame, used).value.extra)
  {
    hide VlLength, Currency.IsValid, Currency.IsNonStandard, Currency.AllZeros, BigEndian, Header;
  }

  lemma ItemIsVisible(input: seq<byte>, offset: nat, frame: Frame, used: nat)
    requires used <= MAX_FIELD_COUNT && ParseItem(input, offset, frame, used).Parsed?
    ensures AllVisible(ParseItem(input, offset, frame, used).item.rows)
  {
    hide ParseValue, PostProcess, IsFlagHidden;
    ExtraRowsAreNoFlags(input, offset, frame, used + 1);
  }

  lemma {:induction false} RunIsVisible(input: seq<byte>, offset: nat, frame: Frame, used: nat)
    requires offset <= |input| && used <= MAX_FIELD_COUNT
    ensures AllVisible(RowsOf(ParseItems(input, offset, frame, used).items))
    decreases |input| - offset
  {
    hide ParseItem, ParseItems, IsFlagHidden;
    ParseItemsStep(input, offset, frame, used);
    if offset < |input| && ParseItem(input, offset, frame, used).Parsed? {
      ItemIsVisible(input, offset, frame, used);
      var item := ParseItem(input, offset, frame, used).item;
      RunIsVisible(input, item.end, item.after, used + |item.rows|);
      var rest := ParseItems(input, item.end, item.after, used + |item.rows|);
      assert ([item] + rest.items)[1..] == rest.items;
    }
  }

  lemma SortedIsVisible(rows: seq<Field>)
    requires AllVisible(rows)
    ensures AllVisible(Sorted(rows))
  {
    hide IsFlagHidden, Sorted;
    SortedIsPermutation(rows);
    forall i | 0 <= i < |Sorted(rows)| ensures !IsFlagHidden(Sorted(rows)[i]) {
      assert Sorted(rows)[i] in multiset(Sorted(rows));
      assert Sorted(rows)[i] in rows;
    }
  }

  lemma ReviewIsVisible(input: seq<byte>, rows: seq<Field>, txType: nat, emptyKey: bool)
    requires ParseTx(input) == Reviewable(false, rows, txType, emptyKey)
    ensures AllVisible(rows)
  {
    hide ParseItems, Sorted, HasField, IsSupported, FlagsNeedBlindSigning, AllRecognized, RowsOf;
    RunIsVisible(input, 0, INITIAL_FRAME, 0);
    var run := ParseLoop(input);
    assert !IsFlagHidden(EmptyRegularKey(run.frame));
    hide IsFlagHidden;
    SortedIsVisible(RowsOf(run.items));
    SortedIsVisible(RowsOf(run.items) + [EmptyRegularKey(run.frame)]);
  }

  lemma {:induction false} TopLevelFlagsAreRows(rows: seq<Field>, i: nat)
    requires i < |TopLevelFlags(rows)|
    ensures TopLevelFlags(rows)[i] in rows && IsTopLevelFlags(TopLevelFlags(rows)[i])
  {
    var init := rows[..|rows| - 1];
    if i < |TopLevelFlags(init)| {
      TopLevelFlagsAreRows(init, i);
    }
  }

  lemma OtherBits(n: nat)
    requires n < 0x1_0000_0000 && n != 0 && n != TF_FULLY_CANONICAL_SIG
    ensures ToBits(n) != 0 && ToBits(n) != 0x8000_0000
  {
    assert n % 0x1_0000_0000 == n;
  }

  lemma VisibleValue(row: Field)
    requires IsTopLevelFlags(row) && !IsFlagHidden(row) && row.data.U32? && row.data.n < 0x1_0000_0000
    ensures FlagsValue(row) != 0 && FlagsValue(row) != Flags.FULLY_CANONICAL_SIG
  {
    hide ToBits;
    OtherBits(row.data.n);
  }

  /** In a review without warning, the Flags row filed at top level of a type with a formatter
      reads a nonempty list of labels, and no other value without unknown bits reads
      the same, but for the canonical-signature bit. */
  lemma ClearFlagsAreExact(input: seq<byte>, rows: seq<Field>, txType: nat, emptyKey: bool, i: nat)
    requires ParseTx(input) == Reviewable(false, rows, txType, emptyKey)
    requires Flags.HasFormatter(txType) && i < |TopLevelFlags(rows)|
    ensures var value := FlagsValue(TopLevelFlags(rows)[i]);
      Flags.FlagText(txType, value) != "" && Flags.TellsFlags(txType, Flags.FlagText(txType, value), value)
  {
    var count := ClearSigningIsSound(input, rows, txType, emptyKey);
    hide Flags.TellsFlags, Flags.HasFormatter, AllVisible, IsTransactionType;
    ReviewIsVisible(input, rows, txType, emptyKey);
    ReviewedRowsAreTyped(input);
    hide ParseTx, TopLevelFlags, Flags.HasUnknownFlags, Flags.FlagText, FlagsValue, IsTopLevelFlags, IsTopLevelType,
        HasName;
    TopLevelFlagsAreRows(rows, i);
    var row := TopLevelFlags(rows)[i];
    var k :| 0 <= k < |rows| && rows[k] == row;
    VisibleAt(rows, k);
    assert IsTyped(input, rows[k]);
    IsNumberRow(input, row);
    VisibleValue(row);
    Flags.VisibleFlagsHaveText(txType, FlagsValue(row));
    Flags.TextTellsFlags(txType, FlagsValue(row));
  }

  lemma VisibleAt(rows: seq<Field>, k: nat)
    requires AllVisible(rows) && k < |rows|
    ensures !IsFlagHidden(rows[k])
  {
  }

  lemma IsNumberRow(input: seq<byte>, row: Field)
    requires IsTyped(input, row) && IsTopLevelFlags(row)
    ensures row.data.U32? && row.data.n < 0x1_0000_0000
  {
  }
}
