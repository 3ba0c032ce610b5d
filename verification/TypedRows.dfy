/** What later readers of the rows take for granted: numbers fit their size and
    pointers lie in the transaction. */
module TypedRows {
  import opened Fields
  import opened FieldSort
  import opened TransactionSpec
  import Currency
  import Numerals

  // ---------- Rows the parser leaves ----------

  /** Numbers fit their size, pointers lie in the transaction, and what looks like a
      native amount has the top bit clear. */
  ghost predicate IsTyped(input: seq<byte>, row: Field) {
    && (row.dataType == STI_UINT16 ==> row.data.U16? && row.data.n < 0x1_0000)
    && (row.dataType == STI_UINT32 ==> row.data.U32? && row.data.n < 0x1_0000_0000)
    && (row.dataType == STI_AMOUNT ==>
        && row.data.Ptr? && row.length in {XRP_AMOUNT_LEN, ISSUED_CURRENCY_LEN}
        && row.data.pos + row.length <= |input|
        && (row.length == XRP_AMOUNT_LEN ==> input[row.data.pos] < 128))
    && (row.dataType == STI_ACCOUNT && row.id != ACCOUNT_REGULAR_KEY ==>
        row.data.Ptr? && row.length == ACCOUNT_SIZE && row.data.pos + ACCOUNT_SIZE <= |input|)
  }

  ghost predicate AreTyped(input: seq<byte>, rows: seq<Field>) {
    forall i :: 0 <= i < |rows| ==> IsTyped(input, rows[i])
  }

  // ---------- Every row the parser leaves is typed ----------

  /** Typed, except that an account may still have any length. */
  ghost predicate IsReadTyped(input: seq<byte>, row: Field) {
    if row.dataType == STI_ACCOUNT then row.data.Ptr? && row.data.pos + row.length <= |input| else IsTyped(input, row)
  }

  ghost predicate AreReadTyped(input: seq<byte>, rows: seq<Field>) {
    forall i :: 0 <= i < |rows| ==> IsReadTyped(input, rows[i])
  }

  lemma NumberTyped(input: seq<byte>, offset: nat, row: Field, count: nat, frame: Frame)
    requires count in {1, 2, 4} && Number(input, offset, row, count, frame).Ok?
    requires row.dataType == (if count == 1 then STI_UINT8 else if count == 2 then STI_UINT16 else STI_UINT32)
    ensures var value := Number(input, offset, row, count, frame).value;
      IsTyped(input, value.row) && value.extra == []
  {
    Numerals.ValueBelowPow(256, input[offset..offset + count]);
    assert Numerals.Pow(256, 2) == 0x1_0000;
    Numerals.PowAdd(256, 2, 2);
  }

  lemma AmountTyped(input: seq<byte>, offset: nat, row: Field, frame: Frame, used: nat)
    requires row.dataType == STI_AMOUNT && Amount(input, offset, row, frame, used).Ok?
    ensures var value := Amount(input, offset, row, frame, used).value;
      AreReadTyped(input, [value.row] + value.extra)
  {
    hide Currency.IsValid, Currency.IsNonStandard, Currency.AllZeros;
  }

  lemma VectorTyped(input: seq<byte>, offset: nat, row: Field, frame: Frame, used: nat)
    requires used <= MAX_FIELD_COUNT && row.dataType == STI_VECTOR256 && Vector(input, offset, row, frame, used).Ok?
    ensures var value := Vector(input, offset, row, frame, used).value;
      AreReadTyped(input, [value.row] + value.extra)
  {
    hide VlLength;
  }

  lemma FieldValueTyped(input: seq<byte>, offset: nat, row: Field, frame: Frame, used: nat)
    requires used <= MAX_FIELD_COUNT && FieldValue(input, offset, row, frame, used).Ok?
    ensures var value := FieldValue(input, offset, row, frame, used).value;
      AreReadTyped(input, [value.row] + value.extra)
  {
    if row.dataType == STI_UINT8 {
      NumberTyped(input, offset, row, 1, frame);
    } else if row.dataType == STI_UINT16 {
      NumberTyped(input, offset, row, 2, frame);
    } else if row.dataType == STI_UINT32 {
      NumberTyped(input, offset, row, 4, frame);
    } else if row.dataType == STI_AMOUNT {
      AmountTyped(input, offset, row, frame, used);
    } else if row.dataType == STI_VECTOR256 {
      VectorTyped(input, offset, row, frame, used);
    }
    hide Number, Amount, Vector, VlLength, Currency.AllZeros;
  }

  lemma ValueTyped(input: seq<byte>, offset: nat, frame: Frame, used: nat)
    requires used <= MAX_FIELD_COUNT && ParseValue(input, offset, frame, used).Ok?
    ensures var value := ParseValue(input, offset, frame, used).value;
      AreReadTyped(input, [value.row] + value.extra)
  {
    if frame.currentArray != ARRAY_PATHSET {
      hide FieldValue, Header, AreReadTyped;
      var header := Header(input, offset).value;
      FieldValueTyped(input, header.2, Slot(frame).(dataType := header.0, id := header.1), frame, used);
    }
  }

  /** Rows a value brings along have their full size from the start. */
  lemma ExtraAccounts(input: seq<byte>, offset: nat, frame: Frame, used: nat)
    requires used <= MAX_FIELD_COUNT && ParseValue(input, offset, frame, used).Ok?
    ensures forall i :: 0 <= i < |ParseValue(input, offset, frame, used).value.extra| ==>
      var row := ParseValue(input, offset, frame, used).value.extra[i];
      row.dataType == STI_ACCOUNT ==> row.length == ACCOUNT_SIZE
  {
    hide VlLength, Currency.IsValid, Currency.IsNonStandard, Currency.AllZeros, BigEndian, Header;
  }

  lemma ItemTyped(input: seq<byte>, offset: nat, frame: Frame, used: nat)
    requires used <= MAX_FIELD_COUNT && !ParseItem(input, offset, frame, used).Refused?
    ensures match ParseItem(input, offset, frame, used)
      case Parsed(item) => AreTyped(input, item.rows)
      case BlindAt(row) => IsTyped(input, row) && IsTransactionType(row)
      case Refused(_) => true
  {
    hide ParseValue, IsHidden;
    ValueTyped(input, offset, frame, used + 1);
    ExtraAccounts(input, offset, frame, used + 1);
    var value := ParseValue(input, offset, frame, used + 1).value;
    var all := [value.row] + value.extra;
    assert IsReadTyped(input, all[0]);
    assert forall i :: 0 <= i < |value.extra| ==> value.extra[i] == all[i + 1];
    if PostProcess(value.row, value.frame).Accepted? {
      assert IsTyped(input, value.row);
      hide PostProcess;
      assert AreTyped(input, value.extra);
      hide IsTyped;
    }
  }

  lemma {:induction false} RunTyped(input: seq<byte>, offset: nat, frame: Frame, used: nat)
    requires offset <= |input| && used <= MAX_FIELD_COUNT
    ensures var run := ParseItems(input, offset, frame, used);
      && AreTyped(input, RowsOf(run.items))
      && (run.stop.StoppedBlind? ==> IsTyped(input, run.stop.row) && IsTransactionType(run.stop.row))
    decreases |input| - offset
  {
    hide ParseItem, ParseItems, IsTyped, IsTransactionType;
    ParseItemsStep(input, offset, frame, used);
    if offset < |input| && !ParseItem(input, offset, frame, used).Refused? {
      ItemTyped(input, offset, frame, used);
      if ParseItem(input, offset, frame, used).Parsed? {
        var item := ParseItem(input, offset, frame, used).item;
        RunTyped(input, item.end, item.after, used + |item.rows|);
        var rest := ParseItems(input, item.end, item.after, used + |item.rows|);
        assert ([item] + rest.items)[1..] == rest.items;
      }
    }
  }

  lemma SortedTyped(input: seq<byte>, rows: seq<Field>)
    requires AreTyped(input, rows)
    ensures AreTyped(input, Sorted(rows))
  {
    hide IsTyped, Sorted;
    SortedIsPermutation(rows);
    forall i | 0 <= i < |Sorted(rows)| ensures IsTyped(input, Sorted(rows)[i]) {
      assert Sorted(rows)[i] in multiset(Sorted(rows));
      assert Sorted(rows)[i] in rows;
    }
  }

  /** The rows of every review, with or without warning, are typed. */
  lemma ReviewedRowsAreTyped(input: seq<byte>)
    requires ParseTx(input).Reviewable?
    ensures AreTyped(input, ParseTx(input).rows)
  {
    hide ParseItems, Sorted, HasField, IsSupported, FlagsNeedBlindSigning, AllRecognized, RowsOf;
    RunTyped(input, 0, INITIAL_FRAME, 0);
    var run := ParseLoop(input);
    var rows := RowsOf(run.items);
    SortedTyped(input, rows);
    assert IsTyped(input, EmptyRegularKey(run.frame));
    hide IsTyped;
    SortedTyped(input, rows + [EmptyRegularKey(run.frame)]);
  }
}
