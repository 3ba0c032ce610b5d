/** The check that lets an exchange sign without a review on screen
    (src/transaction/transaction.c). */
module Swap {
  import opened Fields
  import opened FieldSort
  import opened TransactionSpec
  import opened Address
  import opened ClearSigning
  import opened TypedRows
  import Amount
  import Base58
  import Decimal
  import Flags
  import Numerals

  /** What the user approved in the exchange app. */
  datatype Approval = Approval(address: string, destinationTag: string, amount: nat, fee: nat)

  function NumberAt(input: seq<byte>, pos: nat): nat
    requires pos + 8 <= |input|
  {
    Numerals.Value(256, input[pos..pos + 8])
  }

  // ---------- The check ----------

  ghost predicate IsField(row: Field, dataType: nat, id: nat) {
    row.dataType == dataType && row.id == id
  }

  /** A native amount of `drops`: on the wire the second highest bit says positive. */
  ghost predicate IsDrops(input: seq<byte>, row: Field, id: nat, drops: nat)
    requires IsTyped(input, row)
  {
    IsField(row, STI_AMOUNT, id) && row.length == XRP_AMOUNT_LEN
        && NumberAt(input, row.data.pos) == Numerals.TWO_62 + drops
  }

  ghost predicate IsAccountOf(sha256: seq<byte> -> Digest, input: seq<byte>, row: Field, address: string)
    requires IsTyped(input, row)
  {
    && IsField(row, STI_ACCOUNT, ACCOUNT_DESTINATION)
    && AddressText(sha256, 0, input[row.data.pos..row.data.pos + ACCOUNT_SIZE]) == address
  }

  /** A payment of the approved drops for the approved fee to the approved address
      and tag, and nothing else. */
  ghost predicate IsApproved(sha256: seq<byte> -> Digest, input: seq<byte>, rows: seq<Field>, approval: Approval)
    requires AreTyped(input, rows)
  {
    && |rows| == 6
    && IsTransactionType(rows[0]) && rows[0].data == U16(Flags.TRANSACTION_PAYMENT)
    && IsField(rows[1], STI_ACCOUNT, ACCOUNT_ACCOUNT)
    && IsField(rows[2], STI_UINT32, UINT32_DESTINATION_TAG)
    && Decimal.UnsignedText(rows[2].data.n) == approval.destinationTag
    && IsDrops(input, rows[3], AMOUNT_AMOUNT, approval.amount)
    && IsDrops(input, rows[4], AMOUNT_FEE, approval.fee)
    && IsAccountOf(sha256, input, rows[5], approval.address)
  }

  lemma WireNumber(input: seq<byte>, pos: nat)
    requires pos + 8 <= |input|
    ensures NumberAt(input, pos) < Numerals.TWO_64
    ensures input[pos] < 128 ==> NumberAt(input, pos) < Numerals.TWO_64 / 2
  {
    var bytes := input[pos..pos + 8];
    Numerals.ValueBelowPow(256, bytes);
    Amount.EightBytes();
    Numerals.ValueCons(256, bytes[0], bytes[1..]);
    assert [bytes[0]] + bytes[1..] == bytes;
    Numerals.ValueBelowPow(256, bytes[1..]);
    SevenBytes();
    var power := Numerals.Pow(256, 7);
    assert bytes[0] < 128 ==> bytes[0] * power + power <= 128 * power;
  }

  lemma SevenBytes()
    ensures Numerals.Pow(256, 7) == 0x100_0000_0000_0000
  {
    assert Numerals.Pow(256, 3) == 0x100_0000;
    assert Numerals.Pow(256, 4) == 0x1_0000_0000;
    Numerals.PowAdd(256, 3, 4);
  }

  /** Only two sizes of numbers and native amounts can be compared; numbers are
      compared in their own size. */
  ghost predicate HoldsValue(input: seq<byte>, row: Field, value: nat)
    requires IsTyped(input, row)
  {
    if row.dataType == STI_UINT16 then row.data.n == value % 0x1_0000
    else if row.dataType == STI_UINT32 then row.data.n == value % 0x1_0000_0000
    else row.dataType == STI_AMOUNT && row.length == XRP_AMOUNT_LEN && NumberAt(input, row.data.pos) == value
  }

  /** `check_field` */
  method CheckField(input: seq<byte>, row: Field, dataType: nat, id: nat, compareValue: bool,
                    value: nat) returns (ok: bool)
    requires IsTyped(input, row) && value < Numerals.TWO_64
    ensures ok <==> IsField(row, dataType, id) && (compareValue ==> HoldsValue(input, row, value))
  {
    if row.dataType != dataType || row.id != id {
      return false;
    }
    if !compareValue {
      return true;
    }
    if dataType == STI_UINT16 {
      ok := row.data.n == value % 0x1_0000;
    } else if dataType == STI_UINT32 {
      ok := row.data.n == value % 0x1_0000_0000;
    } else if dataType == STI_AMOUNT {
      ok := row.length == XRP_AMOUNT_LEN;
      if ok {
        var number := Amount.ReadUnsigned64(input[row.data.pos..row.data.pos + row.length]);
        assert input[row.data.pos..row.data.pos + row.length][..8] == input[row.data.pos..row.data.pos + 8];
        ok := number == value;
      }
    } else {
      ok := false;
    }
  }

  /** `check_swap_conditions_and_sign`, called for a swap; `hashes` says whether the
      device's hash function works. The mask of the amounts is
      one bit: testing it is a division, setting it where it is clear an addition. */
  method CheckSwapConditions(sha256: seq<byte> -> Digest, input: seq<byte>, fields: array<Field>, numFields: nat,
                             approval: Approval, hashes: bool) returns (ok: bool)
    requires numFields <= fields.Length && AreTyped(input, fields[..numFields])
    requires approval.amount < Numerals.TWO_64 && approval.fee < Numerals.TWO_64
    ensures ok <==> hashes && IsApproved(sha256, input, fields[..numFields], approval)
  {
    hide AddressText, NumberAt, Decimal.UnsignedText;
    ghost var rows := fields[..numFields];
    if numFields != 6 {
      return false;
    }
    assert forall i :: 0 <= i < 6 ==> fields[i] == rows[i];
    var stepIndex := 0;
    ok := CheckField(input, fields[stepIndex], STI_UINT16, UINT16_TRANSACTION_TYPE, true, Flags.TRANSACTION_PAYMENT);
    if !ok { return; }
    stepIndex := stepIndex + 1;
    ok := CheckField(input, fields[stepIndex], STI_ACCOUNT, ACCOUNT_ACCOUNT, false, 0);
    if !ok { return; }
    stepIndex := stepIndex + 1;
    ok := CheckField(input, fields[stepIndex], STI_UINT32, UINT32_DESTINATION_TAG, false, 0);
    if !ok { return; }
    if Decimal.UnsignedText(fields[stepIndex].data.n) != approval.destinationTag {
      return false;
    }
    stepIndex := stepIndex + 1;
    ok := CheckDrops(input, fields[stepIndex], AMOUNT_AMOUNT, approval.amount);
    if !ok { return; }
    stepIndex := stepIndex + 1;
    ok := CheckDrops(input, fields[stepIndex], AMOUNT_FEE, approval.fee);
    if !ok { return; }
    stepIndex := stepIndex + 1;
    ok := CheckField(input, fields[stepIndex], STI_ACCOUNT, ACCOUNT_DESTINATION, false, 0);
    if !ok { return; }
    var pos := fields[stepIndex].data.pos;
    ok := CheckAddress(sha256, hashes, input[pos..pos + ACCOUNT_SIZE], approval.address);
  }

  method CheckDrops(input: seq<byte>, row: Field, id: nat, drops: nat) returns (ok: bool)
    requires IsTyped(input, row) && drops < Numerals.TWO_64
    ensures ok <==> IsDrops(input, row, id, drops)
  {
    if row.dataType == STI_AMOUNT && row.length == XRP_AMOUNT_LEN {
      WireNumber(input, row.data.pos);
    }
    if drops / Numerals.TWO_62 % 2 == 1 {
      return false;
    }
    ok := CheckField(input, row, STI_AMOUNT, id, true, drops + Numerals.TWO_62);
  }

  method CheckAddress(sha256: seq<byte> -> Digest, hashes: bool, account: AccountBytes, address: string)
    returns (ok: bool)
    ensures ok <==> hashes && AddressText(sha256, 0, account) == address
  {
    var destination := new char[Base58.ADDRESS_SIZE](_ => '\0');
    var length := ToAddress(sha256, _ => account, _ => hashes, None, Some(account), destination, 0);
    ok := length != 0 && length == |address| && destination[..length] == address;
  }

  // ---------- What an accepted swap is ----------

  ghost predicate NoFlags(rows: seq<Field>) {
    forall i :: 0 <= i < |rows| ==> !IsTopLevelFlags(rows[i])
  }

  lemma {:induction false} NoFlagsNoDoubt(rows: seq<Field>)
    requires NoFlags(rows)
    ensures TopLevelFlags(rows) == []
  {
    if rows != [] {
      NoFlagsNoDoubt(rows[..|rows| - 1]);
    }
  }

  /** Six rows of the approved shape hold one TransactionType, no Flags, and only named fields. */
  lemma ApprovedShape(sha256: seq<byte> -> Digest, input: seq<byte>, rows: seq<Field>, approval: Approval)
    requires AreTyped(input, rows) && IsApproved(sha256, input, rows, approval)
    ensures OfScore(rows, 0) == [rows[0]] && TopLevelFlags(rows) == [] && AllRecognized(rows)
  {
    hide AddressText, NumberAt, Decimal.UnsignedText, IsTyped;
    assert rows == [rows[0]] + rows[1..];
    assert NoTypes(rows[1..]) && NoFlags(rows) && AllRecognized(rows);
    hide OfScore, TopLevelFlags, NoTypes, NoFlags, AllRecognized, IsApproved;
    OfScoreAppend([rows[0]], rows[1..], 0);
    OneTypeIsTheGroup(rows[0]);
    NoTypesNoGroup(rows[1..]);
    NoFlagsNoDoubt(rows);
  }

  lemma PaymentTypeSettles(row: Field, txType: nat)
    requires row.data == U16(Flags.TRANSACTION_PAYMENT) && TypesSettle([row], txType)
    ensures txType == Flags.TRANSACTION_PAYMENT
  {
    assert [row][0] == row;
  }

  lemma BlindStopEndsInType(input: seq<byte>)
    requires ParseTx(input).Reviewable?
    ensures ParseLoop(input).stop.StoppedBlind? ==>
      ParseTx(input).rows != [] && IsTransactionType(ParseTx(input).rows[|ParseTx(input).rows| - 1])
  {
    hide ParseItems, RowsOf, IsTransactionType;
    RunTyped(input, 0, INITIAL_FRAME, 0);
  }

  /** A transaction signed for a swap is read to its last byte and would have been
      shown without a warning. */
  lemma SwapNeedsNoBlindSigning(sha256: seq<byte> -> Digest, input: seq<byte>, approval: Approval)
    requires ParseTx(input).Reviewable? && AreTyped(input, ParseTx(input).rows)
    requires IsApproved(sha256, input, ParseTx(input).rows, approval)
    ensures ParseLoop(input).stop == AtEnd
    ensures !ParseTx(input).blind && ParseTx(input).txType == Flags.TRANSACTION_PAYMENT
  {
    hide ParseItems, RowsOf, HasField, TopLevelFlags, OfScore, AllRecognized, AddressText, IsTyped, Sorted;
    var rows := ParseTx(input).rows;
    var run := ParseLoop(input);
    BlindStopEndsInType(input);
    assert !IsTransactionType(rows[|rows| - 1]);
    var all := TableOfTypes(input);
    assert rows == Sorted(all);
    SortedIsStableSort(all);
    ApprovedShape(sha256, input, rows, approval);
    assert OfScore(rows, 0) == OfScore(all, 0);
    PaymentTypeSettles(rows[0], run.frame.txType);
  }

  /** An accepted swap holds just a type (0, Payment), a sender, a destination tag, an
      amount, a fee and a destination.  It pays exactly the approved drops for the
      approved fee, with the tag the approved numeral stands for, and its destination
      is the only account with the approved address. */
  lemma AcceptedSwapIsTheApprovedOne(sha256: seq<byte> -> Digest, input: seq<byte>, rows: seq<Field>,
                                     approval: Approval)
    requires AreTyped(input, rows) && IsApproved(sha256, input, rows, approval)
    ensures |rows| == 6 && rows[0].dataType == 1 && rows[0].id == 2 && rows[0].data == U16(0)
    ensures rows[1].dataType == 8 && rows[1].id == 1 && rows[2].dataType == 2 && rows[2].id == 14
    ensures rows[3].dataType == 6 && rows[3].id == 1 && rows[3].length == 8
    ensures rows[4].dataType == 6 && rows[4].id == 8 && rows[4].length == 8
    ensures rows[5].dataType == 8 && rows[5].id == 3
    ensures approval.amount < 0x4000_0000_0000_0000
      && NumberAt(input, rows[3].data.pos) == 0x4000_0000_0000_0000 + approval.amount
    ensures approval.fee < 0x4000_0000_0000_0000
      && NumberAt(input, rows[4].data.pos) == 0x4000_0000_0000_0000 + approval.fee
    ensures rows[2].data.n == Decimal.NumeralValue(approval.destinationTag)
    ensures forall account: AccountBytes :: AddressText(sha256, 0, account) == approval.address ==>
      input[rows[5].data.pos..rows[5].data.pos + ACCOUNT_SIZE] == account
  {
    WireNumber(input, rows[3].data.pos);
    WireNumber(input, rows[4].data.pos);
    hide NumberAt, AddressText;
    Decimal.UnsignedTextReads(rows[2].data.n);
    var pos := rows[5].data.pos;
    forall account: AccountBytes | AddressText(sha256, 0, account) == approval.address
      ensures input[pos..pos + ACCOUNT_SIZE] == account
    {
      AddressNamesOneAccount(sha256, 0, input[pos..pos + ACCOUNT_SIZE], 0, account);
    }
  }
}
