/** What parsing a serialized transaction yields (src/xrp/xrp_parse.c), item by
    item: every item of the byte stream has a start, an end and the rows it
    leaves in the review.  Hidden fields leave none; amounts, issues, vectors
    and path steps can leave more than one. */
module TransactionSpec {
  import opened Fields
  import opened FieldSort
  import Currency
  import Flags
  import Numerals

  const MAX_FIELD_COUNT: nat := 60
  const MAX_ARRAY_LEN: nat := 8
  const MAX_PATH_COUNT: nat := 6
  const MAX_STEP_COUNT: nat := 8

  const PATHSET_NEXT: nat := 0xFF
  const PATHSET_END: nat := 0x00

  const TRANSACTION_INVALID: nat := 0xFFFF
  const TRANSACTION_SET_REGULAR_KEY: nat := 5

  const SUCCESS: nat := 0
  const EXCEPTION_OVERFLOW: nat := 3
  const NOT_SUPPORTED: nat := 8
  const INVALID_STATE: nat := 9
  const NOT_ENOUGH_SPACE: nat := 19
  const BLIND_SIGN_REQUIRED: nat := 20

  const MAX_RAW_TX: nat := 10000

  datatype Error = Overflow | NotEnoughSpace | InvalidState | NotSupported

  datatype Result<+T> = Ok(value: T) | Err(error: Error) {
    predicate IsFailure() { Err? }

    function PropagateFailure<U>(): Result<U>
      requires Err?
    {
      Err(error)
    }

    function Extract(): T
      requires Ok?
    {
      value
    }
  }

  /** How an error shows in the status word. */
  function Code(error: Error): nat {
    match error
    case Overflow => EXCEPTION_OVERFLOW
    case NotEnoughSpace => NOT_ENOUGH_SPACE
    case InvalidState => INVALID_STATE
    case NotSupported => NOT_SUPPORTED
  }

  /** The parser's registers besides the cursor and the table. */
  datatype Frame = Frame(currentArray: nat, index1: nat, index2: nat, depth: nat, txType: nat, emptyKey: bool)

  const INITIAL_FRAME := Frame(ARRAY_NONE, 0, 0, 0, TRANSACTION_INVALID, false)

  predicate IsSupported(txType: nat) {
    txType in {0, 1, 2, 3, 4, 5, 7, 8, 10, 11, 12, 13, 14, 15, 16, 17, 18, 19, 20, 21, 25, 26, 27, 28, 30,
               35, 36, 37, 38, 39, 40}
  }

  // ---------- Bytes ----------

  function ByteAt(input: seq<byte>, offset: nat): Result<byte> {
    if offset < |input| then Ok(input[offset]) else Err(Overflow)
  }

  /** `count` more bytes are there. */
  predicate HasBytes(input: seq<byte>, offset: nat, count: nat) {
    offset + count <= |input|
  }

  /** The XRPL length prefix, as far as a transaction can need it. */
  function VlLength(input: seq<byte>, offset: nat): Result<(nat, nat)> {
    var first :- ByteAt(input, offset);
    if first <= 192 then Ok((first, offset + 1))
    else if first > 240 then Err(InvalidState)
    else
      var second :- ByteAt(input, offset + 1);
      Ok((193 + (first - 193) * 256 + second, offset + 2))
  }

  /** Type code, field code, end. */
  function Header(input: seq<byte>, offset: nat): Result<(nat, nat, nat)> {
    var first :- ByteAt(input, offset);
    if first / 16 == 0 then
      var dataType :- ByteAt(input, offset + 1);
      if first == 0 then
        var id :- ByteAt(input, offset + 2);
        Ok((dataType, id, offset + 3))
      else Ok((dataType, first % 16, offset + 2))
    else if first % 16 == 0 then
      var id :- ByteAt(input, offset + 1);
      Ok((first / 16, id, offset + 2))
    else Ok((first / 16, first % 16, offset + 1))
  }

  function BigEndian(bytes: seq<byte>): nat {
    Numerals.Value(256, bytes)
  }

  lemma BigEndian2(bytes: seq<byte>)
    requires |bytes| == 2
    ensures BigEndian(bytes) == (bytes[0] as nat) * 0x100 + bytes[1]
  {
    assert bytes[..2] == bytes && bytes[..2][..1] == bytes[..1];
    assert BigEndian(bytes[..1][..0]) == 0;
    assert BigEndian(bytes[..1]) == bytes[0];
  }

  lemma BigEndian4(bytes: seq<byte>)
    requires |bytes| == 4
    ensures BigEndian(bytes) == (bytes[0] as nat) * 0x100_0000 + (bytes[1] as nat) * 0x1_0000
                                + (bytes[2] as nat) * 0x100 + bytes[3]
  {
    BigEndian2(bytes[..2]);
    assert bytes[..3][..2] == bytes[..2];
    assert BigEndian(bytes[..3]) == BigEndian(bytes[..2]) * 256 + bytes[2];
  }

  // ---------- Rows ----------

  /** A fresh slot, labelled with the array position. */
  function Slot(frame: Frame): Field {
    ZERO_FIELD.(
      arrayInfo := if frame.currentArray != ARRAY_NONE
                   then ArrayInfo(frame.currentArray, frame.index1, frame.index2) else NO_ARRAY,
      depth := frame.depth)
  }

  function CurrencyRow(frame: Frame, pos: nat): Field {
    Slot(frame).(dataType := STI_CURRENCY, id := CURRENCY_CURRENCY, data := Ptr(pos), length := CURRENCY_SIZE)
  }

  function IssuerRow(frame: Frame, pos: nat): Field {
    Slot(frame).(dataType := STI_ACCOUNT, id := ACCOUNT_ISSUER, data := Ptr(pos), length := ACCOUNT_SIZE)
  }

  /** Entry `i` of a vector with field code `id`. */
  function EntryRow(frame: Frame, id: nat, pos: nat, i: nat): Field {
    Slot(frame).(dataType := STI_HASH256, id := HASH256_NFTOKEN_OFFER, data := Ptr(pos), length := HASH_SIZE,
                 arrayInfo := ArrayInfo(id, (i + 1) % 256, Slot(frame).arrayInfo.index2))
  }

  // ---------- Values ----------

  /** A value that was read: its own row, the rows appended behind it. */
  datatype Value = Value(end: nat, row: Field, extra: seq<Field>, frame: Frame)

  function Fixed(input: seq<byte>, offset: nat, row: Field, count: nat): Result<(nat, Field)> {
    if HasBytes(input, offset, count) then Ok((offset + count, row.(data := Ptr(offset), length := count)))
    else Err(Overflow)
  }

  function Number(input: seq<byte>, offset: nat, row: Field, count: nat, frame: Frame): Result<Value>
    requires count in {1, 2, 4}
  {
    var (end, row') :- Fixed(input, offset, row, count);
    var data :=
      if count == 1 then U8(input[offset])
      else if count == 2 then U16(BigEndian(input[offset..offset + 2]))
      else U32(BigEndian(input[offset..offset + 4]));
    Ok(Value(end, row'.(data := data), [], frame))
  }

  function Bytes(input: seq<byte>, offset: nat, row: Field, count: nat, frame: Frame): Result<Value> {
    var (end, row') :- Fixed(input, offset, row, count);
    Ok(Value(end, row', [], frame))
  }

  function Blob(input: seq<byte>, offset: nat, row: Field, frame: Frame): Result<Value> {
    var (length, start) :- VlLength(input, offset);
    Bytes(input, start, row, length, frame)
  }

  /** `used` counts the slots taken so far, the value's own row included. */
  function Amount(input: seq<byte>, offset: nat, row: Field, frame: Frame, used: nat): Result<Value> {
    var first :- ByteAt(input, offset);
    if first < 128 then Bytes(input, offset, row, XRP_AMOUNT_LEN, frame)
    else
      var (end, row') :- Fixed(input, offset, row, ISSUED_CURRENCY_LEN);
      var code := input[offset + 8..offset + 28];
      if Currency.AllZeros(code) || !Currency.IsValid(code) then Err(InvalidState)
      else
        var extra := (if Currency.IsNonStandard(code) then [CurrencyRow(frame, offset + 8)] else [])
                     + [IssuerRow(frame, offset + 28)];
        if used + |extra| > MAX_FIELD_COUNT then Err(NotEnoughSpace) else Ok(Value(end, row', extra, frame))
  }

  function Entries(frame: Frame, id: nat, start: nat, count: nat): (rows: seq<Field>)
    ensures |rows| == count
  {
    seq(count, i requires 0 <= i < count => EntryRow(frame, id, start + i * HASH_SIZE, i))
  }

  function Vector(input: seq<byte>, offset: nat, row: Field, frame: Frame, used: nat): Result<Value>
    requires used <= MAX_FIELD_COUNT
  {
    var (length, start) :- VlLength(input, offset);
    if length % HASH_SIZE != 0 then Err(InvalidState)
    else if length / HASH_SIZE > MAX_FIELD_COUNT - used then Err(NotEnoughSpace)
    else
      var (end, row') :- Fixed(input, start, row, length);
      Ok(Value(end, row', Entries(frame, row.id, start, length / HASH_SIZE), frame))
  }

  function Issue(input: seq<byte>, offset: nat, row: Field, frame: Frame, used: nat): Result<Value> {
    if !HasBytes(input, offset, CURRENCY_SIZE) then Err(Overflow)
    else if Currency.AllZeros(input[offset..offset + CURRENCY_SIZE]) then
      Bytes(input, offset, row, CURRENCY_SIZE, frame)
    else
      var (end, row') :- Fixed(input, offset, row, ISSUE_SIZE);
      if used >= MAX_FIELD_COUNT then Err(NotEnoughSpace)
      else Ok(Value(end, row', [IssuerRow(frame, offset + CURRENCY_SIZE)], frame))
  }

  function ArrayMarker(id: nat, frame: Frame): Frame {
    if id != END_MARKER then frame.(currentArray := id, index1 := 0, index2 := 0)
    else frame.(currentArray := ARRAY_NONE)
  }

  function ObjectMarker(id: nat, frame: Frame): Result<Frame> {
    if id == END_MARKER then Ok(frame.(depth := if frame.depth > 0 then frame.depth - 1 else 0))
    else
      var index1 := (frame.index1 + 1) % 256;
      if index1 > MAX_ARRAY_LEN then Err(NotSupported)
      else Ok(frame.(index1 := index1, depth := (frame.depth + 1) % 256))
  }

  /** The value behind a header; `row` carries the type and field codes. */
  function FieldValue(input: seq<byte>, offset: nat, row: Field, frame: Frame, used: nat): Result<Value>
    requires used <= MAX_FIELD_COUNT
  {
    var t := row.dataType;
    if t == STI_UINT8 then Number(input, offset, row, 1, frame)
    else if t == STI_UINT16 then Number(input, offset, row, 2, frame)
    else if t == STI_UINT32 then Number(input, offset, row, 4, frame)
    else if t == STI_HASH128 then Bytes(input, offset, row, 16, frame)
    else if t == STI_HASH256 then Bytes(input, offset, row, HASH_SIZE, frame)
    else if t == STI_AMOUNT then Amount(input, offset, row, frame, used)
    else if t == STI_VL || t == STI_ACCOUNT then Blob(input, offset, row, frame)
    else if t == STI_VECTOR256 then Vector(input, offset, row, frame, used)
    else if t == STI_ARRAY then Ok(Value(offset, row, [], ArrayMarker(row.id, frame)))
    else if t == STI_OBJECT then
      var frame' :- ObjectMarker(row.id, frame);
      Ok(Value(offset, row, [], frame'))
    else if t == STI_PATHSET then
      Ok(Value(offset, row, [], frame.(currentArray := ARRAY_PATHSET, index1 := 1, index2 := 1)))
    else if t == STI_ISSUE then Issue(input, offset, row, frame, used)
    else Err(NotSupported)
  }

  /** One step of a path, its kind byte already read. */
  function PathStep(input: seq<byte>, offset: nat, row: Field, frame: Frame, used: nat, kind: nat): Result<Value> {
    var (end, row') :- Fixed(input, offset, row, 20);
    if kind == 0x01 then
      Ok(Value(end, row'.(dataType := STI_ACCOUNT, id := ACCOUNT_ACCOUNT), [], frame))
    else if kind == 0x20 then
      Ok(Value(end, row'.(dataType := STI_ACCOUNT, id := ACCOUNT_ISSUER), [], frame))
    else if kind == 0x10 then
      Ok(Value(end, row'.(dataType := STI_CURRENCY, id := CURRENCY_CURRENCY), [], frame))
    else if kind == 0x30 then
      if used >= MAX_FIELD_COUNT then Err(NotEnoughSpace)
      else if !HasBytes(input, end, 20) then Err(Overflow)
      else Ok(Value(end + 20, row'.(dataType := STI_CURRENCY, id := CURRENCY_CURRENCY), [IssuerRow(frame, end)], frame))
    else Err(InvalidState)
  }

  /** One item inside a path set. */
  function PathItem(input: seq<byte>, offset: nat, frame: Frame, used: nat): Result<Value> {
    var row := Slot(frame).(dataType := STI_PATHSET);
    var kind :- ByteAt(input, offset);
    if kind == PATHSET_NEXT then
      var index1 := (frame.index1 + 1) % 256;
      if index1 > MAX_PATH_COUNT then Err(InvalidState)
      else Ok(Value(offset + 1, row, [], frame.(index1 := index1, index2 := 1)))
    else if kind == PATHSET_END then
      Ok(Value(offset + 1, row, [], frame.(currentArray := ARRAY_NONE)))
    else if frame.index2 > MAX_STEP_COUNT then Err(InvalidState)
    else
      var step :- PathStep(input, offset + 1, row, frame, used, kind);
      Ok(step.(frame := frame.(index2 := (frame.index2 + 1) % 256)))
  }

  function HeaderedItem(input: seq<byte>, offset: nat, frame: Frame, used: nat): Result<Value>
    requires used <= MAX_FIELD_COUNT
  {
    var (dataType, id, start) :- Header(input, offset);
    FieldValue(input, start, Slot(frame).(dataType := dataType, id := id), frame, used)
  }

  // ---------- Items ----------

  /** What `post_process_field` decides. */
  datatype Checked = Accepted(frame: Frame) | Blind | Rejected(error: Error)

  function PostProcess(row: Field, frame: Frame): Checked {
    if row.dataType == STI_UINT16 then
      if !IsTransactionType(row) then Accepted(frame)
      else if row.arrayInfo.kind == ARRAY_NONE && frame.depth == 0 && frame.txType == TRANSACTION_INVALID
          && row.data.U16?
      then Accepted(frame.(txType := row.data.n))
      else Blind
    else if row.dataType == STI_VL then
      if row.id == VL_SIGNING_PUB_KEY && row.length == 0 && row.arrayInfo.kind == ARRAY_NONE && frame.depth == 0
      then Accepted(frame.(emptyKey := true))
      else Accepted(frame)
    else if row.dataType == STI_ACCOUNT && row.length != ACCOUNT_SIZE then Rejected(InvalidState)
    else Accepted(frame)
  }

  /** One iteration of the parse loop. */
  datatype Item = Item(start: nat, end: nat, before: Frame, after: Frame, rows: seq<Field>)

  datatype ItemResult = Parsed(item: Item) | Refused(error: Error) | BlindAt(row: Field)

  function ParseValue(input: seq<byte>, offset: nat, frame: Frame, used: nat): Result<Value>
    requires used <= MAX_FIELD_COUNT
  {
    if frame.currentArray == ARRAY_PATHSET then PathItem(input, offset, frame, used)
    else HeaderedItem(input, offset, frame, used)
  }

  function ParseItem(input: seq<byte>, offset: nat, frame: Frame, used: nat): ItemResult
    requires used <= MAX_FIELD_COUNT
  {
    if used >= MAX_FIELD_COUNT then Refused(NotEnoughSpace)
    else match ParseValue(input, offset, frame, used + 1)
      case Err(error) => Refused(error)
      case Ok(value) =>
        match PostProcess(value.row, value.frame)
        case Rejected(error) => Refused(error)
        case Blind => BlindAt(value.row)
        case Accepted(after) =>
          var own := if IsHidden(value.row) then [] else [value.row];
          Parsed(Item(offset, value.end, frame, after, own + value.extra))
  }

  // ---------- The loop ----------

  datatype Stop = AtEnd | StoppedBy(error: Error) | StoppedBlind(row: Field)

  /** A run of the parse loop: the items it completed, the registers it ended
      with, and why it ended. */
  datatype Loop = Loop(items: seq<Item>, frame: Frame, stop: Stop)

  function RowsOf(items: seq<Item>): seq<Field> {
    if items == [] then [] else items[0].rows + RowsOf(items[1..])
  }

  lemma FieldValueConsumes(input: seq<byte>, offset: nat, row: Field, frame: Frame, used: nat)
    requires used <= MAX_FIELD_COUNT && offset <= |input| && FieldValue(input, offset, row, frame, used).Ok?
    ensures offset <= FieldValue(input, offset, row, frame, used).value.end <= |input|
  {
    hide BigEndian, Entries, Currency.IsValid, Currency.IsNonStandard, Currency.AllZeros;
  }

  /** A value consumes at least its header or kind byte. */
  lemma ParseValueConsumes(input: seq<byte>, offset: nat, frame: Frame, used: nat)
    requires used <= MAX_FIELD_COUNT && ParseValue(input, offset, frame, used).Ok?
    ensures offset < ParseValue(input, offset, frame, used).value.end <= |input|
  {
    if frame.currentArray != ARRAY_PATHSET {
      hide FieldValue, PathItem;
      var header := Header(input, offset).value;
      FieldValueConsumes(input, header.2, Slot(frame).(dataType := header.0, id := header.1), frame, used);
    }
  }

  /** No value appends more rows than the table has room for. */
  lemma ParseValueFits(input: seq<byte>, offset: nat, frame: Frame, used: nat)
    requires used <= MAX_FIELD_COUNT && ParseValue(input, offset, frame, used).Ok?
    ensures used + |ParseValue(input, offset, frame, used).value.extra| <= MAX_FIELD_COUNT
  {
  }

  lemma ParseItemAdvances(input: seq<byte>, offset: nat, frame: Frame, used: nat)
    requires used <= MAX_FIELD_COUNT && ParseItem(input, offset, frame, used).Parsed?
    ensures var item := ParseItem(input, offset, frame, used).item;
      offset < item.end <= |input| && used + |item.rows| <= MAX_FIELD_COUNT
  {
    hide ParseValue, PostProcess, IsHidden;
    ParseValueConsumes(input, offset, frame, used + 1);
    ParseValueFits(input, offset, frame, used + 1);
  }

  /** The run that completed `done` and then went on as `rest`. */
  function Resumed(done: seq<Item>, rest: Loop): Loop {
    Loop(done + rest.items, rest.frame, rest.stop)
  }

  function ParseItems(input: seq<byte>, offset: nat, frame: Frame, used: nat): Loop
    requires offset <= |input| && used <= MAX_FIELD_COUNT
    decreases |input| - offset
  {
    if offset == |input| then Loop([], frame, AtEnd)
    else match ParseItem(input, offset, frame, used)
      case Refused(error) => Loop([], frame, StoppedBy(error))
      case BlindAt(row) => Loop([], frame, StoppedBlind(row))
      case Parsed(item) =>
        ParseItemAdvances(input, offset, frame, used);
        Resumed([item], ParseItems(input, item.end, item.after, used + |item.rows|))
  }

  /** One step of the loop, read off its specification. */
  lemma ParseItemsStep(input: seq<byte>, offset: nat, frame: Frame, used: nat)
    requires offset <= |input| && used <= MAX_FIELD_COUNT
    ensures offset == |input| ==> ParseItems(input, offset, frame, used) == Loop([], frame, AtEnd)
    ensures offset < |input| ==>
      match ParseItem(input, offset, frame, used)
      case Refused(error) => ParseItems(input, offset, frame, used) == Loop([], frame, StoppedBy(error))
      case BlindAt(row) => ParseItems(input, offset, frame, used) == Loop([], frame, StoppedBlind(row))
      case Parsed(item) =>
        && offset < item.end <= |input| && used + |item.rows| <= MAX_FIELD_COUNT
        && ParseItems(input, offset, frame, used)
           == Resumed([item], ParseItems(input, item.end, item.after, used + |item.rows|))
  {
    hide ParseItem;
    if offset < |input| && ParseItem(input, offset, frame, used).Parsed? {
      ParseItemAdvances(input, offset, frame, used);
    }
  }

  lemma {:induction false} RowsOfAppend(items: seq<Item>, item: Item)
    ensures RowsOf(items + [item]) == RowsOf(items) + item.rows
  {
    if items == [] {
      assert [item][1..] == [];
      assert item.rows + [] == item.rows;
    } else {
      assert (items + [item])[1..] == items[1..] + [item];
      RowsOfAppend(items[1..], item);
    }
  }

  // ---------- The whole transaction ----------

  function ParseLoop(input: seq<byte>): Loop {
    ParseItems(input, 0, INITIAL_FRAME, 0)
  }

  predicate HasField(rows: seq<Field>, dataType: nat, id: nat, topLevelOnly: bool) {
    exists i :: 0 <= i < |rows| && IsWanted(rows[i], dataType, id, topLevelOnly)
  }

  predicate IsWanted(row: Field, dataType: nat, id: nat, topLevelOnly: bool) {
    row.dataType == dataType && row.id == id && (topLevelOnly ==> row.arrayInfo.kind == ARRAY_NONE)
  }

  predicate IsTopLevelFlags(row: Field) {
    && row.dataType == STI_UINT32 && row.id == UINT32_FLAGS
    && row.arrayInfo.kind == ARRAY_NONE && row.depth == 0
  }

  function TopLevelFlags(rows: seq<Field>): seq<Field> {
    if rows == [] then []
    else TopLevelFlags(rows[..|rows| - 1]) +
         if IsTopLevelFlags(rows[|rows| - 1]) then [rows[|rows| - 1]] else []
  }

  function ToBits(n: nat): bv32 {
    (n % 0x1_0000_0000) as bv32
  }

  function FlagsValue(row: Field): bv32 {
    if row.data.U32? then ToBits(row.data.n) else 0
  }

  /** A second Flags field, or a bit the formatter of the type cannot name. */
  predicate FlagsNeedBlindSigning(rows: seq<Field>, txType: nat) {
    var flags := TopLevelFlags(rows);
    |flags| >= 2 || (|flags| == 1 && Flags.HasUnknownFlags(txType, FlagsValue(flags[0])))
  }

  predicate AllRecognized(rows: seq<Field>) {
    forall i :: 0 <= i < |rows| ==> IsRecognized(rows[i])
  }

  /** The row that stands for a removed regular key. */
  function EmptyRegularKey(frame: Frame): Field {
    Slot(frame).(dataType := STI_ACCOUNT, id := ACCOUNT_REGULAR_KEY, data := Null)
  }

  /** The outcome the signing session acts on. */
  datatype Outcome =
    | Failed(error: Error)
    | Reviewable(blind: bool, rows: seq<Field>, txType: nat, emptyKey: bool)

  predicate NeedsRegularKeyRow(rows: seq<Field>, txType: nat) {
    txType == TRANSACTION_SET_REGULAR_KEY && !HasField(rows, STI_ACCOUNT, ACCOUNT_REGULAR_KEY, false)
  }

  function Conclude(rows: seq<Field>, frame: Frame): Outcome {
    if !HasField(rows, STI_UINT16, UINT16_TRANSACTION_TYPE, true) || !HasField(rows, STI_ACCOUNT, ACCOUNT_ACCOUNT, true)
    then Failed(NotSupported)
    else
      var sorted := Sorted(rows);
      var blind := frame.txType == TRANSACTION_INVALID || !IsSupported(frame.txType)
                   || FlagsNeedBlindSigning(sorted, frame.txType) || !AllRecognized(sorted);
      Reviewable(blind, sorted, frame.txType, frame.emptyKey)
  }

  function ParseTx(input: seq<byte>): Outcome {
    var loop := ParseLoop(input);
    var rows := RowsOf(loop.items);
    match loop.stop
    case StoppedBy(error) => Failed(error)
    case StoppedBlind(row) => Reviewable(true, rows + [row], loop.frame.txType, loop.frame.emptyKey)
    case AtEnd =>
      if NeedsRegularKeyRow(rows, loop.frame.txType) then
        if |rows| >= MAX_FIELD_COUNT then Failed(NotEnoughSpace)
        else Conclude(rows + [EmptyRegularKey(loop.frame)], loop.frame)
      else Conclude(rows, loop.frame)
  }
}
