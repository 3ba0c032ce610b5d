/** The streaming parser of src/xrp/xrp_parse.c: a cursor into the transaction, a
    table of 60 rows filled in place, and a few registers.  Every method is tied
    to the specification of the same construct in TransactionSpec. */
module Parser {
  import opened Fields
  import opened FieldSort
  import opened TransactionSpec
  import Currency
  import Flags
  import Numerals

  class ParseContext {
    const input: seq<byte>
    const fields: array<Field>
    var offset: nat
    var numFields: nat
    var currentArray: nat
    var arrayIndex1: nat
    var arrayIndex2: nat
    var objectDepth: nat
    var transactionType: nat
    var hasEmptyPubKey: bool

    /** Slots that are not in use are zero: a fresh row starts from nothing. */
    ghost predicate Valid()
      reads this, fields
    {
      && |input| <= MAX_RAW_TX && offset <= |input|
      && fields.Length == MAX_FIELD_COUNT && numFields <= MAX_FIELD_COUNT
      && forall k :: numFields <= k < MAX_FIELD_COUNT ==> fields[k] == ZERO_FIELD
    }

    ghost function Rows(): (rows: seq<Field>)
      requires Valid()
      reads this, fields
    {
      fields[..numFields]
    }

    ghost function Registers(): Frame
      reads this
    {
      Frame(currentArray, arrayIndex1, arrayIndex2, objectDepth, transactionType, hasEmptyPubKey)
    }

    /** The context as `reset_transaction_context` and the upload leave it. */
    constructor (transaction: seq<byte>)
      requires |transaction| <= MAX_RAW_TX
      ensures Valid() && fresh(fields) && input == transaction && offset == 0
      ensures Rows() == [] && Registers() == Frame(ARRAY_NONE, 0, 0, 0, 0, false)
    {
      input := transaction;
      fields := new Field[MAX_FIELD_COUNT](_ => ZERO_FIELD);
      offset, numFields := 0, 0;
      currentArray, arrayIndex1, arrayIndex2, objectDepth := ARRAY_NONE, 0, 0, 0;
      transactionType, hasEmptyPubKey := 0, false;
    }

    // ---------- The cursor ----------

    /** `has_data` in 32-bit arithmetic: right unless no bytes are asked for at
        offset 0, where the subtraction wraps. */
    method HasData(numBytes: nat) returns (ok: bool)
      requires Valid() && numBytes < 0x1_0000
      ensures ok <==> HasBytes(input, offset, numBytes) && offset + numBytes > 0
    {
      ok := (offset + numBytes + (Numerals.TWO_32 - 1)) % Numerals.TWO_32 < |input|;
    }

    method AdvancePosition(numBytes: nat) returns (err: nat)
      requires Valid() && numBytes < 0x1_0000
      modifies this`offset
      ensures Valid()
      ensures HasBytes(input, old(offset), numBytes) && old(offset) + numBytes > 0 ==>
        err == SUCCESS && offset == old(offset) + numBytes
      ensures !(HasBytes(input, old(offset), numBytes) && old(offset) + numBytes > 0) ==>
        err == EXCEPTION_OVERFLOW && offset == old(offset)
    {
      var ok := HasData(numBytes);
      if ok {
        offset := offset + numBytes;
        err := SUCCESS;
      } else {
        err := EXCEPTION_OVERFLOW;
      }
    }

    method ReadNextByte() returns (err: nat, result: byte)
      requires Valid()
      modifies this`offset
      ensures Valid()
      ensures old(offset) < |input| ==> err == SUCCESS && result == input[old(offset)] && offset == old(offset) + 1
      ensures old(offset) == |input| ==> err == EXCEPTION_OVERFLOW && offset == old(offset)
    {
      result := 0;
      var ok := HasData(1);
      if ok {
        result := input[offset];
        err := AdvancePosition(1);
      } else {
        err := EXCEPTION_OVERFLOW;
      }
    }

    method PeekNextByte() returns (err: nat, result: byte)
      requires Valid()
      ensures offset < |input| ==> err == SUCCESS && result == input[offset]
      ensures offset == |input| ==> err == EXCEPTION_OVERFLOW
    {
      result := 0;
      var ok := HasData(1);
      if ok {
        result := input[offset];
        err := SUCCESS;
      } else {
        err := EXCEPTION_OVERFLOW;
      }
    }

    // ---------- The table ----------

    /** Overwrites a row in place. */
    method Update(slot: nat, row: Field)
      requires Valid() && slot < numFields
      modifies fields
      ensures Valid() && Rows() == old(Rows())[slot := row]
    {
      fields[slot] := row;
    }

    /** `append_new_field`, with `append_array_info`. */
    method AppendNewField() returns (err: nat, slot: nat)
      requires Valid()
      modifies this`numFields, fields
      ensures Valid() && slot == old(numFields)
      ensures old(numFields) >= MAX_FIELD_COUNT ==> err == NOT_ENOUGH_SPACE && Rows() == old(Rows())
      ensures old(numFields) < MAX_FIELD_COUNT ==> err == SUCCESS && Rows() == old(Rows()) + [Slot(Registers())]
    {
      slot := numFields;
      if numFields >= MAX_FIELD_COUNT {
        return NOT_ENOUGH_SPACE, slot;
      }
      numFields := numFields + 1;
      if currentArray != ARRAY_NONE {
        fields[slot] := fields[slot].(arrayInfo := ArrayInfo(currentArray, arrayIndex1, arrayIndex2));
      }
      fields[slot] := fields[slot].(depth := objectDepth);
      err := SUCCESS;
    }

    /** `remove_last_field`; the caller's row is identified by its slot. */
    method RemoveLastField(slot: nat) returns (err: nat)
      requires Valid()
      modifies this`numFields, fields
      ensures Valid()
      ensures numFields == old(numFields) - (if err == SUCCESS then 1 else 0)
      ensures err == if old(numFields) > 0 && slot == old(numFields) - 1 then SUCCESS else INVALID_STATE
      ensures Rows() == if err == SUCCESS then old(Rows())[..slot] else old(Rows())
    {
      if numFields == 0 {
        return INVALID_STATE;
      }
      if numFields - 1 != slot {
        return INVALID_STATE;
      }
      fields[slot] := ZERO_FIELD;
      numFields := numFields - 1;
      err := SUCCESS;
    }

    // ---------- Values ----------

    /** The last row of the table became `result` for the value it stands for;
        `before` are the rows above it. */
    ghost predicate Did(result: Result<Value>, err: nat, before: seq<Field>)
      reads this, fields
    {
      Valid() && match result
        case Err(error) => err == Code(error)
        case Ok(value) =>
          && err == SUCCESS && offset == value.end && Registers() == value.frame
          && Rows() == before + [value.row] + value.extra
    }

    method ReadFixedSizeField(slot: nat, length: nat) returns (err: nat)
      requires Valid() && slot < numFields && length < 0x1_0000 && (offset > 0 || length > 0)
      modifies this`offset, fields
      ensures Valid()
      ensures HasBytes(input, old(offset), length) ==>
        err == SUCCESS && offset == old(offset) + length
      ensures !HasBytes(input, old(offset), length) ==> err == EXCEPTION_OVERFLOW
      ensures Rows() == old(Rows())[slot := old(Rows())[slot].(data := Ptr(old(offset)), length := length)]
    {
      Update(slot, fields[slot].(data := Ptr(offset), length := length));
      err := AdvancePosition(length);
    }

    /** `read_vl_length` */
    method ReadVlLength() returns (err: nat, dataLength: nat)
      requires Valid()
      modifies this`offset
      ensures Valid()
      ensures match VlLength(input, old(offset))
        case Err(error) => err == Code(error)
        case Ok(length) =>
          err == SUCCESS && dataLength == length.0 <= 12480 && offset == length.1 && offset > old(offset)
    {
      var value, lengthByte2;
      dataLength := 0;
      err, value := ReadNextByte();
      if err != SUCCESS { return; }
      dataLength := value;
      if dataLength > 192 {
        if dataLength > 240 {
          err := INVALID_STATE;
          return;
        }
        err, lengthByte2 := ReadNextByte();
        if err != SUCCESS { return; }
        dataLength := 193 + (dataLength - 193) * 256 + lengthByte2;
      }
      err := SUCCESS;
    }

    /** `read_field_value` for the types of fixed size. */
    method ReadBytes(slot: nat, length: nat) returns (err: nat)
      requires Valid() && slot + 1 == numFields && length <= 12480 && (offset > 0 || length > 0)
      modifies this`offset, fields
      ensures Did(Bytes(input, old(offset), old(Rows())[slot], length, old(Registers())), err, old(Rows())[..slot])
    {
      err := ReadFixedSizeField(slot, length);
    }

    method ReadNumber(slot: nat, size: nat) returns (err: nat)
      requires Valid() && slot + 1 == numFields && size in {1, 2, 4}
      modifies this`offset, fields
      ensures Did(Number(input, old(offset), old(Rows())[slot], size, old(Registers())), err, old(Rows())[..slot])
    {
      ghost var start := offset;
      err := ReadFixedSizeField(slot, size);
      if err != SUCCESS { return; }
      var p := offset - size;
      var data;
      if size == 1 {
        data := U8(input[p]);
      } else if size == 2 {
        data := U16((input[p] as nat) * 0x100 + input[p + 1]);
        BigEndian2(input[p..p + 2]);
      } else {
        data := U32((input[p] as nat) * 0x100_0000 + (input[p + 1] as nat) * 0x1_0000
                    + (input[p + 2] as nat) * 0x100 + input[p + 3]);
        BigEndian4(input[p..p + 4]);
      }
      Update(slot, fields[slot].(data := data));
    }

    /** `read_variable_length_field` */
    method ReadVariableLengthField(slot: nat) returns (err: nat)
      requires Valid() && slot + 1 == numFields
      modifies this`offset, fields
      ensures Did(Blob(input, old(offset), old(Rows())[slot], old(Registers())), err, old(Rows())[..slot])
    {
      var dataLength;
      err, dataLength := ReadVlLength();
      if err != SUCCESS { return; }
      err := ReadBytes(slot, dataLength);
    }

    /** Appends a synthesized row that points into the transaction. */
    method AppendPointer(dataType: nat, id: nat, pos: nat, length: nat) returns (err: nat)
      requires Valid()
      modifies this`numFields, fields
      ensures Valid()
      ensures err == if old(numFields) < MAX_FIELD_COUNT then SUCCESS else NOT_ENOUGH_SPACE
      ensures err == SUCCESS ==>
        Rows() == old(Rows()) + [Slot(Registers()).(dataType := dataType, id := id, data := Ptr(pos), length := length)]
    {
      var slot;
      err, slot := AppendNewField();
      if err != SUCCESS { return; }
      Update(slot, fields[slot].(dataType := dataType, id := id, data := Ptr(pos), length := length));
    }

    /** `read_amount` */
    method ReadAmount(slot: nat) returns (err: nat)
      requires Valid() && slot + 1 == numFields
      modifies this`offset, this`numFields, fields
      ensures Did(Amount(input, old(offset), old(Rows())[slot], old(Registers()), old(numFields)),
                  err, old(Rows())[..slot])
    {
      hide Currency.AllZeros, Currency.IsValid, Currency.IsNonStandard;
      var firstByte;
      err, firstByte := PeekNextByte();
      if err != SUCCESS { return; }
      if firstByte / 128 == 0 {
        err := ReadBytes(slot, XRP_AMOUNT_LEN);
        return;
      }
      var p := offset;
      ghost var before := Rows()[..slot];
      err := ReadFixedSizeField(slot, ISSUED_CURRENCY_LEN);
      if err != SUCCESS { return; }
      var zeros := Currency.CheckAllZeros(input[p + 8..p + 28]);
      var valid := Currency.CheckValid(input[p + 8..p + 28]);
      if zeros || !valid {
        err := INVALID_STATE;
        return;
      }
      var nonStandard := Currency.CheckNonStandard(input[p + 8..p + 28]);
      if nonStandard {
        err := AppendPointer(STI_CURRENCY, CURRENCY_CURRENCY, p + 8, CURRENCY_SIZE);
        if err != SUCCESS { return; }
      }
      err := AppendPointer(STI_ACCOUNT, ACCOUNT_ISSUER, p + 28, ACCOUNT_SIZE);
    }

    /** `read_vector256_field` */
    method ReadVector256Field(slot: nat) returns (err: nat)
      requires Valid() && slot + 1 == numFields
      modifies this`offset, this`numFields, fields
      ensures Did(Vector(input, old(offset), old(Rows())[slot], old(Registers()), old(numFields)),
                  err, old(Rows())[..slot])
    {
      hide VlLength, Entries;
      var dataLength;
      err, dataLength := ReadVlLength();
      if err != SUCCESS { return; }
      if dataLength % HASH_SIZE != 0 {
        err := INVALID_STATE;
        return;
      }
      var count := dataLength / HASH_SIZE;
      if count > MAX_FIELD_COUNT - numFields {
        err := NOT_ENOUGH_SPACE;
        return;
      }
      var p, id := offset, fields[slot].id;
      err := ReadFixedSizeField(slot, dataLength);
      if err != SUCCESS { return; }
      ghost var own, frame := Rows(), Registers();
      var i := 0;
      while i < count
        invariant i <= count && Valid() && Registers() == frame && offset == p + dataLength
        invariant err == SUCCESS && Rows() == own + Entries(frame, id, p, i)
      {
        err := AppendPointer(STI_HASH256, HASH256_NFTOKEN_OFFER, p + i * HASH_SIZE, HASH_SIZE);
        var last := numFields - 1;
        Update(last, fields[last].(arrayInfo := fields[last].arrayInfo.(kind := id, index1 := (i + 1) % 256)));
        EntriesStep(frame, id, p, i);
        i := i + 1;
      }
    }

    /** `read_issue` */
    method ReadIssue(slot: nat) returns (err: nat)
      requires Valid() && slot + 1 == numFields
      modifies this`offset, this`numFields, fields
      ensures Did(Issue(input, old(offset), old(Rows())[slot], old(Registers()), old(numFields)),
                  err, old(Rows())[..slot])
    {
      var ok := HasData(CURRENCY_SIZE);
      if !ok {
        return EXCEPTION_OVERFLOW;
      }
      var p := offset;
      var zeros := Currency.CheckAllZeros(input[p..p + CURRENCY_SIZE]);
      if zeros {
        err := ReadBytes(slot, CURRENCY_SIZE);
        return;
      }
      err := ReadFixedSizeField(slot, ISSUE_SIZE);
      if err != SUCCESS { return; }
      err := AppendPointer(STI_ACCOUNT, ACCOUNT_ISSUER, p + CURRENCY_SIZE, ACCOUNT_SIZE);
    }

    // ---------- Arrays, objects, paths ----------

    method HandleArrayField(id: nat)
      requires Valid()
      modifies this`currentArray, this`arrayIndex1, this`arrayIndex2
      ensures Valid() && Registers() == ArrayMarker(id, old(Registers()))
    {
      if id != END_MARKER {
        currentArray := id;
        arrayIndex1 := 0;
        arrayIndex2 := 0;
      } else {
        currentArray := ARRAY_NONE;
      }
    }

    method HandleObjectField(id: nat) returns (err: nat)
      requires Valid()
      modifies this`arrayIndex1, this`objectDepth
      ensures Valid()
      ensures match ObjectMarker(id, old(Registers()))
        case Err(error) => err == Code(error)
        case Ok(frame) => err == SUCCESS && Registers() == frame
    {
      if id != END_MARKER {
        arrayIndex1 := (arrayIndex1 + 1) % 256;
        objectDepth := (objectDepth + 1) % 256;
        if arrayIndex1 > MAX_ARRAY_LEN {
          return NOT_SUPPORTED;
        }
      } else if objectDepth > 0 {
        objectDepth := objectDepth - 1;
      }
      err := SUCCESS;
    }

    method HandlePathSetField()
      requires Valid()
      modifies this`currentArray, this`arrayIndex1, this`arrayIndex2
      ensures Valid()
      ensures Registers() == old(Registers()).(currentArray := ARRAY_PATHSET, index1 := 1, index2 := 1)
    {
      currentArray := ARRAY_PATHSET;
      arrayIndex1 := 1;
      arrayIndex2 := 1;
    }

    /** `handle_path_step`; a step of kind 0x30 handles its issuer by calling itself. */
    method HandlePathStep(slot: nat, kind: byte) returns (err: nat)
      requires Valid() && slot + 1 == numFields
      modifies this`offset, this`numFields, fields
      ensures Did(PathStep(input, old(offset), old(Rows())[slot], old(Registers()), old(numFields), kind),
                  err, old(Rows())[..slot])
      decreases if kind == 0x30 then 1 else 0
    {
      err := ReadFixedSizeField(slot, 20);
      if err != SUCCESS { return; }
      if kind == 0x01 {
        Update(slot, fields[slot].(dataType := STI_ACCOUNT, id := ACCOUNT_ACCOUNT));
      } else if kind == 0x20 {
        Update(slot, fields[slot].(dataType := STI_ACCOUNT, id := ACCOUNT_ISSUER));
      } else if kind == 0x30 || kind == 0x10 {
        ghost var own := Rows();
        if kind == 0x30 {
          var newField;
          err, newField := AppendNewField();
          if err != SUCCESS { return; }
          assert Rows()[..newField] == own;
          ghost var start := offset;
          err := HandlePathStep(newField, 0x20);
          if err != SUCCESS { return; }
          assert Rows() == own + [IssuerRow(Registers(), start)];
        }
        Update(slot, fields[slot].(dataType := STI_CURRENCY, id := CURRENCY_CURRENCY));
      } else {
        err := INVALID_STATE;
      }
    }

    /** `handle_path_field` */
    method HandlePathField(slot: nat) returns (err: nat)
      requires Valid() && slot + 1 == numFields && Rows()[slot] == Slot(Registers())
      modifies this`offset, this`numFields, this`currentArray, this`arrayIndex1, this`arrayIndex2, fields
      ensures Did(PathItem(input, old(offset), old(Registers()), old(numFields)), err, old(Rows())[..slot])
    {
      Update(slot, fields[slot].(dataType := STI_PATHSET));
      var currentStep;
      err, currentStep := ReadNextByte();
      if err != SUCCESS { return; }
      if currentStep == PATHSET_NEXT {
        arrayIndex1 := (arrayIndex1 + 1) % 256;
        arrayIndex2 := 1;
        if arrayIndex1 > MAX_PATH_COUNT {
          err := INVALID_STATE;
        }
      } else if currentStep == PATHSET_END {
        currentArray := ARRAY_NONE;
      } else {
        if arrayIndex2 > MAX_STEP_COUNT {
          err := INVALID_STATE;
          return;
        }
        err := HandlePathStep(slot, currentStep);
        if err != SUCCESS { return; }
        arrayIndex2 := (arrayIndex2 + 1) % 256;
      }
    }

    // ---------- Items ----------

    /** `read_field_header` */
    method ReadFieldHeader(slot: nat) returns (err: nat)
      requires Valid() && slot < numFields
      modifies this`offset, fields
      ensures Valid()
      ensures match Header(input, old(offset))
        case Err(error) => err == Code(error)
        case Ok(header) =>
          && err == SUCCESS && offset == header.2 > old(offset)
          && Rows() == old(Rows())[slot := old(Rows())[slot].(dataType := header.0, id := header.1)]
    {
      var firstByte, dataType, id;
      err, firstByte := ReadNextByte();
      if err != SUCCESS { return; }
      if firstByte / 16 == 0 {
        err, dataType := ReadNextByte();
        if err != SUCCESS { return; }
        if firstByte == 0 {
          err, id := ReadNextByte();
          if err != SUCCESS { return; }
        } else {
          id := firstByte % 16;
        }
      } else {
        dataType := firstByte / 16;
        if firstByte % 16 == 0 {
          err, id := ReadNextByte();
          if err != SUCCESS { return; }
        } else {
          id := firstByte % 16;
        }
      }
      Update(slot, fields[slot].(dataType := dataType, id := id));
    }

    /** `read_field_value` */
    method ReadFieldValue(slot: nat) returns (err: nat)
      requires Valid() && slot + 1 == numFields && offset > 0
      modifies this`offset, this`numFields, this`currentArray, this`arrayIndex1, this`arrayIndex2,
               this`objectDepth, fields
      ensures Did(FieldValue(input, old(offset), old(Rows())[slot], old(Registers()), old(numFields)),
                  err, old(Rows())[..slot])
    {
      hide Number, Bytes, Amount, Blob, Vector, Issue, ObjectMarker, ArrayMarker;
      var dataType := fields[slot].dataType;
      assert Rows() == Rows()[..slot] + [Rows()[slot]] + [];
      err := SUCCESS;
      if dataType == STI_UINT8 {
        err := ReadNumber(slot, 1);
      } else if dataType == STI_UINT16 {
        err := ReadNumber(slot, 2);
      } else if dataType == STI_UINT32 {
        err := ReadNumber(slot, 4);
      } else if dataType == STI_HASH128 {
        err := ReadBytes(slot, 16);
      } else if dataType == STI_HASH256 {
        err := ReadBytes(slot, HASH_SIZE);
      } else if dataType == STI_AMOUNT {
        err := ReadAmount(slot);
      } else if dataType == STI_VL || dataType == STI_ACCOUNT {
        err := ReadVariableLengthField(slot);
      } else if dataType == STI_VECTOR256 {
        err := ReadVector256Field(slot);
      } else if dataType == STI_ARRAY {
        HandleArrayField(fields[slot].id);
      } else if dataType == STI_OBJECT {
        err := HandleObjectField(fields[slot].id);
      } else if dataType == STI_PATHSET {
        HandlePathSetField();
      } else if dataType == STI_ISSUE {
        err := ReadIssue(slot);
      } else {
        err := NOT_SUPPORTED;
      }
    }

    /** `post_process_field` */
    method PostProcessField(slot: nat) returns (err: nat)
      requires Valid() && slot < numFields
      requires Rows()[slot].dataType == STI_UINT16 ==> Rows()[slot].data.U16?
      modifies this`transactionType, this`hasEmptyPubKey
      ensures Valid()
      ensures match PostProcess(Rows()[slot], old(Registers()))
        case Rejected(error) => err == Code(error)
        case Blind => err == BLIND_SIGN_REQUIRED && Registers() == old(Registers())
        case Accepted(frame) => err == SUCCESS && Registers() == frame
    {
      var field := fields[slot];
      err := SUCCESS;
      if field.dataType == STI_UINT16 {
        if IsTransactionType(field) {
          var isTopLevel := field.arrayInfo.kind == ARRAY_NONE && objectDepth == 0;
          var isFirstOccurrence := transactionType == TRANSACTION_INVALID;
          if isTopLevel && isFirstOccurrence {
            transactionType := field.data.n;
          } else {
            return BLIND_SIGN_REQUIRED;
          }
        }
      } else if field.dataType == STI_VL {
        if field.id == VL_SIGNING_PUB_KEY && field.length == 0
           && field.arrayInfo.kind == ARRAY_NONE && objectDepth == 0 {
          hasEmptyPubKey := true;
        }
      } else if field.dataType == STI_ACCOUNT {
        if field.length != ACCOUNT_SIZE {
          return INVALID_STATE;
        }
      }
    }

    /** `read_field`, without and with its post-processing. */
    method ReadValue(slot: nat) returns (err: nat)
      requires Valid() && slot + 1 == numFields && Rows()[slot] == Slot(Registers())
      modifies this`offset, this`numFields, this`currentArray, this`arrayIndex1, this`arrayIndex2,
               this`objectDepth, fields
      ensures Did(ParseValue(input, old(offset), old(Registers()), old(numFields)), err, old(Rows())[..slot])
    {
      hide PathItem, FieldValue, Header;
      if currentArray == ARRAY_PATHSET {
        err := HandlePathField(slot);
      } else {
        ghost var before := Rows()[..slot];
        err := ReadFieldHeader(slot);
        if err != SUCCESS { return; }
        assert Rows()[..slot] == before;
        err := ReadFieldValue(slot);
      }
    }

    method ReadField(slot: nat) returns (err: nat)
      requires Valid() && slot + 1 == numFields && Rows()[slot] == Slot(Registers())
      modifies this`offset, this`numFields, this`currentArray, this`arrayIndex1, this`arrayIndex2,
               this`objectDepth, this`transactionType, this`hasEmptyPubKey, fields
      ensures Valid()
      ensures match ParseValue(input, old(offset), old(Registers()), old(numFields))
        case Err(error) => err == Code(error)
        case Ok(value) =>
          && Rows() == old(Rows())[..slot] + [value.row] + value.extra
          && match PostProcess(value.row, value.frame)
             case Rejected(error) => err == Code(error)
             case Blind => err == BLIND_SIGN_REQUIRED && Registers() == value.frame
             case Accepted(frame) => err == SUCCESS && offset == value.end && Registers() == frame
    {
      hide ParseValue, PostProcess;
      ghost var value := ParseValue(input, offset, Registers(), numFields);
      if value.Ok? {
        ValueKinds(input, offset, Registers(), numFields);
      }
      err := ReadValue(slot);
      if err != SUCCESS { return; }
      err := PostProcessField(slot);
    }

    /** The body of the parse loop: append a slot, fill it, and take it back if
        the field is hidden. */
    method ParseNext() returns (err: nat)
      requires Valid() && offset < |input|
      modifies this`offset, this`numFields, this`currentArray, this`arrayIndex1, this`arrayIndex2,
               this`objectDepth, this`transactionType, this`hasEmptyPubKey, fields
      ensures Valid()
      ensures match ParseItem(input, old(offset), old(Registers()), old(numFields))
        case Refused(error) => err == Code(error)
        case BlindAt(row) =>
          err == BLIND_SIGN_REQUIRED && Rows() == old(Rows()) + [row] && Registers() == old(Registers())
        case Parsed(item) =>
          err == SUCCESS && offset == item.end && Registers() == item.after && Rows() == old(Rows()) + item.rows
    {
      hide ParseValue, PostProcess, IsHidden, Slot;
      ghost var before := Rows();
      if numFields < MAX_FIELD_COUNT && ParseValue(input, offset, Registers(), numFields + 1).Ok? {
        HiddenStandsAlone(input, offset, Registers(), numFields + 1);
        BlindStandsAlone(input, offset, Registers(), numFields + 1);
      }
      var field;
      err, field := AppendNewField();
      if err != SUCCESS { return; }
      assert Rows()[..field] == before;
      err := ReadField(field);
      if err != SUCCESS { return; }
      err := DropHidden(field);
    }

    /** A hidden row is always the last one, so the state checks of its removal pass. */
    method DropHidden(field: nat) returns (err: nat)
      requires Valid() && field < numFields && (IsHidden(Rows()[field]) ==> field == numFields - 1)
      modifies this`numFields, fields
      ensures Valid() && err == SUCCESS
      ensures Rows() == if IsHidden(old(Rows())[field]) then old(Rows())[..field] else old(Rows())
    {
      hide IsHidden;
      err := SUCCESS;
      if IsHidden(fields[field]) {
        err := RemoveLastField(field);
      }
    }

    // ---------- The whole transaction ----------

    /** How a run of the loop shows in the context when it is over. */
    ghost predicate Finished(loop: Loop, err: nat)
      requires Valid()
      reads this, fields
    {
      match loop.stop
      case AtEnd => err == SUCCESS && Rows() == RowsOf(loop.items) && Registers() == loop.frame
      case StoppedBy(error) => err == Code(error)
      case StoppedBlind(row) =>
        err == BLIND_SIGN_REQUIRED && Rows() == RowsOf(loop.items) + [row] && Registers() == loop.frame
    }

    /** The completed items are in the table, and `total` goes on from here. */
    ghost predicate Running(done: seq<Item>, total: Loop)
      requires Valid()
      reads this, fields
    {
      Rows() == RowsOf(done) && total == Resumed(done, ParseItems(input, offset, Registers(), numFields))
    }

    /** One iteration of the loop: a completed item, or the end of the run. */
    method Iterate(ghost done: seq<Item>, ghost total: Loop) returns (err: nat, ghost longer: seq<Item>)
      requires Valid() && offset < |input| && Running(done, total)
      modifies this`offset, this`numFields, this`currentArray, this`arrayIndex1, this`arrayIndex2,
               this`objectDepth, this`transactionType, this`hasEmptyPubKey, fields
      ensures Valid()
      ensures err == SUCCESS ==> offset > old(offset) && Running(longer, total)
      ensures err != SUCCESS ==> Finished(total, err)
    {
      hide ParseItem, ParseItems, RowsOf;
      longer := done;
      ghost var result, frame := ParseItem(input, offset, Registers(), numFields), Registers();
      ParseItemsStep(input, offset, Registers(), numFields);
      err := ParseNext();
      if err == SUCCESS {
        RowsOfAppend(done, result.item);
        ResumedStep(done, result.item, ParseItems(input, offset, Registers(), numFields));
        longer := done + [result.item];
      } else if result.Refused? {
        NothingLeft(done, frame, StoppedBy(result.error));
      } else {
        NothingLeft(done, frame, StoppedBlind(result.row));
      }
    }

    /** The loop of `parse_tx_internal`. */
    method ParseLoopInPlace() returns (err: nat)
      requires Valid() && offset == 0 && Rows() == [] && Registers() == INITIAL_FRAME
      modifies this`offset, this`numFields, this`currentArray, this`arrayIndex1, this`arrayIndex2,
               this`objectDepth, this`transactionType, this`hasEmptyPubKey, fields
      ensures Valid() && Finished(ParseLoop(input), err)
    {
      ghost var done: seq<Item>, total := [], ParseLoop(input);
      NothingDone(total);
      hide ParseItem, ParseItems, Resumed;
      err := SUCCESS;
      while offset != |input|
        invariant Valid() && err == SUCCESS && Running(done, total)
        decreases |input| - offset
      {
        if offset > |input| {
          return EXCEPTION_OVERFLOW;
        }
        err, done := Iterate(done, total);
        if err != SUCCESS { return; }
      }
      ParseItemsStep(input, offset, Registers(), numFields);
      NothingLeft(done, Registers(), AtEnd);
    }

    /** `has_field` */
    method FindField(dataType: nat, id: nat, topLevelOnly: bool) returns (found: bool)
      requires Valid()
      ensures found == HasField(Rows(), dataType, id, topLevelOnly)
    {
      for i := 0 to numFields
        invariant forall k :: 0 <= k < i ==> !IsWanted(Rows()[k], dataType, id, topLevelOnly)
      {
        if IsWanted(fields[i], dataType, id, topLevelOnly) {
          assert IsWanted(Rows()[i], dataType, id, topLevelOnly);
          return true;
        }
      }
      return false;
    }

    /** `find_top_level_flags_value` */
    method FindTopLevelFlagsValue() returns (found: bool, value: bv32, duplicate: bool)
      requires Valid()
      ensures found == (|TopLevelFlags(Rows())| >= 1) && duplicate == (|TopLevelFlags(Rows())| >= 2)
      ensures found && !duplicate ==> value == FlagsValue(TopLevelFlags(Rows())[0])
    {
      hide TopLevelFlags, IsTopLevelFlags, FlagsValue;
      found, value, duplicate := false, 0, false;
      TopLevelFlagsStart(Rows());
      for i := 0 to numFields
        invariant !duplicate && |TopLevelFlags(Rows()[..i])| == (if found then 1 else 0)
        invariant found ==> value == FlagsValue(TopLevelFlags(Rows()[..i])[0])
      {
        TopLevelFlagsStep(Rows(), i);
        TopLevelFlagsGrow(Rows(), i + 1);
        var field := fields[i];
        if IsTopLevelFlags(field) {
          if found {
            duplicate := true;
            return;
          }
          value := FlagsValue(field);
          found := true;
        }
      }
      assert Rows()[..numFields] == Rows();
    }

    /** `post_process_transaction` */
    method PostProcessTransaction() returns (err: nat)
      requires Valid()
      modifies this`numFields, fields
      ensures Valid()
      ensures if !NeedsRegularKeyRow(old(Rows()), transactionType) then err == SUCCESS && Rows() == old(Rows())
              else if old(numFields) >= MAX_FIELD_COUNT then err == NOT_ENOUGH_SPACE
              else err == SUCCESS && Rows() == old(Rows()) + [EmptyRegularKey(Registers())]
    {
      err := SUCCESS;
      if transactionType == TRANSACTION_SET_REGULAR_KEY {
        var found := FindField(STI_ACCOUNT, ACCOUNT_REGULAR_KEY, false);
        if !found {
          var field;
          err, field := AppendNewField();
          if err != SUCCESS { return; }
          Update(field, fields[field].(dataType := STI_ACCOUNT, id := ACCOUNT_REGULAR_KEY, data := Null));
        }
      }
    }

    method CheckRecognized() returns (all: bool)
      requires Valid()
      ensures all == AllRecognized(Rows())
    {
      for i := 0 to numFields
        invariant forall k :: 0 <= k < i ==> IsRecognized(Rows()[k])
      {
        if !IsRecognized(fields[i]) {
          assert !IsRecognized(Rows()[i]);
          return false;
        }
      }
      return true;
    }

    /** The checks of `parse_tx_internal` behind the loop. */
    method ConcludeInPlace() returns (err: nat)
      requires Valid()
      modifies fields
      ensures Valid()
      ensures match Conclude(old(Rows()), Registers())
        case Failed(error) => err == Code(error)
        case Reviewable(blind, rows, txType, emptyKey) =>
          && err == (if blind then BLIND_SIGN_REQUIRED else SUCCESS)
          && Rows() == rows && transactionType == txType && hasEmptyPubKey == emptyKey
    {
      hide HasField, AllRecognized, Sorted, TopLevelFlags, Flags.HasUnknownFlags, IsSupported, FlagsValue;
      var hasType := FindField(STI_UINT16, UINT16_TRANSACTION_TYPE, true);
      var hasAccount := FindField(STI_ACCOUNT, ACCOUNT_ACCOUNT, true);
      if !hasType || !hasAccount {
        return NOT_SUPPORTED;
      }
      SortTable();
      if transactionType == TRANSACTION_INVALID || !IsSupported(transactionType) {
        return BLIND_SIGN_REQUIRED;
      }
      var hasFlags, flagsValue, flagsDuplicate := FindTopLevelFlagsValue();
      if flagsDuplicate || (hasFlags && Flags.HasUnknownFlags(transactionType, flagsValue)) {
        return BLIND_SIGN_REQUIRED;
      }
      var recognized := CheckRecognized();
      if !recognized {
        return BLIND_SIGN_REQUIRED;
      }
      return SUCCESS;
    }

    method SortTable()
      requires Valid()
      modifies fields
      ensures Valid() && Rows() == Sorted(old(Rows()))
    {
      ghost var unused := fields[numFields..];
      assert forall k :: 0 <= k < |unused| ==> unused[k] == fields[numFields + k];
      SortFields(fields, numFields);
      assert forall k :: numFields <= k < MAX_FIELD_COUNT ==> fields[k] == fields[numFields..][k - numFields];
      assert fields[numFields..] == unused;
    }

    /** `parse_tx` on a context as reset and upload leave it. */
    method ParseTransaction() returns (err: nat)
      requires Valid() && offset == 0 && Rows() == []
      requires currentArray == ARRAY_NONE && arrayIndex1 == 0 && arrayIndex2 == 0
      modifies this, fields
      ensures Valid()
      ensures match ParseTx(input)
        case Failed(error) => err == Code(error)
        case Reviewable(blind, rows, txType, emptyKey) =>
          && err == (if blind then BLIND_SIGN_REQUIRED else SUCCESS)
          && Rows() == rows && transactionType == txType && hasEmptyPubKey == emptyKey
    {
      hide Conclude, ParseLoop, RowsOf, NeedsRegularKeyRow;
      transactionType := TRANSACTION_INVALID;
      hasEmptyPubKey := false;
      objectDepth := 0;
      err := ParseLoopInPlace();
      if err != SUCCESS { return; }
      err := PostProcessTransaction();
      if err != SUCCESS { return; }
      err := ConcludeInPlace();
    }
  }

  lemma TopLevelFlagsStart(rows: seq<Field>)
    ensures TopLevelFlags(rows[..0]) == []
  {
  }

  lemma TopLevelFlagsStep(rows: seq<Field>, i: nat)
    requires i < |rows|
    ensures TopLevelFlags(rows[..i + 1])
         == TopLevelFlags(rows[..i]) + if IsTopLevelFlags(rows[i]) then [rows[i]] else []
  {
    assert rows[..i + 1][..i] == rows[..i];
  }

  /** A prefix of the table has no more Flags rows than the table. */
  lemma {:induction false} TopLevelFlagsGrow(rows: seq<Field>, count: nat)
    requires count <= |rows|
    ensures |TopLevelFlags(rows[..count])| <= |TopLevelFlags(rows)|
    decreases |rows| - count
  {
    if count == |rows| {
      assert rows[..count] == rows;
    } else {
      assert rows[..count + 1][..count] == rows[..count];
      TopLevelFlagsGrow(rows, count + 1);
    }
  }

  lemma NothingDone(loop: Loop)
    ensures loop == Resumed([], loop)
  {
    assert [] + loop.items == loop.items;
  }

  lemma NothingLeft(done: seq<Item>, frame: Frame, stop: Stop)
    ensures Resumed(done, Loop([], frame, stop)) == Loop(done, frame, stop)
  {
    assert done + [] == done;
  }

  lemma ResumedStep(done: seq<Item>, item: Item, rest: Loop)
    ensures Resumed(done, Resumed([item], rest)) == Resumed(done + [item], rest)
  {
    assert done + ([item] + rest.items) == done + [item] + rest.items;
  }

  /** A value keeps the type of its header; only four types append rows; a 16-bit
      value leaves its number in the row and the registers alone. */
  lemma FieldValueKinds(input: seq<byte>, offset: nat, row: Field, frame: Frame, used: nat)
    requires used <= MAX_FIELD_COUNT && FieldValue(input, offset, row, frame, used).Ok?
    ensures var value := FieldValue(input, offset, row, frame, used).value;
      && value.row.dataType == row.dataType
      && (value.extra != [] ==> row.dataType in {STI_AMOUNT, STI_VECTOR256, STI_ISSUE})
      && (row.dataType == STI_UINT16 ==> value.row.data.U16? && value.frame == frame)
  {
    hide VlLength, Currency.IsValid, Currency.IsNonStandard, Currency.AllZeros, BigEndian;
  }

  lemma PathItemKinds(input: seq<byte>, offset: nat, frame: Frame, used: nat)
    requires PathItem(input, offset, frame, used).Ok?
    ensures var value := PathItem(input, offset, frame, used).value;
      && value.row.dataType in {STI_PATHSET, STI_ACCOUNT, STI_CURRENCY}
      && (value.extra != [] ==> value.row.dataType == STI_CURRENCY)
  {
  }

  lemma ValueKinds(input: seq<byte>, offset: nat, frame: Frame, used: nat)
    requires used <= MAX_FIELD_COUNT && ParseValue(input, offset, frame, used).Ok?
    ensures var value := ParseValue(input, offset, frame, used).value;
      && (value.extra != [] ==> value.row.dataType in {STI_AMOUNT, STI_VECTOR256, STI_ISSUE, STI_CURRENCY})
      && (value.row.dataType == STI_UINT16 ==> value.row.data.U16? && value.frame == frame)
  {
    hide FieldValue, PathItem;
    if frame.currentArray == ARRAY_PATHSET {
      PathItemKinds(input, offset, frame, used);
    } else {
      var header := Header(input, offset).value;
      FieldValueKinds(input, header.2, Slot(frame).(dataType := header.0, id := header.1), frame, used);
    }
  }

  /** No value with a hidden row appended further rows: it is the last of the table. */
  lemma HiddenStandsAlone(input: seq<byte>, offset: nat, frame: Frame, used: nat)
    requires used <= MAX_FIELD_COUNT && ParseValue(input, offset, frame, used).Ok?
    ensures var value := ParseValue(input, offset, frame, used).value;
      IsHidden(value.row) ==> value.extra == []
  {
    hide ParseValue;
    ValueKinds(input, offset, frame, used);
  }

  /** Nor did one that stops the parse for blind signing, and it left the registers alone. */
  lemma BlindStandsAlone(input: seq<byte>, offset: nat, frame: Frame, used: nat)
    requires used <= MAX_FIELD_COUNT && ParseValue(input, offset, frame, used).Ok?
    ensures var value := ParseValue(input, offset, frame, used).value;
      PostProcess(value.row, value.frame).Blind? ==> value.extra == [] && value.frame == frame
  {
    hide ParseValue;
    ValueKinds(input, offset, frame, used);
  }

  lemma EntriesStep(frame: Frame, id: nat, start: nat, i: nat)
    ensures Entries(frame, id, start, i + 1)
         == Entries(frame, id, start, i) + [EntryRow(frame, id, start + i * HASH_SIZE, i)]
  {
  }
}
