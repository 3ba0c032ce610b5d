/** Rows of the review and the tables that classify them (src/xrp/fields.h,
    src/xrp/fields.c, and the flag predicates of src/xrp/flags.c). */
module Fields {

  type byte = x: nat | x < 256

  // Data types on the wire, and STI_CURRENCY, which only the parser makes.
  const STI_UINT16: nat := 0x01
  const STI_UINT32: nat := 0x02
  const STI_HASH128: nat := 0x04
  const STI_HASH256: nat := 0x05
  const STI_AMOUNT: nat := 0x06
  const STI_VL: nat := 0x07
  const STI_ACCOUNT: nat := 0x08
  const STI_OBJECT: nat := 0x0E
  const STI_ARRAY: nat := 0x0F
  const STI_UINT8: nat := 0x10
  const STI_PATHSET: nat := 0x12
  const STI_VECTOR256: nat := 0x13
  const STI_ISSUE: nat := 0x18
  const STI_CURRENCY: nat := 0xF0

  const UINT16_TRANSACTION_TYPE: nat := 0x02
  const UINT32_FLAGS: nat := 0x02
  const UINT32_SEQUENCE: nat := 0x04
  const UINT32_DESTINATION_TAG: nat := 0x0E
  const UINT32_LAST_LEDGER_SEQUENCE: nat := 0x1B
  const UINT32_SET_FLAG: nat := 0x21
  const UINT32_CLEAR_FLAG: nat := 0x22
  const HASH256_NFTOKEN_OFFER: nat := 0xFE
  const AMOUNT_AMOUNT: nat := 0x01
  const AMOUNT_FEE: nat := 0x08
  const VL_SIGNING_PUB_KEY: nat := 0x03
  const ACCOUNT_ACCOUNT: nat := 0x01
  const ACCOUNT_DESTINATION: nat := 0x03
  const ACCOUNT_ISSUER: nat := 0x04
  const ACCOUNT_REGULAR_KEY: nat := 0x08
  const CURRENCY_CURRENCY: nat := 0x01

  /** Array ids; 1 is the end marker on the wire and so free for path sets. */
  const ARRAY_NONE: nat := 0x00
  const ARRAY_PATHSET: nat := 0x01
  const END_MARKER: nat := 1

  const ACCOUNT_SIZE: nat := 20
  const CURRENCY_SIZE: nat := 20
  const ISSUE_SIZE: nat := 40
  const HASH_SIZE: nat := 32
  const XRP_AMOUNT_LEN: nat := 8
  const ISSUED_CURRENCY_LEN: nat := 48

  const TF_FULLY_CANONICAL_SIG: nat := 0x8000_0000

  datatype ArrayInfo = ArrayInfo(kind: nat, index1: nat, index2: nat)

  const NO_ARRAY := ArrayInfo(ARRAY_NONE, 0, 0)

  /** The union `data`: a number, or a pointer into the transaction given by its offset. */
  datatype Data = Null | U8(n: nat) | U16(n: nat) | U32(n: nat) | Ptr(pos: nat)

  datatype Field = Field(id: nat, dataType: nat, length: nat, data: Data, arrayInfo: ArrayInfo, depth: nat)

  /** A slot after memset. */
  const ZERO_FIELD := Field(0, 0, 0, Null, NO_ARRAY, 0)

  predicate IsTransactionType(field: Field) {
    field.dataType == STI_UINT16 && field.id == UINT16_TRANSACTION_TYPE
  }

  predicate IsNormalAccount(field: Field) {
    field.dataType == STI_ACCOUNT && field.id == ACCOUNT_ACCOUNT && field.arrayInfo.kind == ARRAY_NONE
  }

  /** `is_flag` and `is_flag_hidden` */
  predicate IsFlagHidden(field: Field) {
    && field.dataType == STI_UINT32
    && field.id in {UINT32_FLAGS, UINT32_SET_FLAG, UINT32_CLEAR_FLAG}
    && field.data in {U32(0), U32(TF_FULLY_CANONICAL_SIG)}
  }

  predicate IsHidden(field: Field) {
    || (field.arrayInfo.kind == ARRAY_NONE &&
        (field.dataType, field.id) in {(STI_UINT32, UINT32_SEQUENCE), (STI_UINT32, UINT32_LAST_LEDGER_SEQUENCE),
                                       (STI_VL, VL_SIGNING_PUB_KEY)})
    || field.dataType in {STI_ARRAY, STI_OBJECT, STI_PATHSET}
    || IsFlagHidden(field)
  }

  /** The (type, id) pairs `resolve_field_name` has a name for. */
  predicate HasName(dataType: nat, id: nat) {
    if dataType == STI_UINT16 then id in {2, 3, 4, 5, 6}
    else if dataType == STI_UINT32 then
      id in {1, 2, 3, 4, 10, 11, 12, 14, 20, 21, 25, 26, 27, 29, 33, 34, 35, 36, 37, 39, 40, 41, 42}
    else if dataType == STI_HASH128 then id == 1
    else if dataType == STI_HASH256 then id in {5, 7, 9, 10, 14, 17, 21, 22, 24, 28, 29, 0xFE}
    else if dataType == STI_AMOUNT then
      id in {1, 2, 3, 4, 5, 8, 9, 10, 11, 12, 13, 19, 25, 26, 27, 28, 29, 30, 31}
    else if dataType == STI_VL then id in {1, 2, 3, 4, 5, 6, 7, 12, 13, 14, 16, 17}
    else if dataType == STI_VECTOR256 then id == 4
    else if dataType == STI_ACCOUNT then id in {1, 2, 3, 4, 5, 6, 8, 9}
    else if dataType == STI_OBJECT then id in {10, 11, 12, 16, 27}
    else if dataType == STI_ARRAY then id in {3, 4, 9, 10, 25}
    else if dataType == STI_UINT8 then id == 16
    else if dataType == STI_PATHSET then id == 1
    else if dataType == STI_CURRENCY then id == 1
    else if dataType == STI_ISSUE then id in {3, 4}
    else false
  }

  predicate IsRecognized(field: Field) {
    HasName(field.dataType, field.id)
  }
}
