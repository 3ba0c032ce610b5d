/** The XRPL binary format and the app's limits, as the sender of a transaction knows
    them: type codes, field codes and sizes, in figures of their own. */
module Wire {

  // Type codes; a currency is shown as a type of its own that is not on the wire.
  const UINT16: nat := 1
  const UINT32: nat := 2
  const HASH128: nat := 4
  const HASH256: nat := 5
  const AMOUNT: nat := 6
  const BLOB: nat := 7
  const ACCOUNT: nat := 8
  const OBJECT: nat := 14
  const ARRAY: nat := 15
  const UINT8: nat := 16
  const PATHSET: nat := 18
  const VECTOR256: nat := 19
  const ISSUE: nat := 24
  const CURRENCY: nat := 240

  // Field codes.
  const TRANSACTION_TYPE: nat := 2
  const FLAGS: nat := 2
  const SEQUENCE: nat := 4
  const LAST_LEDGER_SEQUENCE: nat := 27
  const SET_FLAG: nat := 33
  const CLEAR_FLAG: nat := 34
  const SIGNING_PUB_KEY: nat := 3
  const SENDER: nat := 1
  const ISSUER: nat := 4
  const REGULAR_KEY: nat := 8
  const CURRENCY_CODE: nat := 1
  const OFFER_ENTRY: nat := 254

  /** The field code that ends an object or an array. */
  const END: nat := 1

  /** What is recorded outside of all arrays, and inside a path set. */
  const OUTSIDE: nat := 0
  const IN_PATHSET: nat := 1

  const NEXT_PATH: nat := 255
  const LAST_PATH: nat := 0

  const ADDRESS_BYTES: nat := 20
  const CODE_BYTES: nat := 20
  const HASH_BYTES: nat := 32

  /** The longest value a length prefix of the app can announce. */
  const LONGEST: nat := 12480

  // Limits of the app.
  const ROWS: nat := 60
  const ARRAY_ENTRIES: nat := 8
  const PATHS: nat := 6
  const STEPS: nat := 8

  /** Stands for a type not yet read. */
  const NO_TYPE: nat := 65535
}
