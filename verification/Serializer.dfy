/** The XRPL binary format, written from the side of the sender: a transaction is
    a tree of fields, `Encode` gives its bytes and `Read` what the user is to be
    shown of it. */
module Serializer {
  import opened Fields
  import opened TransactionSpec
  import Currency
  import Wire

  // ---------- Transactions ----------

  datatype Leaf =
    | UInt8(n: nat)
    | UInt16(n: nat)
    | UInt32(n: nat)
    | Hash128(bytes: seq<byte>)
    | Hash256(bytes: seq<byte>)
    | NativeAmount(bytes: seq<byte>)
    | IssuedAmount(bytes: seq<byte>, currency: seq<byte>, issuer: seq<byte>)
    | VariableBytes(bytes: seq<byte>)
    | AccountId(bytes: seq<byte>)
    | Hashes(entries: seq<seq<byte>>)
    | NativeIssue
    | TokenIssue(currency: seq<byte>, issuer: seq<byte>)
    | Foreign(dataType: byte, bytes: seq<byte>)

  /** The type codes the app knows on the wire. */
  const KNOWN_TYPES: set<nat> := {Wire.UINT16, Wire.UINT32, Wire.HASH128, Wire.HASH256, Wire.AMOUNT, Wire.BLOB,
                                  Wire.ACCOUNT, Wire.OBJECT, Wire.ARRAY, Wire.UINT8, Wire.PATHSET, Wire.VECTOR256,
                                  Wire.ISSUE}

  datatype Step =
    | ThroughAccount(account: seq<byte>)
    | IntoCurrency(currency: seq<byte>)
    | OfIssuer(issuer: seq<byte>)
    | IntoToken(currency: seq<byte>, issuer: seq<byte>)

  /** Objects and arrays hold further fields; a path set holds paths of steps. */
  datatype Node =
    | Single(id: nat, leaf: Leaf)
    | Object(id: nat, members: seq<Node>)
    | List(id: nat, members: seq<Node>)
    | PathSet(id: nat, paths: seq<seq<Step>>)

  // ---------- Bytes ----------

  const MAX_VL_LENGTH: nat := Wire.LONGEST

  function EncodeHeader(dataType: byte, id: byte): (bytes: seq<byte>)
    ensures 1 <= |bytes| <= 3
  {
    if dataType < 16 && id < 16 then [dataType * 16 + id]
    else if dataType < 16 then [dataType * 16, id]
    else if id < 16 then [id, dataType]
    else [0, dataType, id]
  }

  function EncodeLength(n: nat): (bytes: seq<byte>)
    requires n <= MAX_VL_LENGTH
    ensures |bytes| == if n <= 192 then 1 else 2
  {
    if n <= 192 then [n] else [193 + (n - 193) / 256, (n - 193) % 256]
  }

  /** `count` bytes, the most significant first. */
  function EncodeNumber(n: nat, count: nat): (bytes: seq<byte>)
    ensures |bytes| == count
  {
    if count == 0 then [] else EncodeNumber(n / 256, count - 1) + [n % 256]
  }

  function Concat(parts: seq<seq<byte>>): seq<byte> {
    if parts == [] then [] else Concat(parts[..|parts| - 1]) + parts[|parts| - 1]
  }

  function TypeOf(leaf: Leaf): byte {
    match leaf
    case UInt8(_) => Wire.UINT8
    case UInt16(_) => Wire.UINT16
    case UInt32(_) => Wire.UINT32
    case Hash128(_) => Wire.HASH128
    case Hash256(_) => Wire.HASH256
    case NativeAmount(_) => Wire.AMOUNT
    case IssuedAmount(_, _, _) => Wire.AMOUNT
    case VariableBytes(_) => Wire.BLOB
    case AccountId(_) => Wire.ACCOUNT
    case Hashes(_) => Wire.VECTOR256
    case NativeIssue => Wire.ISSUE
    case TokenIssue(_, _) => Wire.ISSUE
    case Foreign(dataType, _) => dataType
  }

  /** What the format has bytes for. */
  ghost predicate IsLeaf(leaf: Leaf) {
    match leaf
    case UInt8(n) => n < 0x100
    case UInt16(n) => n < 0x1_0000
    case UInt32(n) => n < 0x1_0000_0000
    case Hash128(bytes) => |bytes| == 16
    case Hash256(bytes) => |bytes| == 32
    case NativeAmount(bytes) => |bytes| == 8 && bytes[0] < 128
    case IssuedAmount(bytes, currency, issuer) =>
      |bytes| == 8 && bytes[0] >= 128 && |currency| == 20 && |issuer| == 20
    case VariableBytes(bytes) => |bytes| <= MAX_VL_LENGTH
    case AccountId(bytes) => |bytes| <= MAX_VL_LENGTH
    case Hashes(entries) =>
      && |entries| * Wire.HASH_BYTES <= MAX_VL_LENGTH
      && forall i :: 0 <= i < |entries| ==> |entries[i]| == Wire.HASH_BYTES
    case NativeIssue => true
    case TokenIssue(currency, issuer) => |currency| == 20 && |issuer| == 20 && !Currency.AllZeros(currency)
    case Foreign(dataType, _) => dataType >= 1 && dataType !in KNOWN_TYPES
  }

  ghost function LeafBytes(leaf: Leaf): seq<byte>
    requires IsLeaf(leaf)
  {
    match leaf
    case UInt8(n) => EncodeNumber(n, 1)
    case UInt16(n) => EncodeNumber(n, 2)
    case UInt32(n) => EncodeNumber(n, 4)
    case Hash128(bytes) => bytes
    case Hash256(bytes) => bytes
    case NativeAmount(bytes) => bytes
    case IssuedAmount(bytes, currency, issuer) => bytes + currency + issuer
    case VariableBytes(bytes) => EncodeLength(|bytes|) + bytes
    case AccountId(bytes) => EncodeLength(|bytes|) + bytes
    case Hashes(entries) => EncodeLength(|entries| * Wire.HASH_BYTES) + Concat(entries)
    case NativeIssue => seq(20, _ => 0)
    case TokenIssue(currency, issuer) => currency + issuer
    case Foreign(_, bytes) => bytes
  }

  ghost predicate IsStep(step: Step) {
    match step
    case ThroughAccount(account) => |account| == 20
    case IntoCurrency(currency) => |currency| == 20
    case OfIssuer(issuer) => |issuer| == 20
    case IntoToken(currency, issuer) => |currency| == 20 && |issuer| == 20
  }

  function StepBytes(step: Step): seq<byte> {
    match step
    case ThroughAccount(account) => [0x01] + account
    case IntoCurrency(currency) => [0x10] + currency
    case OfIssuer(issuer) => [0x20] + issuer
    case IntoToken(currency, issuer) => [0x30] + (currency + issuer)
  }

  function PathBytes(path: seq<Step>): seq<byte> {
    if path == [] then [] else StepBytes(path[0]) + PathBytes(path[1..])
  }

  /** Paths with a separator between them and an end mark behind the last. */
  function PathSetBytes(paths: seq<seq<Step>>): seq<byte>
    requires paths != []
  {
    PathBytes(paths[0]) + if |paths| == 1 then [Wire.LAST_PATH] else [Wire.NEXT_PATH] + PathSetBytes(paths[1..])
  }

  /** Codes and sizes the format has bytes for; the code 1 marks the end of an
      object or array. */
  ghost predicate IsNode(node: Node)
    decreases node
  {
    && 1 <= node.id < 256
    && match node
       case Single(_, leaf) => IsLeaf(leaf)
       case Object(id, members) => id != Wire.END && AreNodes(members)
       case List(id, members) => id != Wire.END && AreNodes(members)
       case PathSet(_, paths) =>
         paths != [] && forall i, j :: 0 <= i < |paths| && 0 <= j < |paths[i]| ==> IsStep(paths[i][j])
  }

  ghost predicate AreNodes(nodes: seq<Node>)
    decreases nodes
  {
    forall i :: 0 <= i < |nodes| ==> IsNode(nodes[i])
  }

  ghost function EncodeNode(node: Node): seq<byte>
    requires IsNode(node)
    decreases node
  {
    match node
    case Single(id, leaf) => EncodeHeader(TypeOf(leaf), id) + LeafBytes(leaf)
    case Object(id, members) => EncodeHeader(Wire.OBJECT, id) + (Encode(members) + EncodeHeader(Wire.OBJECT, Wire.END))
    case List(id, members) => EncodeHeader(Wire.ARRAY, id) + (Encode(members) + EncodeHeader(Wire.ARRAY, Wire.END))
    case PathSet(id, paths) => EncodeHeader(Wire.PATHSET, id) + PathSetBytes(paths)
  }

  ghost function Encode(nodes: seq<Node>): seq<byte>
    requires AreNodes(nodes)
    decreases nodes
  {
    if nodes == [] then [] else EncodeNode(nodes[0]) + Encode(nodes[1..])
  }

  // ---------- What is to be shown ----------

  /** A row with the bytes it points at in place of the pointer. */
  datatype View = View(row: Field, bytes: seq<byte>)

  function Raw(dataType: nat, id: nat, info: ArrayInfo, depth: nat, bytes: seq<byte>): View {
    View(Field(id, dataType, |bytes|, Null, info, depth), bytes)
  }

  function Numeric(dataType: nat, id: nat, info: ArrayInfo, depth: nat, size: nat, data: Data): View {
    View(Field(id, dataType, size, data, info, depth), [])
  }

  /** The row of a leaf; tokens and vectors bring further rows. */
  function OwnView(id: nat, leaf: Leaf, info: ArrayInfo, depth: nat): View {
    match leaf
    case UInt8(n) => Numeric(Wire.UINT8, id, info, depth, 1, U8(n))
    case UInt16(n) => Numeric(Wire.UINT16, id, info, depth, 2, U16(n))
    case UInt32(n) => Numeric(Wire.UINT32, id, info, depth, 4, U32(n))
    case Hash128(bytes) => Raw(Wire.HASH128, id, info, depth, bytes)
    case Hash256(bytes) => Raw(Wire.HASH256, id, info, depth, bytes)
    case NativeAmount(bytes) => Raw(Wire.AMOUNT, id, info, depth, bytes)
    case IssuedAmount(bytes, currency, issuer) => Raw(Wire.AMOUNT, id, info, depth, bytes + currency + issuer)
    case VariableBytes(bytes) => Raw(Wire.BLOB, id, info, depth, bytes)
    case AccountId(bytes) => Raw(Wire.ACCOUNT, id, info, depth, bytes)
    case Hashes(entries) => Raw(Wire.VECTOR256, id, info, depth, Concat(entries))
    case NativeIssue => Raw(Wire.ISSUE, id, info, depth, seq(20, _ => 0))
    case TokenIssue(currency, issuer) => Raw(Wire.ISSUE, id, info, depth, currency + issuer)
    case Foreign(dataType, bytes) => Raw(dataType, id, info, depth, bytes)
  }

  function ExtraViews(id: nat, leaf: Leaf, info: ArrayInfo, depth: nat): seq<View>
    requires leaf.IssuedAmount? ==> |leaf.currency| == Wire.CODE_BYTES
  {
    match leaf
    case IssuedAmount(_, currency, issuer) =>
      (if Currency.IsNonStandard(currency) then [Raw(Wire.CURRENCY, Wire.CURRENCY_CODE, info, depth, currency)] else [])
      + [Raw(Wire.ACCOUNT, Wire.ISSUER, info, depth, issuer)]
    case Hashes(entries) =>
      seq(|entries|, i requires 0 <= i < |entries| =>
        Raw(Wire.HASH256, Wire.OFFER_ENTRY, ArrayInfo(id, i + 1, info.index2), depth, entries[i]))
    case TokenIssue(_, issuer) => [Raw(Wire.ACCOUNT, Wire.ISSUER, info, depth, issuer)]
    case _ => []
  }

  function StepViews(step: Step, info: ArrayInfo, depth: nat): seq<View> {
    match step
    case ThroughAccount(account) => [Raw(Wire.ACCOUNT, Wire.SENDER, info, depth, account)]
    case IntoCurrency(currency) => [Raw(Wire.CURRENCY, Wire.CURRENCY_CODE, info, depth, currency)]
    case OfIssuer(issuer) => [Raw(Wire.ACCOUNT, Wire.ISSUER, info, depth, issuer)]
    case IntoToken(currency, issuer) =>
      [Raw(Wire.CURRENCY, Wire.CURRENCY_CODE, info, depth, currency), Raw(Wire.ACCOUNT, Wire.ISSUER, info, depth,
          issuer)]
  }

  /** What has been used up so far: rows, objects since the last array or path set
      began, and what the transaction has said about itself. */
  datatype Tally = Tally(rows: nat, objects: nat, txType: nat, emptyKey: bool)

  const NOTHING_READ := Tally(0, 0, Wire.NO_TYPE, false)

  /** How reading ends: with the last field, with an error, or at a TransactionType
      that is nested or not the first one. */
  datatype Ending = Finished | Over(error: Error) | Halted(view: View)

  datatype Reading = Reading(ending: Ending, views: seq<View>, tally: Tally)

  /** `next` is read only if `first` did not end the reading. */
  function Then(first: Reading, next: Reading): Reading {
    if first.ending.Finished? then Reading(next.ending, first.views + next.views, next.tally) else first
  }

  function Place(kind: nat, index1: nat, index2: nat): ArrayInfo {
    if kind == Wire.OUTSIDE then ArrayInfo(Wire.OUTSIDE, 0, 0) else ArrayInfo(kind, index1, index2)
  }

  /** What the review does without: the sequence numbers and the signing key outside of
      arrays, and flag fields without a flag but for the canonical-signature bit. */
  predicate IsLeftOut(id: nat, leaf: Leaf, kind: nat) {
    || (kind == Wire.OUTSIDE && leaf.UInt32? && id in {Wire.SEQUENCE, Wire.LAST_LEDGER_SEQUENCE})
    || (kind == Wire.OUTSIDE && leaf.VariableBytes? && id == Wire.SIGNING_PUB_KEY)
    || (leaf.UInt32? && id in {Wire.FLAGS, Wire.SET_FLAG, Wire.CLEAR_FLAG} && leaf.n in {0, 0x8000_0000})
  }

  predicate IsTypeLeaf(id: nat, leaf: Leaf) {
    leaf.UInt16? && id == Wire.TRANSACTION_TYPE
  }

  predicate IsEmptyKeyLeaf(id: nat, leaf: Leaf) {
    leaf.VariableBytes? && id == Wire.SIGNING_PUB_KEY && leaf.bytes == []
  }

  /** Accounts have 20 bytes, a token is never called XRP, and the type is known. */
  predicate IsMalformed(leaf: Leaf)
    requires leaf.IssuedAmount? ==> |leaf.currency| == Wire.CODE_BYTES
  {
    match leaf
    case AccountId(bytes) => |bytes| != Wire.ADDRESS_BYTES
    case IssuedAmount(_, currency, _) => Currency.AllZeros(currency) || !Currency.IsValid(currency)
    case Foreign(_, _) => true
    case _ => false
  }

  /** The error a malformed leaf leads to. */
  function Refusal(leaf: Leaf): Error {
    if leaf.Foreign? then NotSupported else InvalidState
  }

  function ReadLeaf(id: nat, leaf: Leaf, kind: nat, depth: nat, tally: Tally): (reading: Reading)
    requires leaf.IssuedAmount? ==> |leaf.currency| == Wire.CODE_BYTES
    ensures reading.tally.rows == tally.rows + |reading.views|
  {
    var info := Place(kind, tally.objects, 0);
    var own, extra := OwnView(id, leaf, info, depth), ExtraViews(id, leaf, info, depth);
    var views := (if IsLeftOut(id, leaf, kind) then [] else [own]) + extra;
    var topLevel := kind == Wire.OUTSIDE && depth == 0;
    if tally.rows >= Wire.ROWS then Reading(Over(NotEnoughSpace), [], tally)
    else if IsMalformed(leaf) then Reading(Over(Refusal(leaf)), [], tally)
    else if tally.rows + 1 + |extra| > Wire.ROWS then Reading(Over(NotEnoughSpace), [], tally)
    else if IsTypeLeaf(id, leaf) && !(topLevel && tally.txType == Wire.NO_TYPE) then
      Reading(Halted(own), [], tally)
    else
      Reading(Finished, views,
              Tally(tally.rows + |views|, tally.objects, if IsTypeLeaf(id, leaf) then leaf.n else tally.txType,
                    tally.emptyKey || (topLevel && IsEmptyKeyLeaf(id, leaf))))
  }

  /** Markers leave no row but need a free one while they are read; `allowed` is
      the limit of what they open. */
  function ReadMark(tally: Tally, allowed: bool, error: Error, after: Tally): (reading: Reading)
    requires after.rows == tally.rows
    ensures reading.tally.rows == tally.rows + |reading.views|
  {
    if tally.rows >= Wire.ROWS then Reading(Over(NotEnoughSpace), [], tally)
    else if !allowed then Reading(Over(error), [], tally)
    else Reading(Finished, [], after)
  }

  /** Step `j` of path `index1`. */
  function ReadStep(step: Step, index1: nat, j: nat, depth: nat, tally: Tally): (reading: Reading)
    ensures reading.tally.rows == tally.rows + |reading.views|
  {
    var views := StepViews(step, ArrayInfo(Wire.IN_PATHSET, index1, j), depth);
    if tally.rows >= Wire.ROWS then Reading(Over(NotEnoughSpace), [], tally)
    else if j > Wire.STEPS then Reading(Over(InvalidState), [], tally)
    else if tally.rows + |views| > Wire.ROWS then Reading(Over(NotEnoughSpace), [], tally)
    else Reading(Finished, views, tally.(rows := tally.rows + |views|))
  }

  /** The steps from number `j` on. */
  function ReadPath(path: seq<Step>, index1: nat, j: nat, depth: nat, tally: Tally): (reading: Reading)
    ensures reading.tally.rows == tally.rows + |reading.views|
  {
    if path == [] then Reading(Finished, [], tally)
    else
      var first := ReadStep(path[0], index1, j, depth, tally);
      Then(first, ReadPath(path[1..], index1, j + 1, depth, first.tally))
  }

  /** The paths from number `index1` on, each with the mark behind it. */
  function ReadPaths(paths: seq<seq<Step>>, index1: nat, depth: nat, tally: Tally): (reading: Reading)
    requires paths != []
    ensures reading.tally.rows == tally.rows + |reading.views|
  {
    var first := ReadPath(paths[0], index1, 1, depth, tally);
    if |paths| == 1 then
      Then(first, ReadMark(first.tally, true, InvalidState, first.tally.(objects := index1)))
    else
      var mark := ReadMark(first.tally, index1 < Wire.PATHS, InvalidState, first.tally);
      Then(first, Then(mark, ReadPaths(paths[1..], index1 + 1, depth, mark.tally)))
  }

  // ---------- Where the app files a field ----------

  /** The array recorded behind a field, if `kind` was recorded before it.  The end of
      an array or path set leaves none recorded, whatever is still open around it. */
  function KindAfter(node: Node, kind: nat): nat
    decreases node
  {
    match node
    case Single(_, _) => kind
    case Object(_, members) => KindBehind(members, kind)
    case List(_, _) => Wire.OUTSIDE
    case PathSet(_, _) => Wire.OUTSIDE
  }

  function KindBehind(nodes: seq<Node>, kind: nat): nat
    decreases nodes
  {
    if nodes == [] then kind else KindBehind(nodes[1..], KindAfter(nodes[0], kind))
  }

  /** The depth recorded behind a field: a byte, and never below zero. */
  function DepthAfter(node: Node, depth: nat): nat
    decreases node
  {
    match node
    case Single(_, _) => depth
    case Object(_, members) => Outward(DepthBehind(members, (depth + 1) % 256))
    case List(_, members) => DepthBehind(members, depth)
    case PathSet(_, _) => depth
  }

  function DepthBehind(nodes: seq<Node>, depth: nat): nat
    decreases nodes
  {
    if nodes == [] then depth else DepthBehind(nodes[1..], DepthAfter(nodes[0], depth))
  }

  function Outward(depth: nat): nat {
    if depth > 0 then depth - 1 else 0
  }

  /** A field for which array `kind` and depth `depth` are recorded. */
  function ReadNode(node: Node, kind: nat, depth: nat, tally: Tally): (reading: Reading)
    requires IsNode(node)
    ensures reading.tally.rows == tally.rows + |reading.views|
    decreases node
  {
    match node
    case Single(id, leaf) => ReadLeaf(id, leaf, kind, depth, tally)
    case Object(id, members) =>
      var head :=
        ReadMark(tally, tally.objects < Wire.ARRAY_ENTRIES, NotSupported, tally.(objects := tally.objects + 1));
      var inner := Read(members, kind, (depth + 1) % 256, head.tally);
      Then(head, Then(inner, ReadMark(inner.tally, true, NotSupported, inner.tally)))
    case List(id, members) =>
      var head := ReadMark(tally, true, NotSupported, tally.(objects := 0));
      var inner := Read(members, id, depth, head.tally);
      Then(head, Then(inner, ReadMark(inner.tally, true, NotSupported, inner.tally)))
    case PathSet(_, paths) =>
      var head := ReadMark(tally, true, NotSupported, tally);
      Then(head, ReadPaths(paths, 1, depth, head.tally))
  }

  /** The fields in turn, each filed where the app is behind the one before it. */
  function Read(nodes: seq<Node>, kind: nat, depth: nat, tally: Tally): (reading: Reading)
    requires AreNodes(nodes)
    ensures reading.tally.rows == tally.rows + |reading.views|
    decreases nodes
  {
    if nodes == [] then Reading(Finished, [], tally)
    else
      var first := ReadNode(nodes[0], kind, depth, tally);
      Then(first, Read(nodes[1..], KindAfter(nodes[0], kind), DepthAfter(nodes[0], depth), first.tally))
  }

  /** A transaction is a list of fields at top level. */
  function ReadTransaction(nodes: seq<Node>): Reading
    requires AreNodes(nodes)
  {
    Read(nodes, Wire.OUTSIDE, 0, NOTHING_READ)
  }

  // ---------- Where the filing is true ----------

  /** No array or path set inside another, and fewer than 256 objects open. */
  ghost predicate IsFlatNode(node: Node, kind: nat, depth: nat)
    decreases node
  {
    match node
    case Single(_, _) => true
    case Object(_, members) => depth < 255 && IsFlat(members, kind, depth + 1)
    case List(id, members) => kind == Wire.OUTSIDE && IsFlat(members, id, depth)
    case PathSet(_, _) => kind == Wire.OUTSIDE
  }

  ghost predicate IsFlat(nodes: seq<Node>, kind: nat, depth: nat)
    decreases nodes
  {
    forall i :: 0 <= i < |nodes| ==> IsFlatNode(nodes[i], kind, depth)
  }

  ghost predicate IsFlatTransaction(nodes: seq<Node>) {
    IsFlat(nodes, Wire.OUTSIDE, 0)
  }

  /** Then every field is filed under the array and at the depth it stands in: what is
      recorded behind a field is what was recorded before it. */
  lemma {:induction false} FlatNodeIsFiledInPlace(node: Node, kind: nat, depth: nat)
    requires IsFlatNode(node, kind, depth)
    ensures KindAfter(node, kind) == kind && DepthAfter(node, depth) == depth
    decreases node, 0
  {
    match node
    case Single(_, _) =>
    case Object(_, members) => FlatIsFiledInPlace(members, kind, depth + 1);
    case List(id, members) => FlatIsFiledInPlace(members, id, depth);
    case PathSet(_, _) =>
  }

  lemma {:induction false} FlatIsFiledInPlace(nodes: seq<Node>, kind: nat, depth: nat)
    requires IsFlat(nodes, kind, depth)
    ensures KindBehind(nodes, kind) == kind && DepthBehind(nodes, depth) == depth
    decreases nodes, 1
  {
    if nodes != [] {
      FlatNodeIsFiledInPlace(nodes[0], kind, depth);
      FlatIsFiledInPlace(nodes[1..], kind, depth);
    }
  }

  /** At top level no array is recorded and no object, whatever came before. */
  lemma {:induction false} OutsideStaysOutside(nodes: seq<Node>)
    ensures KindBehind(nodes, Wire.OUTSIDE) == Wire.OUTSIDE && DepthBehind(nodes, 0) == 0
    decreases nodes
  {
    if nodes != [] {
      NoArrayAfter(nodes[0]);
      DepthFalls(nodes[0], 0);
      OutsideStaysOutside(nodes[1..]);
    }
  }

  lemma {:induction false} NoArrayAfter(node: Node)
    ensures KindAfter(node, Wire.OUTSIDE) == Wire.OUTSIDE
    decreases node, 0
  {
    if node.Object? {
      NoArrayBehind(node.members);
    }
  }

  lemma {:induction false} NoArrayBehind(nodes: seq<Node>)
    ensures KindBehind(nodes, Wire.OUTSIDE) == Wire.OUTSIDE
    decreases nodes, 1
  {
    if nodes != [] {
      NoArrayAfter(nodes[0]);
      NoArrayBehind(nodes[1..]);
    }
  }

  lemma {:induction false} DepthFalls(node: Node, depth: nat)
    ensures DepthAfter(node, depth) <= depth
    decreases node, 0
  {
    match node
    case Single(_, _) =>
    case Object(_, members) => AllDepthsFall(members, (depth + 1) % 256);
    case List(_, members) => AllDepthsFall(members, depth);
    case PathSet(_, _) =>
  }

  lemma {:induction false} AllDepthsFall(nodes: seq<Node>, depth: nat)
    ensures DepthBehind(nodes, depth) <= depth
    decreases nodes, 1
  {
    if nodes != [] {
      DepthFalls(nodes[0], depth);
      AllDepthsFall(nodes[1..], DepthAfter(nodes[0], depth));
    }
  }

  lemma SinglesAreFlat(nodes: seq<Node>, kind: nat, depth: nat)
    requires forall i :: 0 <= i < |nodes| ==> nodes[i].Single?
    ensures IsFlat(nodes, kind, depth)
  {
  }
}
