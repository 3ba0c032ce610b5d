/** Headers, length prefixes, numbers and every kind of leaf read back as they were
    written. */
module LeafRoundTrip {
  import opened Fields
  import opened TransactionSpec
  import opened Serializer
  import opened Numerals
  import Currency

  // ---------- Where bytes lie ----------

  ghost predicate At(input: seq<byte>, offset: nat, bytes: seq<byte>) {
    offset + |bytes| <= |input| && input[offset..offset + |bytes|] == bytes
  }

  lemma AtBoth(input: seq<byte>, offset: nat, left: seq<byte>, right: seq<byte>)
    requires At(input, offset, left + right)
    ensures At(input, offset, left) && At(input, offset + |left|, right)
  {
    var window := input[offset..offset + |left + right|];
    assert input[offset..offset + |left|] == window[..|left|];
    assert input[offset + |left|..offset + |left| + |right|] == window[|left|..];
    assert (left + right)[..|left|] == left && (left + right)[|left|..] == right;
  }

  lemma ByteIs(input: seq<byte>, offset: nat, bytes: seq<byte>, i: nat)
    requires At(input, offset, bytes) && i < |bytes|
    ensures input[offset + i] == bytes[i]
  {
    assert input[offset..offset + |bytes|][i] == bytes[i];
  }

  lemma AtIsInside(input: seq<byte>, offset: nat, bytes: seq<byte>)
    requires At(input, offset, bytes)
    ensures offset + |bytes| <= |input|
  {
  }

  // ---------- Headers and length prefixes ----------

  /** Decoding the canonical header of any type and field code gives both back. */
  lemma HeaderRoundTrip(input: seq<byte>, offset: nat, dataType: byte, id: byte)
    requires 1 <= dataType && 1 <= id && At(input, offset, EncodeHeader(dataType, id))
    ensures Header(input, offset) == Ok((dataType as nat, id as nat, offset + |EncodeHeader(dataType, id)|))
  {
    var bytes := EncodeHeader(dataType, id);
    ByteIs(input, offset, bytes, 0);
    if |bytes| > 1 {
      ByteIs(input, offset, bytes, 1);
    }
    if |bytes| > 2 {
      ByteIs(input, offset, bytes, 2);
    }
  }

  /** Decoding the prefix of any length the format can express here gives it back. */
  lemma LengthRoundTrip(input: seq<byte>, offset: nat, n: nat)
    requires n <= MAX_VL_LENGTH && At(input, offset, EncodeLength(n))
    ensures VlLength(input, offset) == Ok((n, offset + |EncodeLength(n)|))
  {
    var bytes := EncodeLength(n);
    ByteIs(input, offset, bytes, 0);
    if n > 192 {
      ByteIs(input, offset, bytes, 1);
      SplitLength(n - 193);
    }
  }

  /** Headers and length prefixes byte by byte, at the edges of each form. */
  lemma FormatInBytes()
    ensures EncodeHeader(1, 2) == [0x12] && EncodeHeader(8, 3) == [0x83] && EncodeHeader(15, 9) == [0xF9]
    ensures EncodeHeader(2, 27) == [0x20, 27] && EncodeHeader(16, 3) == [0x03, 16] && EncodeHeader(18, 1) == [0x01, 18]
    ensures EncodeHeader(16, 16) == [0x00, 16, 16]
    ensures EncodeLength(0) == [0] && EncodeLength(192) == [192] && EncodeLength(193) == [193, 0]
    ensures EncodeLength(448) == [193, 255] && EncodeLength(449) == [194, 0] && EncodeLength(12480) == [240, 255]
    ensures EncodeNumber(0x0102_0304, 4) == [1, 2, 3, 4]
  {
    assert EncodeNumber(0, 0) == [] && EncodeNumber(0x01, 1) == [1] && EncodeNumber(0x0102, 2) == [1, 2];
    assert EncodeNumber(0x0102_03, 3) == [1, 2, 3];
  }

  lemma SplitLength(n: nat)
    ensures n / 256 * 256 + n % 256 == n
  {
  }

  /** Every prefix the parser accepts is the canonical one of the length it reads. */
  lemma AcceptedLengthIsCanonical(input: seq<byte>, offset: nat)
    requires VlLength(input, offset).Ok?
    ensures var (n, end) := VlLength(input, offset).value;
      n <= MAX_VL_LENGTH && offset < end <= |input| && input[offset..end] == EncodeLength(n)
  {
    var first := input[offset];
    if first > 192 {
      var high: nat, low: nat := first - 193, input[offset + 1];
      assert VlLength(input, offset).value.0 == 193 + high * 256 + low;
      assert (high * 256 + low) / 256 == high && (high * 256 + low) % 256 == low;
    }
  }

  // ---------- Numbers ----------

  lemma {:induction false} NumberRoundTrip(n: nat, count: nat)
    requires n < Pow(256, count)
    ensures BigEndian(EncodeNumber(n, count)) == n
  {
    if count > 0 {
      NumberRoundTrip(n / 256, count - 1);
      var bytes := EncodeNumber(n, count);
      assert bytes[..count - 1] == EncodeNumber(n / 256, count - 1);
    }
  }

  // ---------- Views ----------

  function ViewOf(input: seq<byte>, row: Field): View {
    if row.data.Ptr? && row.data.pos + row.length <= |input|
    then View(row.(data := Null), input[row.data.pos..row.data.pos + row.length])
    else View(row, [])
  }

  function ViewsOf(input: seq<byte>, rows: seq<Field>): (views: seq<View>)
    ensures |views| == |rows|
  {
    seq(|rows|, i requires 0 <= i < |rows| => ViewOf(input, rows[i]))
  }

  lemma ViewsAppend(input: seq<byte>, left: seq<Field>, right: seq<Field>)
    ensures ViewsOf(input, left + right) == ViewsOf(input, left) + ViewsOf(input, right)
  {
  }

  lemma OneView(input: seq<byte>, row: Field)
    ensures ViewsOf(input, [row]) == [ViewOf(input, row)]
  {
  }

  /** The value read is the one to be shown, and the cursor is behind its bytes. */
  ghost predicate Reads(input: seq<byte>, result: Result<Value>, end: nat, own: View, extra: seq<View>, frame: Frame) {
    && result.Ok? && result.value.end == end && result.value.frame == frame
    && ViewOf(input, result.value.row) == own && ViewsOf(input, result.value.extra) == extra
  }

  lemma PointerView(input: seq<byte>, row: Field, offset: nat, bytes: seq<byte>)
    requires At(input, offset, bytes) && row.data == Ptr(offset) && row.length == |bytes|
    ensures ViewOf(input, row) == View(row.(data := Null), bytes)
  {
  }

  // ---------- Leaves ----------

  /** The row a header leaves for the value behind it. */
  function HeaderRow(frame: Frame, dataType: nat, id: nat): Field {
    Slot(frame).(dataType := dataType, id := id)
  }

  lemma BytesAreRead(input: seq<byte>, offset: nat, row: Field, bytes: seq<byte>, frame: Frame)
    requires At(input, offset, bytes)
    ensures Reads(input, Bytes(input, offset, row, |bytes|, frame), offset + |bytes|,
                  View(row.(data := Null, length := |bytes|), bytes), [], frame)
  {
    PointerView(input, row.(data := Ptr(offset), length := |bytes|), offset, bytes);
    assert ViewsOf(input, []) == [];
  }

  lemma NumberIsRead(input: seq<byte>, offset: nat, row: Field, n: nat, count: nat, data: Data, frame: Frame)
    requires count in {1, 2, 4} && n < Pow(256, count) && At(input, offset, EncodeNumber(n, count))
    requires data == if count == 1 then U8(n) else if count == 2 then U16(n) else U32(n)
    ensures Reads(input, Number(input, offset, row, count, frame), offset + count,
                  View(row.(data := data, length := count), []), [], frame)
  {
    NumberRoundTrip(n, count);
    if count == 1 {
      assert EncodeNumber(n / 256, 0) == [];
      ByteIs(input, offset, EncodeNumber(n, 1), 0);
      assert Pow(256, 0) == 1 && n < 256;
    }
    hide BigEndian, EncodeNumber, Pow;
    assert ViewsOf(input, []) == [];
  }

  lemma BlobIsRead(input: seq<byte>, offset: nat, row: Field, bytes: seq<byte>, frame: Frame)
    requires |bytes| <= MAX_VL_LENGTH && At(input, offset, EncodeLength(|bytes|) + bytes)
    ensures Reads(input, Blob(input, offset, row, frame), offset + |EncodeLength(|bytes|)| + |bytes|,
                  View(row.(data := Null, length := |bytes|), bytes), [], frame)
  {
    hide VlLength, Reads, Bytes;
    var prefix := EncodeLength(|bytes|);
    AtBoth(input, offset, prefix, bytes);
    LengthRoundTrip(input, offset, |bytes|);
    BytesAreRead(input, offset + |prefix|, row, bytes, frame);
  }

  lemma IssuedIsRead(input: seq<byte>, offset: nat, id: nat, leaf: Leaf, frame: Frame, used: nat)
    requires leaf.IssuedAmount? && IsLeaf(leaf) && !IsMalformed(leaf) && At(input, offset, LeafBytes(leaf))
    requires used + |ExtraViews(id, leaf, Slot(frame).arrayInfo, frame.depth)| <= MAX_FIELD_COUNT
    ensures Reads(input, Amount(input, offset, HeaderRow(frame, STI_AMOUNT, id), frame, used), offset + 48,
                  OwnView(id, leaf, Slot(frame).arrayInfo, frame.depth),
                  ExtraViews(id, leaf, Slot(frame).arrayInfo, frame.depth), frame)
  {
    hide Currency.IsValid, Currency.IsNonStandard, Currency.AllZeros;
    var row := HeaderRow(frame, STI_AMOUNT, id);
    AtBoth(input, offset, leaf.bytes + leaf.currency, leaf.issuer);
    AtBoth(input, offset, leaf.bytes, leaf.currency);
    ByteIs(input, offset, leaf.bytes, 0);
    assert input[offset + 8..offset + 28] == leaf.currency;
    PointerView(input, row.(data := Ptr(offset), length := 48), offset, LeafBytes(leaf));
    PointerView(input, IssuerRow(frame, offset + 28), offset + 28, leaf.issuer);
    OneView(input, IssuerRow(frame, offset + 28));
    if Currency.IsNonStandard(leaf.currency) {
      PointerView(input, CurrencyRow(frame, offset + 8), offset + 8, leaf.currency);
      OneView(input, CurrencyRow(frame, offset + 8));
      ViewsAppend(input, [CurrencyRow(frame, offset + 8)], [IssuerRow(frame, offset + 28)]);
    } else {
      assert [] + [IssuerRow(frame, offset + 28)] == [IssuerRow(frame, offset + 28)];
    }
    hide ViewOf, ViewsOf;
  }

  lemma {:induction false} ConcatLength(entries: seq<seq<byte>>)
    requires forall i :: 0 <= i < |entries| ==> |entries[i]| == HASH_SIZE
    ensures |Concat(entries)| == |entries| * HASH_SIZE
  {
    if entries != [] {
      ConcatLength(entries[..|entries| - 1]);
    }
  }

  lemma {:induction false} EntryIsAt(input: seq<byte>, offset: nat, entries: seq<seq<byte>>, i: nat)
    requires forall k :: 0 <= k < |entries| ==> |entries[k]| == HASH_SIZE
    requires i < |entries| && At(input, offset, Concat(entries))
    ensures At(input, offset + i * HASH_SIZE, entries[i])
  {
    var init := entries[..|entries| - 1];
    AtBoth(input, offset, Concat(init), entries[|entries| - 1]);
    ConcatLength(init);
    if i < |init| {
      EntryIsAt(input, offset, init, i);
    }
  }

  lemma EntriesAreRead(input: seq<byte>, offset: nat, id: nat, leaf: Leaf, frame: Frame)
    requires leaf.Hashes? && IsLeaf(leaf) && |leaf.entries| <= MAX_FIELD_COUNT
    requires At(input, offset, Concat(leaf.entries))
    ensures ViewsOf(input, Entries(frame, id, offset, |leaf.entries|))
         == ExtraViews(id, leaf, Slot(frame).arrayInfo, frame.depth)
  {
    var rows := Entries(frame, id, offset, |leaf.entries|);
    forall i | 0 <= i < |rows|
      ensures ViewOf(input, rows[i]) == ExtraViews(id, leaf, Slot(frame).arrayInfo, frame.depth)[i]
    {
      EntryIsAt(input, offset, leaf.entries, i);
      PointerView(input, rows[i], offset + i * HASH_SIZE, leaf.entries[i]);
    }
  }

  lemma VectorIsRead(input: seq<byte>, offset: nat, id: nat, leaf: Leaf, frame: Frame, used: nat)
    requires leaf.Hashes? && IsLeaf(leaf) && At(input, offset, LeafBytes(leaf))
    requires used + |leaf.entries| <= MAX_FIELD_COUNT
    ensures Reads(input, Vector(input, offset, HeaderRow(frame, STI_VECTOR256, id), frame, used),
                  offset + |LeafBytes(leaf)|,
                  OwnView(id, leaf, Slot(frame).arrayInfo, frame.depth),
                  ExtraViews(id, leaf, Slot(frame).arrayInfo, frame.depth), frame)
  {
    hide ViewOf, ViewsOf, Entries, ExtraViews, VlLength, EncodeLength, At, Vector;
    var length := |leaf.entries| * HASH_SIZE;
    ConcatLength(leaf.entries);
    hide Concat;
    AtBoth(input, offset, EncodeLength(length), Concat(leaf.entries));
    LengthRoundTrip(input, offset, length);
    var start := offset + |EncodeLength(length)|;
    var row := HeaderRow(frame, STI_VECTOR256, id);
    AtIsInside(input, start, Concat(leaf.entries));
    VectorOfEntries(input, offset, row, frame, used, |leaf.entries|, start);
    EntriesAreRead(input, start, id, leaf, frame);
    PointerView(input, row.(data := Ptr(start), length := length), start, Concat(leaf.entries));
  }

  lemma VectorOfEntries(input: seq<byte>, offset: nat, row: Field, frame: Frame, used: nat, count: nat, start: nat)
    requires VlLength(input, offset) == Ok((count * HASH_SIZE, start))
    requires used + count <= MAX_FIELD_COUNT && HasBytes(input, start, count * HASH_SIZE)
    ensures Vector(input, offset, row, frame, used)
         == Ok(Value(start + count * HASH_SIZE, row.(data := Ptr(start), length := count * HASH_SIZE),
                     Entries(frame, row.id, start, count), frame))
  {
    hide VlLength, Entries;
    WholeEntries(count);
  }

  lemma WholeEntries(count: nat)
    ensures count * HASH_SIZE % HASH_SIZE == 0 && count * HASH_SIZE / HASH_SIZE == count
  {
  }

  lemma IssueIsRead(input: seq<byte>, offset: nat, id: nat, leaf: Leaf, frame: Frame, used: nat)
    requires leaf.NativeIssue? || leaf.TokenIssue?
    requires IsLeaf(leaf) && At(input, offset, LeafBytes(leaf)) && (leaf.TokenIssue? ==> used < MAX_FIELD_COUNT)
    ensures Reads(input, Issue(input, offset, HeaderRow(frame, STI_ISSUE, id), frame, used),
                  offset + |LeafBytes(leaf)|,
                  OwnView(id, leaf, Slot(frame).arrayInfo, frame.depth),
                  ExtraViews(id, leaf, Slot(frame).arrayInfo, frame.depth), frame)
  {
    var row := HeaderRow(frame, STI_ISSUE, id);
    if leaf.NativeIssue? {
      BytesAreRead(input, offset, row, LeafBytes(leaf), frame);
      assert input[offset..offset + 20] == LeafBytes(leaf);
    } else {
      AtBoth(input, offset, leaf.currency, leaf.issuer);
      assert input[offset..offset + 20] == leaf.currency;
      PointerView(input, row.(data := Ptr(offset), length := 40), offset, LeafBytes(leaf));
      PointerView(input, IssuerRow(frame, offset + 20), offset + 20, leaf.issuer);
      OneView(input, IssuerRow(frame, offset + 20));
      hide ViewOf, ViewsOf, Currency.AllZeros;
    }
  }

  lemma LeafIsRead(input: seq<byte>, offset: nat, id: nat, leaf: Leaf, frame: Frame, used: nat)
    requires IsLeaf(leaf) && At(input, offset, LeafBytes(leaf)) && used <= MAX_FIELD_COUNT
    requires !leaf.AccountId? ==> !IsMalformed(leaf)
    requires used + |ExtraViews(id, leaf, Slot(frame).arrayInfo, frame.depth)| <= MAX_FIELD_COUNT
    ensures Reads(input, FieldValue(input, offset, HeaderRow(frame, TypeOf(leaf), id), frame, used),
                  offset + |LeafBytes(leaf)|,
                  OwnView(id, leaf, Slot(frame).arrayInfo, frame.depth),
                  ExtraViews(id, leaf, Slot(frame).arrayInfo, frame.depth), frame)
  {
    hide Reads, At, Bytes, Number, Blob, Vector, Amount, Issue, EncodeLength, EncodeNumber, Concat, Currency.IsValid,
         Currency.AllZeros, Currency.IsNonStandard;
    var row := HeaderRow(frame, TypeOf(leaf), id);
    match leaf
    case UInt8(n) => NumberIsRead(input, offset, row, n, 1, U8(n), frame);
    case UInt16(n) => NumberIsRead(input, offset, row, n, 2, U16(n), frame);
    case UInt32(n) => NumberIsRead(input, offset, row, n, 4, U32(n), frame);
    case Hash128(bytes) => BytesAreRead(input, offset, row, bytes, frame);
    case Hash256(bytes) => BytesAreRead(input, offset, row, bytes, frame);
    case NativeAmount(bytes) =>
      NativeIsRead(input, offset, row, bytes, frame, used);
    case IssuedAmount(_, _, _) => IssuedIsRead(input, offset, id, leaf, frame, used);
    case VariableBytes(bytes) => BlobIsRead(input, offset, row, bytes, frame);
    case AccountId(bytes) => BlobIsRead(input, offset, row, bytes, frame);
    case Hashes(_) => VectorIsRead(input, offset, id, leaf, frame, used);
    case NativeIssue => IssueIsRead(input, offset, id, leaf, frame, used);
    case TokenIssue(_, _) => IssueIsRead(input, offset, id, leaf, frame, used);
  }

  lemma NativeIsRead(input: seq<byte>, offset: nat, row: Field, bytes: seq<byte>, frame: Frame, used: nat)
    requires |bytes| == 8 && bytes[0] < 128 && At(input, offset, bytes)
    ensures Reads(input, Amount(input, offset, row, frame, used), offset + 8,
                  View(row.(data := Null, length := 8), bytes), [], frame)
  {
    ByteIs(input, offset, bytes, 0);
    BytesAreRead(input, offset, row, bytes, frame);
    hide Reads, Bytes;
  }

  // ---------- Leaves that are refused ----------

  /** With `used` rows taken, its own included, there is no room for the others. */
  predicate IsTooLong(id: nat, leaf: Leaf, info: ArrayInfo, depth: nat, used: nat)
    requires leaf.IssuedAmount? ==> |leaf.currency| == CURRENCY_SIZE
  {
    used + |ExtraViews(id, leaf, info, depth)| > MAX_FIELD_COUNT
  }

  lemma IssuedIsRefused(input: seq<byte>, offset: nat, id: nat, leaf: Leaf, frame: Frame, used: nat)
    requires leaf.IssuedAmount? && IsLeaf(leaf) && At(input, offset, LeafBytes(leaf))
    ensures IsMalformed(leaf) ==>
      Amount(input, offset, HeaderRow(frame, STI_AMOUNT, id), frame, used) == Err(InvalidState)
    ensures !IsMalformed(leaf) && IsTooLong(id, leaf, Slot(frame).arrayInfo, frame.depth, used) ==>
      Amount(input, offset, HeaderRow(frame, STI_AMOUNT, id), frame, used) == Err(NotEnoughSpace)
  {
    hide Currency.IsValid, Currency.IsNonStandard, Currency.AllZeros;
    AtBoth(input, offset, leaf.bytes + leaf.currency, leaf.issuer);
    AtBoth(input, offset, leaf.bytes, leaf.currency);
    ByteIs(input, offset, leaf.bytes, 0);
    assert input[offset + 8..offset + 28] == leaf.currency;
    AtIsInside(input, offset, LeafBytes(leaf));
  }

  lemma VectorIsRefused(input: seq<byte>, offset: nat, id: nat, leaf: Leaf, frame: Frame, used: nat)
    requires leaf.Hashes? && IsLeaf(leaf) && At(input, offset, LeafBytes(leaf))
    requires used <= MAX_FIELD_COUNT < used + |leaf.entries|
    ensures Vector(input, offset, HeaderRow(frame, STI_VECTOR256, id), frame, used) == Err(NotEnoughSpace)
  {
    hide VlLength, EncodeLength, Entries, At;
    var length := |leaf.entries| * HASH_SIZE;
    ConcatLength(leaf.entries);
    hide Concat;
    AtBoth(input, offset, EncodeLength(length), Concat(leaf.entries));
    LengthRoundTrip(input, offset, length);
    WholeEntries(|leaf.entries|);
  }

  lemma IssueIsRefused(input: seq<byte>, offset: nat, id: nat, leaf: Leaf, frame: Frame, used: nat)
    requires leaf.TokenIssue? && IsLeaf(leaf) && At(input, offset, LeafBytes(leaf)) && used >= MAX_FIELD_COUNT
    ensures Issue(input, offset, HeaderRow(frame, STI_ISSUE, id), frame, used) == Err(NotEnoughSpace)
  {
    AtBoth(input, offset, leaf.currency, leaf.issuer);
    assert input[offset..offset + 20] == leaf.currency;
    AtIsInside(input, offset, LeafBytes(leaf));
    hide Currency.AllZeros;
  }

  /** A token called XRP is refused as malformed, a type the app does not know as not
      supported, and a leaf with more rows than are left for want of space. */
  lemma LeafIsRefused(input: seq<byte>, offset: nat, id: nat, leaf: Leaf, frame: Frame, used: nat)
    requires IsLeaf(leaf) && At(input, offset, LeafBytes(leaf)) && used <= MAX_FIELD_COUNT
    ensures !leaf.AccountId? && IsMalformed(leaf) ==>
      FieldValue(input, offset, HeaderRow(frame, TypeOf(leaf), id), frame, used) == Err(Refusal(leaf))
    ensures !IsMalformed(leaf) && IsTooLong(id, leaf, Slot(frame).arrayInfo, frame.depth, used) ==>
      FieldValue(input, offset, HeaderRow(frame, TypeOf(leaf), id), frame, used) == Err(NotEnoughSpace)
  {
    hide At, Bytes, Number, Blob, Vector, Amount, Issue, Currency.IsValid, Currency.AllZeros, Currency.IsNonStandard;
    if leaf.IssuedAmount? {
      IssuedIsRefused(input, offset, id, leaf, frame, used);
    } else if leaf.Hashes? && used + |leaf.entries| > MAX_FIELD_COUNT {
      VectorIsRefused(input, offset, id, leaf, frame, used);
    } else if leaf.TokenIssue? && used >= MAX_FIELD_COUNT {
      IssueIsRefused(input, offset, id, leaf, frame, used);
    }
  }
}
