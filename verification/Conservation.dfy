/** What holds of every run of the parse loop, whatever the bytes: the items tile
    the input, every row points into its own item, the table never overflows,
    and path steps are numbered in order. */
module Conservation {
  import opened Fields
  import opened TransactionSpec
  import Currency

  // ---------- Windows ----------

  ghost predicate RowInside(row: Field, start: nat, end: nat) {
    row.data.Ptr? ==> start < row.data.pos && row.data.pos + row.length <= end
  }

  ghost predicate RowsInside(rows: seq<Field>, start: nat, end: nat) {
    forall i :: 0 <= i < |rows| ==> RowInside(rows[i], start, end)
  }

  /** A value's rows lie behind its first byte and before its end. */
  lemma AmountInside(input: seq<byte>, offset: nat, row: Field, frame: Frame, used: nat)
    requires offset > 0 && Amount(input, offset, row, frame, used).Ok?
    ensures var value := Amount(input, offset, row, frame, used).value;
      RowsInside([value.row] + value.extra, offset - 1, value.end)
  {
    hide Currency.IsValid, Currency.IsNonStandard, Currency.AllZeros;
  }

  lemma EntriesInside(frame: Frame, id: nat, start: nat, count: nat, from: nat, end: nat)
    requires from < start && start + count * HASH_SIZE <= end
    ensures RowsInside(Entries(frame, id, start, count), from, end)
  {
    forall i | 0 <= i < count ensures RowInside(Entries(frame, id, start, count)[i], from, end) {
      assert i * HASH_SIZE + HASH_SIZE <= count * HASH_SIZE;
    }
  }

  lemma VectorInside(input: seq<byte>, offset: nat, row: Field, frame: Frame, used: nat)
    requires used <= MAX_FIELD_COUNT && offset > 0 && Vector(input, offset, row, frame, used).Ok?
    ensures var value := Vector(input, offset, row, frame, used).value;
      RowsInside([value.row] + value.extra, offset - 1, value.end)
  {
    var (length, start) := VlLength(input, offset).value;
    EntriesInside(frame, row.id, start, length / HASH_SIZE, offset - 1, start + length);
    hide Entries;
  }

  lemma FieldValueInside(input: seq<byte>, offset: nat, row: Field, frame: Frame, used: nat)
    requires used <= MAX_FIELD_COUNT && offset > 0 && row.data == Null
    requires FieldValue(input, offset, row, frame, used).Ok?
    ensures var value := FieldValue(input, offset, row, frame, used).value;
      RowsInside([value.row] + value.extra, offset - 1, value.end)
  {
    if row.dataType == STI_AMOUNT {
      AmountInside(input, offset, row, frame, used);
    } else if row.dataType == STI_VECTOR256 {
      VectorInside(input, offset, row, frame, used);
    }
    hide Amount, Vector, BigEndian, Currency.AllZeros;
  }

  lemma PathItemInside(input: seq<byte>, offset: nat, frame: Frame, used: nat)
    requires PathItem(input, offset, frame, used).Ok?
    ensures var value := PathItem(input, offset, frame, used).value;
      RowsInside([value.row] + value.extra, offset, value.end)
  {
  }

  lemma ItemInside(input: seq<byte>, offset: nat, frame: Frame, used: nat)
    requires used <= MAX_FIELD_COUNT && ParseItem(input, offset, frame, used).Parsed?
    ensures var item := ParseItem(input, offset, frame, used).item;
      && item.start == offset < item.end <= |input| && item.before == frame
      && RowsInside(item.rows, item.start, item.end)
      && used + |item.rows| <= MAX_FIELD_COUNT
  {
    ParseItemAdvances(input, offset, frame, used);
    var value := ParseValue(input, offset, frame, used + 1).value;
    if frame.currentArray == ARRAY_PATHSET {
      PathItemInside(input, offset, frame, used + 1);
    } else {
      var header := Header(input, offset).value;
      FieldValueInside(input, header.2, Slot(frame).(dataType := header.0, id := header.1), frame, used + 1);
    }
    assert RowsInside([value.row] + value.extra, offset, value.end) by {
      hide FieldValue, PathItem;
    }
    hide ParseValue, PostProcess, IsHidden;
    var all, item := [value.row] + value.extra, ParseItem(input, offset, frame, used).item;
    assert item.rows == if IsHidden(value.row) then all[1..] else all;
  }

  // ---------- Runs ----------

  /** Item `k` of a run is what one iteration makes of the place and the registers
      the item before it left, with `taken` slots in use. */
  lemma {:induction false} ItemAt(input: seq<byte>, offset: nat, frame: Frame, used: nat, k: nat) returns (taken: nat)
    requires offset <= |input| && used <= MAX_FIELD_COUNT
    requires k < |ParseItems(input, offset, frame, used).items|
    ensures var items := ParseItems(input, offset, frame, used).items;
      && taken <= MAX_FIELD_COUNT && items[k].start < |input|
      && ParseItem(input, items[k].start, items[k].before, taken) == Parsed(items[k])
      && items[k].start == (if k == 0 then offset else items[k - 1].end)
      && items[k].before == (if k == 0 then frame else items[k - 1].after)
    decreases k
  {
    hide ParseItem, ParseItems;
    ParseItemsStep(input, offset, frame, used);
    var item := ParseItem(input, offset, frame, used).item;
    if k == 0 {
      ItemInside(input, offset, frame, used);
      taken := used;
    } else {
      taken := ItemAt(input, item.end, item.after, used + |item.rows|, k - 1);
    }
  }

  function EndOf(items: seq<Item>, from: nat): nat {
    if items == [] then from else items[|items| - 1].end
  }

  /** The registers the items leave. */
  function FrameOf(items: seq<Item>, from: Frame): Frame {
    if items == [] then from else items[|items| - 1].after
  }

  lemma {:induction false} RunEnds(input: seq<byte>, offset: nat, frame: Frame, used: nat)
    requires offset <= |input| && used <= MAX_FIELD_COUNT
    ensures var run := ParseItems(input, offset, frame, used);
      && offset <= EndOf(run.items, offset) <= |input|
      && (run.stop == AtEnd <==> EndOf(run.items, offset) == |input|)
      && run.frame == FrameOf(run.items, frame)
      && used + |RowsOf(run.items)| <= MAX_FIELD_COUNT
    decreases |input| - offset
  {
    hide ParseItem, ParseItems;
    ParseItemsStep(input, offset, frame, used);
    if offset < |input| && ParseItem(input, offset, frame, used).Parsed? {
      var item := ParseItem(input, offset, frame, used).item;
      var rest := ParseItems(input, item.end, item.after, used + |item.rows|);
      RunEnds(input, item.end, item.after, used + |item.rows|);
      var items := [item] + rest.items;
      assert items[1..] == rest.items;
      assert EndOf(items, offset) == EndOf(rest.items, item.end);
    }
  }

  /** The items cover [0, end) one after the other. */
  ghost predicate Tiles(items: seq<Item>, end: nat) {
    && (items == [] ==> end == 0)
    && (items != [] ==> items[0].start == 0 && items[|items| - 1].end == end)
    && (forall k :: 0 <= k < |items| ==> items[k].start < items[k].end)
    && (forall k :: 0 < k < |items| ==> items[k].start == items[k - 1].end)
  }

  /** Whatever the bytes and however the run ends: the completed items tile a prefix
      of the transaction, the whole of it exactly when the loop finished; every row
      points behind the first byte of its own item and ends in it; and the table
      never holds more than 60 rows. */
  lemma BytesAreConserved(input: seq<byte>)
    ensures var run := ParseLoop(input);
      var end := EndOf(run.items, 0);
      && end <= |input| && Tiles(run.items, end)
      && (run.stop == AtEnd <==> end == |input|)
      && (forall k :: 0 <= k < |run.items| ==> RowsInside(run.items[k].rows, run.items[k].start, run.items[k].end))
      && |RowsOf(run.items)| <= MAX_FIELD_COUNT
  {
    hide ParseItem, ParseItems, RowsInside, RowsOf;
    RunEnds(input, 0, INITIAL_FRAME, 0);
    var items := ParseLoop(input).items;
    forall k | 0 <= k < |items|
      ensures items[k].start < items[k].end && RowsInside(items[k].rows, items[k].start, items[k].end)
    {
      var taken := ItemAt(input, 0, INITIAL_FRAME, 0, k);
      ItemInside(input, items[k].start, items[k].before, taken);
    }
    forall k | 0 < k < |items| ensures items[k].start == items[k - 1].end {
      var taken := ItemAt(input, 0, INITIAL_FRAME, 0, k);
    }
    if items != [] {
      var taken := ItemAt(input, 0, INITIAL_FRAME, 0, 0);
      assert items[0].start == 0;
    }
    assert Tiles(items, EndOf(items, 0));
  }

  /** A byte belongs to at most one item of a tiling, and every byte to one. */
  lemma {:induction false} EveryByteHasOneOwner(items: seq<Item>, end: nat, position: nat) returns (owner: nat)
    requires Tiles(items, end) && position < end
    ensures owner < |items| && items[owner].start <= position < items[owner].end
    ensures forall k :: 0 <= k < |items| && items[k].start <= position < items[k].end ==> k == owner
    decreases |items|
  {
    var last := |items| - 1;
    if position >= items[last].start {
      owner := last;
      forall k | 0 <= k < last ensures items[k].end <= position {
        EndsBefore(items, end, k, last);
      }
    } else {
      assert items[..last] != [];
      owner := EveryByteHasOneOwner(items[..last], items[last].start, position);
      forall k | 0 <= k < |items| && items[k].start <= position < items[k].end ensures k == owner {
        assert k != last;
        assert items[..last][k] == items[k];
      }
    }
  }

  lemma {:induction false} EndsBefore(items: seq<Item>, end: nat, i: nat, j: nat)
    requires Tiles(items, end) && i < j < |items|
    ensures items[i].end <= items[j].start
  {
    if i + 1 < j {
      EndsBefore(items, end, i, j - 1);
    }
  }

  // ---------- Path sets ----------

  /** What the registers always satisfy. */
  ghost predicate FrameOk(frame: Frame) {
    && frame.index1 <= MAX_ARRAY_LEN && frame.depth < 256
    && (frame.currentArray == ARRAY_PATHSET ==>
        1 <= frame.index1 <= MAX_PATH_COUNT && 1 <= frame.index2 <= MAX_STEP_COUNT + 1)
  }

  lemma FieldValueKeepsFrameOk(input: seq<byte>, offset: nat, row: Field, frame: Frame, used: nat)
    requires used <= MAX_FIELD_COUNT && FrameOk(frame) && frame.currentArray != ARRAY_PATHSET
    requires FieldValue(input, offset, row, frame, used).Ok?
    ensures FrameOk(FieldValue(input, offset, row, frame, used).value.frame)
  {
    hide VlLength, Fixed, Currency.IsValid, Currency.IsNonStandard, Currency.AllZeros, BigEndian;
  }

  lemma ItemKeepsFrameOk(input: seq<byte>, offset: nat, frame: Frame, used: nat)
    requires used <= MAX_FIELD_COUNT && FrameOk(frame) && ParseItem(input, offset, frame, used).Parsed?
    ensures FrameOk(ParseItem(input, offset, frame, used).item.after)
  {
    if frame.currentArray != ARRAY_PATHSET {
      var header := Header(input, offset).value;
      FieldValueKeepsFrameOk(input, header.2, Slot(frame).(dataType := header.0, id := header.1), frame, used + 1);
      hide FieldValue, Header;
      assert FrameOk(ParseValue(input, offset, frame, used + 1).value.frame);
    } else {
      assert FrameOk(ParseValue(input, offset, frame, used + 1).value.frame);
    }
    hide ParseValue, IsHidden;
  }

  lemma {:induction false} FramesAreOk(input: seq<byte>, k: nat)
    requires k < |ParseLoop(input).items|
    ensures FrameOk(ParseLoop(input).items[k].before) && FrameOk(ParseLoop(input).items[k].after)
  {
    hide ParseItem, ParseItems;
    var items := ParseLoop(input).items;
    var taken := ItemAt(input, 0, INITIAL_FRAME, 0, k);
    if k > 0 {
      FramesAreOk(input, k - 1);
    }
    hide FrameOk;
    assert FrameOk(items[k].before) by {
      if k == 0 { InitialFrameOk(); }
    }
    ItemKeepsFrameOk(input, items[k].start, items[k].before, taken);
  }

  lemma InitialFrameOk()
    ensures FrameOk(INITIAL_FRAME)
  {
  }

  /** The two rows of a step that names a currency and its issuer: 40 bytes in wire order. */
  ghost predicate IsCurrencyAndIssuer(rows: seq<Field>, start: nat) {
    && |rows| == 2
    && rows[0].dataType == STI_CURRENCY && rows[0].data == Ptr(start) && rows[0].length == 20
    && rows[1].dataType == STI_ACCOUNT && rows[1].id == ACCOUNT_ISSUER
    && rows[1].data == Ptr(start + 20) && rows[1].length == 20
  }

  /** An item inside a path set: a separator or the end without rows, or a step
      whose rows all carry the position the registers held. */
  ghost predicate IsPathItem(item: Item) {
    && (forall i :: 0 <= i < |item.rows| ==>
         && item.rows[i].arrayInfo == ArrayInfo(ARRAY_PATHSET, item.before.index1, item.before.index2)
         && 1 <= item.before.index1 <= MAX_PATH_COUNT && 1 <= item.before.index2 <= MAX_STEP_COUNT)
    && (|item.rows| <= 1 || IsCurrencyAndIssuer(item.rows, item.start + 1))
    && (item.rows != [] ==> item.end == item.start + 1 + 20 * |item.rows|)
    && (item.after.currentArray == ARRAY_PATHSET ==>
        if item.rows == [] then item.after.index1 == item.before.index1 + 1 && item.after.index2 == 1
        else item.after.index1 == item.before.index1 && item.after.index2 == item.before.index2 + 1)
  }

  lemma PathItemShape(input: seq<byte>, offset: nat, frame: Frame, used: nat)
    requires used <= MAX_FIELD_COUNT && FrameOk(frame) && frame.currentArray == ARRAY_PATHSET
    requires ParseItem(input, offset, frame, used).Parsed?
    ensures IsPathItem(ParseItem(input, offset, frame, used).item)
  {
  }

  /** Position of a path step: the path first, the step second. */
  ghost predicate StepBefore(a: ArrayInfo, b: ArrayInfo) {
    a.index1 < b.index1 || (a.index1 == b.index1 && a.index2 < b.index2)
  }

  /** Items `i..j` lie in one path set. */
  ghost predicate InOnePathSet(items: seq<Item>, i: nat, j: nat)
    requires i <= j < |items|
  {
    forall k :: i <= k <= j ==> items[k].before.currentArray == ARRAY_PATHSET
  }

  lemma PathItemAt(input: seq<byte>, k: nat)
    requires k < |ParseLoop(input).items| && ParseLoop(input).items[k].before.currentArray == ARRAY_PATHSET
    ensures IsPathItem(ParseLoop(input).items[k])
  {
    hide ParseItem, ParseItems, IsPathItem;
    var taken := ItemAt(input, 0, INITIAL_FRAME, 0, k);
    FramesAreOk(input, k);
    var item := ParseLoop(input).items[k];
    PathItemShape(input, item.start, item.before, taken);
  }

  /** The registers move on through a path set, strictly past every step with rows. */
  lemma {:induction false} RegistersMoveOn(input: seq<byte>, i: nat, j: nat)
    requires i < j < |ParseLoop(input).items| && InOnePathSet(ParseLoop(input).items, i, j)
    ensures var before, after := ParseLoop(input).items[i].before, ParseLoop(input).items[j].before;
      before.index1 < after.index1 || (before.index1 == after.index1 && before.index2 < after.index2)
    decreases j
  {
    hide ParseItem, ParseItems;
    var items := ParseLoop(input).items;
    var taken := ItemAt(input, 0, INITIAL_FRAME, 0, j);
    assert items[j - 1].after.currentArray == ARRAY_PATHSET;
    PathItemAt(input, j - 1);
    if i < j - 1 {
      RegistersMoveOn(input, i, j - 1);
    }
  }

  /** Within a path set the rows are numbered 1..6 and 1..8, in strictly increasing
      order from step to step; two rows share a number only when they are the
      currency and the issuer of one step. */
  lemma PathStepsAreNumberedInOrder(input: seq<byte>, i: nat, j: nat, a: nat, b: nat)
    requires i <= j < |ParseLoop(input).items| && InOnePathSet(ParseLoop(input).items, i, j)
    requires a < |ParseLoop(input).items[i].rows| && b < |ParseLoop(input).items[j].rows|
    ensures var first, second := ParseLoop(input).items[i], ParseLoop(input).items[j];
      var p, q := first.rows[a].arrayInfo, second.rows[b].arrayInfo;
      && p.kind == ARRAY_PATHSET && 1 <= p.index1 <= MAX_PATH_COUNT && 1 <= p.index2 <= MAX_STEP_COUNT
      && (i < j ==> StepBefore(p, q))
      && (i == j ==> p == q && (a != b ==> IsCurrencyAndIssuer(first.rows, first.start + 1)))
  {
    hide ParseItem, ParseItems;
    PathItemAt(input, i);
    PathItemAt(input, j);
    if i < j {
      RegistersMoveOn(input, i, j);
    }
  }
}
