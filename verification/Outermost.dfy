/** Items that truly stand outside of every array and object, and those the parser
    takes for such by its two registers. */
module Outermost {
  import opened Fields
  import opened TransactionSpec
  import opened Conservation
  import opened Nesting
  import Currency

  /** No array, path set or object is open in front of item `k`. */
  ghost predicate IsOutermost(input: seq<byte>, items: seq<Item>, k: nat)
    requires k <= |items|
  {
    NestAt(input, items, k) == Nest(0, [])
  }

  /** The registers say so. */
  ghost predicate IsTaken(items: seq<Item>, k: nat)
    requires k <= |items|
  {
    FrameAt(items, k).currentArray == ARRAY_NONE && FrameAt(items, k).depth == 0
  }

  // ---------- Nothing is taken for nested that is not ----------

  lemma {:induction false} RegistersStayBelow(input: seq<byte>, k: nat)
    requires k <= |ParseLoop(input).items|
    ensures var items := ParseLoop(input).items;
      && FrameAt(items, k).depth <= NestAt(input, items, k).objects
      && (NestAt(input, items, k).arrays == [] ==> FrameAt(items, k).currentArray == ARRAY_NONE)
  {
    hide ParseLoop, MarkerOf;
    if k > 0 {
      RegistersStayBelow(input, k - 1);
      StepFollows(input, k);
    }
  }

  /** For all bytes: what stands outside of everything is taken for that. */
  lemma OutermostIsTaken(input: seq<byte>, k: nat)
    requires k <= |ParseLoop(input).items|
    ensures var items := ParseLoop(input).items;
      IsOutermost(input, items, k) ==> IsTaken(items, k)
  {
    hide ParseLoop, FrameAt, NestAt;
    RegistersStayBelow(input, k);
  }

  // ---------- When each register can be trusted ----------

  /** No array is left open by the end of one, and none has the code that stands for
      no array. */
  ghost predicate ClosesLast(input: seq<byte>, items: seq<Item>, k: nat)
    requires k < |items|
  {
    match MarkerOf(input, items[k])
    case CloseArray => Closed(NestAt(input, items, k).arrays) == []
    case OpenArray(id) => id != ARRAY_NONE
    case _ => true
  }

  ghost predicate NoArrayIsTrue(input: seq<byte>, items: seq<Item>, k: nat)
    requires k <= |items|
  {
    FrameAt(items, k).currentArray == ARRAY_NONE ==> NestAt(input, items, k).arrays == []
  }

  /** Throughout the first `n` items, no array is recorded only where none is open,
      exactly if the end of an array always leaves none open and no array has code 0. */
  lemma NoArrayIsTrueUnnested(input: seq<byte>, n: nat)
    requires n <= |ParseLoop(input).items|
    ensures var items := ParseLoop(input).items;
      (forall k :: 0 <= k <= n ==> NoArrayIsTrue(input, items, k))
          <==> (forall k :: 0 <= k < n ==> ClosesLast(input, items, k))
  {
    hide ParseLoop, FrameAt, NestAt, MarkerOf;
    var items := ParseLoop(input).items;
    if forall k :: 0 <= k < n ==> ClosesLast(input, items, k) {
      forall k | 0 <= k <= n ensures NoArrayIsTrue(input, items, k) {
        NoArrayFollows(input, k);
      }
    } else {
      var k :| 0 <= k < n && !ClosesLast(input, items, k);
      NoArrayFails(input, k);
      assert !NoArrayIsTrue(input, items, k + 1);
    }
  }

  lemma {:induction false} NoArrayFollows(input: seq<byte>, k: nat)
    requires k <= |ParseLoop(input).items|
    requires forall i :: 0 <= i < k ==> ClosesLast(input, ParseLoop(input).items, i)
    ensures NoArrayIsTrue(input, ParseLoop(input).items, k)
  {
    hide ParseLoop, MarkerOf;
    if k > 0 {
      NoArrayFollows(input, k - 1);
      StepFollows(input, k);
      assert ClosesLast(input, ParseLoop(input).items, k - 1);
    }
  }

  lemma NoArrayFails(input: seq<byte>, k: nat)
    requires k < |ParseLoop(input).items| && !ClosesLast(input, ParseLoop(input).items, k)
    ensures !NoArrayIsTrue(input, ParseLoop(input).items, k + 1)
  {
    hide ParseLoop, MarkerOf;
    StepFollows(input, k + 1);
  }

  ghost predicate NoDepthIsTrue(input: seq<byte>, items: seq<Item>, k: nat)
    requires k <= |items|
  {
    FrameAt(items, k).depth == 0 ==> NestAt(input, items, k).objects == 0
  }

  /** Throughout the first `n` items, depth 0 is recorded only where no object is open,
      exactly if fewer than 256 are ever open. */
  lemma NoDepthIsTrueBelow256(input: seq<byte>, n: nat)
    requires n <= |ParseLoop(input).items|
    ensures var items := ParseLoop(input).items;
      (forall k :: 0 <= k <= n ==> NoDepthIsTrue(input, items, k))
          <==> (forall k :: 0 <= k <= n ==> Below256(input, items, k))
  {
    hide ParseLoop, FrameAt, NestAt;
    var items := ParseLoop(input).items;
    if forall k :: 0 <= k <= n ==> Below256(input, items, k) {
      forall k | 0 <= k <= n ensures NoDepthIsTrue(input, items, k) {
        DepthFollows(input, k);
      }
    } else {
      var k :| 0 <= k <= n && !Below256(input, items, k);
      var i := CounterWraps(input, k);
      assert !NoDepthIsTrue(input, items, i);
    }
  }

  /** The 256th object open at a time brings the counter back to 0. */
  lemma {:induction false} CounterWraps(input: seq<byte>, k: nat) returns (i: nat)
    requires k <= |ParseLoop(input).items| && !Below256(input, ParseLoop(input).items, k)
    ensures i <= k && !NoDepthIsTrue(input, ParseLoop(input).items, i)
  {
    hide ParseLoop, MarkerOf;
    var items := ParseLoop(input).items;
    i := k;
    if 0 < k {
      if Below256(input, items, k - 1) {
        if j :| 0 <= j < k && !Below256(input, items, j) {
          i := CounterWraps(input, j);
        } else {
          DepthFollows(input, k - 1);
          StepFollows(input, k);
        }
      } else {
        i := CounterWraps(input, k - 1);
      }
    }
  }

  // ---------- What is taken for outermost ----------

  /** The last mark of an array or path set in front of item `k` is an end, or the
      beginning of an array of code 0. */
  ghost predicate LastMarkCloses(input: seq<byte>, items: seq<Item>, k: nat)
    requires k <= |items|
  {
    k > 0
    && match MarkerOf(input, items[k - 1])
       case CloseArray => true
       case OpenArray(id) => id == ARRAY_NONE
       case _ => LastMarkCloses(input, items, k - 1)
  }

  /** How many of the objects open in front of item `k` the byte counter has lost:
      256 whenever that many are counted, which then close without being counted. */
  function Lost(input: seq<byte>, items: seq<Item>, k: nat): nat
    requires k <= |items|
  {
    if k == 0 then 0
    else
      var before, objects := Lost(input, items, k - 1), NestAt(input, items, k).objects;
      match MarkerOf(input, items[k - 1])
      case OpenObject => if objects == before + 256 then before + 256 else before
      case CloseObject => if objects < before then objects else before
      case _ => before
  }

  /** Inside an array or object, but not so by the marks: the counter has lost all
      objects that are open, and no array is or the last mark of one was an end. */
  ghost predicate Strays(input: seq<byte>, items: seq<Item>, k: nat)
    requires k <= |items|
  {
    && NestAt(input, items, k) != Nest(0, []) && NestAt(input, items, k).objects == Lost(input, items, k)
    && (NestAt(input, items, k).arrays == [] || LastMarkCloses(input, items, k))
  }

  /** For all bytes: when no array is recorded. */
  lemma {:induction false} WhenNoArrayIsRecorded(input: seq<byte>, k: nat)
    requires k <= |ParseLoop(input).items|
    ensures var items := ParseLoop(input).items;
      FrameAt(items, k).currentArray == ARRAY_NONE
      <==> NestAt(input, items, k).arrays == [] || LastMarkCloses(input, items, k)
  {
    hide ParseLoop, MarkerOf;
    if k > 0 {
      WhenNoArrayIsRecorded(input, k - 1);
      StepFollows(input, k);
    }
  }

  /** For all bytes: the recorded depth is the number of open objects that are not lost. */
  lemma {:induction false} DepthCountsTheRest(input: seq<byte>, k: nat)
    requires k <= |ParseLoop(input).items|
    ensures var items := ParseLoop(input).items;
      && Lost(input, items, k) <= NestAt(input, items, k).objects
      && FrameAt(items, k).depth == NestAt(input, items, k).objects - Lost(input, items, k)
  {
    hide ParseLoop, MarkerOf, FrameAt;
    if k > 0 {
      DepthCountsTheRest(input, k - 1);
      StepFollows(input, k);
      DepthIsAByte(input, k - 1);
    } else {
      NothingRecorded(ParseLoop(input).items);
    }
  }

  lemma NothingRecorded(items: seq<Item>)
    ensures FrameAt(items, 0) == INITIAL_FRAME
  {
    assert items[..0] == [];
  }

  /** For all bytes: an item is taken for outermost exactly if it is or strays. */
  lemma TakenIsOutermostOrStrays(input: seq<byte>, k: nat)
    requires k <= |ParseLoop(input).items|
    ensures var items := ParseLoop(input).items;
      IsTaken(items, k) <==> IsOutermost(input, items, k) || Strays(input, items, k)
  {
    hide ParseLoop, FrameAt, NestAt, LastMarkCloses, Lost;
    WhenNoArrayIsRecorded(input, k);
    DepthCountsTheRest(input, k);
  }

  lemma OutermostStrays(input: seq<byte>, items: seq<Item>, k: nat)
    requires k <= |items|
    ensures IsOutermost(input, items, k) ==> !Strays(input, items, k)
  {
  }

  /** While fewer than 256 objects are open none is lost, and what strays stands outside
      of all objects, in an array, behind the end of another one in it. */
  lemma {:induction false} NothingLostBelow256(input: seq<byte>, items: seq<Item>, k: nat)
    requires k <= |items| && forall i :: 0 <= i <= k ==> Below256(input, items, i)
    ensures Lost(input, items, k) == 0
    ensures var nest := NestAt(input, items, k);
      Strays(input, items, k) <==> nest.objects == 0 && nest.arrays != [] && LastMarkCloses(input, items, k)
  {
    hide MarkerOf, NestAt, LastMarkCloses;
    if k > 0 {
      NothingLostBelow256(input, items, k - 1);
      assert Below256(input, items, k);
    }
  }

  // ---------- What strays ----------

  /** Whatever follows an empty array at the beginning of an array is taken for
      outermost, and is not. */
  lemma BehindEmptyArray(input: seq<byte>)
    requires |input| >= 3 && input[0] == 0xF9 && input[1] == 0xF3 && input[2] == 0xF1
    ensures var items := ParseLoop(input).items;
      && |items| >= 3 && items[2].end == 3 && items[3..] == ParseItems(input, 3, INITIAL_FRAME, 0).items
      && NestAt(input, items, 3) == Nest(0, [9]) && IsTaken(items, 3) && Strays(input, items, 3)
  {
    hide ParseItem, ParseItems, MarkerOf;
    var f1 := INITIAL_FRAME.(currentArray := 9);
    var f2 := INITIAL_FRAME.(currentArray := 3);
    MarkerStep(input, 0, INITIAL_FRAME);
    MarkerStep(input, 1, f1);
    MarkerStep(input, 2, f2);
    ParseItemsStep(input, 0, INITIAL_FRAME, 0);
    ParseItemsStep(input, 1, f1, 0);
    ParseItemsStep(input, 2, f2, 0);
    var items := ParseLoop(input).items;
    var rest := ParseItems(input, 3, INITIAL_FRAME, 0).items;
    var first, second, third := Item(0, 1, INITIAL_FRAME, f1, []), Item(1, 2, f1, f2, []),
                                Item(2, 3, f2, INITIAL_FRAME, []);
    assert items == [first] + ([second] + ([third] + rest)) && items[3..] == rest;
    assert items[0] == first && items[1] == second && items[2] == third && items[..3][2] == third;
    ThreeMarkers(input, items);
  }

  lemma ThreeMarkers(input: seq<byte>, items: seq<Item>)
    requires |input| >= 3 && input[0] == 0xF9 && input[1] == 0xF3 && input[2] == 0xF1 && |items| >= 3
    requires forall i :: 0 <= i < 3 ==> items[i].start == i && items[i].before.currentArray != ARRAY_PATHSET
    ensures NestAt(input, items, 3) == Nest(0, [9]) && Strays(input, items, 3)
  {
    assert MarkerOf(input, items[0]) == OpenArray(9) && MarkerOf(input, items[1]) == OpenArray(3);
    assert MarkerOf(input, items[2]) == CloseArray;
    hide MarkerOf;
    assert NestAt(input, items, 1) == Nest(0, [9]) && Lost(input, items, 1) == 0;
    assert NestAt(input, items, 2) == Nest(0, [9, 3]) && Lost(input, items, 2) == 0;
    assert NestAt(input, items, 3) == Nest(0, [9]) && Lost(input, items, 3) == 0;
  }

  // ---------- How rows are filed ----------

  ghost predicate AreFiled(rows: seq<Field>, frame: Frame) {
    forall i :: 0 <= i < |rows| ==>
      rows[i].depth == frame.depth
      && (rows[i].dataType == STI_HASH256 || rows[i].arrayInfo.kind == frame.currentArray)
  }

  lemma FieldValueIsFiled(input: seq<byte>, offset: nat, row: Field, frame: Frame, used: nat)
    requires used <= MAX_FIELD_COUNT && FieldValue(input, offset, row, frame, used).Ok?
    requires row.depth == frame.depth && row.arrayInfo == Slot(frame).arrayInfo
    ensures var value := FieldValue(input, offset, row, frame, used).value;
      AreFiled([value.row], frame) && AreFiled(value.extra, frame)
  {
    hide VlLength, Currency.IsValid, Currency.IsNonStandard, Currency.AllZeros, BigEndian;
  }

  lemma PathItemIsFiled(input: seq<byte>, offset: nat, frame: Frame, used: nat)
    requires PathItem(input, offset, frame, used).Ok? && frame.currentArray == ARRAY_PATHSET
    ensures var value := PathItem(input, offset, frame, used).value;
      AreFiled([value.row], frame) && AreFiled(value.extra, frame)
  {
  }

  lemma ItemIsFiled(input: seq<byte>, offset: nat, frame: Frame, used: nat)
    requires used <= MAX_FIELD_COUNT && ParseItem(input, offset, frame, used).Parsed?
    ensures AreFiled(ParseItem(input, offset, frame, used).item.rows, frame)
  {
    if frame.currentArray == ARRAY_PATHSET {
      PathItemIsFiled(input, offset, frame, used + 1);
    } else {
      var header := Header(input, offset).value;
      FieldValueIsFiled(input, header.2, Slot(frame).(dataType := header.0, id := header.1), frame, used + 1);
    }
    hide FieldValue, PathItem, Header, PostProcess, IsHidden;
    var value := ParseValue(input, offset, frame, used + 1).value;
    assert value.row == [value.row][0];
  }

  /** For all bytes: every row but those of hashes carries the registers in front of its item. */
  lemma RowsAreFiled(input: seq<byte>, k: nat)
    requires k < |ParseLoop(input).items|
    ensures var items := ParseLoop(input).items;
      AreFiled(items[k].rows, FrameAt(items, k)) && items[k].before == FrameAt(items, k)
  {
    hide ParseItem, ParseItems, AreFiled;
    var items := ParseLoop(input).items;
    var taken := ItemAt(input, 0, INITIAL_FRAME, 0, k);
    ItemIsFiled(input, items[k].start, items[k].before, taken);
  }

  lemma {:induction false} RowsOfItems(items: seq<Item>, row: Field)
    ensures row in RowsOf(items) <==> exists k :: 0 <= k < |items| && row in items[k].rows
  {
    if items != [] {
      RowsOfItems(items[1..], row);
      if row in RowsOf(items[1..]) {
        var k :| 0 <= k < |items[1..]| && row in items[1..][k].rows;
        assert row in items[k + 1].rows;
      }
      if k :| 0 < k < |items| && row in items[k].rows {
        assert items[1..][k - 1] == items[k];
      }
    }
  }
}
