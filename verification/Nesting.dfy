/** How far the parser's two nesting registers, a byte that counts open objects
    and one array id, agree with the true nesting of the transaction. */
module Nesting {
  import opened Fields
  import opened TransactionSpec
  import opened Conservation
  import Currency

  // ---------- True nesting ----------

  datatype Marker = OpenObject | CloseObject | OpenArray(id: nat) | CloseArray | OtherItem

  /** What an item does to the nesting; a path set counts as an array. */
  function MarkerOf(input: seq<byte>, item: Item): Marker {
    if item.before.currentArray == ARRAY_PATHSET then
      if item.start < |input| && input[item.start] == PATHSET_END then CloseArray else OtherItem
    else
      match Header(input, item.start)
      case Err(_) => OtherItem
      case Ok((dataType, id, _)) =>
        if dataType == STI_OBJECT then if id == END_MARKER then CloseObject else OpenObject
        else if dataType == STI_ARRAY then if id == END_MARKER then CloseArray else OpenArray(id)
        else if dataType == STI_PATHSET then OpenArray(ARRAY_PATHSET)
        else OtherItem
  }

  /** Number of open objects and the ids of the open arrays, innermost last. */
  datatype Nest = Nest(objects: nat, arrays: seq<nat>)

  function Closed(arrays: seq<nat>): seq<nat> {
    if arrays == [] then [] else arrays[..|arrays| - 1]
  }

  function Innermost(arrays: seq<nat>): nat {
    if arrays == [] then ARRAY_NONE else arrays[|arrays| - 1]
  }

  function AfterMarker(nest: Nest, marker: Marker): Nest {
    match marker
    case OpenObject => nest.(objects := nest.objects + 1)
    case CloseObject => nest.(objects := if nest.objects > 0 then nest.objects - 1 else 0)
    case OpenArray(id) => nest.(arrays := nest.arrays + [id])
    case CloseArray => nest.(arrays := Closed(nest.arrays))
    case OtherItem => nest
  }

  /** The nesting behind the first `k` items. */
  function NestAt(input: seq<byte>, items: seq<Item>, k: nat): Nest
    requires k <= |items|
  {
    if k == 0 then Nest(0, []) else AfterMarker(NestAt(input, items, k - 1), MarkerOf(input, items[k - 1]))
  }

  /** The registers behind the first `k` items. */
  function FrameAt(items: seq<Item>, k: nat): Frame
    requires k <= |items|
  {
    FrameOf(items[..k], INITIAL_FRAME)
  }

  // ---------- One item ----------

  /** What the registers make of a marker. */
  ghost predicate RegistersFollow(before: Frame, marker: Marker, after: Frame) {
    && after.depth == (match marker
                       case OpenObject => (before.depth + 1) % 256
                       case CloseObject => if before.depth > 0 then before.depth - 1 else 0
                       case _ => before.depth)
    && after.currentArray == (match marker
                              case OpenArray(id) => id
                              case CloseArray => ARRAY_NONE
                              case _ => before.currentArray)
  }

  lemma FieldValueFollows(input: seq<byte>, offset: nat, row: Field, frame: Frame, used: nat, marker: Marker)
    requires used <= MAX_FIELD_COUNT && FieldValue(input, offset, row, frame, used).Ok?
    requires marker == (
      if row.dataType == STI_OBJECT then if row.id == END_MARKER then CloseObject else OpenObject
      else if row.dataType == STI_ARRAY then if row.id == END_MARKER then CloseArray else OpenArray(row.id)
      else if row.dataType == STI_PATHSET then OpenArray(ARRAY_PATHSET)
      else OtherItem)
    ensures RegistersFollow(frame, marker, FieldValue(input, offset, row, frame, used).value.frame)
  {
    hide VlLength, Fixed, Currency.IsValid, Currency.IsNonStandard, Currency.AllZeros, BigEndian;
  }

  lemma ValueFollows(input: seq<byte>, offset: nat, frame: Frame, used: nat, item: Item)
    requires used <= MAX_FIELD_COUNT && ParseValue(input, offset, frame, used).Ok?
    requires item.start == offset && item.before == frame
    ensures RegistersFollow(frame, MarkerOf(input, item), ParseValue(input, offset, frame, used).value.frame)
  {
    if frame.currentArray != ARRAY_PATHSET {
      hide FieldValue, RegistersFollow, Header;
      var header := Header(input, offset).value;
      FieldValueFollows(input, header.2, Slot(frame).(dataType := header.0, id := header.1), frame, used,
                        MarkerOf(input, item));
    }
  }

  lemma ItemFollows(input: seq<byte>, offset: nat, frame: Frame, used: nat)
    requires used <= MAX_FIELD_COUNT && ParseItem(input, offset, frame, used).Parsed?
    ensures var item := ParseItem(input, offset, frame, used).item;
      RegistersFollow(frame, MarkerOf(input, item), item.after)
  {
    var item := ParseItem(input, offset, frame, used).item;
    ValueFollows(input, offset, frame, used + 1, item);
    hide ParseValue, MarkerOf, IsHidden;
  }

  lemma StepFollows(input: seq<byte>, k: nat)
    requires 0 < k <= |ParseLoop(input).items|
    ensures var items := ParseLoop(input).items;
      RegistersFollow(FrameAt(items, k - 1), MarkerOf(input, items[k - 1]), FrameAt(items, k))
  {
    hide ParseItem, ParseItems, MarkerOf, RegistersFollow;
    var taken := ItemAt(input, 0, INITIAL_FRAME, 0, k - 1);
    var item := ParseLoop(input).items[k - 1];
    ItemFollows(input, item.start, item.before, taken);
  }

  lemma DepthIsAByte(input: seq<byte>, k: nat)
    requires k <= |ParseLoop(input).items|
    ensures FrameAt(ParseLoop(input).items, k).depth < 256
  {
    hide ParseItems;
    if k > 0 {
      FramesAreOk(input, k - 1);
    }
  }

  // ---------- Whole runs ----------

  ghost predicate DepthIsTrue(input: seq<byte>, items: seq<Item>, k: nat)
    requires k <= |items|
  {
    FrameAt(items, k).depth == NestAt(input, items, k).objects
  }

  ghost predicate Below256(input: seq<byte>, items: seq<Item>, k: nat)
    requires k <= |items|
  {
    NestAt(input, items, k).objects < 256
  }

  /** The depth of every row is the number of objects open around it, throughout
      the first `n` items, exactly if fewer than 256 objects are ever open in them. */
  lemma DepthIsTrueBelow256(input: seq<byte>, n: nat)
    requires n <= |ParseLoop(input).items|
    ensures var items := ParseLoop(input).items;
      (forall k :: 0 <= k <= n ==> DepthIsTrue(input, items, k))
          <==> (forall k :: 0 <= k <= n ==> Below256(input, items, k))
  {
    hide ParseLoop, FrameAt, NestAt;
    var items := ParseLoop(input).items;
    if forall k :: 0 <= k <= n ==> Below256(input, items, k) {
      forall k | 0 <= k <= n ensures DepthIsTrue(input, items, k) {
        DepthFollows(input, k);
      }
    } else {
      var k :| 0 <= k <= n && !Below256(input, items, k);
      DepthIsAByte(input, k);
      assert !DepthIsTrue(input, items, k);
    }
  }

  lemma {:induction false} DepthFollows(input: seq<byte>, k: nat)
    requires k <= |ParseLoop(input).items|
    requires forall i :: 0 <= i <= k ==> Below256(input, ParseLoop(input).items, i)
    ensures DepthIsTrue(input, ParseLoop(input).items, k)
  {
    hide ParseLoop, MarkerOf;
    var items := ParseLoop(input).items;
    if k > 0 {
      DepthFollows(input, k - 1);
      StepFollows(input, k);
      assert Below256(input, items, k);
    }
  }

  ghost predicate ArrayIsTrue(input: seq<byte>, items: seq<Item>, k: nat)
    requires k <= |items|
  {
    FrameAt(items, k).currentArray == Innermost(NestAt(input, items, k).arrays)
  }

  /** Closing an array or path set leaves no other one open. */
  ghost predicate ClosesOutermost(input: seq<byte>, items: seq<Item>, k: nat)
    requires k < |items|
  {
    MarkerOf(input, items[k]).CloseArray? ==> Innermost(Closed(NestAt(input, items, k).arrays)) == ARRAY_NONE
  }

  /** The array a row is filed under is the innermost open one, throughout the
      first `n` items, exactly if no array or path set is closed inside another. */
  lemma ArrayIsTrueUnnested(input: seq<byte>, n: nat)
    requires n <= |ParseLoop(input).items|
    ensures var items := ParseLoop(input).items;
      (forall k :: 0 <= k <= n ==> ArrayIsTrue(input, items, k))
          <==> (forall k :: 0 <= k < n ==> ClosesOutermost(input, items, k))
  {
    hide ParseLoop, FrameAt, NestAt, MarkerOf, Innermost;
    var items := ParseLoop(input).items;
    if forall k :: 0 <= k < n ==> ClosesOutermost(input, items, k) {
      forall k | 0 <= k <= n ensures ArrayIsTrue(input, items, k) {
        ArrayFollows(input, k);
      }
    } else {
      var k :| 0 <= k < n && !ClosesOutermost(input, items, k);
      ForgottenArray(input, k);
      assert !ArrayIsTrue(input, items, k + 1);
    }
  }

  lemma {:induction false} ArrayFollows(input: seq<byte>, k: nat)
    requires k <= |ParseLoop(input).items|
    requires forall i :: 0 <= i < k ==> ClosesOutermost(input, ParseLoop(input).items, i)
    ensures ArrayIsTrue(input, ParseLoop(input).items, k)
  {
    hide ParseLoop, MarkerOf;
    var items := ParseLoop(input).items;
    if k > 0 {
      ArrayFollows(input, k - 1);
      StepFollows(input, k);
      assert ClosesOutermost(input, items, k - 1);
    }
  }

  lemma ForgottenArray(input: seq<byte>, k: nat)
    requires k < |ParseLoop(input).items| && !ClosesOutermost(input, ParseLoop(input).items, k)
    ensures var items := ParseLoop(input).items;
      FrameAt(items, k + 1).currentArray == ARRAY_NONE != Innermost(NestAt(input, items, k + 1).arrays)
  {
    hide ParseLoop, MarkerOf;
    StepFollows(input, k + 1);
  }

  // ---------- Both conditions can fail ----------

  /** 32 arrays of eight objects each, none of them closed. */
  function Burst(i: nat): byte {
    if i % 9 == 0 then 0xF9 else 0xEA
  }

  function Bursts(): (input: seq<byte>)
    ensures |input| == 288
  {
    seq(288, i requires 0 <= i < 288 => Burst(i))
  }

  /** The registers behind `i` of those bytes. */
  function BurstFrame(i: nat): Frame {
    if i == 0 then INITIAL_FRAME
    else INITIAL_FRAME.(currentArray := 9, index1 := (i - 1) % 9, depth := (i - 1 - (i - 1) / 9) % 256)
  }

  function BurstItem(i: nat): Item {
    Item(i, i + 1, BurstFrame(i), BurstFrame(i + 1), [])
  }

  /** A one-byte marker of an array or object. */
  lemma MarkerStep(input: seq<byte>, offset: nat, frame: Frame)
    requires offset < |input| && input[offset] / 16 in {STI_OBJECT, STI_ARRAY} && input[offset] % 16 != 0
    requires frame.currentArray != ARRAY_PATHSET && (frame.index1 < MAX_ARRAY_LEN || input[offset] / 16 == STI_ARRAY)
    ensures var id := input[offset] % 16;
      ParseItem(input, offset, frame, 0)
      == Parsed(Item(offset, offset + 1, frame,
                     if input[offset] / 16
                         == STI_ARRAY then ArrayMarker(id, frame) else ObjectMarker(id, frame).value, []))
  {
    assert Header(input, offset) == Ok((input[offset] / 16, input[offset] % 16, offset + 1));
    hide Header;
  }

  lemma NineAgo(i: nat)
    requires i > 0
    ensures i % 9 == 0 ==> (i - 1) / 9 + 1 == i / 9 && (i - 1) % 9 == 8
    ensures i % 9 != 0 ==> (i - 1) / 9 == i / 9 && (i - 1) % 9 + 1 == i % 9
  {
  }

  lemma OneMoreByte(n: nat)
    ensures (n % 256 + 1) % 256 == (n + 1) % 256
  {
  }

  lemma BurstFrameNext(i: nat)
    ensures i % 9 == 0 ==> BurstFrame(i + 1) == ArrayMarker(9, BurstFrame(i))
    ensures i % 9 != 0 ==> BurstFrame(i).index1 < MAX_ARRAY_LEN
    ensures i % 9 != 0 ==> ObjectMarker(10, BurstFrame(i)) == Ok(BurstFrame(i + 1))
  {
    if i > 0 {
      NineAgo(i);
      OneMoreByte(i - 1 - (i - 1) / 9);
    }
  }

  lemma BurstStep(i: nat)
    requires i < 288
    ensures ParseItem(Bursts(), i, BurstFrame(i), 0) == Parsed(BurstItem(i))
  {
    assert Bursts()[i] == Burst(i);
    assert BurstFrame(i).currentArray != ARRAY_PATHSET;
    BurstFrameNext(i);
    hide Bursts, ParseItem, BurstFrame, ArrayMarker, ObjectMarker;
    MarkerStep(Bursts(), i, BurstFrame(i));
  }

  lemma {:induction false} BurstRun(i: nat)
    requires i <= 288
    ensures ParseItems(Bursts(), i, BurstFrame(i), 0)
         == Loop(seq(288 - i, j requires 0 <= j < 288 - i => BurstItem(i + j)), BurstFrame(288), AtEnd)
    decreases 288 - i
  {
    hide ParseItem, Bursts, ParseItems, BurstItem, BurstFrame;
    ParseItemsStep(Bursts(), i, BurstFrame(i), 0);
    if i < 288 {
      BurstStep(i);
      BurstRun(i + 1);
      assert BurstItem(i).after == BurstFrame(i + 1) && BurstItem(i).rows == [] && BurstItem(i).end == i + 1 by {
        BurstItemIs(i);
      }
    }
  }

  lemma BurstItemIs(i: nat)
    ensures BurstItem(i).after == BurstFrame(i + 1) && BurstItem(i).rows == [] && BurstItem(i).end == i + 1
    ensures BurstItem(i).start == i && BurstItem(i).before == BurstFrame(i)
  {
  }

  lemma BurstCount(k: nat)
    requires k > 0
    ensures k - (k + 8) / 9 == k - 1 - (k + 7) / 9 + if (k - 1) % 9 == 0 then 0 else 1
  {
  }

  lemma {:induction false} BurstNest(k: nat)
    requires k <= 288
    ensures |ParseLoop(Bursts()).items| == 288
    ensures NestAt(Bursts(), ParseLoop(Bursts()).items, k).objects == k - (k + 8) / 9
  {
    hide ParseItems, Bursts, MarkerOf, BurstItem;
    BurstRun(0);
    var items := ParseLoop(Bursts()).items;
    if k > 0 {
      BurstNest(k - 1);
      BurstMarker(k - 1);
      BurstCount(k);
      hide BurstFrame;
      assert items[k - 1] == BurstItem(k - 1);
    }
  }

  lemma BurstMarker(i: nat)
    requires i < 288
    ensures MarkerOf(Bursts(), BurstItem(i)) == if i % 9 == 0 then OpenArray(9) else OpenObject
  {
    assert Bursts()[i] == Burst(i);
  }

  /** With 256 objects open the counter is back at zero. */
  lemma DepthCanWrap()
    ensures var run := ParseLoop(Bursts());
      && run.stop == AtEnd && |run.items| == 288
      && NestAt(Bursts(), run.items, 288).objects == 256 && run.frame.depth == 0
  {
    hide ParseItems, Bursts, NestAt;
    BurstRun(0);
    BurstNest(288);
  }

  /** An array that holds another one is forgotten when the inner one is closed. */
  lemma ArrayCanBeForgotten()
    ensures var input: seq<byte> := [0xF9, 0xEA, 0xF3, 0xF1];
      var run := ParseLoop(input);
      && run.stop == AtEnd && |run.items| == 4
      && NestAt(input, run.items, 4).arrays == [9] && run.frame.currentArray == ARRAY_NONE
  {
    hide ParseItem, ParseItems, MarkerOf;
    var input: seq<byte> := [0xF9, 0xEA, 0xF3, 0xF1];
    var f1 := INITIAL_FRAME.(currentArray := 9);
    var f2 := f1.(index1 := 1, depth := 1);
    var f3 := f2.(currentArray := 3, index1 := 0);
    var f4 := f3.(currentArray := ARRAY_NONE);
    var items := [Item(0, 1, INITIAL_FRAME, f1, []), Item(1, 2, f1, f2, []), Item(2, 3, f2, f3, []), Item(3, 4, f3,
        f4, [])];
    MarkerStep(input, 0, INITIAL_FRAME);
    MarkerStep(input, 1, f1);
    MarkerStep(input, 2, f2);
    MarkerStep(input, 3, f3);
    ParseItemsStep(input, 0, INITIAL_FRAME, 0);
    ParseItemsStep(input, 1, f1, 0);
    ParseItemsStep(input, 2, f2, 0);
    ParseItemsStep(input, 3, f3, 0);
    ParseItemsStep(input, 4, f4, 0);
    assert ParseLoop(input) == Loop(items, f4, AtEnd);
    FourMarkers(input, items);
  }

  lemma FourMarkers(input: seq<byte>, items: seq<Item>)
    requires input == [0xF9, 0xEA, 0xF3, 0xF1] && |items| == 4
    requires forall i :: 0 <= i < 4 ==> items[i].start == i && items[i].before.currentArray != ARRAY_PATHSET
    ensures NestAt(input, items, 4).arrays == [9]
  {
    assert MarkerOf(input, items[0]) == OpenArray(9);
    assert MarkerOf(input, items[1]) == OpenObject;
    assert MarkerOf(input, items[2]) == OpenArray(3);
    assert MarkerOf(input, items[3]) == CloseArray;
    hide MarkerOf;
    assert NestAt(input, items, 1).arrays == [9];
    assert NestAt(input, items, 2).arrays == [9];
    assert NestAt(input, items, 3).arrays == [9, 3];
  }
}
