/** The parser undoes the serializer, whatever way the reading ends. */
module RoundTrip {
  import opened Fields
  import opened TransactionSpec
  import opened Serializer
  import opened LeafRoundTrip
  import Currency

  // ---------- Runs ----------

  /** From `offset` the loop gets to `end`, showing `views` on the way. */
  ghost predicate Reaches(input: seq<byte>, offset: nat, frame: Frame, used: nat, end: nat, frame': Frame,
                          views: seq<View>) {
    && offset <= end <= |input| && used + |views| <= MAX_FIELD_COUNT
    && exists done: seq<Item> ::
         && ViewsOf(input, RowsOf(done)) == views
         && ParseItems(input, offset, frame, used) == Resumed(done, ParseItems(input, end, frame', used + |views|))
  }

  lemma ReachesItself(input: seq<byte>, offset: nat, frame: Frame, used: nat)
    requires offset <= |input| && used <= MAX_FIELD_COUNT
    ensures Reaches(input, offset, frame, used, offset, frame, [])
  {
    hide ParseItems;
    var rest := ParseItems(input, offset, frame, used);
    var done: seq<Item> := [];
    assert done + rest.items == rest.items;
    assert rest == Resumed(done, rest);
    assert RowsOf(done) == [] && ViewsOf(input, []) == [];
  }

  lemma {:induction false} RowsOfBoth(left: seq<Item>, right: seq<Item>)
    ensures RowsOf(left + right) == RowsOf(left) + RowsOf(right)
  {
    if left == [] {
      assert left + right == right;
    } else {
      assert (left + right)[1..] == left[1..] + right;
      RowsOfBoth(left[1..], right);
    }
  }

  lemma ReachesOn(input: seq<byte>, offset: nat, frame: Frame, used: nat, middle: nat, frame': Frame, views: seq<View>,
                  end: nat, frame'': Frame, views': seq<View>)
    requires Reaches(input, offset, frame, used, middle, frame', views)
    requires Reaches(input, middle, frame', used + |views|, end, frame'', views')
    ensures Reaches(input, offset, frame, used, end, frame'', views + views')
  {
    hide ParseItems, RowsOf, ViewsOf;
    var done :| ViewsOf(input, RowsOf(done)) == views &&
      ParseItems(input, offset, frame, used) == Resumed(done, ParseItems(input, middle, frame', used + |views|));
    var more :| ViewsOf(input, RowsOf(more)) == views' &&
      ParseItems(input, middle, frame', used + |views|)
      == Resumed(more, ParseItems(input, end, frame'', used + |views| + |views'|));
    var rest := ParseItems(input, end, frame'', used + |views| + |views'|);
    RowsOfBoth(done, more);
    ViewsAppend(input, RowsOf(done), RowsOf(more));
    assert ViewsOf(input, RowsOf(done + more)) == views + views';
    assert done + (more + rest.items) == done + more + rest.items;
    assert Resumed(done, Resumed(more, rest)) == Resumed(done + more, rest);
  }

  lemma ItemReaches(input: seq<byte>, offset: nat, frame: Frame, used: nat)
    requires offset < |input| && used <= MAX_FIELD_COUNT && ParseItem(input, offset, frame, used).Parsed?
    ensures var item := ParseItem(input, offset, frame, used).item;
      Reaches(input, offset, frame, used, item.end, item.after, ViewsOf(input, item.rows))
  {
    hide ParseItem, ParseItems, ViewsOf;
    ParseItemsStep(input, offset, frame, used);
    var item := ParseItem(input, offset, frame, used).item;
    assert [item][1..] == [];
    assert item.rows + [] == item.rows;
    assert RowsOf([item]) == item.rows;
  }

  /** From `offset` the loop shows `views` and then ends as `ending` says. */
  ghost predicate Breaks(input: seq<byte>, offset: nat, frame: Frame, used: nat, ending: Ending, views: seq<View>,
                         tally: Tally) {
    && offset <= |input| && used <= MAX_FIELD_COUNT
    && var run := ParseItems(input, offset, frame, used);
       && ViewsOf(input, RowsOf(run.items)) == views
       && match ending
          case Finished => false
          case Over(error) => run.stop == StoppedBy(error)
          case Halted(view) =>
            && run.stop.StoppedBlind? && ViewOf(input, run.stop.row) == view
            && run.frame.txType == tally.txType && run.frame.emptyKey == tally.emptyKey
  }

  lemma BreaksOn(input: seq<byte>, offset: nat, frame: Frame, used: nat, middle: nat, frame': Frame, views: seq<View>,
                 ending: Ending, views': seq<View>, tally: Tally)
    requires Reaches(input, offset, frame, used, middle, frame', views)
    requires Breaks(input, middle, frame', used + |views|, ending, views', tally)
    ensures Breaks(input, offset, frame, used, ending, views + views', tally)
  {
    hide ParseItems, RowsOf, ViewsOf, ViewOf;
    var done :| ViewsOf(input, RowsOf(done)) == views &&
      ParseItems(input, offset, frame, used) == Resumed(done, ParseItems(input, middle, frame', used + |views|));
    var rest := ParseItems(input, middle, frame', used + |views|);
    RowsOfBoth(done, rest.items);
    ViewsAppend(input, RowsOf(done), RowsOf(rest.items));
  }

  lemma RefusedBreaks(input: seq<byte>, offset: nat, frame: Frame, used: nat, error: Error, tally: Tally)
    requires offset < |input| && used <= MAX_FIELD_COUNT && ParseItem(input, offset, frame, used) == Refused(error)
    ensures Breaks(input, offset, frame, used, Over(error), [], tally)
  {
    hide ParseItem, ParseItems;
    ParseItemsStep(input, offset, frame, used);
    assert RowsOf([]) == [] && ViewsOf(input, []) == [];
  }

  lemma BlindBreaks(input: seq<byte>, offset: nat, frame: Frame, used: nat, view: View, tally: Tally)
    requires offset < |input| && used <= MAX_FIELD_COUNT && ParseItem(input, offset, frame, used).BlindAt?
    requires ViewOf(input, ParseItem(input, offset, frame, used).row) == view
    requires frame.txType == tally.txType && frame.emptyKey == tally.emptyKey
    ensures Breaks(input, offset, frame, used, Halted(view), [], tally)
  {
    hide ParseItem, ParseItems, ViewOf;
    ParseItemsStep(input, offset, frame, used);
    assert RowsOf([]) == [] && ViewsOf(input, []) == [];
  }

  lemma FullTableBreaks(input: seq<byte>, offset: nat, frame: Frame, tally: Tally)
    requires offset < |input|
    ensures Breaks(input, offset, frame, MAX_FIELD_COUNT, Over(NotEnoughSpace), [], tally)
  {
    assert ParseItem(input, offset, frame, MAX_FIELD_COUNT) == Refused(NotEnoughSpace);
    hide ParseItem, Breaks;
    RefusedBreaks(input, offset, frame, MAX_FIELD_COUNT, NotEnoughSpace, tally);
  }

  /** The loop does from `offset` what `reading` says: it gets to `end`, or it ends. */
  ghost predicate Leads(input: seq<byte>, offset: nat, frame: Frame, used: nat, end: nat, frame': Frame,
                        reading: Reading) {
    if reading.ending.Finished? then Reaches(input, offset, frame, used, end, frame', reading.views)
    else Breaks(input, offset, frame, used, reading.ending, reading.views, reading.tally)
  }

  lemma LeadsOn(input: seq<byte>, offset: nat, frame: Frame, used: nat, middle: nat, frame': Frame, first: Reading,
                end: nat, frame'': Frame, next: Reading)
    requires Leads(input, offset, frame, used, middle, frame', first)
    requires first.ending.Finished? ==> Leads(input, middle, frame', used + |first.views|, end, frame'', next)
    ensures Leads(input, offset, frame, used, end, frame'', Then(first, next))
  {
    hide Reaches, Breaks;
    if first.ending.Finished? {
      if next.ending.Finished? {
        ReachesOn(input, offset, frame, used, middle, frame', first.views, end, frame'', next.views);
      } else {
        BreaksOn(input, offset, frame, used, middle, frame', first.views, next.ending, next.views, next.tally);
      }
    }
  }

  lemma LeadsFits(input: seq<byte>, offset: nat, frame: Frame, used: nat, end: nat, frame': Frame, reading: Reading)
    requires Leads(input, offset, frame, used, end, frame', reading) && reading.ending.Finished?
    ensures used + |reading.views| <= MAX_FIELD_COUNT
  {
  }

  // ---------- Fields ----------

  /** The registers inside array `kind` and `depth` objects, with `tally` counted. */
  ghost predicate Matches(frame: Frame, kind: nat, depth: nat, tally: Tally) {
    && frame.currentArray == kind && frame.depth == depth
    && frame.index1 == tally.objects && frame.txType == tally.txType && frame.emptyKey == tally.emptyKey
    && (kind != ARRAY_NONE ==> frame.index2 == 0)
  }

  /** Hiding and post-processing do not look through pointers. */
  lemma SameDecisions(input: seq<byte>, row: Field, frame: Frame)
    ensures IsHidden(row) == IsHidden(ViewOf(input, row).row)
    ensures (row.dataType == STI_UINT16 && row.id == UINT16_TRANSACTION_TYPE ==> ViewOf(input, row).row.data.U16?)
            ==> PostProcess(row, frame) == PostProcess(ViewOf(input, row).row, frame)
  {
  }

  /** From a value that reads as expected to the item it makes, or to the stop. */
  lemma ValueMakesItem(input: seq<byte>, offset: nat, frame: Frame, used: nat, end: nat, own: View, extra: seq<View>,
                       middle: Frame)
    requires used < MAX_FIELD_COUNT
    requires Reads(input, ParseValue(input, offset, frame, used + 1), end, own, extra, middle)
    requires own.row.dataType == STI_UINT16 && own.row.id == UINT16_TRANSACTION_TYPE ==> own.row.data.U16?
    ensures var result := ParseItem(input, offset, frame, used);
      match PostProcess(own.row, middle)
      case Rejected(error) => result == Refused(error)
      case Blind => result.BlindAt? && ViewOf(input, result.row) == own
      case Accepted(after) =>
        && result.Parsed? && result.item.end == end && result.item.after == after
        && ViewsOf(input, result.item.rows) == (if IsHidden(own.row) then [] else [own]) + extra
  {
    hide ParseValue, PostProcess;
    var value := ParseValue(input, offset, frame, used + 1).value;
    SameDecisions(input, value.row, middle);
    var shown := if IsHidden(value.row) then [] else [value.row];
    OneView(input, value.row);
    ViewsAppend(input, shown, value.extra);
    assert ViewsOf(input, []) == [];
    hide ViewsOf, ViewOf, IsHidden;
  }

  /** What post-processing decides on the value is what the reading says. */
  ghost predicate Decides(checked: Checked, own: View, extra: seq<View>, reading: Reading, kind: nat, depth: nat,
                          tally: Tally) {
    match checked
    case Rejected(error) => reading == Reading(Over(error), [], tally)
    case Blind => reading == Reading(Halted(own), [], tally)
    case Accepted(after) =>
      && reading.ending.Finished? && Matches(after, kind, depth, reading.tally)
      && reading.views == (if IsHidden(own.row) then [] else [own]) + extra
  }

  lemma LeafPostProcess(id: nat, leaf: Leaf, kind: nat, depth: nat, tally: Tally, frame: Frame)
    requires IsLeaf(leaf) && Matches(frame, kind, depth, tally)
    requires tally.rows + 1 + |ExtraViews(id, leaf, Place(kind, tally.objects, 0), depth)| <= MAX_FIELD_COUNT
    requires !leaf.AccountId? ==> !IsMalformed(leaf)
    ensures var own := OwnView(id, leaf, Place(kind, tally.objects, 0), depth);
      Decides(PostProcess(own.row, frame), own, ExtraViews(id, leaf, Place(kind, tally.objects, 0), depth),
              ReadLeaf(id, leaf, kind, depth, tally), kind, depth, tally)
  {
    LeftOutIsHidden(id, leaf, kind, tally.objects, depth);
    hide ExtraViews, IsHidden, IsLeftOut, Concat, Currency.IsValid, Currency.AllZeros;
  }

  /** The parser hides just what the review does without. */
  lemma LeftOutIsHidden(id: nat, leaf: Leaf, kind: nat, objects: nat, depth: nat)
    requires IsLeaf(leaf)
    ensures IsHidden(OwnView(id, leaf, Place(kind, objects, 0), depth).row) <==> IsLeftOut(id, leaf, kind)
  {
    hide Concat;
  }

  lemma LeafParsed(input: seq<byte>, offset: nat, id: byte, leaf: Leaf, kind: nat, depth: nat, tally: Tally,
                   frame: Frame)
    requires 1 <= id && IsLeaf(leaf) && At(input, offset, EncodeHeader(TypeOf(leaf), id) + LeafBytes(leaf))
    requires Matches(frame, kind, depth, tally) && kind != ARRAY_PATHSET
    requires !leaf.AccountId? ==> !IsMalformed(leaf)
    requires tally.rows + 1 + |ExtraViews(id, leaf, Place(kind, tally.objects, 0), depth)| <= MAX_FIELD_COUNT
    ensures Reads(input, ParseValue(input, offset, frame, tally.rows + 1),
                  offset + |EncodeHeader(TypeOf(leaf), id) + LeafBytes(leaf)|,
                  OwnView(id, leaf, Place(kind, tally.objects, 0), depth),
                  ExtraViews(id, leaf, Place(kind, tally.objects, 0), depth), frame)
  {
    hide FieldValue, OwnView, ExtraViews, EncodeHeader, LeafBytes, Reads, Header, At;
    var header := EncodeHeader(TypeOf(leaf), id);
    AtBoth(input, offset, header, LeafBytes(leaf));
    HeaderRoundTrip(input, offset, TypeOf(leaf), id);
    assert Slot(frame).arrayInfo == Place(kind, tally.objects, 0) && Slot(frame).depth == depth;
    LeafIsRead(input, offset + |header|, id, leaf, frame, tally.rows + 1);
    hide Slot, IsLeaf, Place, TypeOf;
  }

  lemma LeafNotParsed(input: seq<byte>, offset: nat, id: byte, leaf: Leaf, kind: nat, depth: nat, tally: Tally,
                      frame: Frame)
    requires 1 <= id && IsLeaf(leaf) && At(input, offset, EncodeHeader(TypeOf(leaf), id) + LeafBytes(leaf))
    requires Matches(frame, kind, depth, tally) && kind != ARRAY_PATHSET && tally.rows < MAX_FIELD_COUNT
    ensures !leaf.AccountId? && IsMalformed(leaf) ==>
      ParseValue(input, offset, frame, tally.rows + 1) == Err(Refusal(leaf))
    ensures !IsMalformed(leaf) && IsTooLong(id, leaf, Place(kind, tally.objects, 0), depth, tally.rows + 1) ==>
      ParseValue(input, offset, frame, tally.rows + 1) == Err(NotEnoughSpace)
  {
    hide FieldValue, ExtraViews, EncodeHeader, LeafBytes, Header, At, IsMalformed;
    var header := EncodeHeader(TypeOf(leaf), id);
    AtBoth(input, offset, header, LeafBytes(leaf));
    HeaderRoundTrip(input, offset, TypeOf(leaf), id);
    assert Slot(frame).arrayInfo == Place(kind, tally.objects, 0) && Slot(frame).depth == depth;
    LeafIsRefused(input, offset + |header|, id, leaf, frame, tally.rows + 1);
    hide Slot, IsLeaf, Place, TypeOf;
  }

  lemma OwnViewHasNumber(id: nat, leaf: Leaf, info: ArrayInfo, depth: nat)
    requires IsLeaf(leaf)
    ensures OwnView(id, leaf, info, depth).row.dataType == STI_UINT16 ==> OwnView(id, leaf, info, depth).row.data.U16?
  {
    hide Concat;
  }

  /** A value that is read, with whatever its post-processing decides. */
  lemma DecisionLeads(input: seq<byte>, offset: nat, frame: Frame, end: nat, own: View, extra: seq<View>, kind: nat,
                      depth: nat, tally: Tally, reading: Reading) returns (frame': Frame)
    requires tally.rows < MAX_FIELD_COUNT && Matches(frame, kind, depth, tally) && offset < |input|
    requires Reads(input, ParseValue(input, offset, frame, tally.rows + 1), end, own, extra, frame)
    requires own.row.dataType == STI_UINT16 && own.row.id == UINT16_TRANSACTION_TYPE ==> own.row.data.U16?
    requires Decides(PostProcess(own.row, frame), own, extra, reading, kind, depth, tally)
    ensures Leads(input, offset, frame, tally.rows, end, frame', reading)
    ensures reading.ending.Finished? ==> Matches(frame', kind, depth, reading.tally)
  {
    assert frame.txType == tally.txType && frame.emptyKey == tally.emptyKey;
    hide ParseValue, PostProcess, Reads, ParseItem, Matches, Reaches, Breaks, IsHidden, ViewsOf, ViewOf;
    ValueMakesItem(input, offset, frame, tally.rows, end, own, extra, frame);
    frame' := frame;
    match PostProcess(own.row, frame) {
      case Rejected(error) =>
        RefusedBreaks(input, offset, frame, tally.rows, error, tally);
      case Blind =>
        BlindBreaks(input, offset, frame, tally.rows, own, tally);
      case Accepted(after) =>
        ItemReaches(input, offset, frame, tally.rows);
        frame' := after;
    }
  }

  lemma ReadLeafLeads(input: seq<byte>, offset: nat, id: byte, leaf: Leaf, kind: nat, depth: nat, tally: Tally,
                      frame: Frame)
    returns (frame': Frame)
    requires 1 <= id && IsLeaf(leaf) && At(input, offset, EncodeHeader(TypeOf(leaf), id) + LeafBytes(leaf))
    requires Matches(frame, kind, depth, tally) && kind != ARRAY_PATHSET
    requires !leaf.AccountId? ==> !IsMalformed(leaf)
    requires tally.rows + 1 + |ExtraViews(id, leaf, Place(kind, tally.objects, 0), depth)| <= MAX_FIELD_COUNT
    ensures var reading := ReadLeaf(id, leaf, kind, depth, tally);
      && Leads(input, offset, frame, tally.rows,
               offset + |EncodeHeader(TypeOf(leaf), id) + LeafBytes(leaf)|, frame', reading)
      && (reading.ending.Finished? ==> Matches(frame', kind, depth, reading.tally))
  {
    hide ParseValue, OwnView, ExtraViews, PostProcess, LeafBytes, Reads, Matches, Leads, IsHidden, EncodeHeader, At,
         TypeOf, Place, IsMalformed, ReadLeaf, Decides;
    LeafParsed(input, offset, id, leaf, kind, depth, tally, frame);
    LeafPostProcess(id, leaf, kind, depth, tally, frame);
    var own := OwnView(id, leaf, Place(kind, tally.objects, 0), depth);
    var extra := ExtraViews(id, leaf, Place(kind, tally.objects, 0), depth);
    OwnViewHasNumber(id, leaf, Place(kind, tally.objects, 0), depth);
    var bytes := EncodeHeader(TypeOf(leaf), id) + LeafBytes(leaf);
    AtIsInside(input, offset, bytes);
    frame' := DecisionLeads(input, offset, frame, offset + |bytes|, own, extra, kind, depth, tally,
                            ReadLeaf(id, leaf, kind, depth, tally));
  }

  lemma RefusedLeaf(id: nat, leaf: Leaf, kind: nat, depth: nat, tally: Tally)
    requires IsLeaf(leaf)
    ensures var extra, reading := ExtraViews(id, leaf, Place(kind, tally.objects, 0), depth),
                                  ReadLeaf(id, leaf, kind, depth, tally);
      && (tally.rows >= MAX_FIELD_COUNT ==> reading == Reading(Over(NotEnoughSpace), [], tally))
      && (tally.rows < MAX_FIELD_COUNT && IsMalformed(leaf) ==>
          reading == Reading(Over(Refusal(leaf)), [], tally))
      && (tally.rows < MAX_FIELD_COUNT && !IsMalformed(leaf) && tally.rows + 1 + |extra| > MAX_FIELD_COUNT ==>
          reading == Reading(Over(NotEnoughSpace), [], tally))
      && (leaf.AccountId? ==> extra == [])
  {
    hide OwnView;
  }

  lemma LeafLeads(input: seq<byte>, offset: nat, id: byte, leaf: Leaf, kind: nat, depth: nat, tally: Tally,
                  frame: Frame)
    returns (frame': Frame)
    requires 1 <= id && IsLeaf(leaf) && At(input, offset, EncodeHeader(TypeOf(leaf), id) + LeafBytes(leaf))
    requires Matches(frame, kind, depth, tally) && kind != ARRAY_PATHSET && tally.rows <= MAX_FIELD_COUNT
    ensures var reading := ReadLeaf(id, leaf, kind, depth, tally);
      && Leads(input, offset, frame, tally.rows,
               offset + |EncodeHeader(TypeOf(leaf), id) + LeafBytes(leaf)|, frame', reading)
      && (reading.ending.Finished? ==> Matches(frame', kind, depth, reading.tally))
  {
    hide ExtraViews, LeafBytes, Matches, Reaches, Breaks, EncodeHeader, At, TypeOf, Place, ParseValue, ReadLeaf;
    frame' := frame;
    AtIsInside(input, offset, EncodeHeader(TypeOf(leaf), id) + LeafBytes(leaf));
    RefusedLeaf(id, leaf, kind, depth, tally);
    var extra := ExtraViews(id, leaf, Place(kind, tally.objects, 0), depth);
    if tally.rows == MAX_FIELD_COUNT {
      FullTableBreaks(input, offset, frame, tally);
    } else if !leaf.AccountId? && IsMalformed(leaf) {
      LeafNotParsed(input, offset, id, leaf, kind, depth, tally, frame);
      assert ParseItem(input, offset, frame, tally.rows) == Refused(Refusal(leaf));
      RefusedBreaks(input, offset, frame, tally.rows, Refusal(leaf), tally);
    } else if !IsMalformed(leaf) && tally.rows + 1 + |extra| > MAX_FIELD_COUNT {
      LeafNotParsed(input, offset, id, leaf, kind, depth, tally, frame);
      assert ParseItem(input, offset, frame, tally.rows) == Refused(NotEnoughSpace);
      RefusedBreaks(input, offset, frame, tally.rows, NotEnoughSpace, tally);
    } else {
      frame' := ReadLeafLeads(input, offset, id, leaf, kind, depth, tally, frame);
    }
  }

  // ---------- Markers ----------

  /** What a marker makes of the registers, if it is within the limits. */
  ghost predicate MarkerMoves(dataType: nat, id: nat, frame: Frame, frame': Frame) {
    || (dataType == STI_ARRAY && frame' == ArrayMarker(id, frame))
    || (dataType == STI_OBJECT && ObjectMarker(id, frame) == Ok(frame'))
    || (dataType == STI_PATHSET && frame' == frame.(currentArray := ARRAY_PATHSET, index1 := 1, index2 := 1))
  }

  lemma MarkerIsRead(input: seq<byte>, offset: nat, row: Field, frame: Frame, used: nat, frame': Frame)
    requires used <= MAX_FIELD_COUNT && MarkerMoves(row.dataType, row.id, frame, frame')
    ensures FieldValue(input, offset, row, frame, used) == Ok(Value(offset, row, [], frame'))
    ensures IsHidden(row) && PostProcess(row, frame') == Accepted(frame')
  {
    hide ArrayMarker, ObjectMarker;
  }

  lemma MarkerReached(input: seq<byte>, offset: nat, dataType: byte, id: byte, frame: Frame, used: nat, frame': Frame)
    requires 1 <= dataType && 1 <= id && used < MAX_FIELD_COUNT && frame.currentArray != ARRAY_PATHSET
    requires At(input, offset, EncodeHeader(dataType, id)) && MarkerMoves(dataType, id, frame, frame')
    ensures Reaches(input, offset, frame, used, offset + |EncodeHeader(dataType, id)|, frame', [])
  {
    hide MarkerMoves, FieldValue, Header, At, EncodeHeader, IsHidden, PostProcess, ParseItems, Reaches, Slot;
    HeaderRoundTrip(input, offset, dataType, id);
    var start := offset + |EncodeHeader(dataType, id)|;
    MarkerIsRead(input, start, HeaderRow(frame, dataType, id), frame, used + 1, frame');
    var none: seq<Field> := [];
    assert none + none == none;
    assert ParseItem(input, offset, frame, used) == Parsed(Item(offset, start, frame, frame', []));
    AtIsInside(input, offset, EncodeHeader(dataType, id));
    hide ParseItem;
    ItemReaches(input, offset, frame, used);
    assert ViewsOf(input, []) == [];
  }

  lemma ObjectIsRefused(input: seq<byte>, offset: nat, id: byte, frame: Frame, used: nat)
    requires 1 <= id && used < MAX_FIELD_COUNT && frame.currentArray != ARRAY_PATHSET
    requires At(input, offset, EncodeHeader(STI_OBJECT, id)) && ObjectMarker(id, frame) == Err(NotSupported)
    ensures ParseItem(input, offset, frame, used) == Refused(NotSupported)
  {
    hide Header, At, EncodeHeader, IsHidden, PostProcess, Slot, ObjectMarker;
    HeaderRoundTrip(input, offset, STI_OBJECT, id);
  }

  /** A marker does what its reading says: it is within the limits and moves the
      registers, or it is one object too many, or the table is full. */
  lemma MarkLeads(input: seq<byte>, offset: nat, dataType: byte, id: byte, frame: Frame, frame': Frame, tally: Tally,
                  allowed: bool, after: Tally)
    requires 1 <= dataType && 1 <= id && tally.rows <= MAX_FIELD_COUNT && frame.currentArray != ARRAY_PATHSET
    requires after.rows == tally.rows && At(input, offset, EncodeHeader(dataType, id))
    requires if allowed then MarkerMoves(dataType, id, frame, frame')
             else dataType == STI_OBJECT && ObjectMarker(id, frame) == Err(NotSupported)
    ensures Leads(input, offset, frame, tally.rows, offset + |EncodeHeader(dataType, id)|, frame',
                  ReadMark(tally, allowed, NotSupported, after))
  {
    hide Reaches, Breaks, MarkerMoves, At, EncodeHeader, ParseItem;
    AtIsInside(input, offset, EncodeHeader(dataType, id));
    if tally.rows == MAX_FIELD_COUNT {
      FullTableBreaks(input, offset, frame, tally);
    } else if allowed {
      MarkerReached(input, offset, dataType, id, frame, tally.rows, frame');
    } else {
      ObjectIsRefused(input, offset, id, frame, tally.rows);
      RefusedBreaks(input, offset, frame, tally.rows, NotSupported, tally);
    }
  }

  // ---------- Paths ----------

  /** The registers before step `j` of path `index1`. */
  ghost predicate OnPath(frame: Frame, index1: nat, j: nat, depth: nat) {
    frame.currentArray == ARRAY_PATHSET && frame.index1 == index1 && frame.index2 == j && frame.depth == depth
  }

  function StepRow(frame: Frame, offset: nat, dataType: nat, id: nat): Field {
    Slot(frame).(dataType := dataType, id := id, data := Ptr(offset), length := 20)
  }

  function StepRows(frame: Frame, offset: nat, step: Step): seq<Field> {
    match step
    case ThroughAccount(_) => [StepRow(frame, offset + 1, STI_ACCOUNT, ACCOUNT_ACCOUNT)]
    case IntoCurrency(_) => [StepRow(frame, offset + 1, STI_CURRENCY, CURRENCY_CURRENCY)]
    case OfIssuer(_) => [StepRow(frame, offset + 1, STI_ACCOUNT, ACCOUNT_ISSUER)]
    case IntoToken(_, _) => [StepRow(frame, offset + 1, STI_CURRENCY, CURRENCY_CURRENCY)]
                            + [StepRow(frame, offset + 21, STI_ACCOUNT, ACCOUNT_ISSUER)]
  }

  /** What the parser makes of a step, in terms of where its bytes lie. */
  lemma StepItem(input: seq<byte>, offset: nat, step: Step, frame: Frame, used: nat)
    requires IsStep(step) && At(input, offset, StepBytes(step))
    requires frame.currentArray == ARRAY_PATHSET && 1 <= frame.index2 <= MAX_STEP_COUNT
    requires used + (if step.IntoToken? then 2 else 1) <= MAX_FIELD_COUNT
    ensures ParseItem(input, offset, frame, used) == Parsed(Item(
      offset, offset + |StepBytes(step)|, frame, frame.(index2 := frame.index2 + 1),
      StepRows(frame, offset, step)))
  {
    ByteIs(input, offset, StepBytes(step), 0);
    AtIsInside(input, offset, StepBytes(step));
    hide At;
  }

  lemma StepRowView(input: seq<byte>, offset: nat, frame: Frame, dataType: nat, id: nat, bytes: seq<byte>)
    requires At(input, offset, bytes) && |bytes| == 20 && frame.currentArray == ARRAY_PATHSET
    ensures ViewsOf(input, [StepRow(frame, offset, dataType, id)])
         == [Raw(dataType, id, ArrayInfo(ARRAY_PATHSET, frame.index1, frame.index2), frame.depth, bytes)]
  {
    PointerView(input, StepRow(frame, offset, dataType, id), offset, bytes);
  }

  lemma StepIsShown(input: seq<byte>, offset: nat, step: Step, frame: Frame, index1: nat, j: nat, depth: nat)
    requires IsStep(step) && At(input, offset, StepBytes(step)) && OnPath(frame, index1, j, depth)
    ensures ViewsOf(input, StepRows(frame, offset, step)) == StepViews(step, ArrayInfo(ARRAY_PATHSET, index1, j), depth)
  {
    hide ViewsOf, StepRow, At, Raw;
    match step
    case ThroughAccount(account) =>
      AtBoth(input, offset, [0x01], account);
      StepRowView(input, offset + 1, frame, STI_ACCOUNT, ACCOUNT_ACCOUNT, account);
    case IntoCurrency(currency) =>
      AtBoth(input, offset, [0x10], currency);
      StepRowView(input, offset + 1, frame, STI_CURRENCY, CURRENCY_CURRENCY, currency);
    case OfIssuer(issuer) =>
      AtBoth(input, offset, [0x20], issuer);
      StepRowView(input, offset + 1, frame, STI_ACCOUNT, ACCOUNT_ISSUER, issuer);
    case IntoToken(currency, issuer) =>
      AtBoth(input, offset, [0x30], currency + issuer);
      AtBoth(input, offset + 1, currency, issuer);
      StepRowView(input, offset + 1, frame, STI_CURRENCY, CURRENCY_CURRENCY, currency);
      StepRowView(input, offset + 21, frame, STI_ACCOUNT, ACCOUNT_ISSUER, issuer);
      ViewsAppend(input, [StepRow(frame, offset + 1, STI_CURRENCY, CURRENCY_CURRENCY)],
                  [StepRow(frame, offset + 21, STI_ACCOUNT, ACCOUNT_ISSUER)]);
  }

  lemma StepReached(input: seq<byte>, offset: nat, step: Step, frame: Frame, used: nat, index1: nat, j: nat, depth: nat)
    requires IsStep(step) && At(input, offset, StepBytes(step)) && OnPath(frame, index1, j, depth)
    requires 1 <= j <= MAX_STEP_COUNT
    requires used + |StepViews(step, ArrayInfo(ARRAY_PATHSET, index1, j), depth)| <= MAX_FIELD_COUNT
    ensures Reaches(input, offset, frame, used, offset + |StepBytes(step)|, frame.(index2 := j + 1),
                    StepViews(step, ArrayInfo(ARRAY_PATHSET, index1, j), depth))
  {
    hide ParseItem, Reaches, ViewsOf, StepRows, At, IsStep;
    StepIsShown(input, offset, step, frame, index1, j, depth);
    StepItem(input, offset, step, frame, used);
    AtIsInside(input, offset, StepBytes(step));
    hide StepViews;
    ItemReaches(input, offset, frame, used);
  }

  lemma StepIsRefused(input: seq<byte>, offset: nat, step: Step, frame: Frame, used: nat)
    requires IsStep(step) && At(input, offset, StepBytes(step))
    requires frame.currentArray == ARRAY_PATHSET && used < MAX_FIELD_COUNT
    ensures frame.index2 > MAX_STEP_COUNT ==> ParseItem(input, offset, frame, used) == Refused(InvalidState)
    ensures frame.index2 <= MAX_STEP_COUNT && step.IntoToken? && used + 1 == MAX_FIELD_COUNT ==>
      ParseItem(input, offset, frame, used) == Refused(NotEnoughSpace)
  {
    ByteIs(input, offset, StepBytes(step), 0);
    AtIsInside(input, offset, StepBytes(step));
    hide At;
  }

  lemma StepLeads(input: seq<byte>, offset: nat, step: Step, frame: Frame, index1: nat, j: nat, depth: nat,
                  tally: Tally)
    requires IsStep(step) && At(input, offset, StepBytes(step)) && OnPath(frame, index1, j, depth) && 1 <= j
    requires tally.rows <= MAX_FIELD_COUNT
    ensures Leads(input, offset, frame, tally.rows, offset + |StepBytes(step)|, frame.(index2 := j + 1),
                  ReadStep(step, index1, j, depth, tally))
  {
    hide Reaches, Breaks, At, IsStep, ParseItem;
    AtIsInside(input, offset, StepBytes(step));
    if tally.rows == MAX_FIELD_COUNT {
      FullTableBreaks(input, offset, frame, tally);
    } else if j > MAX_STEP_COUNT {
      StepIsRefused(input, offset, step, frame, tally.rows);
      RefusedBreaks(input, offset, frame, tally.rows, InvalidState, tally);
    } else if tally.rows + |StepViews(step, ArrayInfo(ARRAY_PATHSET, index1, j), depth)| > MAX_FIELD_COUNT {
      StepIsRefused(input, offset, step, frame, tally.rows);
      RefusedBreaks(input, offset, frame, tally.rows, NotEnoughSpace, tally);
    } else {
      hide StepBytes;
      StepReached(input, offset, step, frame, tally.rows, index1, j, depth);
    }
  }

  lemma {:induction false} PathLeads(input: seq<byte>, offset: nat, path: seq<Step>, frame: Frame,
                                     index1: nat, j: nat, depth: nat, tally: Tally)
    requires forall i :: 0 <= i < |path| ==> IsStep(path[i])
    requires At(input, offset, PathBytes(path)) && OnPath(frame, index1, j, depth) && 1 <= j
    requires tally.rows <= MAX_FIELD_COUNT
    ensures Leads(input, offset, frame, tally.rows, offset + |PathBytes(path)|, frame.(index2 := j + |path|),
                  ReadPath(path, index1, j, depth, tally))
    decreases path
  {
    hide At, Leads, IsStep, StepBytes, ReadStep;
    if path == [] {
      AtIsInside(input, offset, PathBytes(path));
      ReachesItself(input, offset, frame, tally.rows);
      assert frame == frame.(index2 := j);
      NothingLeads(input, offset, frame, tally);
    } else {
      var first := ReadStep(path[0], index1, j, depth, tally);
      AtBoth(input, offset, StepBytes(path[0]), PathBytes(path[1..]));
      StepLeads(input, offset, path[0], frame, index1, j, depth, tally);
      var middle, next := offset + |StepBytes(path[0])|, frame.(index2 := j + 1);
      if first.ending.Finished? {
        LeadsFits(input, offset, frame, tally.rows, middle, next, first);
        PathLeads(input, middle, path[1..], next, index1, j + 1, depth, first.tally);
      }
      LeadsOn(input, offset, frame, tally.rows, middle, next, first,
              offset + |PathBytes(path)|, frame.(index2 := j + |path|),
              ReadPath(path[1..], index1, j + 1, depth, first.tally));
    }
  }

  lemma NothingLeads(input: seq<byte>, offset: nat, frame: Frame, tally: Tally)
    requires offset <= |input| && tally.rows <= MAX_FIELD_COUNT
    ensures Leads(input, offset, frame, tally.rows, offset, frame, Reading(Finished, [], tally))
  {
    hide Reaches;
    ReachesItself(input, offset, frame, tally.rows);
  }

  function NextPath(offset: nat, frame: Frame): ItemResult {
    if frame.index1 >= MAX_PATH_COUNT then Refused(InvalidState)
    else Parsed(Item(offset, offset + 1, frame, frame.(index1 := frame.index1 + 1, index2 := 1), []))
  }

  function NoPath(offset: nat, frame: Frame): ItemResult {
    Parsed(Item(offset, offset + 1, frame, frame.(currentArray := ARRAY_NONE), []))
  }

  lemma SeparatorItem(input: seq<byte>, offset: nat, frame: Frame, used: nat)
    requires used < MAX_FIELD_COUNT && frame.currentArray == ARRAY_PATHSET && offset < |input|
    requires frame.index1 <= MAX_PATH_COUNT
    ensures input[offset] == PATHSET_NEXT ==> ParseItem(input, offset, frame, used) == NextPath(offset, frame)
    ensures input[offset] == PATHSET_END ==> ParseItem(input, offset, frame, used) == NoPath(offset, frame)
  {
    var none: seq<Field> := [];
    assert none + none == none;
  }

  /** The mark behind a path: another path, if that is not one too many, or the end. */
  lemma PathMarkLeads(input: seq<byte>, offset: nat, mark: byte, frame: Frame, tally: Tally, after: Tally)
    requires At(input, offset, [mark]) && (mark == PATHSET_END || mark == PATHSET_NEXT)
    requires frame.currentArray == ARRAY_PATHSET && frame.index1 <= MAX_PATH_COUNT
    requires tally.rows <= MAX_FIELD_COUNT && after.rows == tally.rows
    ensures Leads(input, offset, frame, tally.rows, offset + 1,
                  if mark == PATHSET_END then frame.(currentArray := ARRAY_NONE)
                  else frame.(index1 := frame.index1 + 1, index2 := 1),
                  ReadMark(tally, mark == PATHSET_END || frame.index1 < MAX_PATH_COUNT, InvalidState, after))
  {
    hide Reaches, Breaks, ParseItem;
    ByteIs(input, offset, [mark], 0);
    AtIsInside(input, offset, [mark]);
    if tally.rows == MAX_FIELD_COUNT {
      FullTableBreaks(input, offset, frame, tally);
    } else {
      SeparatorItem(input, offset, frame, tally.rows);
      assert ViewsOf(input, []) == [];
      if mark == PATHSET_END || frame.index1 < MAX_PATH_COUNT {
        ItemReaches(input, offset, frame, tally.rows);
      } else {
        RefusedBreaks(input, offset, frame, tally.rows, InvalidState, tally);
      }
    }
  }

  /** A path and the mark behind it. */
  lemma MarkedPathLeads(input: seq<byte>, offset: nat, path: seq<Step>, mark: byte, frame: Frame,
                        index1: nat, depth: nat, tally: Tally, after: Tally)
    requires forall i :: 0 <= i < |path| ==> IsStep(path[i])
    requires At(input, offset, PathBytes(path)) && At(input, offset + |PathBytes(path)|, [mark])
    requires mark == PATHSET_END || mark == PATHSET_NEXT
    requires tally.rows <= MAX_FIELD_COUNT && OnPath(frame, index1, 1, depth) && index1 <= MAX_PATH_COUNT
    requires after.rows == ReadPath(path, index1, 1, depth, tally).tally.rows
    ensures var first := ReadPath(path, index1, 1, depth, tally);
      Leads(input, offset, frame, tally.rows, offset + |PathBytes(path)| + 1,
            if mark == PATHSET_END then frame.(currentArray := ARRAY_NONE, index2 := 1 + |path|)
            else frame.(index1 := index1 + 1, index2 := 1),
            Then(first, ReadMark(first.tally, mark == PATHSET_END || index1 < MAX_PATH_COUNT, InvalidState, after)))
  {
    hide At, Leads, IsStep, PathBytes, ReadPath, ReadMark, Then;
    PathLeads(input, offset, path, frame, index1, 1, depth, tally);
    var first := ReadPath(path, index1, 1, depth, tally);
    var end, behind := offset + |PathBytes(path)|, frame.(index2 := 1 + |path|);
    if first.ending.Finished? {
      LeadsFits(input, offset, frame, tally.rows, end, behind, first);
      PathMarkLeads(input, end, mark, behind, first.tally, after);
    }
    LeadsOn(input, offset, frame, tally.rows, end, behind, first, end + 1,
            if mark == PATHSET_END then behind.(currentArray := ARRAY_NONE)
            else behind.(index1 := index1 + 1, index2 := 1),
            ReadMark(first.tally, mark == PATHSET_END || index1 < MAX_PATH_COUNT, InvalidState, after));
  }

  lemma ThenThen(first: Reading, second: Reading, third: Reading)
    ensures Then(Then(first, second), third) == Then(first, Then(second, third))
  {
    assert first.views + second.views + third.views == first.views + (second.views + third.views);
  }

  /** The bytes and the reading of a path set whose first path is followed by others. */
  lemma MorePaths(paths: seq<seq<Step>>, index1: nat, depth: nat, tally: Tally)
    requires |paths| > 1
    ensures PathSetBytes(paths) == PathBytes(paths[0]) + ([PATHSET_NEXT] + PathSetBytes(paths[1..]))
    ensures var first := ReadPath(paths[0], index1, 1, depth, tally);
      var mark := ReadMark(first.tally, index1 < MAX_PATH_COUNT, InvalidState, first.tally);
      var rest := ReadPaths(paths[1..], index1 + 1, depth, mark.tally);
      && ReadPaths(paths, index1, depth, tally) == Then(Then(first, mark), rest)
      && (Then(first, mark).ending.Finished? ==>
          index1 < MAX_PATH_COUNT && mark.tally == first.tally == Then(first, mark).tally)
  {
    hide ReadPath, PathBytes;
    var first := ReadPath(paths[0], index1, 1, depth, tally);
    var mark := ReadMark(first.tally, index1 < MAX_PATH_COUNT, InvalidState, first.tally);
    ThenThen(first, mark, ReadPaths(paths[1..], index1 + 1, depth, mark.tally));
  }

  lemma LastPath(paths: seq<seq<Step>>, index1: nat, depth: nat, tally: Tally)
    requires |paths| == 1
    ensures PathSetBytes(paths) == PathBytes(paths[0]) + [PATHSET_END]
    ensures var first := ReadPath(paths[0], index1, 1, depth, tally);
      ReadPaths(paths, index1, depth, tally)
      == Then(first, ReadMark(first.tally, true, InvalidState, first.tally.(objects := index1)))
  {
    hide ReadPath, PathBytes;
  }

  /** The registers behind a path set. */
  ghost predicate BehindPaths(frame: Frame, depth: nat, before: Frame, tally: Tally) {
    && frame == Frame(ARRAY_NONE, tally.objects, frame.index2, depth, before.txType, before.emptyKey)
  }

  lemma {:induction false} PathsLead(input: seq<byte>, offset: nat, paths: seq<seq<Step>>, frame: Frame,
                                     index1: nat, depth: nat, tally: Tally) returns (frame': Frame)
    requires paths != [] && forall i, k :: 0 <= i < |paths| && 0 <= k < |paths[i]| ==> IsStep(paths[i][k])
    requires At(input, offset, PathSetBytes(paths)) && OnPath(frame, index1, 1, depth) && index1 <= MAX_PATH_COUNT
    requires tally.rows <= MAX_FIELD_COUNT
    ensures var reading := ReadPaths(paths, index1, depth, tally);
      && Leads(input, offset, frame, tally.rows, offset + |PathSetBytes(paths)|, frame', reading)
      && (reading.ending.Finished? ==> BehindPaths(frame', depth, frame, reading.tally))
    decreases paths
  {
    hide At, Leads, IsStep, PathBytes, ReadPath, PathSetBytes, ReadPaths;
    var first := ReadPath(paths[0], index1, 1, depth, tally);
    var end := offset + |PathBytes(paths[0])|;
    frame' := frame;
    if |paths| == 1 {
      LastPath(paths, index1, depth, tally);
      AtBoth(input, offset, PathBytes(paths[0]), [PATHSET_END]);
      MarkedPathLeads(input, offset, paths[0], PATHSET_END, frame, index1, depth, tally,
                      first.tally.(objects := index1));
      frame' := frame.(currentArray := ARRAY_NONE, index2 := 1 + |paths[0]|);
    } else {
      MorePaths(paths, index1, depth, tally);
      var rest := PathSetBytes(paths[1..]);
      AtBoth(input, offset, PathBytes(paths[0]), [PATHSET_NEXT] + rest);
      AtBoth(input, end, [PATHSET_NEXT], rest);
      MarkedPathLeads(input, offset, paths[0], PATHSET_NEXT, frame, index1, depth, tally, first.tally);
      var next := frame.(index1 := index1 + 1, index2 := 1);
      var mark := ReadMark(first.tally, index1 < MAX_PATH_COUNT, InvalidState, first.tally);
      var marked := Then(first, mark);
      var others := ReadPaths(paths[1..], index1 + 1, depth, mark.tally);
      assert marked.ending.Finished? ==> marked.tally.rows == tally.rows + |marked.views|;
      assert Then(marked, others).ending.Finished? ==>
        marked.ending.Finished? && others.ending.Finished? && Then(marked, others).tally == others.tally;
      hide Then, ReadMark;
      if marked.ending.Finished? {
        LeadsFits(input, offset, frame, tally.rows, end + 1, next, marked);
        frame' := PathsLead(input, end + 1, paths[1..], next, index1 + 1, depth, mark.tally);
      }
      LeadsOn(input, offset, frame, tally.rows, end + 1, next, marked, end + 1 + |rest|, frame', others);
    }
  }

  lemma {:induction false} PathKeepsTally(path: seq<Step>, index1: nat, j: nat, depth: nat, tally: Tally)
    ensures var after := ReadPath(path, index1, j, depth, tally).tally;
      after == tally.(rows := after.rows)
    decreases path
  {
    if path != [] {
      PathKeepsTally(path[1..], index1, j + 1, depth, ReadStep(path[0], index1, j, depth, tally).tally);
    }
  }

  lemma {:induction false} PathsKeepTally(paths: seq<seq<Step>>, index1: nat, depth: nat, tally: Tally)
    requires paths != []
    ensures var after := ReadPaths(paths, index1, depth, tally).tally;
      after == tally.(rows := after.rows, objects := after.objects)
    decreases paths
  {
    hide ReadPath;
    PathKeepsTally(paths[0], index1, 1, depth, tally);
    if |paths| > 1 {
      var first := ReadPath(paths[0], index1, 1, depth, tally);
      var mark := ReadMark(first.tally, index1 < MAX_PATH_COUNT, InvalidState, first.tally);
      PathsKeepTally(paths[1..], index1 + 1, depth, mark.tally);
    }
  }

  // ---------- Trees ----------

  lemma LeafNodeLeads(input: seq<byte>, offset: nat, node: Node, kind: nat, depth: nat, tally: Tally, frame: Frame)
    returns (frame': Frame)
    requires node.Single? && IsNode(node) && At(input, offset, EncodeNode(node)) && Matches(frame, kind, depth, tally)
    requires kind != ARRAY_PATHSET && tally.rows <= MAX_FIELD_COUNT
    ensures var reading := ReadNode(node, kind, depth, tally);
      && Leads(input, offset, frame, tally.rows, offset + |EncodeNode(node)|, frame', reading)
      && (reading.ending.Finished? ==> Matches(frame', kind, depth, reading.tally))
  {
    hide At, Leads, Matches, ReadLeaf, LeafBytes, EncodeHeader, IsLeaf, TypeOf;
    frame' := LeafLeads(input, offset, node.id, node.leaf, kind, depth, tally, frame);
  }

  lemma PathSetLeads(input: seq<byte>, offset: nat, node: Node, kind: nat, depth: nat, tally: Tally, frame: Frame)
    returns (frame': Frame)
    requires node.PathSet? && IsNode(node) && At(input, offset, EncodeNode(node)) && Matches(frame, kind, depth, tally)
    requires kind != ARRAY_PATHSET && tally.rows <= MAX_FIELD_COUNT
    ensures var reading := ReadNode(node, kind, depth, tally);
      && Leads(input, offset, frame, tally.rows, offset + |EncodeNode(node)|, frame', reading)
      && (reading.ending.Finished? ==>
          Matches(frame', KindAfter(node, kind), DepthAfter(node, depth), reading.tally))
  {
    hide At, Leads, EncodeHeader, PathSetBytes, ReadPaths, IsStep;
    var header := EncodeHeader(STI_PATHSET, node.id);
    AtBoth(input, offset, header, PathSetBytes(node.paths));
    var start := frame.(currentArray := ARRAY_PATHSET, index1 := 1, index2 := 1);
    MarkLeads(input, offset, STI_PATHSET, node.id, frame, start, tally, true, tally);
    var head := ReadMark(tally, true, NotSupported, tally);
    var reading := ReadPaths(node.paths, 1, depth, head.tally);
    frame' := frame;
    if head.ending.Finished? {
      frame' := PathsLead(input, offset + |header|, node.paths, start, 1, depth, head.tally);
      PathsKeepTally(node.paths, 1, depth, head.tally);
    }
    LeadsOn(input, offset, frame, tally.rows, offset + |header|, start, head,
            offset + |EncodeNode(node)|, frame', reading);
  }

  /** A bracket around members: an opening marker, what is inside, a closing marker. */
  lemma BracketLeads(input: seq<byte>, offset: nat, head: seq<byte>, inside: seq<byte>, tail: seq<byte>,
                     frame: Frame, within: Frame, inner: Frame, closed: Frame, used: nat,
                     first: Reading, second: Reading, third: Reading)
    requires Leads(input, offset, frame, used, offset + |head|, within, first) && first.views == []
    requires first.ending.Finished? ==>
      Leads(input, offset + |head|, within, used, offset + |head| + |inside|, inner, second)
    requires first.ending.Finished? && second.ending.Finished? ==>
      Leads(input, offset + |head| + |inside|, inner, used + |second.views|,
            offset + |head| + |inside| + |tail|, closed, third)
    ensures Leads(input, offset, frame, used, offset + |head + (inside + tail)|, closed,
                  Then(first, Then(second, third)))
  {
    hide Leads;
    var a, b := offset + |head|, offset + |head| + |inside|;
    if first.ending.Finished? {
      LeadsOn(input, a, within, used, b, inner, second, b + |tail|, closed, third);
    }
    LeadsOn(input, offset, frame, used, a, within, first, b + |tail|, closed, Then(second, third));
  }

  lemma EndMoves(dataType: byte, frame: Frame, frame': Frame)
    requires dataType == STI_OBJECT || dataType == STI_ARRAY
    requires frame' == if dataType == STI_ARRAY then frame.(currentArray := ARRAY_NONE)
                       else frame.(depth := Outward(frame.depth))
    ensures MarkerMoves(dataType, END_MARKER, frame, frame')
  {
  }

  /** The closing marker of an object or array. */
  lemma EndLeads(input: seq<byte>, offset: nat, dataType: byte, frame: Frame, frame': Frame, tally: Tally)
    requires dataType == STI_OBJECT || dataType == STI_ARRAY
    requires At(input, offset, EncodeHeader(dataType, END_MARKER)) && tally.rows <= MAX_FIELD_COUNT
    requires frame.currentArray != ARRAY_PATHSET
    requires frame' == if dataType == STI_ARRAY then frame.(currentArray := ARRAY_NONE)
                       else frame.(depth := Outward(frame.depth))
    ensures Leads(input, offset, frame, tally.rows, offset + |EncodeHeader(dataType, END_MARKER)|, frame',
                  ReadMark(tally, true, NotSupported, tally))
  {
    hide Leads, MarkerMoves, At, EncodeHeader, ReadMark, ObjectMarker;
    EndMoves(dataType, frame, frame');
    MarkLeads(input, offset, dataType, END_MARKER, frame, frame', tally, true, tally);
  }

  lemma {:induction false} ObjectLeads(input: seq<byte>, offset: nat, node: Node, kind: nat, depth: nat, tally: Tally,
                                       frame: Frame)
    returns (frame': Frame)
    requires node.Object? && IsNode(node) && At(input, offset, EncodeNode(node)) && Matches(frame, kind, depth, tally)
    requires kind != ARRAY_PATHSET && tally.rows <= MAX_FIELD_COUNT && tally.objects <= MAX_ARRAY_LEN
    ensures var reading := ReadNode(node, kind, depth, tally);
      && Leads(input, offset, frame, tally.rows, offset + |EncodeNode(node)|, frame', reading)
      && (reading.ending.Finished? ==>
          Matches(frame', KindAfter(node, kind), DepthAfter(node, depth), reading.tally))
    decreases node, 0
  {
    hide At, Leads, EncodeHeader, Encode, Read, AreNodes;
    var head, inside := EncodeHeader(STI_OBJECT, node.id), Encode(node.members);
    var tail := EncodeHeader(STI_OBJECT, END_MARKER);
    AtBoth(input, offset, head, inside + tail);
    AtBoth(input, offset + |head|, inside, tail);
    var counted := tally.(objects := tally.objects + 1);
    var within := frame.(index1 := frame.index1 + 1, depth := (frame.depth + 1) % 256);
    MarkLeads(input, offset, STI_OBJECT, node.id, frame, within, tally, tally.objects < MAX_ARRAY_LEN, counted);
    var first := ReadMark(tally, tally.objects < MAX_ARRAY_LEN, NotSupported, counted);
    var second := Read(node.members, kind, (depth + 1) % 256, first.tally);
    var inner := within;
    frame' := within;
    if first.ending.Finished? {
      inner := NodesLead(input, offset + |head|, node.members, kind, (depth + 1) % 256, first.tally, within);
      frame' := inner.(depth := Outward(inner.depth));
      if second.ending.Finished? {
        LeadsFits(input, offset + |head|, within, tally.rows, offset + |head| + |inside|, inner, second);
        NoPathSetBehind(node.members, kind);
        EndLeads(input, offset + |head| + |inside|, STI_OBJECT, inner, frame', second.tally);
      }
    }
    BracketLeads(input, offset, head, inside, tail, frame, within, inner, frame', tally.rows,
                 first, second, ReadMark(second.tally, true, NotSupported, second.tally));
  }

  lemma {:induction false} ListLeads(input: seq<byte>, offset: nat, node: Node, kind: nat, depth: nat, tally: Tally,
                                     frame: Frame)
    returns (frame': Frame)
    requires node.List? && IsNode(node) && At(input, offset, EncodeNode(node)) && Matches(frame, kind, depth, tally)
    requires kind != ARRAY_PATHSET && tally.rows <= MAX_FIELD_COUNT
    ensures var reading := ReadNode(node, kind, depth, tally);
      && Leads(input, offset, frame, tally.rows, offset + |EncodeNode(node)|, frame', reading)
      && (reading.ending.Finished? ==>
          Matches(frame', KindAfter(node, kind), DepthAfter(node, depth), reading.tally))
    decreases node, 0
  {
    hide At, Leads, EncodeHeader, Encode, Read, AreNodes;
    var head, inside := EncodeHeader(STI_ARRAY, node.id), Encode(node.members);
    var tail := EncodeHeader(STI_ARRAY, END_MARKER);
    AtBoth(input, offset, head, inside + tail);
    AtBoth(input, offset + |head|, inside, tail);
    var counted := tally.(objects := 0);
    var within := frame.(currentArray := node.id, index1 := 0, index2 := 0);
    MarkLeads(input, offset, STI_ARRAY, node.id, frame, within, tally, true, counted);
    var first := ReadMark(tally, true, NotSupported, counted);
    var second := Read(node.members, node.id, depth, first.tally);
    var inner := within;
    frame' := within;
    if first.ending.Finished? {
      inner := NodesLead(input, offset + |head|, node.members, node.id, depth, first.tally, within);
      frame' := inner.(currentArray := ARRAY_NONE);
      if second.ending.Finished? {
        LeadsFits(input, offset + |head|, within, tally.rows, offset + |head| + |inside|, inner, second);
        NoPathSetBehind(node.members, node.id);
        EndLeads(input, offset + |head| + |inside|, STI_ARRAY, inner, frame', second.tally);
      }
    }
    BracketLeads(input, offset, head, inside, tail, frame, within, inner, frame', tally.rows,
                 first, second, ReadMark(second.tally, true, NotSupported, second.tally));
  }

  /** No field leaves a path set open. */
  lemma {:induction false} NoPathSetAfter(node: Node, kind: nat)
    requires kind != ARRAY_PATHSET
    ensures KindAfter(node, kind) != ARRAY_PATHSET
    decreases node, 0
  {
    if node.Object? {
      NoPathSetBehind(node.members, kind);
    }
  }

  lemma {:induction false} NoPathSetBehind(nodes: seq<Node>, kind: nat)
    requires kind != ARRAY_PATHSET
    ensures KindBehind(nodes, kind) != ARRAY_PATHSET
    decreases nodes, 1
  {
    if nodes != [] {
      NoPathSetAfter(nodes[0], kind);
      NoPathSetBehind(nodes[1..], KindAfter(nodes[0], kind));
    }
  }

  lemma {:induction false} NodesLead(input: seq<byte>, offset: nat, nodes: seq<Node>, kind: nat, depth: nat,
                                     tally: Tally, frame: Frame)
    returns (frame': Frame)
    requires AreNodes(nodes) && At(input, offset, Encode(nodes)) && Matches(frame, kind, depth, tally)
    requires kind != ARRAY_PATHSET && tally.rows <= MAX_FIELD_COUNT && tally.objects <= MAX_ARRAY_LEN
    ensures var reading := Read(nodes, kind, depth, tally);
      && Leads(input, offset, frame, tally.rows, offset + |Encode(nodes)|, frame', reading)
      && (reading.ending.Finished? ==>
          Matches(frame', KindBehind(nodes, kind), DepthBehind(nodes, depth), reading.tally))
    decreases nodes, 1
  {
    hide At, Leads, EncodeNode, ReadNode, IsNode, Matches;
    frame' := frame;
    if nodes == [] {
      AtIsInside(input, offset, Encode(nodes));
      NothingLeads(input, offset, frame, tally);
    } else {
      var node := nodes[0];
      AtBoth(input, offset, EncodeNode(node), Encode(nodes[1..]));
      var first, next := ReadNode(node, kind, depth, tally), frame;
      next := NodeLeads(input, offset, node, kind, depth, tally, frame);
      var middle := offset + |EncodeNode(node)|;
      if first.ending.Finished? {
        LeadsFits(input, offset, frame, tally.rows, middle, next, first);
        ObjectsStayFew(node, kind, depth, tally);
        NoPathSetAfter(node, kind);
        frame' := NodesLead(input, middle, nodes[1..], KindAfter(node, kind), DepthAfter(node, depth), first.tally,
                            next);
      }
      LeadsOn(input, offset, frame, tally.rows, middle, next, first, offset + |Encode(nodes)|, frame',
              Read(nodes[1..], KindAfter(node, kind), DepthAfter(node, depth), first.tally));
    }
  }

  lemma {:induction false} NodeLeads(input: seq<byte>, offset: nat, node: Node, kind: nat, depth: nat, tally: Tally,
                                     frame: Frame)
    returns (frame': Frame)
    requires IsNode(node) && At(input, offset, EncodeNode(node)) && Matches(frame, kind, depth, tally)
    requires kind != ARRAY_PATHSET && tally.rows <= MAX_FIELD_COUNT && tally.objects <= MAX_ARRAY_LEN
    ensures var reading := ReadNode(node, kind, depth, tally);
      && Leads(input, offset, frame, tally.rows, offset + |EncodeNode(node)|, frame', reading)
      && (reading.ending.Finished? ==>
          Matches(frame', KindAfter(node, kind), DepthAfter(node, depth), reading.tally))
    decreases node, 1
  {
    hide At, Leads, EncodeNode, ReadNode, IsNode, Matches;
    match node {
      case Single(_, _) => frame' := LeafNodeLeads(input, offset, node, kind, depth, tally, frame);
      case Object(_, _) => frame' := ObjectLeads(input, offset, node, kind, depth, tally, frame);
      case List(_, _) => frame' := ListLeads(input, offset, node, kind, depth, tally, frame);
      case PathSet(_, _) => frame' := PathSetLeads(input, offset, node, kind, depth, tally, frame);
    }
  }

  /** Never more than 8 objects are counted. */
  lemma {:induction false} ObjectsStayFew(node: Node, kind: nat, depth: nat, tally: Tally)
    requires IsNode(node) && tally.objects <= MAX_ARRAY_LEN
    ensures ReadNode(node, kind, depth, tally).tally.objects <= MAX_ARRAY_LEN
    decreases node, 0
  {
    hide ReadLeaf, ReadPaths, Read;
    match node
    case Single(id, leaf) =>
      LeafKeepsObjects(id, leaf, kind, depth, tally);
    case Object(_, members) =>
      if tally.objects < MAX_ARRAY_LEN {
        var first := ReadMark(tally, true, NotSupported, tally.(objects := tally.objects + 1));
        AllObjectsStayFew(members, kind, (depth + 1) % 256, first.tally);
      }
    case List(id, members) =>
      AllObjectsStayFew(members, id, depth, ReadMark(tally, true, NotSupported, tally.(objects := 0)).tally);
    case PathSet(_, paths) =>
      PathsStayFew(paths, 1, depth, tally);
  }

  lemma LeafKeepsObjects(id: nat, leaf: Leaf, kind: nat, depth: nat, tally: Tally)
    requires leaf.IssuedAmount? ==> |leaf.currency| == CURRENCY_SIZE
    ensures ReadLeaf(id, leaf, kind, depth, tally).tally.objects == tally.objects
  {
    hide OwnView, ExtraViews, IsMalformed;
  }

  lemma {:induction false} AllObjectsStayFew(nodes: seq<Node>, kind: nat, depth: nat, tally: Tally)
    requires AreNodes(nodes) && tally.objects <= MAX_ARRAY_LEN
    ensures Read(nodes, kind, depth, tally).tally.objects <= MAX_ARRAY_LEN
    decreases nodes, 1
  {
    hide ReadNode, IsNode;
    if nodes != [] {
      ObjectsStayFew(nodes[0], kind, depth, tally);
      AllObjectsStayFew(nodes[1..], KindAfter(nodes[0], kind), DepthAfter(nodes[0], depth),
                        ReadNode(nodes[0], kind, depth, tally).tally);
    }
  }

  lemma {:induction false} PathsStayFew(paths: seq<seq<Step>>, index1: nat, depth: nat, tally: Tally)
    requires paths != [] && tally.objects <= MAX_ARRAY_LEN && index1 <= MAX_PATH_COUNT
    ensures ReadPaths(paths, index1, depth, tally).tally.objects <= MAX_ARRAY_LEN
    decreases paths
  {
    hide ReadPath;
    PathKeepsTally(paths[0], index1, 1, depth, tally);
    var first := ReadPath(paths[0], index1, 1, depth, tally);
    if |paths| > 1 && index1 < MAX_PATH_COUNT {
      PathsStayFew(paths[1..], index1 + 1, depth, ReadMark(first.tally, true, InvalidState, first.tally).tally);
    }
  }

  // ---------- Transactions ----------

  /** What the loop does with the bytes of a transaction is what its reading says: it
      shows the same rows and ends in the same way, behind the last field with no
      object or array recorded, at a misplaced TransactionType, or with an error. */
  lemma ParserUndoesSerializer(nodes: seq<Node>)
    requires AreNodes(nodes)
    ensures var run, reading := ParseLoop(Encode(nodes)), ReadTransaction(nodes);
      && ViewsOf(Encode(nodes), RowsOf(run.items)) == reading.views
      && match reading.ending
         case Over(error) => run.stop == StoppedBy(error)
         case Halted(view) =>
           && run.stop.StoppedBlind? && ViewOf(Encode(nodes), run.stop.row) == view
           && run.frame.txType == reading.tally.txType && run.frame.emptyKey == reading.tally.emptyKey
         case Finished =>
           && run.stop == AtEnd
           && run.frame.txType == reading.tally.txType && run.frame.emptyKey == reading.tally.emptyKey
           && run.frame.currentArray == ARRAY_NONE && run.frame.depth == 0
  {
    hide ParseItems, Encode, Read, RowsOf, ViewsOf, ViewOf, AreNodes, KindBehind, DepthBehind;
    var input, reading := Encode(nodes), ReadTransaction(nodes);
    assert At(input, 0, input);
    assert Matches(INITIAL_FRAME, ARRAY_NONE, 0, NOTHING_READ);
    OutsideStaysOutside(nodes);
    var frame := NodesLead(input, 0, nodes, ARRAY_NONE, 0, NOTHING_READ, INITIAL_FRAME);
    if reading.ending.Finished? {
      var done :| ViewsOf(input, RowsOf(done)) == reading.views &&
        ParseItems(input, 0, INITIAL_FRAME, 0) == Resumed(done, ParseItems(input, |input|, frame, |reading.views|));
      ParseItemsStep(input, |input|, frame, |reading.views|);
      assert done + [] == done;
    }
  }
}
