/** The gnome sort of src/xrp/field_sort.c. */
module FieldSort {
  import opened Fields

  /** `get_priority_score` */
  function Score(field: Field): nat {
    if IsTransactionType(field) then 0 else if IsNormalAccount(field) then 1 else 2
  }

  predicate IsPreceding(field: Field, other: Field) {
    Score(field) < Score(other)
  }

  // ---------- The specification: a stable sort by score ----------

  /** The fields of one score, in their original order. */
  function OfScore(fields: seq<Field>, score: nat): seq<Field> {
    if fields == [] then []
    else OfScore(fields[..|fields| - 1], score)
         + if Score(fields[|fields| - 1]) == score then [fields[|fields| - 1]] else []
  }

  function Sorted(fields: seq<Field>): seq<Field> {
    OfScore(fields, 0) + OfScore(fields, 1) + OfScore(fields, 2)
  }

  ghost predicate IsSorted(fields: seq<Field>) {
    forall i, j :: 0 <= i < j < |fields| ==> Score(fields[i]) <= Score(fields[j])
  }

  ghost predicate HaveScore(fields: seq<Field>, score: nat) {
    forall i :: 0 <= i < |fields| ==> Score(fields[i]) == score
  }

  /** Same fields of every score, in the same order. */
  ghost predicate SameGroups(fields: seq<Field>, other: seq<Field>) {
    forall score :: 0 <= score <= 2 ==> OfScore(fields, score) == OfScore(other, score)
  }

  lemma {:induction false} OfScoreAppend(left: seq<Field>, right: seq<Field>, score: nat)
    ensures OfScore(left + right, score) == OfScore(left, score) + OfScore(right, score)
  {
    if right == [] {
      assert left + right == left;
    } else {
      OfScoreAppend(left, right[..|right| - 1], score);
      assert (left + right)[..|left + right| - 1] == left + right[..|right| - 1];
    }
  }

  lemma {:induction false} OfScoreUniform(fields: seq<Field>, own: nat, score: nat)
    requires HaveScore(fields, own)
    ensures OfScore(fields, score) == if score == own then fields else []
  {
    if fields != [] {
      OfScoreUniform(fields[..|fields| - 1], own, score);
      assert fields == fields[..|fields| - 1] + [fields[|fields| - 1]];
    }
  }

  lemma {:induction false} OfScoreScores(fields: seq<Field>, score: nat)
    ensures HaveScore(OfScore(fields, score), score)
  {
    if fields != [] {
      OfScoreScores(fields[..|fields| - 1], score);
    }
  }

  /** Nothing is lost or invented. */
  lemma {:induction false} SortedIsPermutation(fields: seq<Field>)
    ensures multiset(Sorted(fields)) == multiset(fields)
  {
    if fields != [] {
      var init, last := fields[..|fields| - 1], fields[|fields| - 1];
      SortedIsPermutation(init);
      assert fields == init + [last];
      OneMore(OfScore(init, 0), OfScore(init, 1), OfScore(init, 2), last, Score(last));
    }
  }

  lemma OneMore(a: seq<Field>, b: seq<Field>, c: seq<Field>, last: Field, score: nat)
    requires score <= 2
    ensures multiset((a + if score == 0 then [last] else []) + (b + if score == 1 then [last] else [])
                     + (c + if score == 2 then [last] else []))
         == multiset(a + b + c) + multiset{last}
  {
  }

  /** The specification is sorted and stable. */
  lemma SortedMembers(fields: seq<Field>, row: Field)
    ensures row in Sorted(fields) <==> row in fields
  {
    hide Sorted;
    SortedIsPermutation(fields);
    assert row in Sorted(fields) <==> row in multiset(Sorted(fields));
  }

  /** In figures: the TransactionType rows (UINT16 2) come first, then the Account rows
      (ACCOUNT 1) outside of arrays, then all others. */
  lemma SortedInFigures(fields: seq<Field>) returns (types: nat, accounts: nat)
    ensures types + accounts <= |Sorted(fields)|
    ensures forall i :: 0 <= i < |Sorted(fields)| ==>
      var row := Sorted(fields)[i];
      && (i < types <==> row.dataType == 1 && row.id == 2)
      && (types <= i < types + accounts <==> row.dataType == 8 && row.id == 1 && row.arrayInfo.kind == 0)
  {
    OfScoreScores(fields, 0);
    OfScoreScores(fields, 1);
    OfScoreScores(fields, 2);
    hide OfScore;
    types, accounts := |OfScore(fields, 0)|, |OfScore(fields, 1)|;
  }

  lemma SortedIsStableSort(fields: seq<Field>)
    ensures IsSorted(Sorted(fields)) && SameGroups(Sorted(fields), fields)
  {
    OfScoreScores(fields, 0);
    OfScoreScores(fields, 1);
    OfScoreScores(fields, 2);
    forall score | 0 <= score <= 2 ensures OfScore(Sorted(fields), score) == OfScore(fields, score) {
      GroupOfGroups(OfScore(fields, 0), OfScore(fields, 1), OfScore(fields, 2), score);
    }
  }

  lemma GroupOfGroups(a: seq<Field>, b: seq<Field>, c: seq<Field>, score: nat)
    requires HaveScore(a, 0) && HaveScore(b, 1) && HaveScore(c, 2) && score <= 2
    ensures OfScore(a + b + c, score) == if score == 0 then a else if score == 1 then b else c
  {
    OfScoreAppend(a + b, c, score);
    OfScoreAppend(a, b, score);
    OfScoreUniform(a, 0, score);
    OfScoreUniform(b, 1, score);
    OfScoreUniform(c, 2, score);
  }

  /** It is the only stable sort. */
  lemma StableSortIsUnique(fields: seq<Field>, result: seq<Field>)
    requires IsSorted(result) && SameGroups(result, fields)
    ensures result == Sorted(fields)
  {
    SortedFallsIntoGroups(result);
  }

  lemma {:induction false} SortedFallsIntoGroups(fields: seq<Field>)
    requires IsSorted(fields)
    ensures fields == Sorted(fields)
  {
    if fields != [] {
      var init, last := fields[..|fields| - 1], fields[|fields| - 1];
      SortedFallsIntoGroups(init);
      assert fields == init + [last];
      if Score(last) < 1 {
        NoneAbove(init, Score(last), 1);
      }
      if Score(last) < 2 {
        NoneAbove(init, Score(last), 2);
      }
      LastGoesLast(OfScore(init, 0), OfScore(init, 1), OfScore(init, 2), last, Score(last));
    }
  }

  lemma LastGoesLast(a: seq<Field>, b: seq<Field>, c: seq<Field>, last: Field, score: nat)
    requires score <= 2 && (score < 1 ==> b == []) && (score < 2 ==> c == [])
    ensures (a + if score == 0 then [last] else []) + (b + if score == 1 then [last] else [])
            + (c + if score == 2 then [last] else [])
         == a + b + c + [last]
  {
  }

  lemma {:induction false} NoneAbove(fields: seq<Field>, bound: nat, score: nat)
    requires bound < score && forall i :: 0 <= i < |fields| ==> Score(fields[i]) <= bound
    ensures OfScore(fields, score) == []
  {
    if fields != [] {
      NoneAbove(fields[..|fields| - 1], bound, score);
    }
  }

  // ---------- The algorithm ----------

  function Swapped(fields: seq<Field>, i: nat): seq<Field>
    requires i + 1 < |fields|
  {
    fields[i := fields[i + 1]][i + 1 := fields[i]]
  }

  /** How much weight sits far to the right of where its score wants it: every
      swap of an out-of-order pair lowers it. */
  function Disorder(fields: seq<Field>): nat {
    if fields == [] then 0
    else var last := |fields| - 1; Disorder(fields[..last]) + last * (2 - Score(fields[last]))
  }

  lemma {:induction false} SwapLowersDisorder(fields: seq<Field>, i: nat)
    requires i + 1 < |fields| && Score(fields[i]) > Score(fields[i + 1])
    ensures Disorder(Swapped(fields, i)) < Disorder(fields)
  {
    var last := |fields| - 1;
    if i + 1 < last {
      SwapLowersDisorder(fields[..last], i);
      assert Swapped(fields, i)[..last] == Swapped(fields[..last], i);
    } else {
      assert Swapped(fields, i)[..last][..i] == fields[..last][..i];
    }
  }

  lemma SwapKeepsGroups(fields: seq<Field>, i: nat)
    requires i + 1 < |fields| && Score(fields[i]) != Score(fields[i + 1])
    ensures SameGroups(Swapped(fields, i), fields)
  {
    var before, pair, after := fields[..i], fields[i..i + 2], fields[i + 2..];
    var riap := [fields[i + 1], fields[i]];
    assert fields == before + pair + after && Swapped(fields, i) == before + riap + after;
    forall score | 0 <= score <= 2 ensures OfScore(Swapped(fields, i), score) == OfScore(fields, score) {
      OfScoreAppend(before + pair, after, score);
      OfScoreAppend(before, pair, score);
      OfScoreAppend(before + riap, after, score);
      OfScoreAppend(before, riap, score);
      OfScorePair(fields[i], fields[i + 1], score);
      assert pair == [fields[i], fields[i + 1]];
    }
  }

  lemma OfScorePair(first: Field, second: Field, score: nat)
    requires Score(first) != Score(second)
    ensures OfScore([first, second], score) == OfScore([second, first], score)
  {
    assert [first, second][..1] == [first] && [second, first][..1] == [second];
    assert [first][..0] == [] && [second][..0] == [];
  }

  /** `sort_fields`: gnome sort of the first `count` slots. */
  method SortFields(fields: array<Field>, count: nat)
    requires count <= fields.Length
    modifies fields
    ensures fields[..count] == Sorted(old(fields[..count]))
    ensures fields[count..] == old(fields[count..])
  {
    var i := 0;
    while i < count - 1
      invariant 0 <= i && (i < count || i == 0)
      invariant SameGroups(fields[..count], old(fields[..count]))
      invariant fields[count..] == old(fields[count..])
      invariant count > 0 ==> IsSorted(fields[..i + 1])
      decreases Disorder(fields[..count]), count - i
    {
      if IsPreceding(fields[i + 1], fields[i]) && !IsPreceding(fields[i], fields[i + 1]) {
        ghost var before := fields[..count];
        SwapLowersDisorder(before, i);
        SwapKeepsGroups(before, i);
        fields[i], fields[i + 1] := fields[i + 1], fields[i];
        assert fields[..count] == Swapped(before, i);
        i := if i > 0 then i - 1 else 0;
      } else {
        i := i + 1;
      }
    }
    StableSortIsUnique(old(fields[..count]), fields[..count]);
  }
}
