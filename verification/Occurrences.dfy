/**
 The count loop of audit-dev-secret-fail-closed.ts: the leftmost occurrence, then
 the next one after its end, and so on.
 */
module Occurrences {
  import opened Text

  /** Occurrences of the needle no two of which overlap. */
  ghost predicate NonOverlapping(haystack: string, needle: string, places: set<int>) {
    && (forall p :: p in places ==> OccursAt(haystack, needle, p))
    && (forall p, q :: p in places && q in places && p < q ==> p + |needle| <= q)
  }

  ghost predicate AllBelow(places: set<int>, bound: int) {
    forall p :: p in places ==> p < bound
  }

  /** At most `count` non-overlapping occurrences start below `bound`. */
  ghost predicate AtMostBelow(haystack: string, needle: string, bound: int, count: nat) {
    forall places :: NonOverlapping(haystack, needle, places) && AllBelow(places, bound) ==> |places| <= count
  }

  /** Places where the needle stands in the haystack, each a whole needle before the next. */
  lemma NonOverlappingMeans(haystack: string, needle: string, places: set<int>)
    ensures NonOverlapping(haystack, needle, places) <==>
            && (forall p :: p in places ==>
                  0 <= p && p + |needle| <= |haystack| && haystack[p..p + |needle|] == needle)
            && (forall p, q :: p in places && q in places && p != q ==> p + |needle| <= q || q + |needle| <= p)
  {
    if NonOverlapping(haystack, needle, places) {
      forall p | p in places
        ensures 0 <= p && p + |needle| <= |haystack| && haystack[p..p + |needle|] == needle
      {
        assert OccursAt(haystack, needle, p);
      }
    } else if p :| p in places && !OccursAt(haystack, needle, p) {
      assert p in places;
    }
  }

  lemma OneLate(haystack: string, needle: string, places: set<int>, bound: int, index: int)
    requires needle != "" && NonOverlapping(haystack, needle, places) && AllBelow(places, index + |needle|)
    requires forall j :: bound <= j && OccursAt(haystack, needle, j) ==> index <= j
    ensures |set p | p in places && p >= bound| <= 1
  {
    var late := set p | p in places && p >= bound;
    forall p | p in late ensures OccursAt(haystack, needle, p) && index <= p < index + |needle| {}
    forall p, q | p in late && q in late ensures p == q {}
    if late != {} {
      var p :| p in late;
      assert late == {p};
    }
  }

  /**
   The exchange step. If the next occurrence after `bound` is at `index`, then of any
   non-overlapping occurrences at most one starts from `bound` up to the end of it.
   */
  lemma OneMore(haystack: string, needle: string, bound: int, index: int, count: nat)
    requires 0 <= bound <= index && needle != "" && AtMostBelow(haystack, needle, bound, count)
    requires forall j :: bound <= j && OccursAt(haystack, needle, j) ==> index <= j
    ensures AtMostBelow(haystack, needle, index + |needle|, count + 1)
  {
    forall places | NonOverlapping(haystack, needle, places) && AllBelow(places, index + |needle|)
      ensures |places| <= count + 1
    {
      var early := set p | p in places && p < bound;
      assert NonOverlapping(haystack, needle, early) && AllBelow(early, bound);
      OneLate(haystack, needle, places, bound, index);
      assert places == early + (set p | p in places && p >= bound);
    }
  }

  lemma NothingBelowZero(haystack: string, needle: string)
    ensures AtMostBelow(haystack, needle, 0, 0)
  {
    forall places | NonOverlapping(haystack, needle, places) && AllBelow(places, 0) ensures |places| == 0 {
      forall p | p in places ensures OccursAt(haystack, needle, p) && p < 0 {}
      assert forall p :: p !in places;
      assert places == {};
    }
  }

  /**
   The greedy count is the best possible: there are that many occurrences of which no
   two overlap, and there is no larger such set.
   */
  method CountOccurrences(haystack: string, needle: string) returns (count: nat)
    ensures needle == "" ==> count == 0
    ensures needle != "" ==> exists places :: NonOverlapping(haystack, needle, places) && |places| == count
    ensures needle != "" ==> forall places :: NonOverlapping(haystack, needle, places) ==> |places| <= count
  {
    count := 0;
    if needle == "" { return; }
    ghost var places: set<int> := {};
    ghost var bound := 0;
    NothingBelowZero(haystack, needle);
    var index := IndexOf(haystack, needle, 0);
    while index != -1
      invariant NonOverlapping(haystack, needle, places) && |places| == count
      invariant 0 <= bound && forall p :: p in places ==> p + |needle| <= bound
      invariant AtMostBelow(haystack, needle, bound, count)
      invariant index != -1 ==> bound <= index && OccursAt(haystack, needle, index)
      invariant forall j :: bound <= j && OccursAt(haystack, needle, j) ==> 0 <= index <= j
      decreases if index == -1 then 0 else |haystack| - index + 1
    {
      OneMore(haystack, needle, bound, index, count);
      assert index !in places;
      places := places + {index};
      bound := index + |needle|;
      count := count + 1;
      index := IndexOf(haystack, needle, index + |needle|);
    }
    forall s | NonOverlapping(haystack, needle, s) ensures |s| <= count {
      assert AllBelow(s, bound);
    }
  }
}
