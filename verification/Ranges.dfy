/**
 * The half-open clock ranges of packages/agent-edit/src/frontier.ts: merging, covering,
 * subtracting and clipping by cursor loops, each against the set of clocks it stands for.
 */
module Ranges {
  import opened Sorting

  /** The clocks from `from` up to, not including, `to`. */
  datatype Range = Range(from: nat, to: nat)

  /** One recorded deletion. */
  datatype DeleteItem = DeleteItem(clock: nat, len: nat)

  predicate InRange(r: Range, k: nat) {
    r.from <= k < r.to
  }

  ghost predicate Holds(rs: seq<Range>, k: nat) {
    exists i :: 0 <= i < |rs| && InRange(rs[i], k)
  }

  ghost predicate Deleted(items: seq<DeleteItem>, k: nat) {
    exists i :: 0 <= i < |items| && items[i].clock <= k < items[i].clock + items[i].len
  }

  /** Ascending, without overlap. */
  ghost predicate Disjoint(rs: seq<Range>) {
    && (forall i :: 0 <= i < |rs| ==> rs[i].from <= rs[i].to)
    && (forall i, j :: 0 <= i < j < |rs| ==> rs[i].to <= rs[j].from)
  }

  /** Ascending, with a gap between any two: merged. */
  ghost predicate GapSeparated(rs: seq<Range>) {
    && (forall i :: 0 <= i < |rs| ==> rs[i].from <= rs[i].to)
    && (forall i, j :: 0 <= i < j < |rs| ==> rs[i].to < rs[j].from)
  }

  ghost predicate NonEmpty(rs: seq<Range>) {
    forall i :: 0 <= i < |rs| ==> rs[i].from < rs[i].to
  }

  ghost predicate PositiveLengths(items: seq<DeleteItem>) {
    forall i :: 0 <= i < |items| ==> items[i].len > 0
  }

  lemma HoldsAppend(rs: seq<Range>, r: Range)
    ensures forall k: nat :: Holds(rs + [r], k) <==> Holds(rs, k) || InRange(r, k)
  {
    forall k: nat ensures Holds(rs + [r], k) <==> Holds(rs, k) || InRange(r, k) {
      if Holds(rs, k) {
        var i :| 0 <= i < |rs| && InRange(rs[i], k);
        assert InRange((rs + [r])[i], k);
      }
      if InRange(r, k) { assert InRange((rs + [r])[|rs|], k); }
    }
  }

  lemma HoldsConcat(rs: seq<Range>, ts: seq<Range>)
    ensures forall k: nat :: Holds(rs + ts, k) <==> Holds(rs, k) || Holds(ts, k)
  {
    forall k: nat ensures Holds(rs + ts, k) <==> Holds(rs, k) || Holds(ts, k) {
      if Holds(rs, k) {
        var i :| 0 <= i < |rs| && InRange(rs[i], k);
        assert InRange((rs + ts)[i], k);
      }
      if Holds(ts, k) {
        var i :| 0 <= i < |ts| && InRange(ts[i], k);
        assert InRange((rs + ts)[|rs| + i], k);
      }
      if Holds(rs + ts, k) {
        var i :| 0 <= i < |rs + ts| && InRange((rs + ts)[i], k);
        if i >= |rs| { assert ts[i - |rs|] == (rs + ts)[i]; }
      }
    }
  }

  // ------------------------------------------------------------------------------------------
  // Merging
  // ------------------------------------------------------------------------------------------

  ghost predicate SortedByFrom(rs: seq<Range>) {
    forall i, j :: 0 <= i < j < |rs| ==> rs[i].from <= rs[j].from
  }

  predicate StartsFirst(a: Range, b: Range) { a.from <= b.from }

  function AsRanges(items: seq<DeleteItem>): (r: seq<Range>)
    ensures |r| == |items| && forall i :: 0 <= i < |r| ==> r[i] == Range(items[i].clock, items[i].clock + items[i].len)
  {
    seq(|items|, i requires 0 <= i < |items| => Range(items[i].clock, items[i].clock + items[i].len))
  }

  /** The items as ranges, in a stable order of their starts. */
  function Sorted(items: seq<DeleteItem>): (r: seq<Range>)
    ensures multiset(r) == multiset(AsRanges(items))
  {
    SortBy(AsRanges(items), StartsFirst)
  }

  lemma SameElements(rs: seq<Range>, ts: seq<Range>)
    requires multiset(rs) == multiset(ts)
    ensures forall i :: 0 <= i < |rs| ==> rs[i] in ts
  {
    forall i | 0 <= i < |rs| ensures rs[i] in ts {
      assert rs[i] in multiset(ts);
    }
  }

  lemma SortedHolds(items: seq<DeleteItem>)
    ensures SortedByFrom(Sorted(items))
    ensures forall k: nat :: Holds(Sorted(items), k) <==> Deleted(items, k)
  {
    SortIsSorted(AsRanges(items), StartsFirst);
    var sorted, given := Sorted(items), AsRanges(items);
    SameElements(sorted, given);
    SameElements(given, sorted);
    forall i, j | 0 <= i < j < |sorted| ensures sorted[i].from <= sorted[j].from {
      assert StartsFirst(sorted[i], sorted[j]);
    }
    forall k: nat ensures Holds(sorted, k) <==> Deleted(items, k) {
      if Holds(sorted, k) {
        var i :| 0 <= i < |sorted| && InRange(sorted[i], k);
        var j :| 0 <= j < |given| && given[j] == sorted[i];
      }
      if Deleted(items, k) {
        var i :| 0 <= i < |items| && items[i].clock <= k < items[i].clock + items[i].len;
        var j :| 0 <= j < |sorted| && sorted[j] == given[i];
        assert InRange(sorted[j], k);
      }
    }
  }

  lemma SortedSpans(items: seq<DeleteItem>)
    ensures forall i :: 0 <= i < |Sorted(items)| ==> Sorted(items)[i].from <= Sorted(items)[i].to
    ensures PositiveLengths(items) ==> NonEmpty(Sorted(items))
  {
    SameElements(Sorted(items), AsRanges(items));
  }

  /** One step of the merge: a range that starts within or at the end of the last one extends it. */
  function MergeInto(merged: seq<Range>, r: Range): seq<Range> {
    if merged != [] && r.from <= merged[|merged| - 1].to then
      var last := merged[|merged| - 1];
      merged[|merged| - 1 := Range(last.from, if last.to >= r.to then last.to else r.to)]
    else merged + [r]
  }

  function Merge(rs: seq<Range>): seq<Range> {
    if rs == [] then [] else MergeInto(Merge(rs[..|rs| - 1]), rs[|rs| - 1])
  }

  /** The recorded deletions as merged ranges. */
  function Merged(items: seq<DeleteItem>): seq<Range> {
    Merge(Sorted(items))
  }

  lemma MergeIntoMeans(merged: seq<Range>, r: Range)
    requires GapSeparated(merged) && r.from <= r.to
    requires merged != [] ==> merged[|merged| - 1].from <= r.from
    ensures var next := MergeInto(merged, r);
            && GapSeparated(next) && next != [] && next[|next| - 1].from <= r.from
            && (forall k: nat :: Holds(next, k) <==> Holds(merged, k) || InRange(r, k))
            && (NonEmpty(merged) && r.from < r.to ==> NonEmpty(next))
  {
    if merged != [] && r.from <= merged[|merged| - 1].to {
      var prefix, last := merged[..|merged| - 1], merged[|merged| - 1];
      var wider := Range(last.from, if last.to >= r.to then last.to else r.to);
      assert merged == prefix + [last] && MergeInto(merged, r) == prefix + [wider];
      HoldsAppend(prefix, last);
      HoldsAppend(prefix, wider);
    } else {
      HoldsAppend(merged, r);
    }
  }

  lemma {:induction false} MergeHolds(rs: seq<Range>)
    requires SortedByFrom(rs) && forall i :: 0 <= i < |rs| ==> rs[i].from <= rs[i].to
    ensures GapSeparated(Merge(rs))
    ensures rs != [] ==> Merge(rs) != [] && Merge(rs)[|Merge(rs)| - 1].from <= rs[|rs| - 1].from
    ensures forall k: nat :: Holds(Merge(rs), k) <==> Holds(rs, k)
  {
    if rs != [] {
      var front, r := rs[..|rs| - 1], rs[|rs| - 1];
      MergeHolds(front);
      assert rs == front + [r];
      assert front != [] ==> front[|front| - 1].from <= r.from;
      MergeIntoMeans(Merge(front), r);
      HoldsAppend(front, r);
    }
  }

  lemma {:induction false} MergeIsNonEmpty(rs: seq<Range>)
    requires SortedByFrom(rs) && NonEmpty(rs)
    ensures NonEmpty(Merge(rs))
  {
    if rs != [] {
      var front, r := rs[..|rs| - 1], rs[|rs| - 1];
      MergeIsNonEmpty(front);
      MergeHolds(front);
      assert front != [] ==> front[|front| - 1].from <= r.from;
      MergeIntoMeans(Merge(front), r);
    }
  }

  /** Merging keeps exactly the deleted clocks, in ranges with gaps between them. */
  lemma {:induction false} MergedMeans(items: seq<DeleteItem>)
    ensures GapSeparated(Merged(items))
    ensures forall k: nat :: Holds(Merged(items), k) <==> Deleted(items, k)
    ensures PositiveLengths(items) ==> NonEmpty(Merged(items))
  {
    SortedHolds(items);
    SortedSpans(items);
    MergeHolds(Sorted(items));
    if PositiveLengths(items) { MergeIsNonEmpty(Sorted(items)); }
  }

  method DeleteRanges(items: seq<DeleteItem>) returns (merged: seq<Range>)
    ensures merged == Merged(items)
    ensures GapSeparated(merged) && (PositiveLengths(items) ==> NonEmpty(merged))
    ensures forall k: nat :: Holds(merged, k) <==> Deleted(items, k)
  {
    var sorted := Sorted(items);
    merged := [];
    for i := 0 to |sorted|
      invariant merged == Merge(sorted[..i])
    {
      assert sorted[..i + 1][..i] == sorted[..i];
      if merged != [] && sorted[i].from <= merged[|merged| - 1].to {
        var last := merged[|merged| - 1];
        merged := merged[|merged| - 1 := Range(last.from, if last.to >= sorted[i].to then last.to else sorted[i].to)];
      } else {
        merged := merged + [sorted[i]];
      }
    }
    assert sorted[..|sorted|] == sorted;
    MergedMeans(items);
  }

  // ------------------------------------------------------------------------------------------
  // Covering
  // ------------------------------------------------------------------------------------------

  /** Some range of `outer` holds `r` from its start, even an empty `r`, to its end. */
  ghost predicate Inside(r: Range, outer: seq<Range>) {
    exists j :: 0 <= j < |outer| && outer[j].from <= r.from && r.to <= outer[j].to && r.from < outer[j].to
  }

  /**
   * Being inside one merged range is having every clock covered. An empty range counts as its
   * start: it is inside only where that clock is covered.
   */
  lemma InsideIsCovered(r: Range, outer: seq<Range>)
    requires GapSeparated(outer) && r.from <= r.to
    ensures Inside(r, outer) <==> Holds(outer, r.from) && forall k: nat :: InRange(r, k) ==> Holds(outer, k)
  {
    if Inside(r, outer) {
      var j :| 0 <= j < |outer| && outer[j].from <= r.from && r.to <= outer[j].to && r.from < outer[j].to;
      assert InRange(outer[j], r.from);
      forall k: nat | InRange(r, k) ensures Holds(outer, k) { assert InRange(outer[j], k); }
    }
    if Holds(outer, r.from) && forall k: nat :: InRange(r, k) ==> Holds(outer, k) {
      var j :| 0 <= j < |outer| && InRange(outer[j], r.from);
      if r.to > outer[j].to {
        assert InRange(r, outer[j].to);
        EndIsNotHeld(outer, j);
      }
    }
  }

  lemma EndIsNotHeld(outer: seq<Range>, j: nat)
    requires GapSeparated(outer) && j < |outer|
    ensures !Holds(outer, outer[j].to)
  {
    forall i | 0 <= i < |outer| ensures !InRange(outer[i], outer[j].to) {
      if i < j { assert outer[i].to < outer[j].from; }
    }
  }

  /** The one candidate the cursor stops at decides. */
  lemma OnlyCandidate(r: Range, outer: seq<Range>, index: nat)
    requires GapSeparated(outer) && index <= |outer|
    requires forall j :: 0 <= j < index ==> outer[j].to <= r.from
    requires index < |outer| ==> r.from < outer[index].to
    ensures Inside(r, outer) <==> index < |outer| && outer[index].from <= r.from && r.to <= outer[index].to
  {
    assert forall j :: index < j < |outer| ==> outer[index].to < outer[j].from;
  }

  method Covered(inner: seq<Range>, outer: seq<Range>) returns (covered: bool)
    requires SortedByFrom(inner) && GapSeparated(outer)
    ensures covered <==> forall i :: 0 <= i < |inner| ==> Inside(inner[i], outer)
  {
    var index := 0;
    for i := 0 to |inner|
      invariant index <= |outer|
      invariant i < |inner| ==> forall j :: 0 <= j < index ==> outer[j].to <= inner[i].from
      invariant forall m :: 0 <= m < i ==> Inside(inner[m], outer)
    {
      while index < |outer| && outer[index].to <= inner[i].from
        invariant index <= |outer|
        invariant forall j :: 0 <= j < index ==> outer[j].to <= inner[i].from
      {
        index := index + 1;
      }
      OnlyCandidate(inner[i], outer, index);
      if index == |outer| || outer[index].from > inner[i].from || outer[index].to < inner[i].to {
        return false;
      }
    }
    covered := true;
  }

  // ------------------------------------------------------------------------------------------
  // Subtracting and clipping
  // ------------------------------------------------------------------------------------------

  /** The parts of one range outside `removed`; everything before `first` ends before it starts. */
  method SubtractOne(range: Range, removed: seq<Range>, first: nat) returns (pieces: seq<Range>)
    requires GapSeparated(removed) && first <= |removed| && range.from <= range.to
    requires forall j :: 0 <= j < first ==> removed[j].to <= range.from
    ensures Disjoint(pieces) && NonEmpty(pieces)
    ensures forall i :: 0 <= i < |pieces| ==> range.from <= pieces[i].from && pieces[i].to <= range.to
    ensures forall k: nat :: Holds(pieces, k) <==> InRange(range, k) && !Holds(removed, k)
  {
    pieces := [];
    var cursor, index := range.from, first;
    while index < |removed| && removed[index].from < range.to && cursor < range.to
      invariant first <= index <= |removed| && range.from <= cursor
      invariant forall j :: 0 <= j < index ==> removed[j].to <= cursor
      invariant Disjoint(pieces) && NonEmpty(pieces)
      invariant forall i :: 0 <= i < |pieces| ==>
                  range.from <= pieces[i].from && pieces[i].to <= cursor && pieces[i].to <= range.to
      invariant forall k: nat :: Holds(pieces, k) <==> InRange(range, k) && k < cursor && !Holds(removed, k)
    {
      var r := removed[index];
      if r.from > cursor {
        HoldsAppend(pieces, Range(cursor, r.from));
        NothingBetween(removed, index, cursor, r.from);
        pieces := pieces + [Range(cursor, r.from)];
      }
      forall k: nat | r.from <= k < r.to ensures Holds(removed, k) { assert InRange(removed[index], k); }
      cursor := if cursor >= r.to then cursor else r.to;
      index := index + 1;
    }
    if cursor < range.to {
      HoldsAppend(pieces, Range(cursor, range.to));
      NothingBetween(removed, index, cursor, range.to);
      pieces := pieces + [Range(cursor, range.to)];
    }
  }

  /** Between what ended before `lo` and what starts from `hi` on, nothing is removed. */
  lemma NothingBetween(removed: seq<Range>, index: nat, lo: nat, hi: nat)
    requires GapSeparated(removed) && index <= |removed|
    requires forall j :: 0 <= j < index ==> removed[j].to <= lo
    requires index < |removed| ==> hi <= removed[index].from
    ensures forall k: nat :: lo <= k < hi ==> !Holds(removed, k)
  {
    forall k: nat | lo <= k < hi ensures !Holds(removed, k) {
      forall j | 0 <= j < |removed| ensures !InRange(removed[j], k) {
        if j > index { assert removed[index].to < removed[j].from; }
      }
    }
  }

  method Subtract(ranges: seq<Range>, removed: seq<Range>) returns (result: seq<Range>)
    requires Disjoint(ranges) && GapSeparated(removed)
    ensures Disjoint(result) && NonEmpty(result)
    ensures forall k: nat :: Holds(result, k) <==> Holds(ranges, k) && !Holds(removed, k)
  {
    result := [];
    var first := 0;
    for i := 0 to |ranges|
      invariant first <= |removed|
      invariant i < |ranges| ==> forall j :: 0 <= j < first ==> removed[j].to <= ranges[i].from
      invariant Disjoint(result) && NonEmpty(result)
      invariant forall m :: 0 <= m < |result| ==> i > 0 && result[m].to <= ranges[i - 1].to
      invariant forall k: nat :: Holds(result, k) <==> Holds(ranges[..i], k) && !Holds(removed, k)
    {
      while first < |removed| && removed[first].to <= ranges[i].from
        invariant first <= |removed|
        invariant forall j :: 0 <= j < first ==> removed[j].to <= ranges[i].from
      {
        first := first + 1;
      }
      var pieces := SubtractOne(ranges[i], removed, first);
      HoldsConcat(result, pieces);
      HoldsAppend(ranges[..i], ranges[i]);
      assert ranges[..i + 1] == ranges[..i] + [ranges[i]];
      result := result + pieces;
    }
    assert ranges[..|ranges|] == ranges;
  }

  method Below(ranges: seq<Range>, limit: nat) returns (result: seq<Range>)
    requires Disjoint(ranges) && NonEmpty(ranges)
    ensures Disjoint(result) && NonEmpty(result)
    ensures forall i :: 0 <= i < |result| ==> result[i].to <= limit
    ensures forall k: nat :: Holds(result, k) <==> Holds(ranges, k) && k < limit
  {
    result := [];
    for i := 0 to |ranges|
      invariant Disjoint(result) && NonEmpty(result)
      invariant forall m :: 0 <= m < |result| ==> i > 0 && result[m].to <= ranges[i - 1].to && result[m].to <= limit
      invariant forall k: nat :: Holds(result, k) <==> Holds(ranges[..i], k) && k < limit
    {
      HoldsAppend(ranges[..i], ranges[i]);
      assert ranges[..i + 1] == ranges[..i] + [ranges[i]];
      if ranges[i].from < limit {
        var part := Range(ranges[i].from, if ranges[i].to <= limit then ranges[i].to else limit);
        HoldsAppend(result, part);
        result := result + [part];
      }
    }
    assert ranges[..|ranges|] == ranges;
  }
}
