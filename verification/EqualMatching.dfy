/**
 * The equality matcher of packages/agent-edit/src/ordered-matching.ts: an exact longest common
 * subsequence on the keys both sides share, or, when its table would be too large, a longest
 * chain of the keys that occur once on each side (patience sorting).
 */
module EqualMatching {
  import opened Wrappers
  import opened OrderedMatching

  // ------------------------------------------------------------------------------------------
  // What the two paths promise
  // ------------------------------------------------------------------------------------------

  /** In-order pairs of equal keys. */
  ghost predicate CommonSubsequence<K>(a: seq<K>, b: seq<K>, ms: seq<Pair>) {
    && Ordered(ms)
    && Within(ms, 0, |a|, 0, |b|)
    && forall p :: 0 <= p < |ms| ==> a[ms[p].0] == b[ms[p].1]
  }

  ghost predicate OccursOnce<K>(s: seq<K>, i: nat) {
    && i < |s|
    && forall k :: 0 <= k < |s| && s[k] == s[i] ==> k == i
  }

  /** A common subsequence of keys that occur once on each side. */
  ghost predicate UniqueChain<K>(a: seq<K>, b: seq<K>, ms: seq<Pair>) {
    && CommonSubsequence(a, b, ms)
    && forall p :: 0 <= p < |ms| ==> OccursOnce(a, ms[p].0) && OccursOnce(b, ms[p].1)
  }

  /** The indices below `n` whose key is in `keys`, ascending. */
  ghost function Kept<K>(a: seq<K>, keys: set<K>, n: nat): (kept: seq<nat>)
    requires n <= |a|
    ensures forall p :: 0 <= p < |kept| ==> kept[p] < n && a[kept[p]] in keys
    ensures forall p, q :: 0 <= p < q < |kept| ==> kept[p] < kept[q]
  {
    if n == 0 then []
    else if a[n - 1] in keys then Kept(a, keys, n - 1) + [n - 1]
    else Kept(a, keys, n - 1)
  }

  lemma {:induction false} KeptHas<K>(a: seq<K>, keys: set<K>, n: nat, i: nat)
    requires i < n <= |a| && a[i] in keys
    ensures i in Kept(a, keys, n)
  {
    if i < n - 1 {
      KeptHas(a, keys, n - 1, i);
    } else {
      assert Kept(a, keys, n)[|Kept(a, keys, n - 1)|] == i;
    }
  }

  ghost function Keys<K>(s: seq<K>): set<K> {
    set k | k in s
  }

  /** The exact path is taken: nothing is shared, or the table of shared keys is small enough. */
  ghost predicate FitsExactly<K>(a: seq<K>, b: seq<K>) {
    var rows, columns := |Kept(a, Keys(b), |a|)|, |Kept(b, Keys(a), |b|)|;
    rows == 0 || columns == 0 || (rows + 1) * (columns + 1) <= MAX_EQUAL_MATCH_CELLS
  }

  // ------------------------------------------------------------------------------------------
  // The exact path
  // ------------------------------------------------------------------------------------------

  function EqualWeight<K(==)>(a: seq<K>, b: seq<K>, ai: seq<nat>, bi: seq<nat>): Weight {
    (i: nat, j: nat) =>
      if i < |ai| && j < |bi| && ai[i] < |a| && bi[j] < |b| && a[ai[i]] == b[bi[j]] then 1 else 0
  }

  lemma {:induction false} UnitTotal(w: Weight, ms: seq<Pair>)
    requires forall p :: 0 <= p < |ms| ==> w(ms[p].0, ms[p].1) == 1
    ensures Total(w, ms) == |ms|
  {
    if ms != [] { UnitTotal(w, ms[1..]); }
  }

  lemma {:induction false} OrderedIsShort(ms: seq<Pair>, rows: nat, columns: nat, p: nat)
    requires Ordered(ms) && Within(ms, 0, rows, 0, columns) && p < |ms|
    ensures ms[p].0 >= p
  {
    if p > 0 { OrderedIsShort(ms, rows, columns, p - 1); }
  }

  /** With weights of 0 and 1 a matching weighs its length, so a small table never wraps. */
  lemma {:induction false} UnitWeightsFit(w: Weight, rows: nat, columns: nat)
    requires forall i, j :: w(i, j) <= 1
    requires rows < UINT32_LIMIT
    ensures FitsTable(w, 0, rows, 0, columns)
    ensures forall ms :: Matching(w, ms, 0, rows, 0, columns) ==> Total(w, ms) == |ms|
  {
    forall ms | Matching(w, ms, 0, rows, 0, columns)
      ensures Total(w, ms) == |ms| < UINT32_LIMIT
    {
      UnitTotal(w, ms);
      if ms != [] { OrderedIsShort(ms, rows, columns, |ms| - 1); }
    }
  }

  function Mapped(ms: seq<Pair>, ai: seq<nat>, bi: seq<nat>): (out: seq<Pair>)
    requires Within(ms, 0, |ai|, 0, |bi|)
    ensures |out| == |ms|
    ensures forall p :: 0 <= p < |ms| ==> out[p] == (ai[ms[p].0], bi[ms[p].1])
  {
    seq(|ms|, p requires 0 <= p < |ms| && Within(ms, 0, |ai|, 0, |bi|) => (ai[ms[p].0], bi[ms[p].1]))
  }

  ghost function ListedAt(s: seq<nat>, v: nat): (i: nat)
    requires v in s
    ensures i < |s| && s[i] == v
  {
    var i :| 0 <= i < |s| && s[i] == v;
    i
  }

  /** Dropping the keys absent from the other side loses no common subsequence. */
  lemma {:induction false} Filtered<K>(a: seq<K>, b: seq<K>, ai: seq<nat>, bi: seq<nat>, ms: seq<Pair>)
    returns (out: seq<Pair>)
    requires ai == Kept(a, Keys(b), |a|) && bi == Kept(b, Keys(a), |b|)
    requires CommonSubsequence(a, b, ms)
    ensures |out| == |ms|
    ensures Ordered(out) && Within(out, 0, |ai|, 0, |bi|)
    ensures forall p :: 0 <= p < |out| ==> a[ai[out[p].0]] == b[bi[out[p].1]]
  {
    forall p | 0 <= p < |ms| ensures ms[p].0 in ai && ms[p].1 in bi {
      assert a[ms[p].0] == b[ms[p].1];
      KeptHas(a, Keys(b), |a|, ms[p].0);
      KeptHas(b, Keys(a), |b|, ms[p].1);
    }
    out := seq(|ms|, p requires 0 <= p < |ms| && ms[p].0 in ai && ms[p].1 in bi =>
                 (ListedAt(ai, ms[p].0), ListedAt(bi, ms[p].1)));
    assert Back: forall p :: 0 <= p < |ms| ==>
      out[p].0 < |ai| && out[p].1 < |bi| && ai[out[p].0] == ms[p].0 && bi[out[p].1] == ms[p].1;
    forall p, q | 0 <= p < q < |out| ensures out[p].0 < out[q].0 && out[p].1 < out[q].1 {
      assert ms[p].0 < ms[q].0 && ms[p].1 < ms[q].1;
      ListedAtIsMonotone(ai, out[p].0, out[q].0);
      ListedAtIsMonotone(bi, out[p].1, out[q].1);
    }
  }

  lemma ListedAtIsMonotone(s: seq<nat>, i: nat, j: nat)
    requires forall p, q :: 0 <= p < q < |s| ==> s[p] < s[q]
    requires i < |s| && j < |s| && s[i] < s[j]
    ensures i < j
  {}

  lemma {:induction false} MappedIsCommon<K>(a: seq<K>, b: seq<K>, ai: seq<nat>, bi: seq<nat>, ms: seq<Pair>)
    requires ai == Kept(a, Keys(b), |a|) && bi == Kept(b, Keys(a), |b|)
    requires Matching(EqualWeight(a, b, ai, bi), ms, 0, |ai|, 0, |bi|)
    ensures CommonSubsequence(a, b, Mapped(ms, ai, bi))
  {
    var out := Mapped(ms, ai, bi);
    forall p | 0 <= p < |out| ensures a[out[p].0] == b[out[p].1] {
      assert EqualWeight(a, b, ai, bi)(ms[p].0, ms[p].1) > 0;
    }
  }

  /** A heaviest matching of the shared keys, mapped back, is a longest common subsequence. */
  lemma {:induction false} ExactIsLongest<K>(a: seq<K>, b: seq<K>, ai: seq<nat>, bi: seq<nat>, ms: seq<Pair>)
    requires ai == Kept(a, Keys(b), |a|) && bi == Kept(b, Keys(a), |b|)
    requires Heaviest(EqualWeight(a, b, ai, bi), ms, 0, |ai|, 0, |bi|)
    requires |ai| < UINT32_LIMIT
    ensures CommonSubsequence(a, b, Mapped(ms, ai, bi))
    ensures forall other :: CommonSubsequence(a, b, other) ==> |other| <= |ms|
  {
    var w := EqualWeight(a, b, ai, bi);
    MappedIsCommon(a, b, ai, bi, ms);
    UnitWeightsFit(w, |ai|, |bi|);
    forall other | CommonSubsequence(a, b, other) ensures |other| <= |ms| {
      var filtered := Filtered(a, b, ai, bi, other);
      assert Matching(w, filtered, 0, |ai|, 0, |bi|);
    }
  }

  // ------------------------------------------------------------------------------------------
  // The fallback: a longest increasing run of the unique keys
  // ------------------------------------------------------------------------------------------

  /** The piles' tops: `tails[k]` ends a run of length k + 1, and the tops increase. */
  ghost predicate Piles(candidates: seq<Pair>, tails: seq<nat>, rank: seq<nat>) {
    && |rank| <= |candidates|
    && (forall k :: 0 <= k < |tails| ==> tails[k] < |rank| && rank[tails[k]] == k + 1)
    && (forall k, l :: 0 <= k < l < |tails| ==> candidates[tails[k]].1 < candidates[tails[l]].1)
  }

  /** Candidate `d`'s pile has a top no higher than it. */
  ghost predicate ToppedAt(candidates: seq<Pair>, tails: seq<nat>, rank: seq<nat>, d: nat) {
    && d < |rank| <= |candidates|
    && 1 <= rank[d] <= |tails| && tails[rank[d] - 1] < |candidates|
    && candidates[tails[rank[d] - 1]].1 <= candidates[d].1
  }

  ghost predicate Topped(candidates: seq<Pair>, tails: seq<nat>, rank: seq<nat>) {
    && Piles(candidates, tails, rank)
    && forall d :: 0 <= d < |rank| ==> ToppedAt(candidates, tails, rank, d)
  }

  /** A back link steps down one rank, to an earlier and smaller candidate. */
  ghost predicate LinkedAt(candidates: seq<Pair>, previous: seq<int>, rank: seq<nat>, d: nat) {
    && d < |rank| == |previous| <= |candidates|
    && if rank[d] == 1 then previous[d] == -1 else
         && 0 <= previous[d] < d && rank[previous[d]] + 1 == rank[d]
         && candidates[previous[d]].1 < candidates[d].1
  }

  ghost predicate Linked(candidates: seq<Pair>, previous: seq<int>, rank: seq<nat>) {
    && |previous| == |rank| <= |candidates|
    && forall d :: 0 <= d < |rank| ==> LinkedAt(candidates, previous, rank, d)
  }

  /** A candidate outranks every earlier one below it. */
  ghost predicate Ranked(candidates: seq<Pair>, rank: seq<nat>) {
    && |rank| <= |candidates|
    && (forall d, e :: 0 <= d < e < |rank| && candidates[d].1 < candidates[e].1 ==> rank[d] < rank[e])
  }

  /** What patience sorting knows; `rank[d]` is the length of the longest run ending at `d`. */
  ghost predicate Patience(candidates: seq<Pair>, tails: seq<nat>, previous: seq<int>, rank: seq<nat>) {
    Topped(candidates, tails, rank) && Linked(candidates, previous, rank) && Ranked(candidates, rank)
  }

  /** `lo` is the first pile whose top is not below candidate `c`. */
  ghost predicate FirstPile(candidates: seq<Pair>, tails: seq<nat>, c: nat, lo: nat) {
    && c < |candidates| && lo <= |tails|
    && (forall k :: 0 <= k < |tails| ==> tails[k] < |candidates|)
    && (forall k :: 0 <= k < lo ==> candidates[tails[k]].1 < candidates[c].1)
    && (forall k :: lo <= k < |tails| ==> candidates[tails[k]].1 >= candidates[c].1)
  }

  function Placed(tails: seq<nat>, lo: nat, c: nat): (placed: seq<nat>)
    requires lo <= |tails|
    ensures |placed| == if lo < |tails| then |tails| else |tails| + 1
    ensures forall k :: 0 <= k < |placed| ==> placed[k] == if k == lo then c else tails[k]
  {
    if lo < |tails| then tails[lo := c] else tails + [c]
  }

  lemma PilesStep(candidates: seq<Pair>, tails: seq<nat>, rank: seq<nat>, lo: nat)
    requires Piles(candidates, tails, rank) && FirstPile(candidates, tails, |rank|, lo)
    ensures Piles(candidates, Placed(tails, lo, |rank|), rank + [lo + 1])
  {
    var rank', tails' := rank + [lo + 1], Placed(tails, lo, |rank|);
    forall k | 0 <= k < |tails'| ensures tails'[k] < |rank'| && rank'[tails'[k]] == k + 1 {
      if k != lo { assert rank[tails[k]] == k + 1; }
    }
    forall k, l | 0 <= k < l < |tails'| ensures candidates[tails'[k]].1 < candidates[tails'[l]].1 {
      if k != lo && l != lo { assert candidates[tails[k]].1 < candidates[tails[l]].1; }
      if k == lo { assert candidates[tails[k]].1 < candidates[tails[l]].1; }
    }
  }

  lemma ToppedStep(candidates: seq<Pair>, tails: seq<nat>, rank: seq<nat>, lo: nat)
    requires Topped(candidates, tails, rank) && FirstPile(candidates, tails, |rank|, lo)
    ensures Topped(candidates, Placed(tails, lo, |rank|), rank + [lo + 1])
  {
    PilesStep(candidates, tails, rank, lo);
    var rank', tails' := rank + [lo + 1], Placed(tails, lo, |rank|);
    forall d | 0 <= d < |rank'| ensures ToppedAt(candidates, tails', rank', d) {
      if d < |rank| { assert ToppedAt(candidates, tails, rank, d); }
    }
  }

  lemma RankedStep(candidates: seq<Pair>, tails: seq<nat>, rank: seq<nat>, lo: nat)
    requires Topped(candidates, tails, rank) && FirstPile(candidates, tails, |rank|, lo)
    requires Ranked(candidates, rank)
    ensures Ranked(candidates, rank + [lo + 1])
  {
    var rank' := rank + [lo + 1];
    forall d, e | 0 <= d < e < |rank'| && candidates[d].1 < candidates[e].1 ensures rank'[d] < rank'[e] {
      if e == |rank| { assert ToppedAt(candidates, tails, rank, d); }
    }
  }

  lemma LinkedStep(candidates: seq<Pair>, tails: seq<nat>, previous: seq<int>, rank: seq<nat>, lo: nat)
    requires Piles(candidates, tails, rank) && FirstPile(candidates, tails, |rank|, lo)
    requires Linked(candidates, previous, rank)
    ensures Linked(candidates, previous + [if lo > 0 then tails[lo - 1] else -1], rank + [lo + 1])
  {
    var previous', rank' := previous + [if lo > 0 then tails[lo - 1] else -1], rank + [lo + 1];
    forall d | 0 <= d < |rank'| ensures LinkedAt(candidates, previous', rank', d) {
      if d < |rank| { assert LinkedAt(candidates, previous, rank, d); }
    }
  }

  ghost predicate FirstIncreasing(candidates: seq<Pair>) {
    forall c, d :: 0 <= c < d < |candidates| ==> candidates[c].0 < candidates[d].0
  }

  /** A chain of candidates, given by their indices, is no longer than the rank of its last one. */
  lemma {:induction false} ChainIsRanked(candidates: seq<Pair>, rank: seq<nat>, at: seq<nat>, p: nat)
    requires FirstIncreasing(candidates) && Ranked(candidates, rank) && |rank| == |candidates|
    requires forall d :: 0 <= d < |rank| ==> rank[d] >= 1
    requires forall q :: 0 <= q < |at| ==> at[q] < |candidates|
    requires forall q, r :: 0 <= q < r < |at| ==>
               candidates[at[q]].0 < candidates[at[r]].0 && candidates[at[q]].1 < candidates[at[r]].1
    requires p < |at|
    ensures p + 1 <= rank[at[p]]
  {
    if p > 0 {
      ChainIsRanked(candidates, rank, at, p - 1);
      assert candidates[at[p - 1]].0 < candidates[at[p]].0;
      assert at[p - 1] < at[p];
    }
  }

  /** No chain of candidates is longer than the number of piles. */
  lemma {:induction false} ChainIsBounded(candidates: seq<Pair>, tails: seq<nat>, rank: seq<nat>, chain: seq<Pair>)
    requires FirstIncreasing(candidates)
    requires Topped(candidates, tails, rank) && Ranked(candidates, rank) && |rank| == |candidates|
    requires Ordered(chain) && forall p :: 0 <= p < |chain| ==> chain[p] in candidates
    ensures |chain| <= |tails|
  {
    if chain != [] {
      var at := seq(|chain|, p requires 0 <= p < |chain| && chain[p] in candidates => PlaceOf(candidates, chain[p]));
      assert forall q :: 0 <= q < |at| ==> candidates[at[q]] == chain[q];
      forall d | 0 <= d < |rank| ensures rank[d] >= 1 { assert ToppedAt(candidates, tails, rank, d); }
      assert ToppedAt(candidates, tails, rank, at[|chain| - 1]);
      ChainIsRanked(candidates, rank, at, |chain| - 1);
    }
  }

  ghost function PlaceOf(candidates: seq<Pair>, pair: Pair): (i: nat)
    requires pair in candidates
    ensures i < |candidates| && candidates[i] == pair
  {
    var i :| 0 <= i < |candidates| && candidates[i] == pair;
    i
  }

  method LongestIncreasingRun(candidates: seq<Pair>) returns (out: seq<Pair>)
    requires FirstIncreasing(candidates)
    ensures Ordered(out) && forall p :: 0 <= p < |out| ==> out[p] in candidates
    ensures forall chain :: Ordered(chain) && (forall p :: 0 <= p < |chain| ==> chain[p] in candidates)
                            ==> |chain| <= |out|
  {
    var tails: seq<nat>, previous: seq<int> := [], [];
    ghost var rank: seq<nat> := [];
    for c := 0 to |candidates|
      invariant |rank| == c && Patience(candidates, tails, previous, rank)
    {
      var lo, hi := 0, |tails|;
      while lo < hi
        invariant lo <= hi <= |tails|
        invariant forall k :: 0 <= k < lo ==> candidates[tails[k]].1 < candidates[c].1
        invariant forall k :: hi <= k < |tails| ==> candidates[tails[k]].1 >= candidates[c].1
      {
        var mid := (lo + hi) / 2;
        if candidates[tails[mid]].1 < candidates[c].1 { lo := mid + 1; } else { hi := mid; }
      }
      ToppedStep(candidates, tails, rank, lo);
      RankedStep(candidates, tails, rank, lo);
      LinkedStep(candidates, tails, previous, rank, lo);
      previous := previous + [if lo > 0 then tails[lo - 1] else -1];
      tails := Placed(tails, lo, c);
      rank := rank + [lo + 1];
    }
    out := FollowLinks(candidates, tails, previous, rank);
    forall chain | Ordered(chain) && (forall p :: 0 <= p < |chain| ==> chain[p] in candidates)
      ensures |chain| <= |out|
    {
      ChainIsBounded(candidates, tails, rank, chain);
    }
  }

  /** The run that ends on the last pile, read backwards along the links. */
  method FollowLinks(candidates: seq<Pair>, tails: seq<nat>, previous: seq<int>, ghost rank: seq<nat>)
    returns (out: seq<Pair>)
    requires FirstIncreasing(candidates)
    requires Patience(candidates, tails, previous, rank) && |rank| == |candidates|
    ensures |out| == |tails|
    ensures Ordered(out) && forall p :: 0 <= p < |out| ==> out[p] in candidates
  {
    var reversed: seq<Pair> := [];
    var c := if |tails| > 0 then tails[|tails| - 1] else -1;
    while c >= 0
      invariant -1 <= c < |candidates|
      invariant |reversed| + (if c < 0 then 0 else rank[c]) == |tails|
      invariant forall p :: 0 <= p < |reversed| ==> reversed[p] in candidates
      invariant forall p, q :: 0 <= p < q < |reversed| ==> reversed[p].0 > reversed[q].0 && reversed[p].1 > reversed[q].1
      invariant c >= 0 ==> forall p :: 0 <= p < |reversed| ==> reversed[p].0 > candidates[c].0 && reversed[p].1 > candidates[c].1
    {
      assert LinkedAt(candidates, previous, rank, c);
      reversed := reversed + [candidates[c]];
      c := previous[c];
    }
    out := seq(|reversed|, p requires 0 <= p < |reversed| => reversed[|reversed| - 1 - p]);
  }

  // ------------------------------------------------------------------------------------------
  // The matcher
  // ------------------------------------------------------------------------------------------

  method Shared<K(==)>(a: seq<K>, b: seq<K>) returns (at: seq<nat>)
    ensures at == Kept(a, Keys(b), |a|)
  {
    var inB := set k | k in b;
    at := [];
    for i := 0 to |a|
      invariant at == Kept(a, Keys(b), i)
    {
      if a[i] in inB { at := at + [i]; }
    }
  }

  ghost function Occurrences<K>(keys: seq<K>, at: seq<nat>, key: K): nat
    requires forall p :: 0 <= p < |at| ==> at[p] < |keys|
  {
    if at == [] then 0
    else Occurrences(keys, at[..|at| - 1], key) + if keys[at[|at| - 1]] == key then 1 else 0
  }

  lemma {:induction false} OccurrencesAtLeast<K>(keys: seq<K>, at: seq<nat>, p: nat)
    requires forall p :: 0 <= p < |at| ==> at[p] < |keys|
    requires p < |at|
    ensures Occurrences(keys, at, keys[at[p]]) >= 1
    ensures forall q :: 0 <= q < |at| && q != p && keys[at[q]] == keys[at[p]] ==> Occurrences(keys, at, keys[at[p]]) >= 2
  {
    var last := |at| - 1;
    if p < last {
      OccurrencesAtLeast(keys, at[..last], p);
    } else {
      forall q | 0 <= q < last && keys[at[q]] == keys[at[p]]
        ensures Occurrences(keys, at[..last], keys[at[p]]) >= 1
      {
        OccurrencesAtLeast(keys, at[..last], q);
      }
    }
  }

  lemma {:induction false} OccurrencesAtMost<K>(keys: seq<K>, at: seq<nat>, key: K)
    requires forall p :: 0 <= p < |at| ==> at[p] < |keys|
    ensures Occurrences(keys, at, key) == 0 || exists p :: 0 <= p < |at| && keys[at[p]] == key
    ensures Occurrences(keys, at, key) <= 1
         || exists p, q :: 0 <= p < q < |at| && keys[at[p]] == key && keys[at[q]] == key
  {
    if at != [] { OccurrencesAtMost(keys, at[..|at| - 1], key); }
  }

  /** Counting the shared indices finds the keys that occur once in the whole sequence. */
  lemma {:induction false} CountedOnce<K>(a: seq<K>, keys: set<K>, at: seq<nat>, i: nat)
    requires at == Kept(a, keys, |a|) && i < |a| && a[i] in keys
    ensures Occurrences(a, at, a[i]) == 1 <==> OccursOnce(a, i)
  {
    KeptHas(a, keys, |a|, i);
    var p := ListedAt(at, i);
    OccurrencesAtLeast(a, at, p);
    OccurrencesAtMost(a, at, a[i]);
    if Occurrences(a, at, a[i]) == 1 {
      forall k | 0 <= k < |a| && a[k] == a[i] ensures k == i {
        KeptHas(a, keys, |a|, k);
        var q := ListedAt(at, k);
        assert q == p;
      }
    }
  }

  method Count<K(==)>(keys: seq<K>, at: seq<nat>) returns (seen: map<K, nat>)
    requires forall p :: 0 <= p < |at| ==> at[p] < |keys|
    ensures forall p :: 0 <= p < |at| ==> keys[at[p]] in seen
    ensures forall k :: k in seen ==> seen[k] == Occurrences(keys, at, k)
  {
    seen := map[];
    for p := 0 to |at|
      invariant forall q :: 0 <= q < p ==> keys[at[q]] in seen
      invariant forall k :: k in seen ==> seen[k] == Occurrences(keys, at[..p], k)
      invariant forall k :: k !in seen ==> Occurrences(keys, at[..p], k) == 0
    {
      assert at[..p + 1][..p] == at[..p];
      var key := keys[at[p]];
      seen := seen[key := (if key in seen then seen[key] else 0) + 1];
    }
    assert at[..|at|] == at;
  }

  ghost predicate UniquePair<K>(a: seq<K>, b: seq<K>, pair: Pair) {
    OccursOnce(a, pair.0) && OccursOnce(b, pair.1) && a[pair.0] == b[pair.1]
  }

  /** Where each key that occurs once in `b`, and somewhere in `a`, stands in `b`. */
  method UniquePositions<K(==)>(b: seq<K>, ghost keys: set<K>, bi: seq<nat>) returns (position: map<K, nat>)
    requires bi == Kept(b, keys, |b|)
    ensures forall k :: k in position ==> OccursOnce(b, position[k]) && b[position[k]] == k
    ensures forall j :: 0 <= j < |b| && b[j] in keys && OccursOnce(b, j) ==> b[j] in position && position[b[j]] == j
  {
    var countB := Count(b, bi);
    position := map[];
    for p := 0 to |bi|
      invariant forall k :: k in position ==> OccursOnce(b, position[k]) && b[position[k]] == k
      invariant forall q :: 0 <= q < p && OccursOnce(b, bi[q]) ==> b[bi[q]] in position
    {
      var j := bi[p];
      CountedOnce(b, keys, bi, j);
      if countB[b[j]] == 1 { position := position[b[j] := j]; }
    }
    forall j | 0 <= j < |b| && b[j] in keys && OccursOnce(b, j)
      ensures b[j] in position && position[b[j]] == j
    {
      KeptHas(b, keys, |b|, j);
      assert bi[ListedAt(bi, j)] == j;
    }
  }

  /** Index `i` has been looked up: its pair is a candidate if its key is unique on both sides. */
  ghost predicate LookedUp<K>(a: seq<K>, position: map<K, nat>, candidates: seq<Pair>, i: nat) {
    OccursOnce(a, i) && a[i] in position ==> (i, position[a[i]]) in candidates
  }

  /** The candidates found by looking up the indices seen so far, in order. */
  ghost predicate Collected<K>(a: seq<K>, b: seq<K>, position: map<K, nat>, seen: seq<nat>, candidates: seq<Pair>) {
    && FirstIncreasing(candidates)
    && (forall c :: 0 <= c < |candidates| ==> UniquePair(a, b, candidates[c]))
    && (forall c :: 0 <= c < |candidates| ==> seen != [] && candidates[c].0 <= seen[|seen| - 1])
    && forall q :: 0 <= q < |seen| ==> seen[q] < |a| && LookedUp(a, position, candidates, seen[q])
  }

  lemma CollectsOne<K>(a: seq<K>, b: seq<K>, position: map<K, nat>, seen: seq<nat>, candidates: seq<Pair>, i: nat, pair: Pair)
    requires Collected(a, b, position, seen, candidates) && i < |a| && (seen != [] ==> seen[|seen| - 1] < i)
    requires UniquePair(a, b, pair) && pair.0 == i && a[i] in position && position[a[i]] == pair.1
    ensures Collected(a, b, position, seen + [i], candidates + [pair])
  {
    var grown := candidates + [pair];
    assert grown[|candidates|] == pair;
    forall q | 0 <= q < |seen| ensures LookedUp(a, position, grown, seen[q]) { assert LookedUp(a, position, candidates, seen[q]); }
  }

  lemma CollectsNone<K>(a: seq<K>, b: seq<K>, position: map<K, nat>, seen: seq<nat>, candidates: seq<Pair>, i: nat)
    requires Collected(a, b, position, seen, candidates) && i < |a| && (seen != [] ==> seen[|seen| - 1] < i)
    requires !OccursOnce(a, i) || a[i] !in position
    ensures Collected(a, b, position, seen + [i], candidates)
  {
  }

  lemma OneMoreSeen(at: seq<nat>, p: nat)
    requires p < |at|
    ensures at[..p + 1] == at[..p] + [at[p]]
  {
  }

  /** Every pair of keys unique on both sides, in `a`'s order. */
  method Candidates<K(==)>(a: seq<K>, b: seq<K>, ai: seq<nat>, bi: seq<nat>) returns (candidates: seq<Pair>)
    requires ai == Kept(a, Keys(b), |a|) && bi == Kept(b, Keys(a), |b|)
    ensures FirstIncreasing(candidates)
    ensures forall c :: 0 <= c < |candidates| ==> UniquePair(a, b, candidates[c])
    ensures forall pair: Pair :: UniquePair(a, b, pair) ==> pair in candidates
  {
    var countA := Count(a, ai);
    var position := UniquePositions(b, Keys(a), bi);
    candidates := [];
    for p := 0 to |ai|
      invariant Collected(a, b, position, ai[..p], candidates)
    {
      var i := ai[p];
      CountedOnce(a, Keys(b), ai, i);
      OneMoreSeen(ai, p);
      if countA[a[i]] == 1 && a[i] in position {
        CollectsOne(a, b, position, ai[..p], candidates, i, (i, position[a[i]]));
        candidates := candidates + [(i, position[a[i]])];
      } else {
        CollectsNone(a, b, position, ai[..p], candidates, i);
      }
    }
    assert ai[..|ai|] == ai;
    forall pair: Pair | UniquePair(a, b, pair) ensures pair in candidates {
      FoundByLookup(a, b, ai, position, candidates, pair);
    }
  }

  lemma FoundByLookup<K>(a: seq<K>, b: seq<K>, ai: seq<nat>, position: map<K, nat>, candidates: seq<Pair>, pair: Pair)
    requires ai == Kept(a, Keys(b), |a|)
    requires forall j :: 0 <= j < |b| && b[j] in Keys(a) && OccursOnce(b, j) ==> b[j] in position && position[b[j]] == j
    requires forall q :: 0 <= q < |ai| ==> LookedUp(a, position, candidates, ai[q])
    requires UniquePair(a, b, pair)
    ensures pair in candidates
  {
    assert a[pair.0] in Keys(b) && b[pair.1] in Keys(a);
    KeptHas(a, Keys(b), |a|, pair.0);
    assert LookedUp(a, position, candidates, ai[ListedAt(ai, pair.0)]);
    assert position[b[pair.1]] == pair.1;
  }

  /** The fallback returns a longest chain of the keys that are unique on both sides. */
  lemma UniqueChainsAreCandidates<K>(a: seq<K>, b: seq<K>, candidates: seq<Pair>, ms: seq<Pair>)
    requires forall c :: 0 <= c < |candidates| ==> UniquePair(a, b, candidates[c])
    requires forall pair: Pair :: UniquePair(a, b, pair) ==> pair in candidates
    ensures UniqueChain(a, b, ms) <==> Ordered(ms) && forall p :: 0 <= p < |ms| ==> ms[p] in candidates
  {
    if UniqueChain(a, b, ms) {
      forall p | 0 <= p < |ms| ensures ms[p] in candidates { assert UniquePair(a, b, ms[p]); }
    }
    if Ordered(ms) && forall p :: 0 <= p < |ms| ==> ms[p] in candidates {
      forall p | 0 <= p < |ms| ensures UniquePair(a, b, ms[p]) {
        assert ms[p] == candidates[PlaceOf(candidates, ms[p])];
      }
    }
  }

  lemma FactorIsBounded(x: nat, y: nat)
    requires y > 0
    ensures x <= x * y
  {}

  /** A table within the limit has few rows; with nothing shared on one side there are none. */
  lemma SmallTable<K>(a: seq<K>, b: seq<K>, ai: seq<nat>, bi: seq<nat>)
    requires ai == Kept(a, Keys(b), |a|) && bi == Kept(b, Keys(a), |b|)
    requires FitsExactly(a, b)
    ensures |ai| <= MAX_EQUAL_MATCH_CELLS
  {
    if |ai| > 0 {
      assert a[ai[0]] in b;
      var j :| 0 <= j < |b| && b[j] == a[ai[0]];
      KeptHas(b, Keys(a), |b|, j);
      FactorIsBounded(|ai| + 1, |bi| + 1);
    }
  }

  lemma ExactFits<K>(a: seq<K>, b: seq<K>, ai: seq<nat>, bi: seq<nat>)
    requires ai == Kept(a, Keys(b), |a|) && bi == Kept(b, Keys(a), |b|) && FitsExactly(a, b)
    ensures |ai| < UINT32_LIMIT && FitsTable(EqualWeight(a, b, ai, bi), 0, |ai|, 0, |bi|)
  {
    SmallTable(a, b, ai, bi);
    UnitWeightsFit(EqualWeight(a, b, ai, bi), |ai|, |bi|);
  }

  /** The fallback: a longest chain of the keys that occur once on each side. */
  method LongestUniqueChain<K(==)>(a: seq<K>, b: seq<K>, ai: seq<nat>, bi: seq<nat>) returns (matches: seq<Pair>)
    requires ai == Kept(a, Keys(b), |a|) && bi == Kept(b, Keys(a), |b|)
    ensures CommonSubsequence(a, b, matches) && UniqueChain(a, b, matches)
    ensures forall other :: UniqueChain(a, b, other) ==> |other| <= |matches|
  {
    var candidates := Candidates(a, b, ai, bi);
    matches := LongestIncreasingRun(candidates);
    UniqueChainsAreCandidates(a, b, candidates, matches);
    forall other | UniqueChain(a, b, other) ensures |other| <= |matches| {
      UniqueChainsAreCandidates(a, b, candidates, other);
    }
  }

  /**
   * The in-order pairs of equal keys, ascending in both. While the table of shared keys is small
   * enough they are a longest common subsequence of the whole inputs; otherwise they are a
   * longest chain of the keys that occur once on each side. Never a wrong pair either way.
   */
  method EqualOrderedMatches<K(==)>(a: seq<K>, b: seq<K>) returns (matches: seq<Pair>)
    ensures CommonSubsequence(a, b, matches)
    ensures FitsExactly(a, b) ==> forall other :: CommonSubsequence(a, b, other) ==> |other| <= |matches|
    ensures !FitsExactly(a, b) ==>
              && UniqueChain(a, b, matches)
              && forall other :: UniqueChain(a, b, other) ==> |other| <= |matches|
  {
    var ai := Shared(a, b);
    var bi := Shared(b, a);
    var w := EqualWeight(a, b, ai, bi);
    var exact := WeightedOrderedMatches(w, 0, |ai|, 0, |bi|, MAX_EQUAL_MATCH_CELLS);
    if exact.Some? {
      ExactFits(a, b, ai, bi);
      ExactIsLongest(a, b, ai, bi, exact.value);
      return Mapped(exact.value, ai, bi);
    }
    matches := LongestUniqueChain(a, b, ai, bi);
  }
}
