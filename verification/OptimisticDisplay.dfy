/**
 * What readers see of the projected order: exactly when the rows show as the fold of the pending
 * placements has them (packages/resource-replica/src/optimistic-sibling-order.ts).
 */
module OptimisticDisplay {
  import opened Collation
  import opened OptimisticOrder
  import opened Records
  import opened SiblingLists
  import opened Siblings
  import opened Sorting
  import opened Wrappers

  // ------------------------------------------------------------------------------------------
  // Which parents the fold orders by rank
  // ------------------------------------------------------------------------------------------

  predicate PositionsAt(entries: Entries, ops: seq<Op>, i: nat, parent: EntryId)
    requires i < |ops|
  {
    IsRow(entries, ops[i].subject) && ops[i].position.Some? && TargetOf(entries, LastOps(ops), ops[i]) == parent
  }

  /** One of the first `n` placements asks for a position under the parent. */
  predicate PositionedTo(entries: Entries, ops: seq<Op>, n: nat, parent: EntryId)
    requires n <= |ops|
  {
    exists i :: 0 <= i < n && PositionsAt(entries, ops, i, parent)
  }

  /** A manual parent that listed a child before the placements, or one a placement positions a row under. */
  predicate RankedBy(projected: Entries, canonical: Entries, ops: seq<Op>, n: nat, parent: EntryId)
    requires n <= |ops|
  {
    || (IsManualParent(projected, parent) && HasChild(BaseParents(projected, canonical, ops), parent))
    || PositionedTo(projected, ops, n, parent)
  }

  lemma {:induction false} FoldedManual(entries: Entries, collate: (string, string) -> bool, ops: seq<Op>, baseline: Fold, n: nat,
                                        parent: EntryId)
    requires Keyed(entries) && Orders(collate) && Sound(entries, collate, baseline) && n <= |ops|
    ensures parent in Folded(entries, collate, ops, baseline, n).manual <==>
            parent in baseline.manual || PositionedTo(entries, ops, n, parent)
  {
    if n > 0 {
      var before := Folded(entries, collate, ops, baseline, n - 1);
      FoldedManual(entries, collate, ops, baseline, n - 1, parent);
      assert PositionedTo(entries, ops, n, parent) <==>
             PositionedTo(entries, ops, n - 1, parent) || PositionsAt(entries, ops, n - 1, parent);
      if IsRow(entries, ops[n - 1].subject) {
        PlacedKeepsPartition(entries, collate, LastOps(ops), before, ops[n - 1]);
        PlacedMarks(entries, collate, LastOps(ops), before, ops[n - 1], parent);
      }
    }
  }

  lemma PlacedMarks(entries: Entries, collate: (string, string) -> bool, last: map<EntryId, string>, fold: Fold, op: Op,
                    parent: EntryId)
    requires IsRow(entries, op.subject) && AreRows(entries, ListAt(Lifted(fold, op.subject).0, TargetOf(entries, last, op)))
    ensures parent in Placed(entries, collate, last, fold, op).manual <==>
            parent in fold.manual || (op.position.Some? && TargetOf(entries, last, op) == parent)
  {
  }

  lemma RankedExactly(projected: Entries, canonical: Entries, collate: (string, string) -> bool, ops: seq<Op>, baseline: Fold,
                      n: nat, parent: EntryId)
    requires Keyed(projected) && Orders(collate) && BaselineOf(projected, canonical, collate, ops, baseline) && n <= |ops|
    ensures parent in Folded(projected, collate, ops, baseline, n).manual <==> RankedBy(projected, canonical, ops, n, parent)
  {
    FoldedManual(projected, collate, ops, baseline, n, parent);
    assert parent in baseline.manual <==> HasChild(baseline.parents, parent) && IsManualParent(projected, parent);
  }

  // ------------------------------------------------------------------------------------------
  // What is displayed
  // ------------------------------------------------------------------------------------------

  /** The rows of the parent as any reader of the catalog lists them. */
  ghost predicate Displays(out: Entries, collate: (string, string) -> bool, parent: EntryId, ids: seq<EntryId>) {
    Holds(ParentMap(out), parent, ids) && SiblingLists.InOrder(out, collate, IsManualParent(out, parent), ids)
  }

  /** Readers show by rank exactly the parents the fold orders by rank. */
  predicate RanksShow(projected: Entries, canonical: Entries, ops: seq<Op>, parent: EntryId) {
    && (IsManualParent(projected, parent) ==> RankedBy(projected, canonical, ops, |ops|, parent))
    && (PositionedTo(projected, ops, |ops|, parent) ==> CanRank(projected, parent))
  }

  /** Where they do not, the rows show as they stood, by the ranks or names they had. */
  lemma ShownExactly(projected: Entries, collate: (string, string) -> bool, fold: Fold, parent: EntryId)
    requires Keyed(projected) && Sound(projected, collate, fold) && fold.parents == ParentMap(projected)
    requires parent in fold.lists && |fold.lists[parent]| <= Power(RANK_WIDTH)
    ensures Displays(Output(projected, fold, Marked(fold)), collate, parent, fold.lists[parent]) <==>
            || RanksAgree(projected, fold, parent)
            || SiblingLists.InOrder(projected, collate, IsManualParent(projected, parent), fold.lists[parent])
  {
    OutputKeeps(projected, fold, Marked(fold));
    assert Holds(fold.parents, parent, fold.lists[parent]);
    if RanksAgree(projected, fold, parent) {
      ShownAsFolded(projected, collate, fold, parent);
    } else {
      UnrankedInOrder(projected, collate, fold, parent, IsManualParent(projected, parent));
    }
  }

  /** The projection of the placements, by the fold that gives it. */
  ghost predicate Projects(projected: Entries, canonical: Entries, collate: (string, string) -> bool, ops: seq<Op>,
                           baseline: Fold, fold: Fold, out: Entries) {
    && Keyed(projected) && Orders(collate) && BaselineOf(projected, canonical, collate, ops, baseline)
    && fold == Folded(projected, collate, ops, baseline, |ops|) && fold.parents == ParentMap(projected)
    && out == Output(projected, fold, Marked(fold))
  }

  /**
   * A parent's rows show in the fold's order exactly when readers show by rank what the fold orders
   * by rank, up to the ranks or names they had happening to agree with it.
   */
  lemma DisplayIsFoldExactly(projected: Entries, canonical: Entries, collate: (string, string) -> bool, ops: seq<Op>,
                             baseline: Fold, fold: Fold, out: Entries, parent: EntryId)
    requires Projects(projected, canonical, collate, ops, baseline, fold, out) && HasChild(ParentMap(projected), parent)
    ensures parent in fold.lists
    ensures |fold.lists[parent]| <= Power(RANK_WIDTH) ==>
              (Displays(out, collate, parent, fold.lists[parent]) <==>
               || RanksShow(projected, canonical, ops, parent)
               || SiblingLists.InOrder(projected, collate, IsManualParent(projected, parent), fold.lists[parent]))
  {
    RankedExactly(projected, canonical, collate, ops, baseline, |ops|, parent);
    assert RanksAgree(projected, fold, parent) <==> RanksShow(projected, canonical, ops, parent);
    if |fold.lists[parent]| <= Power(RANK_WIDTH) { ShownExactly(projected, collate, fold, parent); }
  }

  /** Folds the unresolved placements over the canonical lists and ranks the rows to show the result. */
  method ProjectOptimisticSiblingOrder(projected: Entries, canonical: Entries, order: seq<EntryId>,
                                       collate: (string, string) -> bool, ops: seq<Op>)
    returns (out: Entries, ghost baseline: Fold, ghost fold: Fold)
    requires Keyed(projected) && Orders(collate) && Apart(order) && forall id :: id in projected <==> id in order
    ensures ops == [] ==> out == projected
    ensures ops != [] ==> Projects(projected, canonical, collate, ops, baseline, fold, out)
    ensures ops != [] ==> forall parent :: HasChild(ParentMap(projected), parent) ==>
              && parent in fold.lists
              && (|fold.lists[parent]| <= Power(RANK_WIDTH) ==>
                    (Displays(out, collate, parent, fold.lists[parent]) <==>
                     || RanksShow(projected, canonical, ops, parent)
                     || SiblingLists.InOrder(projected, collate, IsManualParent(projected, parent), fold.lists[parent])))
  {
    if ops == [] {
      baseline, fold := Fold(map[], map[], {}, {}), Fold(map[], map[], {}, {});
      return projected, baseline, fold;
    }
    var listed := Baseline(projected, canonical, order, collate, ops);
    var folded := FoldPlacements(projected, collate, ops, listed);
    FoldShowsParents(projected, canonical, collate, ops, listed, folded);
    out := AssignRanks(projected, folded);
    baseline, fold := listed, folded;
    forall parent | HasChild(ParentMap(projected), parent)
      ensures parent in fold.lists
      ensures |fold.lists[parent]| <= Power(RANK_WIDTH) ==>
                (Displays(out, collate, parent, fold.lists[parent]) <==>
                 || RanksShow(projected, canonical, ops, parent)
                 || SiblingLists.InOrder(projected, collate, IsManualParent(projected, parent), fold.lists[parent]))
    {
      DisplayIsFoldExactly(projected, canonical, collate, ops, baseline, fold, out, parent);
    }
  }

  lemma FoldShowsParents(projected: Entries, canonical: Entries, collate: (string, string) -> bool, ops: seq<Op>, baseline: Fold,
                         fold: Fold)
    requires Keyed(projected) && Orders(collate) && BaselineOf(projected, canonical, collate, ops, baseline)
    requires fold == Folded(projected, collate, ops, baseline, |ops|)
    ensures fold.parents == ParentMap(projected) && Marked(fold) <= fold.lists.Keys
  {
    assert ops[..|ops|] == ops;
    FoldedArrives(projected, collate, ops, baseline, |ops|);
    FoldedKeeps(projected, collate, ops, baseline, |ops|);
    AllArrive(projected, canonical, ops, fold);
  }

  /** There is one baseline, so one projection. */
  lemma BaselineIsUnique(projected: Entries, canonical: Entries, collate: (string, string) -> bool, ops: seq<Op>, a: Fold, b: Fold)
    requires Keyed(projected) && Orders(collate)
    requires BaselineOf(projected, canonical, collate, ops, a) && BaselineOf(projected, canonical, collate, ops, b)
    ensures a == b
  {
    forall parent ensures parent in a.lists <==> parent in b.lists {}
    forall parent | parent in a.lists ensures a.lists[parent] == b.lists[parent] {
      BaselineListIs(projected, canonical, collate, ops, a, parent);
      BaselineListIs(projected, canonical, collate, ops, b, parent);
      ListIsUnique(projected, a.parents, collate, IsManualParent(projected, parent), parent, a.lists[parent], b.lists[parent]);
    }
  }

  lemma BaselineListIs(projected: Entries, canonical: Entries, collate: (string, string) -> bool, ops: seq<Op>, fold: Fold,
                       parent: EntryId)
    requires BaselineOf(projected, canonical, collate, ops, fold) && parent in fold.lists
    ensures Holds(BaseParents(projected, canonical, ops), parent, fold.lists[parent])
    ensures SiblingLists.InOrder(projected, collate, IsManualParent(projected, parent), fold.lists[parent])
  {
    assert ListInOrder(projected, collate, fold, parent);
  }

  // ------------------------------------------------------------------------------------------
  // Two rows arriving one after the other
  // ------------------------------------------------------------------------------------------

  /** The row is not under the parent yet. */
  predicate Comes(fold: Fold, subject: EntryId, parent: EntryId) {
    subject !in fold.parents || fold.parents[subject] != parent
  }

  /** `now` is the fold after a placement without a position brought its row under the parent. */
  ghost predicate Arrives(entries: Entries, collate: (string, string) -> bool, last: map<EntryId, string>, fold: Fold, op: Op,
                          parent: EntryId, now: Fold) {
    && IsRow(entries, op.subject) && op.position.None? && TargetOf(entries, last, op) == parent && Comes(fold, op.subject, parent)
    && AreRows(entries, ListAt(Lifted(fold, op.subject).0, parent)) && now == Placed(entries, collate, last, fold, op)
  }

  lemma ArrivingIsSound(entries: Entries, collate: (string, string) -> bool, last: map<EntryId, string>, fold: Fold, op: Op,
                        parent: EntryId, now: Fold)
    requires Keyed(entries) && Orders(collate) && Sound(entries, collate, fold)
    requires Arrives(entries, collate, last, fold, op, parent, now)
    ensures Sound(entries, collate, now) && now.manual == fold.manual
    ensures now.parents == fold.parents[op.subject := parent] && parent in now.lists
    ensures parent in fold.manual ==> now.lists[parent] != [] && now.lists[parent][|now.lists[parent]| - 1] == op.subject
  {
    PlacedKeepsOrder(entries, collate, last, fold, op);
    PlacedKeepsPartition(entries, collate, last, fold, op);
  }

  lemma BothArrive(entries: Entries, collate: (string, string) -> bool, last: map<EntryId, string>, fold: Fold, parent: EntryId,
                   a: Op, b: Op, mid: Fold, end: Fold)
    requires Keyed(entries) && Orders(collate) && Sound(entries, collate, fold)
    requires Arrives(entries, collate, last, fold, a, parent, mid) && Arrives(entries, collate, last, mid, b, parent, end)
    ensures Sound(entries, collate, end) && end.manual == fold.manual && parent in end.lists
    ensures end.parents == fold.parents[a.subject := parent][b.subject := parent]
    ensures parent in fold.manual ==> end.lists[parent] != [] && end.lists[parent][|end.lists[parent]| - 1] == b.subject
  {
    ArrivingIsSound(entries, collate, last, fold, a, parent, mid);
    ArrivingIsSound(entries, collate, last, mid, b, parent, end);
  }

  lemma SwapParents(parents: Parents, a: EntryId, b: EntryId, parent: EntryId)
    ensures parents[a := parent][b := parent] == parents[b := parent][a := parent]
  {
  }

  lemma ArrivalsInFold(entries: Entries, collate: (string, string) -> bool, last: map<EntryId, string>, fold: Fold,
                       parent: EntryId, a: Op, b: Op, afterA: Fold, afterB: Fold, ab: Fold, ba: Fold)
    requires Keyed(entries) && Orders(collate) && Sound(entries, collate, fold) && a.subject != b.subject
    requires Arrives(entries, collate, last, fold, a, parent, afterA) && Arrives(entries, collate, last, afterA, b, parent, ab)
    requires Arrives(entries, collate, last, fold, b, parent, afterB) && Arrives(entries, collate, last, afterB, a, parent, ba)
    ensures parent in ab.lists && parent in ba.lists
    ensures ab.lists[parent] != ba.lists[parent] <==> parent in fold.manual
    ensures parent in fold.manual ==> ab.lists[parent] != [] && ab.lists[parent][|ab.lists[parent]| - 1] == b.subject
  {
    BothArrive(entries, collate, last, fold, parent, a, b, afterA, ab);
    BothArrive(entries, collate, last, fold, parent, b, a, afterB, ba);
    if parent !in fold.manual {
      SwapParents(fold.parents, a.subject, b.subject, parent);
      assert ListInOrder(entries, collate, ab, parent) && ListInOrder(entries, collate, ba, parent);
      ListIsUnique(entries, ab.parents, collate, false, parent, ab.lists[parent], ba.lists[parent]);
    }
  }

  /** A row nothing placed before, that stands elsewhere, is placed without a position. */
  predicate Arrival(projected: Entries, canonical: Entries, front: seq<Op>, op: Op, parent: EntryId) {
    && IsRow(projected, op.subject) && op.position.None? && RowOf(projected, op.subject).parentId == parent
    && !Touched(front, op.subject) && (IsRow(canonical, op.subject) ==> RowOf(canonical, op.subject).parentId != parent)
  }

  lemma {:induction false} FoldedPrefix(entries: Entries, collate: (string, string) -> bool, ops: seq<Op>, other: seq<Op>,
                                        baseline: Fold, n: nat)
    requires Keyed(entries) && Orders(collate) && Sound(entries, collate, baseline) && n <= |ops| && n <= |other|
    requires (forall i :: 0 <= i < n ==> ops[i] == other[i]) && LastOps(ops) == LastOps(other)
    ensures Folded(entries, collate, ops, baseline, n) == Folded(entries, collate, other, baseline, n)
  {
    if n > 0 { FoldedPrefix(entries, collate, ops, other, baseline, n - 1); }
  }

  /** The two orders leave the same last intents, touched rows and places before any placement. */
  lemma SwappedOps(projected: Entries, canonical: Entries, front: seq<Op>, a: Op, b: Op)
    requires a.subject != b.subject
    ensures LastOps(front + [a, b]) == LastOps(front + [b, a])
    ensures BaseParents(projected, canonical, front + [a, b]) == BaseParents(projected, canonical, front + [b, a])
  {
    LastOfTwo(front, a, b);
    LastOfTwo(front, b, a);
    var ab, ba := front + [a, b], front + [b, a];
    forall id ensures Touched(ab, id) <==> Touched(ba, id) {
      TouchedByTwo(front, a, b, id);
      TouchedByTwo(front, b, a, id);
    }
  }

  lemma LastOfTwo(front: seq<Op>, a: Op, b: Op)
    ensures LastOps(front + [a, b]) == LastOps(front)[a.subject := a.intentId][b.subject := b.intentId]
  {
    var all := front + [a, b];
    assert all[..|all| - 1] == front + [a];
    assert (front + [a])[..|front|] == front;
  }

  lemma TouchedByTwo(front: seq<Op>, a: Op, b: Op, id: EntryId)
    ensures Touched(front + [a, b], id) <==> Touched(front, id) || id == a.subject || id == b.subject
  {
    var all := front + [a, b];
    assert all[|front|] == a && all[|front| + 1] == b;
    if Touched(front, id) {
      var i :| 0 <= i < |front| && front[i].subject == id;
      assert all[i].subject == id;
    }
  }

  /** The last two placements of a projection, as arrivals in its fold. */
  lemma ArrivalsAre(projected: Entries, canonical: Entries, collate: (string, string) -> bool, front: seq<Op>, a: Op, b: Op,
                    baseline: Fold, parent: EntryId)
    returns (before: Fold, mid: Fold, end: Fold)
    requires Keyed(projected) && Orders(collate) && BaselineOf(projected, canonical, collate, front + [a, b], baseline)
    requires Arrival(projected, canonical, front, a, parent) && Arrival(projected, canonical, front, b, parent)
    requires a.subject != b.subject
    ensures before == Folded(projected, collate, front + [a, b], baseline, |front|) && Sound(projected, collate, before)
    ensures end == Folded(projected, collate, front + [a, b], baseline, |front| + 2)
    ensures Arrives(projected, collate, LastOps(front + [a, b]), before, a, parent, mid)
    ensures Arrives(projected, collate, LastOps(front + [a, b]), mid, b, parent, end)
  {
    var ops, n := front + [a, b], |front|;
    LastOfTwo(front, a, b);
    before := Folded(projected, collate, ops, baseline, n);
    mid := Folded(projected, collate, ops, baseline, n + 1);
    end := Folded(projected, collate, ops, baseline, n + 2);
    NotYetThere(projected, canonical, collate, front, a, b, baseline, parent);
    BothGetThere(projected, collate, ops, baseline, n, parent);
  }

  /** Two placements in a row without positions, each its subject's last and not there yet, arrive. */
  lemma BothGetThere(entries: Entries, collate: (string, string) -> bool, ops: seq<Op>, baseline: Fold, n: nat, parent: EntryId)
    requires Keyed(entries) && Orders(collate) && Sound(entries, collate, baseline) && n + 1 < |ops|
    requires Unplaced(entries, ops, n, parent) && Unplaced(entries, ops, n + 1, parent) && ops[n].subject != ops[n + 1].subject
    requires var before := Folded(entries, collate, ops, baseline, n);
             Comes(before, ops[n].subject, parent) && Comes(before, ops[n + 1].subject, parent)
    ensures var before := Folded(entries, collate, ops, baseline, n);
            var mid := Folded(entries, collate, ops, baseline, n + 1);
            && Sound(entries, collate, before) && Arrives(entries, collate, LastOps(ops), before, ops[n], parent, mid)
            && Arrives(entries, collate, LastOps(ops), mid, ops[n + 1], parent, Folded(entries, collate, ops, baseline, n + 2))
  {
    OneArrives(entries, collate, ops, baseline, n, parent);
    ArrivingIsSound(entries, collate, LastOps(ops), Folded(entries, collate, ops, baseline, n), ops[n], parent,
                    Folded(entries, collate, ops, baseline, n + 1));
    OneArrives(entries, collate, ops, baseline, n + 1, parent);
  }

  /** A placement to the parent without a position. */
  predicate Unplaced(entries: Entries, ops: seq<Op>, n: nat, parent: EntryId)
    requires n < |ops|
  {
    IsRow(entries, ops[n].subject) && ops[n].position.None? && TargetOf(entries, LastOps(ops), ops[n]) == parent
  }

  /** A placement without a position, its subject's last and not there yet, arrives. */
  lemma OneArrives(entries: Entries, collate: (string, string) -> bool, ops: seq<Op>, baseline: Fold, n: nat, parent: EntryId)
    requires Keyed(entries) && Orders(collate) && Sound(entries, collate, baseline) && n < |ops|
    requires Unplaced(entries, ops, n, parent) && Comes(Folded(entries, collate, ops, baseline, n), ops[n].subject, parent)
    ensures var before := Folded(entries, collate, ops, baseline, n);
            Sound(entries, collate, before)
            && Arrives(entries, collate, LastOps(ops), before, ops[n], parent, Folded(entries, collate, ops, baseline, n + 1))
  {
    PlacedKeepsPartition(entries, collate, LastOps(ops), Folded(entries, collate, ops, baseline, n), ops[n]);
  }

  lemma NotYetThere(projected: Entries, canonical: Entries, collate: (string, string) -> bool, front: seq<Op>, a: Op, b: Op,
                    baseline: Fold, parent: EntryId)
    requires Keyed(projected) && Orders(collate) && BaselineOf(projected, canonical, collate, front + [a, b], baseline)
    requires Arrival(projected, canonical, front, a, parent) && Arrival(projected, canonical, front, b, parent)
    ensures var before := Folded(projected, collate, front + [a, b], baseline, |front|);
            Comes(before, a.subject, parent) && Comes(before, b.subject, parent)
  {
    var ops := front + [a, b];
    assert ops[..|front|] == front;
    FoldedKeeps(projected, collate, ops, baseline, |front|);
    TouchedByTwo(front, a, b, a.subject);
    TouchedByTwo(front, a, b, b.subject);
  }

  /**
   * Where two rows arrive under a parent one after the other, the order they came in decides the
   * list exactly when placements or children made the parent one the fold orders by rank. The later
   * one is then the last row shown.
   */
  lemma ArrivalsShowInOrder(projected: Entries, canonical: Entries, collate: (string, string) -> bool, front: seq<Op>, a: Op,
                            b: Op, baseline: Fold, ab: Fold, out: Entries, otherBaseline: Fold, ba: Fold, otherOut: Entries,
                            parent: EntryId)
    requires Projects(projected, canonical, collate, front + [a, b], baseline, ab, out)
    requires Projects(projected, canonical, collate, front + [b, a], otherBaseline, ba, otherOut)
    requires Arrival(projected, canonical, front, a, parent) && Arrival(projected, canonical, front, b, parent)
    requires a.subject != b.subject
    ensures parent in ab.lists && parent in ba.lists
    ensures ab.lists[parent] != ba.lists[parent] <==> RankedBy(projected, canonical, front + [a, b], |front|, parent)
    ensures RankedBy(projected, canonical, front + [a, b], |front|, parent) && CanRank(projected, parent)
            && |ab.lists[parent]| <= Power(RANK_WIDTH) ==>
              && Displays(out, collate, parent, ab.lists[parent])
              && ab.lists[parent] != [] && ab.lists[parent][|ab.lists[parent]| - 1] == b.subject
  {
    var ops, other, n := front + [a, b], front + [b, a], |front|;
    SwappedOps(projected, canonical, front, a, b);
    BaselineIsUnique(projected, canonical, collate, ops, baseline, otherBaseline);
    var before, afterA, end := ArrivalsAre(projected, canonical, collate, front, a, b, baseline, parent);
    var before', afterB, end' := ArrivalsAre(projected, canonical, collate, front, b, a, baseline, parent);
    FoldedPrefix(projected, collate, ops, other, baseline, n);
    ArrivalsInFold(projected, collate, LastOps(ops), before, parent, a, b, afterA, afterB, ab, ba);
    RankedExactly(projected, canonical, collate, ops, baseline, n, parent);
    if RankedBy(projected, canonical, ops, n, parent) && CanRank(projected, parent) {
      assert ParentMap(projected)[a.subject] == parent;
      RankedStays(projected, canonical, ops, n, parent);
      DisplayIsFoldExactly(projected, canonical, collate, ops, baseline, ab, out, parent);
    }
  }

  lemma RankedStays(projected: Entries, canonical: Entries, ops: seq<Op>, n: nat, parent: EntryId)
    requires n <= |ops| && RankedBy(projected, canonical, ops, n, parent)
    ensures RankedBy(projected, canonical, ops, |ops|, parent)
  {
    if PositionedTo(projected, ops, n, parent) {
      var i :| 0 <= i < n && PositionsAt(projected, ops, i, parent);
      assert PositionsAt(projected, ops, i, parent);
    }
  }

  // ------------------------------------------------------------------------------------------
  // First arrivals in a manual folder
  // ------------------------------------------------------------------------------------------

  const AREA := EntryId("area")
  const MANUAL := EntryId("manual")
  const FIRST := EntryId("x")
  const SECOND := EntryId("y")

  /** Two files dragged from an area, where they were ranked "2" and "1", into an empty manual folder. */
  function DraggedRows(parent: EntryId): Entries {
    map[AREA := SourceEntry(AREA, "manuscript", false),
        MANUAL := RowEntry(Row(MANUAL, Folder, AREA, "folder", None, true)),
        FIRST := RowEntry(Row(FIRST, File, parent, "a", Some("2"), false)),
        SECOND := RowEntry(Row(SECOND, File, parent, "b", Some("1"), false))]
  }

  function DraggedOps(): seq<Op> {
    [Op(FIRST, "i", Some(MANUAL), None), Op(SECOND, "j", Some(MANUAL), None)]
  }

  /** The manual folder shows the second row first: neither the order they came in nor that of their names. */
  lemma FirstArrivalsShowByOldRanks(collate: (string, string) -> bool, baseline: Fold, fold: Fold, out: Entries)
    requires Orders(collate) && collate("a", "b") && !collate("b", "a")
    requires Projects(DraggedRows(MANUAL), DraggedRows(AREA), collate, DraggedOps(), baseline, fold, out)
    ensures MANUAL in fold.lists && fold.lists[MANUAL] == [FIRST, SECOND]
    ensures !Displays(out, collate, MANUAL, [FIRST, SECOND]) && Displays(out, collate, MANUAL, [SECOND, FIRST])
  {
    DraggedIsNotShown(collate, baseline, fold, out);
    ListIsHeld(DraggedRows(MANUAL), DraggedRows(AREA), collate, DraggedOps(), baseline, fold, out, MANUAL);
    OtherWayRound(out, collate, MANUAL, FIRST, SECOND);
  }

  lemma DraggedIsNotShown(collate: (string, string) -> bool, baseline: Fold, fold: Fold, out: Entries)
    requires Orders(collate) && collate("a", "b") && !collate("b", "a")
    requires Projects(DraggedRows(MANUAL), DraggedRows(AREA), collate, DraggedOps(), baseline, fold, out)
    ensures MANUAL in fold.lists && fold.lists[MANUAL] == [FIRST, SECOND] && !Displays(out, collate, MANUAL, [FIRST, SECOND])
  {
    var projected, ops := DraggedRows(MANUAL), DraggedOps();
    DraggedIsUnranked();
    DisplayIsFoldExactly(projected, DraggedRows(AREA), collate, ops, baseline, fold, out, MANUAL);
    RankedExactly(projected, DraggedRows(AREA), collate, ops, baseline, |ops|, MANUAL);
    assert ListInOrder(projected, collate, fold, MANUAL);
    DraggedList(collate, fold.lists[MANUAL]);
    RanksHoldTwo();
  }

  lemma ListIsHeld(projected: Entries, canonical: Entries, collate: (string, string) -> bool, ops: seq<Op>, baseline: Fold,
                   fold: Fold, out: Entries, parent: EntryId)
    requires Projects(projected, canonical, collate, ops, baseline, fold, out) && parent in fold.lists
    ensures Holds(ParentMap(out), parent, fold.lists[parent])
  {
    OutputKeeps(projected, fold, Marked(fold));
  }

  /** Of two rows one order or the other is shown. */
  lemma OtherWayRound(out: Entries, collate: (string, string) -> bool, parent: EntryId, x: EntryId, y: EntryId)
    requires Orders(collate) && Holds(ParentMap(out), parent, [x, y]) && !Displays(out, collate, parent, [x, y])
    ensures Displays(out, collate, parent, [y, x])
  {
    SiblingsAreOrdered(IsManualParent(out, parent), collate);
    assert x in [x, y] && y in [x, y];
    assert [x, y][0] != [x, y][1];
    forall id ensures id in [y, x] <==> id in [x, y] {}
    var rows, turned := RowsOf(out, [x, y]), RowsOf(out, [y, x]);
    assert rows[0] == turned[1] && rows[1] == turned[0];
  }

  lemma RanksHoldTwo()
    ensures Power(RANK_WIDTH) >= 2
  {
    PowerRises(1, RANK_WIDTH);
  }

  lemma DraggedIsUnranked()
    ensures !RankedBy(DraggedRows(MANUAL), DraggedRows(AREA), DraggedOps(), 2, MANUAL)
    ensures IsManualParent(DraggedRows(MANUAL), MANUAL)
    ensures FIRST in ParentMap(DraggedRows(MANUAL)) && ParentMap(DraggedRows(MANUAL))[FIRST] == MANUAL
  {
    var ops := DraggedOps();
    assert ops[0].subject == FIRST && ops[1].subject == SECOND;
    var base := BaseParents(DraggedRows(MANUAL), DraggedRows(AREA), ops);
    forall id | id in base ensures base[id] != MANUAL {}
  }

  lemma TwoApart(ids: seq<EntryId>, x: EntryId, y: EntryId)
    requires Apart(ids) && x != y && forall id :: id in ids <==> id == x || id == y
    ensures ids == [x, y] || ids == [y, x]
  {
    SameIdsSameBag(ids, [x, y]);
    assert |ids| == |multiset(ids)| == |multiset([x, y])| == 2;
    assert ids[0] in ids && ids[1] in ids;
  }

  lemma DraggedList(collate: (string, string) -> bool, ids: seq<EntryId>)
    requires collate("a", "b") && !collate("b", "a")
    requires Holds(ParentMap(DraggedRows(MANUAL)), MANUAL, ids) && SiblingLists.InOrder(DraggedRows(MANUAL), collate, false, ids)
    ensures ids == [FIRST, SECOND] && !SiblingLists.InOrder(DraggedRows(MANUAL), collate, true, ids)
  {
    var projected := DraggedRows(MANUAL);
    TwoApart(ids, FIRST, SECOND);
    var rows := RowsOf(projected, ids);
    assert SiblingOrder(false, collate)(rows[0], rows[1]);
    assert !AtMost("2", "1");
    assert !SiblingOrder(true, collate)(rows[0], rows[1]);
  }
}
