/**
 * Sibling order with moves pending: the moves folded over the canonical lists, then ranks that show
 * the result
 * (packages/resource-replica/src/optimistic-sibling-order.ts).
 */
module OptimisticOrder {
  import opened Collation
  import opened Records
  import opened SiblingLists
  import opened Siblings
  import opened Sorting
  import opened Wrappers

  /** A pending placement in admission order, with the parent its destination names, where one is listed. */
  datatype Op = Op(subject: EntryId, intentId: string, destination: Option<EntryId>, position: Option<Position>)

  type Lists = map<EntryId, seq<EntryId>>

  /** What the fold carries: the lists, each row's parent, the parents shown by rank, and those touched. */
  datatype Fold = Fold(lists: Lists, parents: Parents, manual: set<EntryId>, affected: set<EntryId>)

  // ------------------------------------------------------------------------------------------
  // Splicing
  // ------------------------------------------------------------------------------------------

  function IndexOf(ids: seq<EntryId>, id: EntryId): (at: Option<nat>)
    ensures at.Some? <==> id in ids
    ensures at.Some? ==> at.value < |ids| && ids[at.value] == id
  {
    if ids == [] then None
    else if ids[0] == id then Some(0)
    else
      assert ids == [ids[0]] + ids[1..];
      match IndexOf(ids[1..], id)
      case None => None
      case Some(at) => Some(at + 1)
  }

  function Removed(ids: seq<EntryId>, at: nat): seq<EntryId>
    requires at < |ids|
  {
    ids[..at] + ids[at + 1..]
  }

  function Spliced(ids: seq<EntryId>, at: nat, id: EntryId): seq<EntryId>
    requires at <= |ids|
  {
    ids[..at] + [id] + ids[at..]
  }

  /** Where the position puts the row, or back where it was when its anchor is not in the list. */
  function PlaceOf(ids: seq<EntryId>, position: Position, previous: Option<nat>): (at: nat)
    ensures at <= |ids|
  {
    match position
    case End => |ids|
    case Start => 0
    case Before(siblingId) =>
      if IndexOf(ids, siblingId).Some? then IndexOf(ids, siblingId).value else Fallback(ids, previous)
    case After(siblingId) =>
      if IndexOf(ids, siblingId).Some? then IndexOf(ids, siblingId).value + 1 else Fallback(ids, previous)
  }

  function Fallback(ids: seq<EntryId>, previous: Option<nat>): (at: nat)
    ensures at <= |ids|
  {
    if previous.Some? && previous.value < |ids| then previous.value else |ids|
  }

  // ------------------------------------------------------------------------------------------
  // One placement
  // ------------------------------------------------------------------------------------------

  function ByName(entries: Entries, collate: (string, string) -> bool, ids: seq<EntryId>): seq<EntryId>
    requires AreRows(entries, ids)
  {
    SortedIds(entries, ids, SiblingOrder(false, collate))
  }

  /** The lists hold the rows apart, each in the one list its parent names. */
  ghost predicate Partitioned(entries: Entries, fold: Fold) {
    && RowsKnown(entries, fold.parents) && fold.affected <= fold.lists.Keys
    && (forall id :: id in fold.parents ==> fold.parents[id] in fold.lists)
    && forall parent :: parent in fold.lists ==> Holds(fold.parents, parent, fold.lists[parent])
  }

  function TargetOf(entries: Entries, last: map<EntryId, string>, op: Op): EntryId
    requires IsRow(entries, op.subject)
  {
    if op.subject in last && last[op.subject] == op.intentId then RowOf(entries, op.subject).parentId
    else if op.destination.Some? then op.destination.value
    else RowOf(entries, op.subject).parentId
  }

  /** The row out of its list, with where it stood there. */
  function Lifted(fold: Fold, subject: EntryId): (Lists, Option<nat>) {
    if subject !in fold.parents || fold.parents[subject] !in fold.lists then (fold.lists, None)
    else
      var from := fold.parents[subject];
      var at := IndexOf(fold.lists[from], subject);
      (if at.Some? then fold.lists[from := Removed(fold.lists[from], at.value)] else fold.lists, at)
  }

  predicate StaysPut(fold: Fold, op: Op, target: EntryId) {
    op.position.None? && op.subject in fold.parents && fold.parents[op.subject] == target
  }

  function ListAt(lists: Lists, parent: EntryId): seq<EntryId> {
    if parent in lists then lists[parent] else []
  }

  ghost predicate InDisplayOrder(entries: Entries, collate: (string, string) -> bool, fold: Fold) {
    forall parent :: parent in fold.lists ==> ListInOrder(entries, collate, fold, parent)
  }

  /** A list shown by name is in name order, and one shown by rank that nothing touched in rank order. */
  ghost predicate ListInOrder(entries: Entries, collate: (string, string) -> bool, fold: Fold, parent: EntryId)
    requires parent in fold.lists
  {
    && (parent !in fold.manual ==> SiblingLists.InOrder(entries, collate, false, fold.lists[parent]))
    && (parent in fold.manual && parent !in fold.affected ==>
          IsManualParent(entries, parent) && SiblingLists.InOrder(entries, collate, true, fold.lists[parent]))
  }

  lemma RemovedHolds(parents: Parents, parent: EntryId, ids: seq<EntryId>, at: nat)
    requires Holds(parents, parent, ids) && at < |ids|
    ensures Holds(parents - {ids[at]}, parent, Removed(ids, at))
  {
    var rest := Removed(ids, at);
    forall i | 0 <= i < |rest| ensures rest[i] == ids[if i < at then i else i + 1] {}
    forall id ensures id in rest <==> id in ids && id != ids[at] {
      if id in ids && id != ids[at] {
        var k :| 0 <= k < |ids| && ids[k] == id;
        assert rest[if k < at then k else k - 1] == id;
      }
    }
  }

  lemma OtherHolds(parents: Parents, parent: EntryId, ids: seq<EntryId>, subject: EntryId)
    requires Holds(parents, parent, ids) && (subject in parents ==> parents[subject] != parent)
    ensures Holds(parents - {subject}, parent, ids)
  {
  }

  lemma SplicedHolds(parents: Parents, parent: EntryId, ids: seq<EntryId>, at: nat, id: EntryId)
    requires Holds(parents, parent, ids) && at <= |ids| && id !in parents
    ensures Holds(parents[id := parent], parent, Spliced(ids, at, id))
  {
    var now := Spliced(ids, at, id);
    forall i | 0 <= i < |now| ensures now[i] == if i < at then ids[i] else if i == at then id else ids[i - 1] {}
    forall x ensures x in now <==> x in ids || x == id {
      if x in ids {
        var k :| 0 <= k < |ids| && ids[k] == x;
        assert now[if k < at then k else k + 1] == x;
      }
      if x == id { assert now[at] == x; }
    }
  }

  lemma AddedElsewhere(parents: Parents, parent: EntryId, ids: seq<EntryId>, id: EntryId, target: EntryId)
    requires Holds(parents, parent, ids) && id !in parents && target != parent
    ensures Holds(parents[id := target], parent, ids)
  {
  }

  /** Lifting a row leaves every list holding the other rows. */
  lemma LiftedHolds(entries: Entries, fold: Fold, subject: EntryId, parent: EntryId)
    requires Partitioned(entries, fold) && parent in fold.lists
    ensures parent in Lifted(fold, subject).0
    ensures Holds(fold.parents - {subject}, parent, Lifted(fold, subject).0[parent])
  {
    if subject in fold.parents && fold.parents[subject] == parent {
      assert subject in fold.lists[parent];
      RemovedHolds(fold.parents, parent, fold.lists[parent], IndexOf(fold.lists[parent], subject).value);
    } else {
      OtherHolds(fold.parents, parent, fold.lists[parent], subject);
    }
  }

  lemma NoneHolds(entries: Entries, fold: Fold, subject: EntryId, parent: EntryId)
    requires Partitioned(entries, fold) && parent !in fold.lists
    ensures Holds(fold.parents - {subject}, parent, [])
  {
  }

  /** The list a placement lands in. */
  function Landed(entries: Entries, collate: (string, string) -> bool, fold: Fold, op: Op, target: EntryId): seq<EntryId>
    requires IsRow(entries, op.subject) && AreRows(entries, ListAt(Lifted(fold, op.subject).0, target))
  {
    var (lists, previous) := Lifted(fold, op.subject);
    var siblings := ListAt(lists, target);
    if op.position.Some? then
      var within := if op.subject in fold.parents && fold.parents[op.subject] == target then previous else None;
      Spliced(siblings, PlaceOf(siblings, op.position.value, within), op.subject)
    else if target in fold.manual then siblings + [op.subject]
    else ByName(entries, collate, siblings + [op.subject])
  }

  /** One step of the fold. */
  function Placed(entries: Entries, collate: (string, string) -> bool, last: map<EntryId, string>, fold: Fold, op: Op): Fold
    requires AreRows(entries, ListAt(Lifted(fold, op.subject).0, if IsRow(entries, op.subject) then TargetOf(entries, last, op) else op.subject))
  {
    if !IsRow(entries, op.subject) then fold
    else
      var target := TargetOf(entries, last, op);
      if StaysPut(fold, op, target) then fold
      else
        Fold(Lifted(fold, op.subject).0[target := Landed(entries, collate, fold, op, target)],
             fold.parents[op.subject := target],
             if op.position.Some? then fold.manual + {target} else fold.manual,
             fold.affected + {target} + if op.subject in fold.parents then {fold.parents[op.subject]} else {})
  }

  lemma LiftedRows(entries: Entries, fold: Fold, subject: EntryId, parent: EntryId)
    requires Partitioned(entries, fold)
    ensures AreRows(entries, ListAt(Lifted(fold, subject).0, parent))
    ensures Holds(fold.parents - {subject}, parent, ListAt(Lifted(fold, subject).0, parent))
  {
    if parent in fold.lists { LiftedHolds(entries, fold, subject, parent); } else { NoneHolds(entries, fold, subject, parent); }
    var ids := ListAt(Lifted(fold, subject).0, parent);
    forall i | 0 <= i < |ids| ensures IsRow(entries, ids[i]) { assert ids[i] in ids; }
  }

  /** The landing list holds what it held and the row. */
  lemma LandedHolds(entries: Entries, collate: (string, string) -> bool, fold: Fold, op: Op, target: EntryId)
    requires Keyed(entries) && Orders(collate) && Partitioned(entries, fold) && IsRow(entries, op.subject)
    ensures AreRows(entries, ListAt(Lifted(fold, op.subject).0, target))
    ensures Holds(fold.parents[op.subject := target], target, Landed(entries, collate, fold, op, target))
    ensures op.position.None? && target !in fold.manual ==>
              SiblingLists.InOrder(entries, collate, false, Landed(entries, collate, fold, op, target))
  {
    LiftedRows(entries, fold, op.subject, target);
    var (lists, previous) := Lifted(fold, op.subject);
    var siblings := ListAt(lists, target);
    var parents := fold.parents - {op.subject};
    PutAgain(fold.parents, op.subject, target);
    if op.position.Some? {
      var within := if op.subject in fold.parents && fold.parents[op.subject] == target then previous else None;
      SplicedHolds(parents, target, siblings, PlaceOf(siblings, op.position.value, within), op.subject);
    } else {
      SplicedHolds(parents, target, siblings, |siblings|, op.subject);
      assert Spliced(siblings, |siblings|, op.subject) == siblings + [op.subject];
      if target !in fold.manual {
        SortingFits(entries, parents[op.subject := target], collate, false, target, siblings + [op.subject]);
      }
    }
  }

  lemma PlacedKeepsPartition(entries: Entries, collate: (string, string) -> bool, last: map<EntryId, string>, fold: Fold, op: Op)
    requires Keyed(entries) && Orders(collate) && Partitioned(entries, fold) && IsRow(entries, op.subject)
    ensures AreRows(entries, ListAt(Lifted(fold, op.subject).0, TargetOf(entries, last, op)))
    ensures Partitioned(entries, Placed(entries, collate, last, fold, op))
  {
    var target := TargetOf(entries, last, op);
    LandedHolds(entries, collate, fold, op, target);
    if !StaysPut(fold, op, target) {
      var now := Placed(entries, collate, last, fold, op);
      forall parent | parent in now.lists ensures Holds(now.parents, parent, now.lists[parent]) {
        if parent != target { PlacedElsewhere(entries, collate, last, fold, op, parent); }
      }
    }
  }

  lemma PutAgain(parents: Parents, id: EntryId, target: EntryId)
    ensures (parents - {id})[id := target] == parents[id := target]
  {
  }

  /** Every other list holds what it held, but for the row placed. */
  lemma PlacedElsewhere(entries: Entries, collate: (string, string) -> bool, last: map<EntryId, string>, fold: Fold, op: Op,
                        parent: EntryId)
    requires Keyed(entries) && Orders(collate) && Partitioned(entries, fold) && IsRow(entries, op.subject)
    requires var target := TargetOf(entries, last, op);
             !StaysPut(fold, op, target) && parent != target && AreRows(entries, ListAt(Lifted(fold, op.subject).0, target))
    requires parent in Placed(entries, collate, last, fold, op).lists
    ensures var now := Placed(entries, collate, last, fold, op); Holds(now.parents, parent, now.lists[parent])
  {
    var target := TargetOf(entries, last, op);
    LiftedHolds(entries, fold, op.subject, parent);
    AddedElsewhere(fold.parents - {op.subject}, parent, Lifted(fold, op.subject).0[parent], op.subject, target);
    PutAgain(fold.parents, op.subject, target);
  }

  /** The anchor a position names, where it names one. */
  function AnchorOf(position: Position): Option<EntryId> {
    match position
    case Start => None
    case End => None
    case Before(siblingId) => Some(siblingId)
    case After(siblingId) => Some(siblingId)
  }

  /** A positioned row lands where it was asked to among the others, which keep their order. */
  lemma PlacedWhereAsked(entries: Entries, collate: (string, string) -> bool, last: map<EntryId, string>, fold: Fold, op: Op)
    returns (at: nat)
    requires IsRow(entries, op.subject) && op.position.Some?
    requires AreRows(entries, ListAt(Lifted(fold, op.subject).0, TargetOf(entries, last, op)))
    ensures var target := TargetOf(entries, last, op);
            var others := ListAt(Lifted(fold, op.subject).0, target);
            && at <= |others|
            && Placed(entries, collate, last, fold, op).lists[target] == others[..at] + [op.subject] + others[at..]
            && match op.position.value
               case Start => at == 0
               case End => at == |others|
               case Before(siblingId) => siblingId in others ==> at < |others| && others[at] == siblingId
               case After(siblingId) => siblingId in others ==> at > 0 && others[at - 1] == siblingId
  {
    var target := TargetOf(entries, last, op);
    var (lists, previous) := Lifted(fold, op.subject);
    var within := if op.subject in fold.parents && fold.parents[op.subject] == target then previous else None;
    at := PlaceOf(ListAt(lists, target), op.position.value, within);
  }

  /** Where the anchor is gone, a row of the list keeps its place and a newcomer goes last. */
  lemma AnchorGoneKeepsPlace(entries: Entries, collate: (string, string) -> bool, last: map<EntryId, string>, fold: Fold, op: Op)
    requires Partitioned(entries, fold) && IsRow(entries, op.subject) && op.position.Some?
    requires AreRows(entries, ListAt(Lifted(fold, op.subject).0, TargetOf(entries, last, op)))
    requires AnchorOf(op.position.value).Some?
    requires AnchorOf(op.position.value).value !in ListAt(Lifted(fold, op.subject).0, TargetOf(entries, last, op))
    ensures var target := TargetOf(entries, last, op);
            var list := Placed(entries, collate, last, fold, op).lists[target];
            if op.subject in fold.parents && fold.parents[op.subject] == target then list == fold.lists[target]
            else list == ListAt(Lifted(fold, op.subject).0, target) + [op.subject]
  {
    var target := TargetOf(entries, last, op);
    if op.subject in fold.parents && fold.parents[op.subject] == target {
      assert Holds(fold.parents, target, fold.lists[target]);
      RemovedGoesBack(fold.lists[target], IndexOf(fold.lists[target], op.subject).value);
    }
  }

  lemma RemovedGoesBack(ids: seq<EntryId>, at: nat)
    requires at < |ids|
    ensures at <= |Removed(ids, at)| && Spliced(Removed(ids, at), at, ids[at]) == ids
    ensures at == |Removed(ids, at)| ==> Spliced(Removed(ids, at), |Removed(ids, at)|, ids[at]) == ids
  {
  }

  lemma RemovedInOrder(entries: Entries, collate: (string, string) -> bool, ids: seq<EntryId>, at: nat)
    requires SiblingLists.InOrder(entries, collate, false, ids) && at < |ids|
    ensures SiblingLists.InOrder(entries, collate, false, Removed(ids, at))
  {
    var rest := Removed(ids, at);
    forall i | 0 <= i < |rest| ensures rest[i] == ids[if i < at then i else i + 1] {}
    forall i, k | 0 <= i < k < |rest| ensures SiblingOrder(false, collate)(RowsOf(entries, rest)[i], RowsOf(entries, rest)[k]) {
      var i', k' := if i < at then i else i + 1, if k < at then k else k + 1;
      assert SiblingOrder(false, collate)(RowsOf(entries, ids)[i'], RowsOf(entries, ids)[k']);
    }
  }

  lemma LiftedInOrder(entries: Entries, collate: (string, string) -> bool, fold: Fold, subject: EntryId, parent: EntryId)
    requires Partitioned(entries, fold) && parent in fold.lists && parent !in fold.manual && ListInOrder(entries, collate, fold, parent)
    ensures parent in Lifted(fold, subject).0 && SiblingLists.InOrder(entries, collate, false, Lifted(fold, subject).0[parent])
  {
    if subject in fold.parents && fold.parents[subject] == parent {
      assert subject in fold.lists[parent];
      RemovedInOrder(entries, collate, fold.lists[parent], IndexOf(fold.lists[parent], subject).value);
    }
  }

  lemma PlacedKeepsOrder(entries: Entries, collate: (string, string) -> bool, last: map<EntryId, string>, fold: Fold, op: Op)
    requires Keyed(entries) && Orders(collate) && Partitioned(entries, fold) && IsRow(entries, op.subject)
    requires InDisplayOrder(entries, collate, fold)
    ensures AreRows(entries, ListAt(Lifted(fold, op.subject).0, TargetOf(entries, last, op)))
    ensures InDisplayOrder(entries, collate, Placed(entries, collate, last, fold, op))
  {
    var target := TargetOf(entries, last, op);
    LandedHolds(entries, collate, fold, op, target);
    var now := Placed(entries, collate, last, fold, op);
    if !StaysPut(fold, op, target) {
      forall parent | parent in now.lists ensures ListInOrder(entries, collate, now, parent) {
        if parent != target {
          assert ListInOrder(entries, collate, fold, parent);
          if parent !in fold.manual { LiftedInOrder(entries, collate, fold, op.subject, parent); }
        }
      }
    }
  }

  // ------------------------------------------------------------------------------------------
  // The whole fold
  // ------------------------------------------------------------------------------------------

  /** The intent of the last placement of each subject. */
  function LastOps(ops: seq<Op>): map<EntryId, string> {
    if ops == [] then map[]
    else LastOps(ops[..|ops| - 1])[ops[|ops| - 1].subject := ops[|ops| - 1].intentId]
  }

  lemma {:induction false} LastIsLast(ops: seq<Op>, i: nat)
    requires i < |ops| && LastOfSubject(ops, i)
    ensures ops[i].subject in LastOps(ops) && LastOps(ops)[ops[i].subject] == ops[i].intentId
  {
    var n := |ops| - 1;
    if i < n { LastIsLast(ops[..n], i); }
  }

  predicate LastOfSubject(ops: seq<Op>, j: nat)
    requires j < |ops|
  {
    forall k :: j < k < |ops| ==> ops[k].subject != ops[j].subject
  }

  predicate StandsAsShown(entries: Entries, fold: Fold, id: EntryId) {
    IsRow(entries, id) ==> id in fold.parents && fold.parents[id] == RowOf(entries, id).parentId
  }

  /** Every row placed for the last time stands under the parent the projection shows. */
  ghost predicate Arrived(entries: Entries, ops: seq<Op>, fold: Fold, i: nat)
    requires i <= |ops|
  {
    forall j :: 0 <= j < i && LastOfSubject(ops, j) ==> StandsAsShown(entries, fold, ops[j].subject)
  }

  ghost predicate Sound(entries: Entries, collate: (string, string) -> bool, fold: Fold) {
    Partitioned(entries, fold) && InDisplayOrder(entries, collate, fold)
  }

  lemma PlacedArrives(entries: Entries, collate: (string, string) -> bool, ops: seq<Op>, fold: Fold, i: nat)
    requires Keyed(entries) && Orders(collate) && Partitioned(entries, fold) && i < |ops| && Arrived(entries, ops, fold, i)
    requires IsRow(entries, ops[i].subject)
    ensures AreRows(entries, ListAt(Lifted(fold, ops[i].subject).0, TargetOf(entries, LastOps(ops), ops[i])))
    ensures Arrived(entries, ops, Placed(entries, collate, LastOps(ops), fold, ops[i]), i + 1)
  {
    PlacedKeepsPartition(entries, collate, LastOps(ops), fold, ops[i]);
    var now := Placed(entries, collate, LastOps(ops), fold, ops[i]);
    PlacedMovesOne(entries, collate, ops, fold, i);
    if LastOfSubject(ops, i) { PlacedLastArrives(entries, collate, ops, fold, i); }
    ArrivedGrows(entries, ops, fold, now, i);
  }

  lemma ArrivedGrows(entries: Entries, ops: seq<Op>, fold: Fold, now: Fold, i: nat)
    requires i < |ops| && Arrived(entries, ops, fold, i)
    requires forall id :: id in fold.parents && id != ops[i].subject ==> id in now.parents && now.parents[id] == fold.parents[id]
    requires LastOfSubject(ops, i) ==> StandsAsShown(entries, now, ops[i].subject)
    ensures Arrived(entries, ops, now, i + 1)
  {
    forall j | 0 <= j < i + 1 && LastOfSubject(ops, j) ensures StandsAsShown(entries, now, ops[j].subject) {
      if j < i { assert StandsAsShown(entries, fold, ops[j].subject) && ops[i].subject != ops[j].subject; }
    }
  }

  /** A placement moves its own row and no other. */
  lemma PlacedMovesOne(entries: Entries, collate: (string, string) -> bool, ops: seq<Op>, fold: Fold, i: nat)
    requires Keyed(entries) && Orders(collate) && Partitioned(entries, fold) && i < |ops| && IsRow(entries, ops[i].subject)
    requires AreRows(entries, ListAt(Lifted(fold, ops[i].subject).0, TargetOf(entries, LastOps(ops), ops[i])))
    ensures var now := Placed(entries, collate, LastOps(ops), fold, ops[i]);
            forall id :: id in fold.parents && id != ops[i].subject ==> id in now.parents && now.parents[id] == fold.parents[id]
  {
  }

  lemma PlacedLastArrives(entries: Entries, collate: (string, string) -> bool, ops: seq<Op>, fold: Fold, i: nat)
    requires Keyed(entries) && Orders(collate) && Partitioned(entries, fold) && i < |ops| && IsRow(entries, ops[i].subject)
    requires AreRows(entries, ListAt(Lifted(fold, ops[i].subject).0, TargetOf(entries, LastOps(ops), ops[i])))
    requires LastOfSubject(ops, i)
    ensures StandsAsShown(entries, Placed(entries, collate, LastOps(ops), fold, ops[i]), ops[i].subject)
  {
    LastIsLast(ops, i);
  }

  /** The fold of the first `n` placements, oldest first. */
  function Folded(entries: Entries, collate: (string, string) -> bool, ops: seq<Op>, baseline: Fold, n: nat): (fold: Fold)
    requires Keyed(entries) && Orders(collate) && Sound(entries, collate, baseline) && n <= |ops|
    ensures Sound(entries, collate, fold)
  {
    if n == 0 then baseline
    else
      var before := Folded(entries, collate, ops, baseline, n - 1);
      if !IsRow(entries, ops[n - 1].subject) then before
      else
        PlacedKeepsPartition(entries, collate, LastOps(ops), before, ops[n - 1]);
        PlacedKeepsOrder(entries, collate, LastOps(ops), before, ops[n - 1]);
        Placed(entries, collate, LastOps(ops), before, ops[n - 1])
  }

  lemma {:induction false} FoldedArrives(entries: Entries, collate: (string, string) -> bool, ops: seq<Op>, baseline: Fold, n: nat)
    requires Keyed(entries) && Orders(collate) && Sound(entries, collate, baseline) && n <= |ops|
    ensures Arrived(entries, ops, Folded(entries, collate, ops, baseline, n), n)
  {
    if n > 0 {
      var before := Folded(entries, collate, ops, baseline, n - 1);
      FoldedArrives(entries, collate, ops, baseline, n - 1);
      if IsRow(entries, ops[n - 1].subject) {
        PlacedArrives(entries, collate, ops, before, n - 1);
      } else {
        ArrivedGrows(entries, ops, before, before, n - 1);
      }
    }
  }

  /** Rows never placed stay, and no row appears from nowhere. */
  lemma {:induction false} FoldedKeeps(entries: Entries, collate: (string, string) -> bool, ops: seq<Op>, baseline: Fold, n: nat)
    requires Keyed(entries) && Orders(collate) && Sound(entries, collate, baseline) && n <= |ops|
    ensures var fold := Folded(entries, collate, ops, baseline, n);
            && (forall id :: id in baseline.parents && !Touched(ops[..n], id) ==> id in fold.parents && fold.parents[id] == baseline.parents[id])
            && (forall id :: id in fold.parents ==> id in baseline.parents || Touched(ops[..n], id))
  {
    if n > 0 {
      var before := Folded(entries, collate, ops, baseline, n - 1);
      FoldedKeeps(entries, collate, ops, baseline, n - 1);
      forall id ensures Touched(ops[..n], id) <==> Touched(ops[..n - 1], id) || ops[n - 1].subject == id {
        TouchedGrows(ops, n - 1, id);
      }
      if IsRow(entries, ops[n - 1].subject) {
        PlacedKeepsPartition(entries, collate, LastOps(ops), before, ops[n - 1]);
        PlacedMovesOne(entries, collate, ops, before, n - 1);
        PlacedAddsOne(entries, collate, ops, before, n - 1);
      }
    }
  }

  lemma TouchedGrows(ops: seq<Op>, n: nat, id: EntryId)
    requires n < |ops|
    ensures Touched(ops[..n + 1], id) <==> Touched(ops[..n], id) || ops[n].subject == id
  {
    assert forall i :: 0 <= i < n ==> ops[..n][i] == ops[i] && ops[..n + 1][i] == ops[i];
    assert ops[..n + 1][n] == ops[n];
  }

  lemma PlacedAddsOne(entries: Entries, collate: (string, string) -> bool, ops: seq<Op>, fold: Fold, i: nat)
    requires Keyed(entries) && Orders(collate) && Partitioned(entries, fold) && i < |ops| && IsRow(entries, ops[i].subject)
    requires AreRows(entries, ListAt(Lifted(fold, ops[i].subject).0, TargetOf(entries, LastOps(ops), ops[i])))
    ensures var now := Placed(entries, collate, LastOps(ops), fold, ops[i]);
            forall id :: id in now.parents ==> id in fold.parents || id == ops[i].subject
  {
  }

  /** Folds the placements over the baseline, oldest first. */
  method FoldPlacements(entries: Entries, collate: (string, string) -> bool, ops: seq<Op>, baseline: Fold) returns (fold: Fold)
    requires Keyed(entries) && Orders(collate) && Sound(entries, collate, baseline)
    ensures fold == Folded(entries, collate, ops, baseline, |ops|)
  {
    fold := baseline;
    var last := LastOps(ops);
    for i := 0 to |ops|
      invariant fold == Folded(entries, collate, ops, baseline, i)
    {
      if IsRow(entries, ops[i].subject) {
        PlacedKeepsPartition(entries, collate, last, fold, ops[i]);
        fold := Placed(entries, collate, last, fold, ops[i]);
      }
    }
  }

  /** The parents the fold starts from: the canonical one for a row some placement names, the projected one for any other. */
  function BaseParents(entries: Entries, canonical: Entries, ops: seq<Op>): Parents {
    map id | id in entries && entries[id].RowEntry? && (Touched(ops, id) ==> IsRow(canonical, id)) ::
      if Touched(ops, id) then RowOf(canonical, id).parentId else RowOf(entries, id).parentId
  }

  predicate Touched(ops: seq<Op>, id: EntryId) {
    exists i :: 0 <= i < |ops| && ops[i].subject == id
  }

  method GroupBase(order: seq<EntryId>, parents: Parents) returns (lists: Lists)
    ensures Groups(parents, order, lists)
  {
    lists := map[];
    for i := 0 to |order|
      invariant Groups(parents, order[..i], lists)
    {
      GroupsGrow(parents, order[..i], order[i], lists);
      assert order[..i + 1] == order[..i] + [order[i]];
      if order[i] in parents {
        var parent := parents[order[i]];
        lists := lists[parent := (if parent in lists then lists[parent] else []) + [order[i]]];
      }
    }
    assert order[..|order|] == order;
  }

  ghost predicate Shown(entries: Entries, collate: (string, string) -> bool, parents: Parents, parent: EntryId, ids: seq<EntryId>) {
    Holds(parents, parent, ids) && SiblingLists.InOrder(entries, collate, IsManualParent(entries, parent), ids)
  }

  /** Each list sorted as its parent shows it; the parents shown by rank are marked. */
  method SortBase(entries: Entries, collate: (string, string) -> bool, parents: Parents, grouped: Lists)
    returns (lists: Lists, manual: set<EntryId>)
    requires Keyed(entries) && Orders(collate) && RowsKnown(entries, parents)
    requires forall parent :: parent in grouped ==> Holds(parents, parent, grouped[parent])
    ensures lists.Keys == grouped.Keys && forall parent :: parent in lists ==> Shown(entries, collate, parents, parent, lists[parent])
    ensures manual == set parent | parent in lists.Keys && IsManualParent(entries, parent)
  {
    lists, manual := grouped, {};
    var todo := lists.Keys;
    while todo != {}
      invariant todo <= lists.Keys == grouped.Keys
      invariant manual == set parent | parent in lists.Keys - todo && IsManualParent(entries, parent)
      invariant forall parent :: parent in todo ==> lists[parent] == grouped[parent]
      invariant forall parent :: parent in lists && parent !in todo ==> Shown(entries, collate, parents, parent, lists[parent])
      decreases todo
    {
      var parent :| parent in todo;
      var sorted := SortOne(entries, collate, parents, parent, lists[parent]);
      if IsManualParent(entries, parent) { manual := manual + {parent}; }
      lists, todo := lists[parent := sorted], todo - {parent};
    }
  }

  method SortOne(entries: Entries, collate: (string, string) -> bool, parents: Parents, parent: EntryId, ids: seq<EntryId>)
    returns (sorted: seq<EntryId>)
    requires Keyed(entries) && Orders(collate) && RowsKnown(entries, parents) && Holds(parents, parent, ids)
    ensures Shown(entries, collate, parents, parent, sorted)
  {
    BaseRows(entries, parents, parent, ids);
    SortingFits(entries, parents, collate, IsManualParent(entries, parent), parent, ids);
    sorted := SortedIds(entries, ids, SiblingOrder(IsManualParent(entries, parent), collate));
  }

  /** The canonical lists in the order they are shown, the manual parents among them marked. */
  ghost predicate BaselineOf(entries: Entries, canonical: Entries, collate: (string, string) -> bool, ops: seq<Op>, fold: Fold) {
    && Sound(entries, collate, fold) && fold.parents == BaseParents(entries, canonical, ops)
    && fold.affected == {} && fold.manual == (set parent | parent in fold.lists.Keys && IsManualParent(entries, parent))
    && forall parent :: parent in fold.lists <==> HasChild(fold.parents, parent)
  }

  predicate HasChild(parents: Parents, parent: EntryId) {
    exists id :: id in parents && parents[id] == parent
  }

  /** The canonical lists, in the order they are shown before any placement. */
  method Baseline(entries: Entries, canonical: Entries, order: seq<EntryId>, collate: (string, string) -> bool, ops: seq<Op>)
    returns (fold: Fold)
    requires Keyed(entries) && Orders(collate) && Apart(order) && forall id :: id in entries <==> id in order
    ensures BaselineOf(entries, canonical, collate, ops, fold)
  {
    var parents := BaseParents(entries, canonical, ops);
    var grouped := GroupBase(order, parents);
    GroupedHolds(parents, order, grouped);
    var lists, manual := SortBase(entries, collate, parents, grouped);
    forall id | id in parents ensures parents[id] in lists { assert HasChild(parents, parents[id]); }
    fold := Fold(lists, parents, manual, {});
    ShownIsSound(entries, collate, fold);
  }

  lemma ShownIsSound(entries: Entries, collate: (string, string) -> bool, fold: Fold)
    requires RowsKnown(entries, fold.parents) && fold.affected == {}
    requires forall parent :: parent in fold.lists ==> Shown(entries, collate, fold.parents, parent, fold.lists[parent])
    requires forall id :: id in fold.parents ==> fold.parents[id] in fold.lists
    requires fold.manual == set parent | parent in fold.lists.Keys && IsManualParent(entries, parent)
    ensures Sound(entries, collate, fold)
  {
    forall parent | parent in fold.lists ensures ListInOrder(entries, collate, fold, parent) {
      assert Shown(entries, collate, fold.parents, parent, fold.lists[parent]);
    }
  }

  lemma GroupedHolds(parents: Parents, order: seq<EntryId>, grouped: Lists)
    requires Groups(parents, order, grouped) && Apart(order) && forall id :: id in parents ==> id in order
    ensures forall parent :: parent in grouped ==> Holds(parents, parent, grouped[parent])
    ensures forall parent :: parent in grouped <==> HasChild(parents, parent)
  {
    forall parent | parent in grouped
      ensures Holds(parents, parent, grouped[parent]) && exists id :: id in parents && parents[id] == parent
    {
      ChildrenAre(parents, order, parent);
      assert grouped[parent][0] in grouped[parent];
    }
  }

  lemma BaseRows(entries: Entries, parents: Parents, parent: EntryId, ids: seq<EntryId>)
    requires RowsKnown(entries, parents) && Holds(parents, parent, ids)
    ensures AreRows(entries, ids)
  {
    forall i | 0 <= i < |ids| ensures IsRow(entries, ids[i]) { assert ids[i] in ids; }
  }

  // ------------------------------------------------------------------------------------------
  // Ranks
  // ------------------------------------------------------------------------------------------

  function Digit(n: nat): char
    requires n < 10
  {
    ('0' as int + n) as char
  }

  function Decimal(n: nat): string {
    if n < 10 then [Digit(n)] else Decimal(n / 10) + [Digit(n % 10)]
  }

  function PadStart(s: string, width: nat): string
    decreases width
  {
    if |s| >= width then s else "0" + PadStart(s, width - 1)
  }

  /** The last `width` digits. */
  function Digits(n: nat, width: nat): (s: string)
    ensures |s| == width
  {
    if width == 0 then "" else Digits(n / 10, width - 1) + [Digit(n % 10)]
  }

  function Power(width: nat): nat {
    if width == 0 then 1 else 10 * Power(width - 1)
  }

  lemma {:induction false} ZeroDigits(width: nat)
    ensures Digits(0, width + 1) == "0" + Digits(0, width)
  {
    if width > 0 {
      ZeroDigits(width - 1);
      assert Digits(0, width + 1) == Digits(0, width) + "0";
    }
  }

  lemma {:induction false} LeadingZero(n: nat, width: nat)
    requires n < Power(width)
    ensures Digits(n, width + 1) == "0" + Digits(n, width)
  {
    if width > 0 {
      LeadingZero(n / 10, width - 1);
      assert Digits(n, width + 1) == Digits(n / 10, width) + [Digit(n % 10)];
    }
  }

  lemma {:induction false} DecimalIsDigits(n: nat) returns (width: nat)
    ensures width >= 1 && n < Power(width) && Decimal(n) == Digits(n, width)
  {
    if n < 10 {
      width := 1;
      assert Power(1) == 10 && Digits(n / 10, 0) == "";
    } else {
      var shorter := DecimalIsDigits(n / 10);
      width := shorter + 1;
    }
  }

  lemma {:induction false} PowerRises(a: nat, b: nat)
    requires a <= b
    ensures 1 <= Power(a) <= Power(b)
  {
    if a < b { PowerRises(a, b - 1); } else if a > 0 { PowerRises(a - 1, b - 1); }
  }

  lemma {:induction false} PaddedIsDigits(n: nat, shorter: nat, width: nat)
    requires n < Power(shorter) && shorter <= width
    ensures PadStart(Digits(n, shorter), width) == Digits(n, width)
    decreases width
  {
    if shorter < width {
      PaddedIsDigits(n, shorter, width - 1);
      PowerRises(shorter, width - 1);
      LeadingZero(n, width - 1);
    }
  }

  lemma {:induction false} DecimalIsShort(n: nat, width: nat)
    requires width >= 1 && n < Power(width)
    ensures |Decimal(n)| <= width
  {
    assert Power(1) == 10;
    if n >= 10 {
      DecimalIsShort(n / 10, width - 1);
    }
  }

  lemma PaddedDecimal(n: nat, width: nat)
    requires width >= 1 && n < Power(width)
    ensures PadStart(Decimal(n), width) == Digits(n, width)
  {
    var shorter := DecimalIsDigits(n);
    DecimalIsShort(n, width);
    PaddedIsDigits(n, shorter, width);
  }

  lemma {:induction false} SamePrefix(prefix: string, a: string, b: string)
    ensures AtMost(prefix + a, prefix + b) <==> AtMost(a, b)
  {
    if prefix == "" {
      assert prefix + a == a && prefix + b == b;
    } else {
      assert (prefix + a)[1..] == prefix[1..] + a && (prefix + b)[1..] == prefix[1..] + b;
      SamePrefix(prefix[1..], a, b);
    }
  }

  lemma {:induction false} LesserPrefix(a: string, b: string, x: string, y: string)
    requires |a| == |b| && a != b && AtMost(a, b)
    ensures AtMost(a + x, b + y) && a + x != b + y
  {
    assert (a + x)[1..] == a[1..] + x && (b + y)[1..] == b[1..] + y;
    if a[0] == b[0] {
      assert a == [a[0]] + a[1..] && b == [b[0]] + b[1..];
      LesserPrefix(a[1..], b[1..], x, y);
    }
  }

  /** Padded numbers of one width compare as numbers do. */
  lemma {:induction false} DigitsRise(i: nat, k: nat, width: nat)
    requires i < k < Power(width)
    ensures AtMost(Digits(i, width), Digits(k, width)) && Digits(i, width) != Digits(k, width)
  {
    var a, b := Digits(i / 10, width - 1), Digits(k / 10, width - 1);
    if i / 10 < k / 10 {
      DigitsRise(i / 10, k / 10, width - 1);
      LesserPrefix(a, b, [Digit(i % 10)], [Digit(k % 10)]);
    } else {
      SamePrefix(a, [Digit(i % 10)], [Digit(k % 10)]);
      assert Digits(i, width)[width - 1] == Digit(i % 10) && Digits(k, width)[width - 1] == Digit(k % 10);
    }
  }

  const RANK_WIDTH: nat := 12

  /** The rank of the row at `index`; it never leaves the projection. */
  function LocalRank(index: nat): string {
    "local:" + PadStart(Decimal(index), RANK_WIDTH)
  }

  lemma RanksRise(i: nat, k: nat)
    requires i < k < Power(RANK_WIDTH)
    ensures AtMost(LocalRank(i), LocalRank(k)) && LocalRank(i) != LocalRank(k)
  {
    PaddedDecimal(i, RANK_WIDTH);
    PaddedDecimal(k, RANK_WIDTH);
    DigitsRise(i, k, RANK_WIDTH);
    SamePrefix("local:", Digits(i, RANK_WIDTH), Digits(k, RANK_WIDTH));
    assert LocalRank(i)[6..] == Digits(i, RANK_WIDTH) && LocalRank(k)[6..] == Digits(k, RANK_WIDTH);
  }

  // ------------------------------------------------------------------------------------------
  // The rows that show the fold
  // ------------------------------------------------------------------------------------------

  /** The lists the placements touched that are shown by rank. */
  function Marked(fold: Fold): set<EntryId> {
    fold.affected * fold.manual
  }

  function WithRank(row: Row, fold: Fold, done: set<EntryId>): Row {
    if row.entryId in fold.parents && fold.parents[row.entryId] in done && fold.parents[row.entryId] in fold.lists
       && IndexOf(fold.lists[fold.parents[row.entryId]], row.entryId).Some? then
      row.(rank := Some(LocalRank(IndexOf(fold.lists[fold.parents[row.entryId]], row.entryId).value)))
    else row
  }

  function WithPolicy(row: Row, done: set<EntryId>): Row {
    if row.kind.Folder? && row.entryId in done then row.(manual := true) else row
  }

  function OutEntry(entry: Entry, fold: Fold, done: set<EntryId>): Entry {
    match entry
    case RowEntry(row) => RowEntry(WithPolicy(WithRank(row, fold, done), done))
    case SourceEntry(id, scheme, manual) => if id in done then SourceEntry(id, scheme, true) else entry
    case AuthorityEntry(_) => entry
  }

  function Output(entries: Entries, fold: Fold, done: set<EntryId>): Entries {
    map id | id in entries :: OutEntry(entries[id], fold, done)
  }

  function Ranked(entry: Entry, ids: seq<EntryId>): Entry {
    if entry.RowEntry? && IndexOf(ids, entry.row.entryId).Some? then
      RowEntry(entry.row.(rank := Some(LocalRank(IndexOf(ids, entry.row.entryId).value))))
    else entry
  }

  lemma {:induction false} FirstIndex(ids: seq<EntryId>, i: nat)
    requires Apart(ids) && i < |ids|
    ensures IndexOf(ids, ids[i]) == Some(i)
  {
    var at := IndexOf(ids, ids[i]).value;
    assert ids[at] == ids[i];
  }

  method RankList(entries: Entries, ids: seq<EntryId>) returns (out: Entries)
    requires Keyed(entries) && Apart(ids) && AreRows(entries, ids)
    ensures out.Keys == entries.Keys && forall id :: id in entries ==> out[id] == Ranked(entries[id], ids)
  {
    out := entries;
    for i := 0 to |ids|
      invariant out.Keys == entries.Keys
      invariant forall id :: id in entries ==> out[id] == if id in ids[..i] then Ranked(entries[id], ids) else entries[id]
    {
      FirstIndex(ids, i);
      assert ids[i] !in ids[..i] && IsRow(entries, ids[i]) && IdOf(entries[ids[i]]) == ids[i];
      assert forall id :: id in ids[..i + 1] <==> id in ids[..i] || id == ids[i];
      out := out[ids[i] := RowEntry(out[ids[i]].row.(rank := Some(LocalRank(i))))];
    }
    assert ids[..|ids|] == ids;
    forall id | id in entries && id !in ids ensures Ranked(entries[id], ids) == entries[id] { assert IdOf(entries[id]) == id; }
  }

  function Promoted(entries: Entries, parent: EntryId): Entries {
    if parent !in entries then entries
    else
      match entries[parent]
      case SourceEntry(id, scheme, _) => entries[parent := SourceEntry(id, scheme, true)]
      case RowEntry(row) => if row.kind.Folder? then entries[parent := RowEntry(row.(manual := true))] else entries
      case AuthorityEntry(_) => entries
  }

  /** A row is ranked by one list, the one it is in. */
  lemma RankGrows(entries: Entries, fold: Fold, done: set<EntryId>, parent: EntryId, row: Row)
    requires Partitioned(entries, fold) && parent in fold.lists && parent !in done
    ensures var at := IndexOf(fold.lists[parent], row.entryId);
            WithRank(row, fold, done + {parent}) == if at.Some? then row.(rank := Some(LocalRank(at.value))) else WithRank(row, fold, done)
    ensures IndexOf(fold.lists[parent], row.entryId).Some? ==> WithRank(row, fold, done) == row
  {
    assert Holds(fold.parents, parent, fold.lists[parent]);
    assert row.entryId in fold.lists[parent] <==> row.entryId in fold.parents && fold.parents[row.entryId] == parent;
  }

  /** One parent more: its policy and its rows' ranks, whatever other parents did to the same entries. */
  lemma OutputGrows(entries: Entries, fold: Fold, done: set<EntryId>, parent: EntryId, id: EntryId)
    requires Keyed(entries) && Partitioned(entries, fold) && parent in fold.lists && parent !in done && id in entries
    ensures Output(entries, fold, done + {parent})[id] == Ranked(Promoted(Output(entries, fold, done), parent)[id], fold.lists[parent])
  {
    assert IdOf(entries[id]) == id;
    match entries[id]
    case RowEntry(row) => RowGrows(entries, fold, done, parent, row);
    case SourceEntry(_, _, _) =>
    case AuthorityEntry(_) =>
  }

  lemma RowGrows(entries: Entries, fold: Fold, done: set<EntryId>, parent: EntryId, row: Row)
    requires Keyed(entries) && Partitioned(entries, fold) && parent in fold.lists && parent !in done
    requires row.entryId in entries && entries[row.entryId] == RowEntry(row)
    ensures Output(entries, fold, done + {parent})[row.entryId]
         == Ranked(Promoted(Output(entries, fold, done), parent)[row.entryId], fold.lists[parent])
  {
    RankGrows(entries, fold, done, parent, row);
  }

  method AssignRanks(entries: Entries, fold: Fold) returns (out: Entries)
    requires Keyed(entries) && Partitioned(entries, fold) && Marked(fold) <= fold.lists.Keys
    ensures out == Output(entries, fold, Marked(fold))
  {
    out := entries;
    var todo := Marked(fold);
    ghost var done: set<EntryId> := {};
    NothingDone(entries, fold);
    while todo != {}
      invariant todo + done == Marked(fold) && todo * done == {}
      invariant out == Output(entries, fold, done)
      decreases todo
    {
      var parent :| parent in todo;
      var promoted := Promoted(out, parent);
      OutputRows(entries, fold, done, parent);
      var ranked := RankList(promoted, fold.lists[parent]);
      forall id | id in entries ensures ranked[id] == Output(entries, fold, done + {parent})[id] {
        OutputGrows(entries, fold, done, parent, id);
      }
      out, todo, done := ranked, todo - {parent}, done + {parent};
      assert out == Output(entries, fold, done);
    }
    assert done == Marked(fold);
  }

  lemma NothingDone(entries: Entries, fold: Fold)
    ensures Output(entries, fold, {}) == entries
  {
  }

  lemma OutputRows(entries: Entries, fold: Fold, done: set<EntryId>, parent: EntryId)
    requires Keyed(entries) && Partitioned(entries, fold) && parent in fold.lists
    ensures var promoted := Promoted(Output(entries, fold, done), parent);
            && promoted.Keys == entries.Keys && Keyed(promoted)
            && Apart(fold.lists[parent]) && AreRows(promoted, fold.lists[parent])
  {
    var out := Output(entries, fold, done);
    forall id | id in entries ensures IdOf(out[id]) == id && (out[id].RowEntry? <==> entries[id].RowEntry?) {
      assert IdOf(entries[id]) == id;
    }
    BaseRows(entries, fold.parents, parent, fold.lists[parent]);
  }

  // ------------------------------------------------------------------------------------------
  // What is displayed
  // ------------------------------------------------------------------------------------------

  /** A parent that can be shown by rank: an area or a folder that is listed. */
  predicate CanRank(entries: Entries, parent: EntryId) {
    parent in entries && (entries[parent].SourceEntry? || (entries[parent].RowEntry? && entries[parent].row.kind.Folder?))
  }

  /** The fold orders the parent by rank exactly where the rows will be shown by rank. */
  predicate RanksAgree(entries: Entries, fold: Fold, parent: EntryId) {
    && (parent in fold.manual ==> CanRank(entries, parent))
    && (IsManualParent(entries, parent) ==> parent in fold.manual)
  }

  lemma OutputKeeps(entries: Entries, fold: Fold, done: set<EntryId>)
    requires Keyed(entries)
    ensures Keyed(Output(entries, fold, done)) && ParentMap(Output(entries, fold, done)) == ParentMap(entries)
    ensures forall parent :: CanRank(entries, parent) && parent in done ==> IsManualParent(Output(entries, fold, done), parent)
    ensures forall parent :: parent !in done || !CanRank(entries, parent) ==>
              (IsManualParent(Output(entries, fold, done), parent) <==> IsManualParent(entries, parent))
  {
    var out := Output(entries, fold, done);
    forall id | id in entries ensures IdOf(out[id]) == id && (out[id].RowEntry? <==> entries[id].RowEntry?) {
      assert IdOf(entries[id]) == id;
    }
  }

  /** A list shown by the ranks just given reads in the fold's order, for fewer than 10^12 siblings. */
  lemma RankedInOrder(entries: Entries, collate: (string, string) -> bool, fold: Fold, parent: EntryId)
    requires Keyed(entries) && Partitioned(entries, fold) && parent in fold.lists && parent in Marked(fold)
    requires |fold.lists[parent]| <= Power(RANK_WIDTH)
    ensures SiblingLists.InOrder(Output(entries, fold, Marked(fold)), collate, true, fold.lists[parent])
  {
    var ids := fold.lists[parent];
    var out := Output(entries, fold, Marked(fold));
    BaseRows(entries, fold.parents, parent, ids);
    forall i | 0 <= i < |ids| ensures IsRow(out, ids[i]) && RankOf(RowOf(out, ids[i])) == LocalRank(i) {
      FirstIndex(ids, i);
      assert ids[i] in ids && IdOf(entries[ids[i]]) == ids[i];
    }
    forall i, k | 0 <= i < k < |ids| ensures SiblingOrder(true, collate)(RowsOf(out, ids)[i], RowsOf(out, ids)[k]) {
      RanksRise(i, k);
    }
  }

  /** A list whose rows kept their ranks, or that is shown by name, reads as before. */
  lemma UnrankedInOrder(entries: Entries, collate: (string, string) -> bool, fold: Fold, parent: EntryId, manual: bool)
    requires Keyed(entries) && Partitioned(entries, fold) && parent in fold.lists && (manual ==> parent !in Marked(fold))
    ensures SiblingLists.InOrder(Output(entries, fold, Marked(fold)), collate, manual, fold.lists[parent]) <==>
            SiblingLists.InOrder(entries, collate, manual, fold.lists[parent])
  {
    var ids := fold.lists[parent];
    var out := Output(entries, fold, Marked(fold));
    forall i | 0 <= i < |ids|
      ensures IsRow(out, ids[i]) && RowOf(out, ids[i]).name == RowOf(entries, ids[i]).name
      ensures RowOf(out, ids[i]).kind == RowOf(entries, ids[i]).kind && RowOf(out, ids[i]).entryId == RowOf(entries, ids[i]).entryId
      ensures manual ==> RowOf(out, ids[i]).rank == RowOf(entries, ids[i]).rank
    {
      assert ids[i] in ids && IdOf(entries[ids[i]]) == ids[i];
    }
    BaseRows(entries, fold.parents, parent, ids);
    forall i, k | 0 <= i < k < |ids|
      ensures SiblingOrder(manual, collate)(RowsOf(out, ids)[i], RowsOf(out, ids)[k]) <==>
              SiblingOrder(manual, collate)(RowsOf(entries, ids)[i], RowsOf(entries, ids)[k])
    {
    }
  }

  /**
   * The projected rows, read as any reader of the catalog reads them, show exactly the fold's list:
   * the rows whose projected parent it is, each once, in the fold's order.
   */
  lemma ShownAsFolded(entries: Entries, collate: (string, string) -> bool, fold: Fold, parent: EntryId)
    requires Keyed(entries) && Sound(entries, collate, fold) && fold.parents == ParentMap(entries)
    requires parent in fold.lists && RanksAgree(entries, fold, parent) && |fold.lists[parent]| <= Power(RANK_WIDTH)
    ensures var out := Output(entries, fold, Marked(fold));
            Holds(ParentMap(out), parent, fold.lists[parent])
            && SiblingLists.InOrder(out, collate, IsManualParent(out, parent), fold.lists[parent])
  {
    OutputKeeps(entries, fold, Marked(fold));
    assert ListInOrder(entries, collate, fold, parent);
    if parent in Marked(fold) {
      RankedInOrder(entries, collate, fold, parent);
    } else {
      UnrankedInOrder(entries, collate, fold, parent, parent in fold.manual);
    }
  }

  lemma {:induction false} LastTouch(ops: seq<Op>, id: EntryId) returns (j: nat)
    requires Touched(ops, id)
    ensures j < |ops| && ops[j].subject == id && LastOfSubject(ops, j)
  {
    var n := |ops| - 1;
    if ops[n].subject == id {
      j := n;
    } else {
      var i :| 0 <= i < |ops| && ops[i].subject == id;
      assert ops[..n][i].subject == id;
      j := LastTouch(ops[..n], id);
      forall k | j < k < |ops| ensures ops[k].subject != ops[j].subject {
        if k < n { assert ops[..n][k] == ops[k]; }
      }
    }
  }

  /** After the fold each row stands under the parent the projection shows. */
  lemma AllArrive(entries: Entries, canonical: Entries, ops: seq<Op>, fold: Fold)
    requires RowsKnown(entries, fold.parents) && Arrived(entries, ops, fold, |ops|)
    requires forall id :: id in BaseParents(entries, canonical, ops) && !Touched(ops, id) ==>
               id in fold.parents && fold.parents[id] == BaseParents(entries, canonical, ops)[id]
    ensures fold.parents == ParentMap(entries)
  {
    forall id | IsRow(entries, id) ensures id in fold.parents && fold.parents[id] == RowOf(entries, id).parentId {
      if Touched(ops, id) {
        var j := LastTouch(ops, id);
        assert StandsAsShown(entries, fold, ops[j].subject);
      }
    }
  }
}
