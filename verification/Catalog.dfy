/**
 * A device's copy of the server's catalog: whole commits replayed over cached entries, and the
 * index the app reads (packages/resource-replica/src/catalog.ts).
 */
module Catalog {
  import opened Records
  import opened SiblingLists
  import opened Siblings
  import opened Sorting
  import opened Wrappers

  // ------------------------------------------------------------------------------------------
  // Subtrees
  // ------------------------------------------------------------------------------------------

  /** At most `n` parents up, through rows, stands the root. */
  ghost predicate UnderWithin(entries: Entries, id: EntryId, root: EntryId, n: nat)
    decreases n
  {
    id == root || (n > 0 && IsRow(entries, id) && UnderWithin(entries, RowOf(entries, id).parentId, root, n - 1))
  }

  ghost predicate Under(entries: Entries, id: EntryId, root: EntryId) {
    exists n :: UnderWithin(entries, id, root, n)
  }

  /** The root, known or not, and every row whose parents lead to it. */
  ghost function Subtree(entries: Entries, root: EntryId): set<EntryId> {
    {root} + set id | id in entries && Under(entries, id, root)
  }

  lemma UnderStep(entries: Entries, id: EntryId, root: EntryId)
    requires IsRow(entries, id) && Under(entries, RowOf(entries, id).parentId, root)
    ensures Under(entries, id, root)
  {
    var n: nat :| UnderWithin(entries, RowOf(entries, id).parentId, root, n);
    assert UnderWithin(entries, id, root, n + 1);
  }

  /** A row left out of the set has its parent out of it too. */
  ghost predicate ClosedUnder(entries: Entries, invalid: set<EntryId>) {
    forall id :: IsRow(entries, id) && RowOf(entries, id).parentId in invalid ==> id in invalid
  }

  lemma {:induction false} ClosedHoldsSubtree(entries: Entries, invalid: set<EntryId>, root: EntryId, id: EntryId, n: nat)
    requires ClosedUnder(entries, invalid) && root in invalid && UnderWithin(entries, id, root, n)
    ensures id in invalid
    decreases n
  {
    if id != root { ClosedHoldsSubtree(entries, invalid, root, RowOf(entries, id).parentId, n - 1); }
  }

  ghost predicate Lists(order: seq<EntryId>, entries: Entries) {
    forall id :: id in entries <==> id in order
  }

  /** One pass over the entries adds the rows whose parents are in the set already. */
  method AddChildren(entries: Entries, order: seq<EntryId>, ghost root: EntryId, invalid0: set<EntryId>)
    returns (invalid: set<EntryId>, changed: bool)
    requires Keyed(entries) && Lists(order, entries) && root in invalid0 && invalid0 <= Subtree(entries, root)
    ensures invalid0 <= invalid <= Subtree(entries, root)
    ensures changed ==> invalid0 < invalid
    ensures !changed ==> ClosedUnder(entries, invalid) && invalid == invalid0
  {
    invalid, changed := invalid0, false;
    for i := 0 to |order|
      invariant invalid0 <= invalid <= Subtree(entries, root)
      invariant changed ==> invalid0 < invalid
      invariant !changed ==> invalid == invalid0
      invariant !changed ==> forall k :: 0 <= k < i && IsRow(entries, order[k]) && RowOf(entries, order[k]).parentId in invalid ==>
                               order[k] in invalid
    {
      var id := order[i];
      assert id in entries;
      if entries[id].RowEntry? && entries[id].row.parentId in invalid && entries[id].row.entryId !in invalid {
        assert IdOf(entries[id]) == id;
        ParentIsUnder(entries, root, RowOf(entries, id).parentId);
        UnderStep(entries, id, root);
        invalid, changed := invalid + {id}, true;
      }
    }
  }

  lemma ParentIsUnder(entries: Entries, root: EntryId, id: EntryId)
    requires id in Subtree(entries, root)
    ensures Under(entries, id, root)
  {
    if id == root { assert UnderWithin(entries, id, root, 0); }
  }

  /** Ends even where parents form a cycle: each pass adds an entry or is the last. */
  method Descendants(entries: Entries, order: seq<EntryId>, root: EntryId) returns (invalid: set<EntryId>)
    requires Keyed(entries) && Lists(order, entries)
    ensures invalid == Subtree(entries, root)
  {
    invalid := {root};
    var changed := true;
    while changed
      invariant root in invalid && invalid <= Subtree(entries, root)
      invariant !changed ==> ClosedUnder(entries, invalid)
      decreases Subtree(entries, root) - invalid, changed
    {
      ghost var was := invalid;
      invalid, changed := AddChildren(entries, order, root, invalid);
      if changed { assert Subtree(entries, root) - invalid < Subtree(entries, root) - was; }
    }
    forall id | id in Subtree(entries, root) ensures id in invalid {
      ParentIsUnder(entries, root, id);
      var n: nat :| UnderWithin(entries, id, root, n);
      ClosedHoldsSubtree(entries, invalid, root, id, n);
    }
  }

  // ------------------------------------------------------------------------------------------
  // Commits
  // ------------------------------------------------------------------------------------------

  datatype Change =
    | Upsert(ordinal: int, entry: Entry)
    | Delete(ordinal: int, entryId: EntryId)
    | Invalidate(ordinal: int, rootEntryId: EntryId)

  /** A revision as it is written; what the source cannot read as a natural number is unreadable. */
  datatype Revision = At(n: nat) | Unreadable

  datatype Commit = Commit(firstRevision: Revision, lastRevision: Revision, changes: seq<Change>)

  ghost function Changed(entries: Entries, change: Change): Entries {
    match change
    case Upsert(_, entry) => entries[IdOf(entry) := entry]
    case Delete(_, entryId) => entries - {entryId}
    case Invalidate(_, rootEntryId) => entries - Subtree(entries, rootEntryId)
  }

  ghost function ChangedBy(entries: Entries, changes: seq<Change>): Entries {
    if changes == [] then entries
    else Changed(ChangedBy(entries, changes[..|changes| - 1]), changes[|changes| - 1])
  }

  function ByOrdinal(): (Change, Change) -> bool {
    (a: Change, b: Change) => a.ordinal <= b.ordinal
  }

  function Ordered(changes: seq<Change>): seq<Change> {
    SortBy(changes, ByOrdinal())
  }

  /** A commit's changes in the order of their ordinals, each over what the ones before it left. */
  ghost function Committed(entries: Entries, commit: Commit): Entries {
    ChangedBy(entries, Ordered(commit.changes))
  }

  lemma {:induction false} ChangesKeepKeys(entries: Entries, changes: seq<Change>)
    requires Keyed(entries)
    ensures Keyed(ChangedBy(entries, changes))
  {
    if changes != [] { ChangesKeepKeys(entries, changes[..|changes| - 1]); }
  }

  /** The order in which a commit lists its changes decides nothing while their ordinals differ. */
  lemma ListingDecidesNothing(entries: Entries, a: Commit, b: Commit)
    requires multiset(a.changes) == multiset(b.changes)
    requires forall c, d :: c in a.changes && d in a.changes && c.ordinal == d.ordinal ==> c == d
    ensures Committed(entries, a) == Committed(entries, b)
  {
    SortIsSorted(a.changes, ByOrdinal());
    SortIsSorted(b.changes, ByOrdinal());
    assert multiset(Ordered(a.changes)) == multiset(a.changes);
    forall c | c in Ordered(a.changes) ensures c in a.changes { assert c in multiset(Ordered(a.changes)); }
    SortedIsUnique(Ordered(a.changes), Ordered(b.changes), ByOrdinal());
  }

  // ------------------------------------------------------------------------------------------
  // What a commit leaves
  // ------------------------------------------------------------------------------------------

  /** The changes of one ordinal, as they are listed. */
  ghost function WithOrdinal(changes: seq<Change>, ordinal: int): seq<Change> {
    if changes == [] then []
    else
      var n := |changes| - 1;
      WithOrdinal(changes[..n], ordinal) + if changes[n].ordinal == ordinal then [changes[n]] else []
  }

  /** The commit's changes from the least ordinal up, those of one ordinal as they are listed. */
  ghost predicate Ascending(order: seq<Change>, changes: seq<Change>) {
    && multiset(order) == multiset(changes)
    && (forall i, k :: 0 <= i < k < |order| ==> order[i].ordinal <= order[k].ordinal)
    && forall ordinal :: WithOrdinal(order, ordinal) == WithOrdinal(changes, ordinal)
  }

  lemma {:induction false} WithOrdinalOfBoth(a: seq<Change>, b: seq<Change>, ordinal: int)
    ensures WithOrdinal(a + b, ordinal) == WithOrdinal(a, ordinal) + WithOrdinal(b, ordinal)
  {
    if b == [] {
      assert a + b == a;
    } else {
      var n := |b| - 1;
      assert (a + b)[..|a + b| - 1] == a + b[..n];
      WithOrdinalOfBoth(a, b[..n], ordinal);
    }
  }

  lemma {:induction false} NoneWithOrdinal(changes: seq<Change>, ordinal: int)
    requires forall i :: 0 <= i < |changes| ==> changes[i].ordinal != ordinal
    ensures WithOrdinal(changes, ordinal) == []
  {
    if changes != [] { NoneWithOrdinal(changes[..|changes| - 1], ordinal); }
  }

  lemma OneWithOrdinal(change: Change, ordinal: int)
    ensures WithOrdinal([change], ordinal) == if change.ordinal == ordinal then [change] else []
  {
    assert [change][..0] == [];
  }

  lemma AheadOfGreater(change: Change, changes: seq<Change>, ordinal: int)
    requires forall i :: 0 <= i < |changes| ==> changes[i].ordinal > change.ordinal
    ensures WithOrdinal([change] + changes, ordinal) == WithOrdinal(changes + [change], ordinal)
  {
    WithOrdinalOfBoth([change], changes, ordinal);
    WithOrdinalOfBoth(changes, [change], ordinal);
    OneWithOrdinal(change, ordinal);
    if change.ordinal == ordinal { NoneWithOrdinal(changes, ordinal); }
  }

  lemma SameBehind(first: Change, a: seq<Change>, b: seq<Change>, ordinal: int)
    requires WithOrdinal(a, ordinal) == WithOrdinal(b, ordinal)
    ensures WithOrdinal([first] + a, ordinal) == WithOrdinal([first] + b, ordinal)
  {
    WithOrdinalOfBoth([first], a, ordinal);
    WithOrdinalOfBoth([first], b, ordinal);
  }

  lemma GreaterFirst(change: Change, changes: seq<Change>)
    requires SortedBy(changes, ByOrdinal()) && changes != [] && changes[0].ordinal > change.ordinal
    ensures forall i :: 0 <= i < |changes| ==> changes[i].ordinal > change.ordinal
  {
    forall i | 0 < i < |changes| ensures changes[i].ordinal > change.ordinal { assert ByOrdinal()(changes[0], changes[i]); }
  }

  lemma {:induction false} InsertIsStable(change: Change, changes: seq<Change>, ordinal: int)
    requires SortedBy(changes, ByOrdinal())
    ensures WithOrdinal(InsertBy(change, changes, ByOrdinal()), ordinal) == WithOrdinal(changes + [change], ordinal)
  {
    if changes == [] {
      assert changes + [change] == [change];
    } else if changes[0].ordinal <= change.ordinal {
      var rest := changes[1..];
      TailFits(changes, ByOrdinal());
      InsertIsStable(change, rest, ordinal);
      SameBehind(changes[0], InsertBy(change, rest, ByOrdinal()), rest + [change], ordinal);
      assert [changes[0]] + (rest + [change]) == changes + [change];
    } else {
      GreaterFirst(change, changes);
      AheadOfGreater(change, changes, ordinal);
    }
  }

  lemma {:induction false} SortIsStable(changes: seq<Change>, ordinal: int)
    ensures WithOrdinal(SortBy(changes, ByOrdinal()), ordinal) == WithOrdinal(changes, ordinal)
  {
    if changes != [] {
      var n := |changes| - 1;
      var front := SortBy(changes[..n], ByOrdinal());
      SortIsSorted(changes[..n], ByOrdinal());
      SortIsStable(changes[..n], ordinal);
      InsertIsStable(changes[n], front, ordinal);
      WithOrdinalOfBoth(front, [changes[n]], ordinal);
      OneWithOrdinal(changes[n], ordinal);
    }
  }

  lemma OrderedIsAscending(changes: seq<Change>)
    ensures Ascending(Ordered(changes), changes)
  {
    SortIsSorted(changes, ByOrdinal());
    var order := Ordered(changes);
    forall i, k | 0 <= i < k < |order| ensures order[i].ordinal <= order[k].ordinal {
      assert ByOrdinal()(order[i], order[k]);
    }
    forall ordinal ensures WithOrdinal(order, ordinal) == WithOrdinal(changes, ordinal) { SortIsStable(changes, ordinal); }
  }

  /** The change writes the entry, deletes it, or invalidates a subtree that holds it at that point. */
  ghost predicate Touches(found: Entries, change: Change, id: EntryId) {
    match change
    case Upsert(_, entry) => IdOf(entry) == id
    case Delete(_, entryId) => entryId == id
    case Invalidate(_, rootEntryId) => id == rootEntryId || (id in found && Under(found, id, rootEntryId))
  }

  ghost predicate UntouchedFrom(order: seq<Change>, at: seq<Entries>, from: nat, n: nat, id: EntryId)
    requires n <= |order| < |at|
  {
    forall k :: from <= k < n ==> !Touches(at[k], order[k], id)
  }

  /** An upsert wrote `entry` under the id, and nothing touched the id after it. */
  ghost predicate WrittenAt(order: seq<Change>, at: seq<Entries>, i: nat, n: nat, id: EntryId, entry: Entry)
    requires i < n <= |order| < |at|
  {
    order[i].Upsert? && order[i].entry == entry && IdOf(entry) == id && UntouchedFrom(order, at, i + 1, n, id)
  }

  ghost predicate Written(order: seq<Change>, at: seq<Entries>, n: nat, id: EntryId, entry: Entry)
    requires n <= |order| < |at|
  {
    exists i :: 0 <= i < n && WrittenAt(order, at, i, n, id, entry)
  }

  /** What the first `n` changes leave under an id: the last write nothing undid, or what nothing touched. */
  ghost predicate LeavesAt(current: Entries, order: seq<Change>, at: seq<Entries>, n: nat, id: EntryId, entry: Entry)
    requires n <= |order| < |at|
  {
    || Written(order, at, n, id, entry)
    || (id in current && current[id] == entry && UntouchedFrom(order, at, 0, n, id))
  }

  predicate Keeps(entries: Entries, id: EntryId, entry: Entry) {
    id in entries && entries[id] == entry
  }

  /** `at` is what each of the changes finds, and at its end what they all leave. */
  ghost predicate Leaves(current: Entries, order: seq<Change>, at: seq<Entries>) {
    && |at| == |order| + 1
    && forall n: nat, id, entry | n <= |order| :: LeavesAt(current, order, at, n, id, entry) <==> Keeps(at[n], id, entry)
  }

  /** The changes of a commit, from the least ordinal up, turn `current` into `entries`. */
  ghost predicate Brings(current: Entries, commit: Commit, entries: Entries) {
    exists order, at :: Ascending(order, commit.changes) && Leaves(current, order, at) && entries == at[|order|]
  }

  lemma StepLeaves(current: Entries, order: seq<Change>, at: seq<Entries>, n: nat, id: EntryId, entry: Entry)
    requires n < |order| < |at| && at[n + 1] == Changed(at[n], order[n])
    requires LeavesAt(current, order, at, n, id, entry) <==> Keeps(at[n], id, entry)
    ensures LeavesAt(current, order, at, n + 1, id, entry) <==> Keeps(at[n + 1], id, entry)
  {
    WrittenGrows(order, at, n, id, entry);
    UntouchedGrows(order, at, 0, n, id);
  }

  lemma WrittenGrows(order: seq<Change>, at: seq<Entries>, n: nat, id: EntryId, entry: Entry)
    requires n < |order| < |at|
    ensures Written(order, at, n + 1, id, entry) <==>
            || (order[n].Upsert? && order[n].entry == entry && IdOf(entry) == id)
            || (!Touches(at[n], order[n], id) && Written(order, at, n, id, entry))
  {
    var m := n + 1;
    if order[n].Upsert? && order[n].entry == entry && IdOf(entry) == id {
      assert WrittenAt(order, at, n, m, id, entry);
    } else if !Touches(at[n], order[n], id) && Written(order, at, n, id, entry) {
      var i :| 0 <= i < n && WrittenAt(order, at, i, n, id, entry);
      UntouchedGrows(order, at, i + 1, n, id);
      assert WrittenAt(order, at, i, m, id, entry);
    }
    if Written(order, at, m, id, entry) {
      var i :| 0 <= i < m && WrittenAt(order, at, i, m, id, entry);
      if i < n {
        UntouchedGrows(order, at, i + 1, n, id);
        assert WrittenAt(order, at, i, n, id, entry);
      }
    }
  }

  lemma UntouchedGrows(order: seq<Change>, at: seq<Entries>, from: nat, n: nat, id: EntryId)
    requires n < |order| < |at| && from <= n
    ensures UntouchedFrom(order, at, from, n + 1, id) <==> UntouchedFrom(order, at, from, n, id) && !Touches(at[n], order[n], id)
  {
  }

  ghost function Timeline(current: Entries, order: seq<Change>): (at: seq<Entries>)
    ensures |at| == |order| + 1 && forall n :: 0 <= n <= |order| ==> at[n] == ChangedBy(current, order[..n])
  {
    seq(|order| + 1, n requires 0 <= n <= |order| => ChangedBy(current, order[..n]))
  }

  lemma {:induction false} TimelineLeaves(current: Entries, order: seq<Change>, at: seq<Entries>, n: nat, id: EntryId, entry: Entry)
    requires at == Timeline(current, order) && n <= |order|
    ensures LeavesAt(current, order, at, n, id, entry) <==> Keeps(at[n], id, entry)
  {
    if n == 0 {
      assert order[..0] == [];
    } else {
      TimelineLeaves(current, order, at, n - 1, id, entry);
      assert order[..n][..n - 1] == order[..n - 1];
      StepLeaves(current, order, at, n - 1, id, entry);
    }
  }

  /** An entry is there after a commit exactly when it was written last and not undone, or was there and left alone. */
  lemma CommitLeaves(current: Entries, commit: Commit)
    ensures Brings(current, commit, Committed(current, commit))
  {
    var order := Ordered(commit.changes);
    OrderedIsAscending(commit.changes);
    var at := Timeline(current, order);
    forall n: nat, id, entry | n <= |order|
      ensures LeavesAt(current, order, at, n, id, entry) <==> Keeps(at[n], id, entry)
    {
      TimelineLeaves(current, order, at, n, id, entry);
    }
    assert order[..|order|] == order;
  }

  /** An upsert outlives every change of a lower ordinal, the invalidation of its own subtree included. */
  lemma UpsertOutlives(current: Entries, commit: Commit, entries: Entries, entry: Entry, ordinal: int)
    requires Brings(current, commit, entries) && Upsert(ordinal, entry) in commit.changes
    requires forall c :: c in commit.changes && c.ordinal >= ordinal && c != Upsert(ordinal, entry) ==>
               c.Upsert? && IdOf(c.entry) != IdOf(entry)
    ensures IdOf(entry) in entries && entries[IdOf(entry)] == entry
  {
    var order, at :| Ascending(order, commit.changes) && Leaves(current, order, at) && entries == at[|order|];
    assert Upsert(ordinal, entry) in multiset(order);
    var i := LastPlace(order, Upsert(ordinal, entry));
    forall k | i < k < |order| ensures !Touches(at[k], order[k], IdOf(entry)) {
      assert order[k] in multiset(order);
    }
    assert WrittenAt(order, at, i, |order|, IdOf(entry), entry) && Written(order, at, |order|, IdOf(entry), entry);
    assert LeavesAt(current, order, at, |order|, IdOf(entry), entry);
  }

  lemma {:induction false} LastPlace(order: seq<Change>, change: Change) returns (i: nat)
    requires change in order
    ensures i < |order| && order[i] == change && forall k :: i < k < |order| ==> order[k] != change
  {
    var n := |order| - 1;
    if order[n] == change { i := n; } else { i := LastPlace(order[..n], change); }
  }

  const FOLDER := EntryId("folder-1")
  const DOCUMENT := EntryId("document-1")

  /** A subtree replaced by one commit: invalidated first, then written again. */
  lemma ReplacedSubtreeIsThere(current: Entries, commit: Commit, entries: Entries, folder: Row, document: Row)
    requires folder.entryId == FOLDER && document.entryId == DOCUMENT && document.parentId == FOLDER
    requires commit.changes == [Upsert(2, RowEntry(document)), Invalidate(0, FOLDER), Upsert(1, RowEntry(folder))]
    requires Brings(current, commit, entries)
    ensures FOLDER in entries && entries[FOLDER] == RowEntry(folder)
    ensures DOCUMENT in entries && entries[DOCUMENT] == RowEntry(document)
  {
    UpsertOutlives(current, commit, entries, RowEntry(folder), 1);
    UpsertOutlives(current, commit, entries, RowEntry(document), 2);
  }

  /** Some order of the entries, as a map's iteration gives one. */
  method Listed(entries: Entries) returns (order: seq<EntryId>)
    ensures Lists(order, entries)
  {
    order := [];
    var todo := entries.Keys;
    while todo != {}
      invariant todo <= entries.Keys
      invariant forall id :: id in entries <==> id in order || id in todo
      decreases todo
    {
      var id :| id in todo;
      order, todo := order + [id], todo - {id};
    }
  }

  method ApplyCommit(current: Entries, commit: Commit) returns (entries: Entries)
    requires Keyed(current)
    ensures entries == Committed(current, commit) && Keyed(entries)
    ensures Brings(current, commit, entries)
  {
    CommitLeaves(current, commit);
    entries := ApplyInOrder(current, Ordered(commit.changes));
  }

  method ApplyInOrder(current: Entries, changes: seq<Change>) returns (entries: Entries)
    requires Keyed(current)
    ensures entries == ChangedBy(current, changes) && Keyed(entries)
  {
    entries := current;
    for i := 0 to |changes|
      invariant entries == ChangedBy(current, changes[..i]) && Keyed(entries)
    {
      assert changes[..i + 1][..i] == changes[..i];
      match changes[i]
      case Upsert(_, entry) =>
        entries := entries[IdOf(entry) := entry];
      case Delete(_, entryId) =>
        entries := entries - {entryId};
      case Invalidate(_, rootEntryId) =>
        var order := Listed(entries);
        var gone := Descendants(entries, order, rootEntryId);
        entries := entries - gone;
    }
    assert changes[..|changes|] == changes;
  }

  // ------------------------------------------------------------------------------------------
  // Pages of commits
  // ------------------------------------------------------------------------------------------

  /** A cached view without its index, which is read off the entries. */
  datatype View = View(scope: string, generation: string, applied: Revision, observed: Revision, cursor: string, entries: Entries)

  datatype Page =
    | Delta(scope: string, commits: seq<Commit>, nextCursor: string, headRevision: Revision, hasMore: bool)
    | ResetRequired

  /** One commit of a page: already applied, the next in line, or out of line. */
  ghost function Advance(view: View, commit: Commit): Option<View> {
    if commit.firstRevision.Unreadable? || commit.lastRevision.Unreadable? || view.applied.Unreadable? then None
    else if commit.lastRevision.n <= view.applied.n then Some(view)
    else if commit.firstRevision.n != view.applied.n + 1 || commit.lastRevision.n < commit.firstRevision.n then None
    else Some(view.(entries := Committed(view.entries, commit), applied := commit.lastRevision))
  }

  ghost function AdvanceAll(view: View, commits: seq<Commit>): Option<View>
    decreases |commits|
  {
    if commits == [] then Some(view)
    else
      match Advance(view, commits[0])
      case None => None
      case Some(next) => AdvanceAll(next, commits[1..])
  }

  predicate HeadFits(applied: Revision, observed: Revision, head: Revision, hasMore: bool) {
    && head.At? && applied.At? && observed.At? && head.n >= applied.n && head.n >= observed.n
    && (hasMore || head.n == applied.n)
  }

  ghost function Applied(current: View, page: Page): Option<View> {
    if page.ResetRequired? || page.scope != current.scope then None
    else
      match AdvanceAll(current, page.commits)
      case None => None
      case Some(next) =>
        if !HeadFits(next.applied, current.observed, page.headRevision, page.hasMore) then None
        else Some(next.(cursor := page.nextCursor, observed := page.headRevision))
  }

  /** The whole page, or nothing of it; the installed view is never changed. */
  method ApplyCatalogChanges(current: View, page: Page) returns (next: Option<View>)
    requires Keyed(current.entries)
    ensures next == Applied(current, page) && (next.Some? ==> Keyed(next.value.entries))
  {
    if page.ResetRequired? || page.scope != current.scope { return None; }
    var view := current;
    for i := 0 to |page.commits|
      invariant Keyed(view.entries) && AdvanceAll(current, page.commits) == AdvanceAll(view, page.commits[i..])
    {
      var commit := page.commits[i];
      assert page.commits[i..][1..] == page.commits[i + 1..];
      if commit.firstRevision.Unreadable? || commit.lastRevision.Unreadable? || view.applied.Unreadable? { return None; }
      if commit.lastRevision.n <= view.applied.n { continue; }
      if commit.firstRevision.n != view.applied.n + 1 || commit.lastRevision.n < commit.firstRevision.n { return None; }
      var entries := ApplyCommit(view.entries, commit);
      view := view.(entries := entries, applied := commit.lastRevision);
    }
    if !HeadFits(view.applied, current.observed, page.headRevision, page.hasMore) { return None; }
    next := Some(view.(cursor := page.nextCursor, observed := page.headRevision));
  }

  // ------------------------------------------------------------------------------------------
  // Agreement with the server's log
  // ------------------------------------------------------------------------------------------

  /** The log: each commit starts right after the one before it ends. */
  ghost predicate Contiguous(log: seq<Commit>, base: nat) {
    forall i :: 0 <= i < |log| ==> StartsAfter(log, base, i)
  }

  ghost predicate StartsAfter(log: seq<Commit>, base: nat, i: nat)
    requires i < |log|
  {
    && log[i].firstRevision.At? && log[i].lastRevision.At?
    && log[i].firstRevision.n == RevisionAt(log, base, i) + 1 && log[i].lastRevision.n >= log[i].firstRevision.n
  }

  /** The revision after the first `k` commits. */
  ghost function RevisionAt(log: seq<Commit>, base: nat, k: nat): nat
    requires k <= |log|
  {
    if k == 0 then base else if log[k - 1].lastRevision.At? then log[k - 1].lastRevision.n else base
  }

  ghost function Folded(start: Entries, log: seq<Commit>, k: nat): Entries
    requires k <= |log|
  {
    if k == 0 then start else Committed(Folded(start, log, k - 1), log[k - 1])
  }

  /** Each commit of the log brings what it says to what the ones before it left. */
  lemma LogBrings(start: Entries, log: seq<Commit>, k: nat)
    requires k < |log|
    ensures Brings(Folded(start, log, k), log[k], Folded(start, log, k + 1))
  {
    CommitLeaves(Folded(start, log, k), log[k]);
  }

  lemma {:induction false} RevisionsRise(log: seq<Commit>, base: nat, j: nat, k: nat)
    requires Contiguous(log, base) && j <= k <= |log|
    ensures RevisionAt(log, base, j) <= RevisionAt(log, base, k)
    ensures j < k ==> RevisionAt(log, base, j) < RevisionAt(log, base, k)
  {
    if j < k {
      RevisionsRise(log, base, j, k - 1);
      assert StartsAfter(log, base, k - 1);
    }
  }

  /** The view stands at a boundary of the log, with exactly what the log says there. */
  ghost predicate AgreesAt(view: View, start: Entries, log: seq<Commit>, base: nat, k: nat) {
    k <= |log| && view.applied == At(RevisionAt(log, base, k)) && view.entries == Folded(start, log, k)
  }

  ghost predicate Agrees(view: View, start: Entries, log: seq<Commit>, base: nat) {
    exists k :: AgreesAt(view, start, log, base, k)
  }

  /** The only commit of the log in line after the first `k` is the next. */
  lemma NextInLine(log: seq<Commit>, base: nat, j: nat, k: nat)
    requires Contiguous(log, base) && j < |log| && k <= |log| && StartsAfter(log, base, j)
    requires RevisionAt(log, base, k) < RevisionAt(log, base, j + 1)
    requires log[j].firstRevision.n == RevisionAt(log, base, k) + 1
    ensures j == k
  {
    if j < k { RevisionsRise(log, base, j + 1, k); }
    if k < j { RevisionsRise(log, base, k, j); }
  }

  lemma CommitAgrees(view: View, start: Entries, log: seq<Commit>, base: nat, j: nat, k: nat)
    requires Contiguous(log, base) && AgreesAt(view, start, log, base, k) && j < |log| && Advance(view, log[j]).Some?
    ensures Agrees(Advance(view, log[j]).value, start, log, base)
  {
    assert StartsAfter(log, base, j);
    var next := Advance(view, log[j]).value;
    if log[j].lastRevision.n <= view.applied.n {
      assert AgreesAt(next, start, log, base, k);
    } else {
      NextInLine(log, base, j, k);
      assert AgreesAt(next, start, log, base, k + 1);
    }
  }

  lemma {:induction false} CommitsAgree(view: View, start: Entries, log: seq<Commit>, base: nat, commits: seq<Commit>)
    requires Contiguous(log, base) && Agrees(view, start, log, base) && AdvanceAll(view, commits).Some?
    requires forall i :: 0 <= i < |commits| ==> commits[i] in log
    ensures Agrees(AdvanceAll(view, commits).value, start, log, base)
    decreases |commits|
  {
    if commits != [] {
      var j: nat :| j < |log| && log[j] == commits[0];
      var k: nat :| AgreesAt(view, start, log, base, k);
      CommitAgrees(view, start, log, base, j, k);
      CommitsAgree(Advance(view, commits[0]).value, start, log, base, commits[1..]);
    }
  }

  /**
   * However the log is cut into pages, repeated or overlapped, a page that applies leaves the view
   * at a boundary of the log with exactly the entries the whole commits up to it give.
   */
  lemma PageAgrees(current: View, page: Page, start: Entries, log: seq<Commit>, base: nat)
    requires Contiguous(log, base) && Agrees(current, start, log, base)
    requires page.Delta? && forall i :: 0 <= i < |page.commits| ==> page.commits[i] in log
    requires Applied(current, page).Some?
    ensures Agrees(Applied(current, page).value, start, log, base)
  {
    CommitsAgree(current, start, log, base, page.commits);
    var next := AdvanceAll(current, page.commits).value;
    var k: nat :| AgreesAt(next, start, log, base, k);
    assert AgreesAt(Applied(current, page).value, start, log, base, k);
  }

  // ------------------------------------------------------------------------------------------
  // Replays and pages in a row
  // ------------------------------------------------------------------------------------------

  lemma {:induction false} AdvancingRises(view: View, commits: seq<Commit>)
    requires AdvanceAll(view, commits).Some? && view.applied.At?
    ensures var next := AdvanceAll(view, commits).value;
            && next.applied.At? && next.applied.n >= view.applied.n
            && (forall i :: 0 <= i < |commits| ==> commits[i].firstRevision.At? && commits[i].lastRevision.At?
                                                   && commits[i].lastRevision.n <= next.applied.n)
    ensures AdvanceAll(view, commits).value.observed == view.observed && AdvanceAll(view, commits).value.scope == view.scope
    decreases |commits|
  {
    if commits != [] {
      AdvancingRises(Advance(view, commits[0]).value, commits[1..]);
      var next := AdvanceAll(view, commits).value;
      forall i | 0 <= i < |commits|
        ensures commits[i].firstRevision.At? && commits[i].lastRevision.At? && commits[i].lastRevision.n <= next.applied.n
      {
        if i > 0 { assert commits[i] == commits[1..][i - 1]; }
      }
    }
  }

  lemma {:induction false} BehindIsSkipped(view: View, commits: seq<Commit>)
    requires view.applied.At?
    requires forall i :: 0 <= i < |commits| ==> commits[i].firstRevision.At? && commits[i].lastRevision.At?
                                                && commits[i].lastRevision.n <= view.applied.n
    ensures AdvanceAll(view, commits) == Some(view)
    decreases |commits|
  {
    if commits != [] { BehindIsSkipped(view, commits[1..]); }
  }

  /** Applying a page again changes nothing. */
  lemma ReplayIsNothing(current: View, page: Page)
    requires Applied(current, page).Some? && current.applied.At?
    ensures Applied(Applied(current, page).value, page) == Applied(current, page)
  {
    AdvancingRises(current, page.commits);
    BehindIsSkipped(Applied(current, page).value, page.commits);
  }

  /** What advances does not depend on the cursor or the observed head. */
  lemma {:induction false} AdvancingKeepsRest(view: View, other: View, commits: seq<Commit>)
    requires other == view.(cursor := other.cursor, observed := other.observed)
    ensures AdvanceAll(view, commits).Some? <==> AdvanceAll(other, commits).Some?
    ensures AdvanceAll(view, commits).Some? ==>
              AdvanceAll(other, commits).value ==
              AdvanceAll(view, commits).value.(cursor := other.cursor, observed := other.observed)
    decreases |commits|
  {
    if commits != [] && Advance(view, commits[0]).Some? {
      AdvancingKeepsRest(Advance(view, commits[0]).value, Advance(other, commits[0]).value, commits[1..]);
    }
  }

  lemma {:induction false} AdvancingBoth(view: View, a: seq<Commit>, b: seq<Commit>)
    requires AdvanceAll(view, a).Some?
    ensures AdvanceAll(view, a + b) == AdvanceAll(AdvanceAll(view, a).value, b)
    decreases |a|
  {
    if a == [] {
      assert a + b == b;
    } else {
      assert (a + b)[1..] == a[1..] + b;
      AdvancingBoth(Advance(view, a[0]).value, a[1..], b);
    }
  }

  /** Two pages in a row are one page of both. */
  lemma PagesAreOne(current: View, first: Page, second: Page)
    requires Applied(current, first).Some? && Applied(Applied(current, first).value, second).Some?
    ensures Applied(current, Delta(first.scope, first.commits + second.commits, second.nextCursor, second.headRevision, second.hasMore))
            == Applied(Applied(current, first).value, second)
  {
    var middle := AdvanceAll(current, first.commits).value;
    var view := Applied(current, first).value;
    AdvancingBoth(current, first.commits, second.commits);
    AdvancingKeepsRest(middle, view, second.commits);
  }

  // ------------------------------------------------------------------------------------------
  // The index
  // ------------------------------------------------------------------------------------------

  /** Every parent's list, in display order; a parent with no child has none. */
  ghost predicate Indexes(entries: Entries, collate: (string, string) -> bool, children: map<EntryId, seq<EntryId>>) {
    && (forall parent :: parent in children ==> ListFits(entries, collate, parent, children[parent]))
    && forall id :: IsRow(entries, id) ==> RowOf(entries, id).parentId in children
  }

  ghost predicate ListFits(entries: Entries, collate: (string, string) -> bool, parent: EntryId, ids: seq<EntryId>) {
    && ids != [] && Holds(ParentMap(entries), parent, ids)
    && InOrder(entries, collate, IsManualParent(entries, parent), ids)
  }

  method GroupRows(entries: Entries, order: seq<EntryId>) returns (children: map<EntryId, seq<EntryId>>)
    requires Lists(order, entries)
    ensures Groups(ParentMap(entries), order, children)
  {
    children := map[];
    for i := 0 to |order|
      invariant Groups(ParentMap(entries), order[..i], children)
    {
      var id := order[i];
      assert id in entries;
      GroupsGrow(ParentMap(entries), order[..i], id, children);
      assert order[..i + 1] == order[..i] + [id];
      if entries[id].RowEntry? {
        var parent := entries[id].row.parentId;
        children := children[parent := (if parent in children then children[parent] else []) + [id]];
      }
    }
    assert order[..|order|] == order;
  }

  method FindSources(entries: Entries, order: seq<EntryId>) returns (sources: map<string, EntryId>)
    requires Lists(order, entries)
    ensures forall scheme :: scheme in sources ==>
              sources[scheme] in entries && entries[sources[scheme]].SourceEntry? && entries[sources[scheme]].scheme == scheme
    ensures forall id :: id in entries && entries[id].SourceEntry? ==> entries[id].scheme in sources
  {
    sources := map[];
    for i := 0 to |order|
      invariant forall scheme :: scheme in sources ==>
                  sources[scheme] in entries && entries[sources[scheme]].SourceEntry? && entries[sources[scheme]].scheme == scheme
      invariant forall k :: 0 <= k < i && order[k] in entries && entries[order[k]].SourceEntry? ==> entries[order[k]].scheme in sources
    {
      assert order[i] in entries;
      if entries[order[i]].SourceEntry? { sources := sources[entries[order[i]].scheme := order[i]]; }
    }
  }

  lemma SortedListFits(entries: Entries, collate: (string, string) -> bool, order: seq<EntryId>, parent: EntryId)
    requires Keyed(entries) && Orders(collate) && Lists(order, entries) && Apart(order)
    requires ChildrenIn(ParentMap(entries), order, parent) != []
    ensures AreRows(entries, ChildrenIn(ParentMap(entries), order, parent))
    ensures ListFits(entries, collate, parent,
                     SortedIds(entries, ChildrenIn(ParentMap(entries), order, parent),
                               SiblingOrder(IsManualParent(entries, parent), collate)))
  {
    ChildrenAre(ParentMap(entries), order, parent);
    var ids := ChildrenIn(ParentMap(entries), order, parent);
    forall i | 0 <= i < |ids| ensures IsRow(entries, ids[i]) { assert ids[i] in ids; }
    SortingFits(entries, ParentMap(entries), collate, IsManualParent(entries, parent), parent,
                ChildrenIn(ParentMap(entries), order, parent));
  }

  /** Groups the rows by parent in the map's order, then sorts each group. */
  method IndexCatalogView(entries: Entries, order: seq<EntryId>, collate: (string, string) -> bool)
    returns (children: map<EntryId, seq<EntryId>>, sources: map<string, EntryId>)
    requires Keyed(entries) && Orders(collate) && Lists(order, entries) && Apart(order)
    ensures Indexes(entries, collate, children)
    ensures forall scheme :: scheme in sources ==>
              sources[scheme] in entries && entries[sources[scheme]].SourceEntry? && entries[sources[scheme]].scheme == scheme
    ensures forall id :: id in entries && entries[id].SourceEntry? ==> entries[id].scheme in sources
  {
    sources := FindSources(entries, order);
    children := GroupRows(entries, order);
    var todo := children.Keys;
    while todo != {}
      invariant todo <= children.Keys
      invariant forall id :: IsRow(entries, id) ==> RowOf(entries, id).parentId in children
      invariant forall parent :: parent in todo ==> children[parent] == ChildrenIn(ParentMap(entries), order, parent) && children[parent] != []
      invariant forall parent :: parent in children && parent !in todo ==> ListFits(entries, collate, parent, children[parent])
      decreases todo
    {
      var parent :| parent in todo;
      SortedListFits(entries, collate, order, parent);
      var sorted := SortedIds(entries, children[parent], SiblingOrder(IsManualParent(entries, parent), collate));
      children, todo := children[parent := sorted], todo - {parent};
    }
  }

  /** The index does not depend on the order the entries were read in. */
  lemma IndexIsUnique(entries: Entries, collate: (string, string) -> bool, a: map<EntryId, seq<EntryId>>, b: map<EntryId, seq<EntryId>>)
    requires Keyed(entries) && Orders(collate) && Indexes(entries, collate, a) && Indexes(entries, collate, b)
    ensures a == b
  {
    forall parent | parent in a ensures parent in b && a[parent] == b[parent] {
      var id := a[parent][0];
      assert id in a[parent];
      ListIsUnique(entries, ParentMap(entries), collate, IsManualParent(entries, parent), parent, a[parent], b[parent]);
    }
    forall parent | parent in b ensures parent in a {
      var id := b[parent][0];
      assert id in b[parent];
    }
  }
}
