/**
 * Placements in other journals that named a reminted folder follow it to its new id
 * (packages/resource-replica/src/folder-remint.ts:63-162).
 */
module FolderFollow {
  import opened Journal
  import opened JournalChange
  import opened JournalHistory
  import opened Records
  import opened Remint
  import opened Wrappers

  function SiblingOf(position: Option<Position>): Option<EntryId> {
    match position
    case Some(Before(id)) => Some(id)
    case Some(After(id)) => Some(id)
    case _ => None
  }

  predicate NamesFolder(destination: Destination, id: EntryId) {
    destination.parent == FolderParent(id) || SiblingOf(destination.position) == Some(id)
  }

  function FollowedPosition(position: Option<Position>, from: EntryId, to: EntryId): Option<Position> {
    match position
    case Some(Before(id)) => Some(Before(if id == from then to else id))
    case Some(After(id)) => Some(After(if id == from then to else id))
    case _ => position
  }

  function FollowedDestination(destination: Destination, from: EntryId, to: EntryId): Destination {
    destination.(parent := if destination.parent == FolderParent(from) then FolderParent(to) else destination.parent,
                 position := FollowedPosition(destination.position, from, to))
  }

  /** In a followed destination the old id becomes the new one; nothing else changes. */
  lemma FollowedNames(destination: Destination, from: EntryId, to: EntryId)
    ensures var followed := FollowedDestination(destination, from, to);
            && (from != to ==> !NamesFolder(followed, from))
            && (NamesFolder(followed, to) <==> NamesFolder(destination, from) || NamesFolder(destination, to))
            && (!NamesFolder(destination, from) ==> followed == destination)
            && followed.name == destination.name && followed.createFolders == destination.createFolders
  {
  }

  function FollowedDesired(desired: Desired, from: EntryId, to: EntryId): Desired {
    match desired
    case SetLocation(typedName, destination) => SetLocation(typedName, FollowedDestination(destination, from, to))
    case SetFolderLocation(typedName, destination) => SetFolderLocation(typedName, FollowedDestination(destination, from, to))
    case _ => desired
  }

  predicate FollowsRemint(intent: Intent, from: EntryId) {
    Unsent(intent) && Placement(intent.desired) && NamesFolder(intent.desired.destination, from)
  }

  function FollowedId(intentId: string, to: EntryId): string {
    intentId + "@" + to.text
  }

  function FollowedIntent(intent: Intent, from: EntryId, to: EntryId, sequence: int): Intent {
    intent.(intentId := FollowedId(intent.intentId, to), sequence := sequence,
            desired := FollowedDesired(intent.desired, from, to), admission := RenamedIfAny(intent.admission, from, to))
  }

  function Followers(intents: seq<Intent>, from: EntryId): (r: seq<Intent>)
    ensures forall i :: 0 <= i < |r| ==> FollowsRemint(r[i], from)
  {
    if intents == [] then []
    else
      var n := |intents| - 1;
      var rest := Followers(intents[..n], from);
      if FollowsRemint(intents[n], from) then rest + [intents[n]] else rest
  }

  function Requeue(followers: seq<Intent>, from: EntryId, to: EntryId, sequence: int): (r: seq<Intent>)
    ensures |r| == |followers|
    ensures forall i :: 0 <= i < |r| ==> r[i] == FollowedIntent(followers[i], from, to, sequence + 1 + i)
  {
    if followers == [] then []
    else [FollowedIntent(followers[0], from, to, sequence + 1)] + Requeue(followers[1..], from, to, sequence + 1)
  }

  function Cancel(intent: Intent, from: EntryId): (r: Intent)
    ensures !FollowsRemint(r, from)
  {
    if FollowsRemint(intent, from) then intent.(state := Cancelled) else intent
  }

  function CancelFollowers(intents: seq<Intent>, from: EntryId): (r: seq<Intent>)
    ensures |r| == |intents| && forall i :: 0 <= i < |r| ==> r[i] == Cancel(intents[i], from)
  {
    seq(|intents|, i requires 0 <= i < |intents| => Cancel(intents[i], from))
  }

  /** Nothing when no unsent placement of the journal names the folder. */
  function FollowJournal(intents: seq<Intent>, from: EntryId, to: EntryId): Option<seq<Intent>> {
    var followers := Followers(intents, from);
    if followers == [] then None
    else Some(CancelFollowers(intents, from) + Requeue(followers, from, to, MaxSequence(intents)))
  }

  // ------------------------------------------------------------------------------------------
  // Every journal is rid of the old id
  // ------------------------------------------------------------------------------------------

  ghost predicate NamedUnsent(intents: seq<Intent>, id: EntryId) {
    exists i :: 0 <= i < |intents| && FollowsRemint(intents[i], id)
  }

  lemma FollowedIntentIsRid(intent: Intent, from: EntryId, to: EntryId, sequence: int)
    requires from != to && FollowsRemint(intent, from)
    ensures !FollowsRemint(FollowedIntent(intent, from, to, sequence), from)
  {
    FollowedNames(intent.desired.destination, from, to);
  }

  lemma CopiesAreRid(followers: seq<Intent>, from: EntryId, to: EntryId, sequence: int)
    requires from != to && forall i :: 0 <= i < |followers| ==> FollowsRemint(followers[i], from)
    ensures var copies := Requeue(followers, from, to, sequence);
            forall i :: 0 <= i < |copies| ==> !FollowsRemint(copies[i], from)
  {
    forall i | 0 <= i < |followers| ensures !FollowsRemint(Requeue(followers, from, to, sequence)[i], from) {
      FollowedIntentIsRid(followers[i], from, to, sequence + 1 + i);
    }
  }

  lemma NoneNamed(kept: seq<Intent>, copies: seq<Intent>, from: EntryId)
    requires forall i :: 0 <= i < |kept| ==> !FollowsRemint(kept[i], from)
    requires forall i :: 0 <= i < |copies| ==> !FollowsRemint(copies[i], from)
    ensures !NamedUnsent(kept + copies, from)
  {
    var all := kept + copies;
    forall i | 0 <= i < |all| ensures !FollowsRemint(all[i], from) {
      assert all[i] == if i < |kept| then kept[i] else copies[i - |kept|];
    }
  }

  lemma FollowingLeavesNone(intents: seq<Intent>, from: EntryId, to: EntryId)
    requires from != to
    ensures FollowJournal(intents, from, to).None? <==> !NamedUnsent(intents, from)
    ensures FollowJournal(intents, from, to).Some? ==> !NamedUnsent(FollowJournal(intents, from, to).value, from)
  {
    var at := PlacesOfFollowers(intents, from);
    if FollowJournal(intents, from, to).Some? {
      var followers := Followers(intents, from);
      FollowedIsRid(CancelFollowers(intents, from), followers, from, to, MaxSequence(intents));
      assert FollowsRemint(intents[at[0]], from);
    }
  }

  lemma FollowedIsRid(kept: seq<Intent>, followers: seq<Intent>, from: EntryId, to: EntryId, sequence: int)
    requires from != to && forall i :: 0 <= i < |kept| ==> !FollowsRemint(kept[i], from)
    requires forall i :: 0 <= i < |followers| ==> FollowsRemint(followers[i], from)
    ensures !NamedUnsent(kept + Requeue(followers, from, to, sequence), from)
  {
    CopiesAreRid(followers, from, to, sequence);
    NoneNamed(kept, Requeue(followers, from, to, sequence), from);
  }

  /** A journal as the plan reads it: a document's, or a folder's under its current id. */
  datatype Record = Record(id: EntryId, revision: nat, intents: seq<Intent>)
  datatype Write = Write(expectedRevision: nat, next: Record)

  function WriteFor(record: Record, from: EntryId, to: EntryId): seq<Write> {
    match FollowJournal(record.intents, from, to)
    case None => []
    case Some(intents) => [Write(record.revision, Record(record.id, record.revision + 1, intents))]
  }

  /** The writes for documents; the reminted folder's own record is not among them. */
  function ResourceWrites(records: seq<Record>, from: EntryId, to: EntryId): seq<Write> {
    if records == [] then [] else WriteFor(records[0], from, to) + ResourceWrites(records[1..], from, to)
  }

  function FolderWrites(folders: seq<Record>, from: EntryId, to: EntryId): seq<Write> {
    if folders == [] then []
    else (if folders[0].id == to then [] else WriteFor(folders[0], from, to)) + FolderWrites(folders[1..], from, to)
  }

  /** The plan handles the record: nothing there names the old id, or a write at its revision removes it. */
  ghost predicate Handled(record: Record, writes: seq<Write>, from: EntryId) {
    || !NamedUnsent(record.intents, from)
    || exists w :: w in writes && w.expectedRevision == record.revision && w.next.id == record.id
                   && w.next.revision == record.revision + 1 && !NamedUnsent(w.next.intents, from)
  }

  lemma RecordHandled(record: Record, from: EntryId, to: EntryId)
    requires from != to
    ensures Handled(record, WriteFor(record, from, to), from)
  {
    FollowingLeavesNone(record.intents, from, to);
    if NamedUnsent(record.intents, from) {
      assert WriteFor(record, from, to)[0] in WriteFor(record, from, to);
    }
  }

  lemma HandledInMore(record: Record, writes: seq<Write>, all: seq<Write>, from: EntryId)
    requires Handled(record, writes, from) && forall w :: w in writes ==> w in all
    ensures Handled(record, all, from)
  {
  }

  /** Once the plan's writes land, no unsent placement outside the folder's own journal names its old id. */
  lemma {:induction false} PlanHandlesAll(records: seq<Record>, folders: seq<Record>, from: EntryId, to: EntryId)
    requires from != to
    ensures forall record :: record in records ==> Handled(record, ResourceWrites(records, from, to), from)
    ensures forall folder :: folder in folders && folder.id != to ==> Handled(folder, FolderWrites(folders, from, to), from)
    decreases |records| + |folders|
  {
    if records != [] {
      PlanHandlesAll(records[1..], folders, from, to);
      RecordHandled(records[0], from, to);
      forall record | record in records ensures Handled(record, ResourceWrites(records, from, to), from) {
        if record == records[0] {
          HandledInMore(record, WriteFor(record, from, to), ResourceWrites(records, from, to), from);
        } else {
          HandledInMore(record, ResourceWrites(records[1..], from, to), ResourceWrites(records, from, to), from);
        }
      }
    } else if folders != [] {
      PlanHandlesAll(records, folders[1..], from, to);
      RecordHandled(folders[0], from, to);
      forall folder | folder in folders && folder.id != to ensures Handled(folder, FolderWrites(folders, from, to), from) {
        if folder == folders[0] {
          HandledInMore(folder, WriteFor(folder, from, to), FolderWrites(folders, from, to), from);
        } else {
          HandledInMore(folder, FolderWrites(folders[1..], from, to), FolderWrites(folders, from, to), from);
        }
      }
    }
  }

  // ------------------------------------------------------------------------------------------
  // The writes are allowed
  // ------------------------------------------------------------------------------------------

  ghost predicate Follow(u0: Update, u: Update, from: EntryId, to: EntryId) {
    && Allowed(u0) && u.previous == u0.next && u.handle == u0.handle && u.identityRevision == u0.identityRevision
    && FollowJournal(u0.next, from, to) == Some(u.next)
    && (forall i :: 0 <= i < |u0.next| && FollowsRemint(u0.next[i], from) ==>
          && u0.next[i].identityRevision == u0.identityRevision
          && Find(u0.next, FollowedId(u0.next[i].intentId, to)).None?)
    && MaxSequence(u0.next) + |Followers(u0.next, from)| <= MAX_SAFE_INTEGER
  }

  lemma FollowedIdsDiffer(a: string, b: string, to: EntryId)
    requires FollowedId(a, to) == FollowedId(b, to)
    ensures a == b
  {
    assert |FollowedId(a, to)| == |a| + 1 + |to.text| && |FollowedId(b, to)| == |b| + 1 + |to.text|;
    assert FollowedId(a, to)[..|a|] == a && FollowedId(b, to)[..|b|] == b;
  }

  ghost predicate FollowerPlaces(at: seq<nat>, intents: seq<Intent>, from: EntryId) {
    var r := Followers(intents, from);
    && |at| == |r| && (forall i :: 0 <= i < |r| ==> at[i] < |intents| && intents[at[i]] == r[i])
    && (forall i, k :: 0 <= i < k < |at| ==> at[i] < at[k])
    && forall p: nat :: p < |intents| && FollowsRemint(intents[p], from) ==> p in at
  }

  lemma {:induction false} PlacesOfFollowers(intents: seq<Intent>, from: EntryId) returns (at: seq<nat>)
    ensures FollowerPlaces(at, intents, from)
  {
    if intents == [] {
      at := [];
    } else {
      var n := |intents| - 1;
      var before := intents[..n];
      var rest := PlacesOfFollowers(before, from);
      at := if FollowsRemint(intents[n], from) then rest + [n] else rest;
      PlacesGrow(rest, before, intents[n], from);
      assert intents == before + [intents[n]];
    }
  }

  lemma PlacesGrow(at: seq<nat>, before: seq<Intent>, last: Intent, from: EntryId)
    requires FollowerPlaces(at, before, from)
    ensures FollowerPlaces(if FollowsRemint(last, from) then at + [|before|] else at, before + [last], from)
  {
    var all := before + [last];
    assert all[..|before|] == before;
    forall p: nat | p < |all| && FollowsRemint(all[p], from) ensures p in at || p == |before| {
      if p < |before| { assert all[p] == before[p]; }
    }
  }

  lemma FollowersQueue(u0: Update, u: Update, from: EntryId, to: EntryId, at: seq<nat>)
    requires Follow(u0, u, from, to) && FollowerPlaces(at, u0.next, from)
    ensures Queued(u0.next, u.handle, Requeue(Followers(u0.next, from), from, to, MaxSequence(u0.next)))
  {
    var copies := Requeue(Followers(u0.next, from), from, to, MaxSequence(u0.next));
    AllowedIsDistinct(u0);
    forall i | 0 <= i < |copies|
      ensures Fresh(u0.next, u.handle, copies[i])
    {
      FollowerQueues(u0, u, from, to, at, i);
    }
    forall i, k | 0 <= i < k < |copies| ensures copies[i].intentId != copies[k].intentId && copies[i].sequence != copies[k].sequence {
      FollowersDiffer(u0.next, from, to, at, i, k);
    }
  }

  lemma FollowersDiffer(intents: seq<Intent>, from: EntryId, to: EntryId, at: seq<nat>, i: nat, k: nat)
    requires Distinct(intents) && FollowerPlaces(at, intents, from) && i < k < |at|
    ensures FollowedId(Followers(intents, from)[i].intentId, to) != FollowedId(Followers(intents, from)[k].intentId, to)
  {
    assert at[i] < at[k];
    var a, b := intents[at[i]], intents[at[k]];
    if FollowedId(a.intentId, to) == FollowedId(b.intentId, to) { FollowedIdsDiffer(a.intentId, b.intentId, to); }
  }

  lemma FollowerQueues(u0: Update, u: Update, from: EntryId, to: EntryId, at: seq<nat>, i: nat)
    requires Follow(u0, u, from, to) && FollowerPlaces(at, u0.next, from) && i < |at|
    ensures Fresh(u0.next, u.handle, FollowedIntent(Followers(u0.next, from)[i], from, to, MaxSequence(u0.next) + 1 + i))
  {
    UnsentIsUntimed(u0, at[i]);
  }

  lemma CancelMoves(intent: Intent, from: EntryId)
    ensures Moved(intent, Cancel(intent, from))
  {
  }

  lemma FollowChanges(u0: Update, u: Update, from: EntryId, to: EntryId, at: seq<nat>)
    requires Follow(u0, u, from, to) && FollowerPlaces(at, u0.next, from)
    ensures var copies := Requeue(Followers(u0.next, from), from, to, MaxSequence(u0.next));
            Changes(u, CancelFollowers(u0.next, from), copies)
  {
    FollowersQueue(u0, u, from, to, at);
    var moved := CancelFollowers(u0.next, from);
    forall i | 0 <= i < |moved| ensures Moved(u0.next[i], moved[i]) { CancelMoves(u0.next[i], from); }
    MovesChange(u0, u, moved, Requeue(Followers(u0.next, from), from, to, MaxSequence(u0.next)));
  }

  lemma FollowerStands(u0: Update, u: Update, from: EntryId, to: EntryId, at: seq<nat>, k: nat)
    requires Follow(u0, u, from, to) && FollowerPlaces(at, u0.next, from) && k < |at|
    ensures |u.next| >= |u0.next| && StandsAt(u, at[k])
  {
    var i := at[k];
    var copy := u.next[|u0.next| + k];
    assert copy == Requeue(Followers(u0.next, from), from, to, MaxSequence(u0.next))[k];
    assert u.next[i] == u0.next[i].(state := Cancelled);
    assert RetiredBy(u, u.next[i], copy);
    UnsentIsUntimed(u0, i);
  }

  lemma FollowStands(u0: Update, u: Update, from: EntryId, to: EntryId, at: seq<nat>, i: nat)
    requires Follow(u0, u, from, to) && FollowerPlaces(at, u0.next, from) && i < |u0.next|
    ensures |u.next| >= |u0.next|
    ensures StandsAt(u, i) <==> !SupersededAccepted(u0.next[i])
  {
    var moved := CancelFollowers(u0.next, from);
    var copies := Requeue(Followers(u0.next, from), from, to, MaxSequence(u0.next));
    if FollowsRemint(u0.next[i], from) {
      var k: nat :| k < |at| && at[k] == i;
      FollowerStands(u0, u, from, to, at, k);
    } else {
      FollowChanges(u0, u, from, to, at);
      LiveIsUnlocked(u0, at[0]);
      assert moved[i] == u0.next[i];
      UntouchedStands(u0, u, moved, copies, i);
      ReasonStays(u0, u, moved, copies, i);
    }
  }

  /** A journal that follows may be stored exactly when it could be stored unchanged. */
  lemma FollowingIsAllowedExactly(u0: Update, u: Update, from: EntryId, to: EntryId)
    requires Follow(u0, u, from, to)
    ensures Allowed(u) <==> forall i :: 0 <= i < |u0.next| ==> !SupersededAccepted(u0.next[i])
  {
    var at := PlacesOfFollowers(u0.next, from);
    var moved := CancelFollowers(u0.next, from);
    var copies := Requeue(Followers(u0.next, from), from, to, MaxSequence(u0.next));
    FollowChanges(u0, u, from, to, at);
    ChangeIsAllowedExactly(u0, u, moved, copies);
    forall i | 0 <= i < |u0.next| ensures StandsAt(u, i) <==> !SupersededAccepted(u0.next[i]) {
      FollowStands(u0, u, from, to, at, i);
    }
    forall i | |u0.next| <= i < |u.next| ensures StandsAt(u, i) { CopyStands(u, moved, copies, from, i); }
  }

  lemma CopyStands(u: Update, moved: seq<Intent>, copies: seq<Intent>, from: EntryId, i: nat)
    requires Changes(u, moved, copies) && |moved| <= i < |u.next|
    requires forall k :: 0 <= k < |copies| ==> copies[k].state.Pending?
    ensures StandsAt(u, i)
  {
    assert u.next[i] == copies[i - |moved|];
    QueuedStands(u, moved, copies, i);
  }

  // ------------------------------------------------------------------------------------------
  // Nothing queued is lost or doubled
  // ------------------------------------------------------------------------------------------

  /** The unsent tasks, each under the folder's new id where it named the old. */
  function UnsentTasks(intents: seq<Intent>, from: EntryId, to: EntryId): multiset<Task> {
    if intents == [] then multiset{}
    else
      var n := |intents| - 1;
      UnsentTasks(intents[..n], from, to) + UnsentTask(intents[n], from, to)
  }

  lemma {:induction false} UnsentOfBoth(a: seq<Intent>, b: seq<Intent>, from: EntryId, to: EntryId)
    ensures UnsentTasks(a + b, from, to) == UnsentTasks(a, from, to) + UnsentTasks(b, from, to)
  {
    if b == [] {
      assert a + b == a;
    } else {
      var n := |b| - 1;
      assert (a + b)[..|a| + n] == a + b[..n];
      UnsentOfBoth(a, b[..n], from, to);
    }
  }

  lemma UnsentGrows(before: seq<Intent>, last: Intent, from: EntryId, to: EntryId)
    ensures UnsentTasks(before + [last], from, to) == UnsentTasks(before, from, to) + UnsentTask(last, from, to)
  {
    assert (before + [last])[..|before|] == before;
  }

  function UnsentTask(intent: Intent, from: EntryId, to: EntryId): multiset<Task> {
    var task := TaskOf(intent);
    if Unsent(intent) then multiset{task.(desired := FollowedDesired(task.desired, from, to))} else multiset{}
  }

  lemma CancelledGrow(before: seq<Intent>, last: Intent, from: EntryId, to: EntryId)
    ensures UnsentTasks(CancelFollowers(before + [last], from), from, to) ==
            UnsentTasks(CancelFollowers(before, from), from, to) + UnsentTask(Cancel(last, from), from, to)
  {
    assert CancelFollowers(before + [last], from) == CancelFollowers(before, from) + [Cancel(last, from)];
    UnsentGrows(CancelFollowers(before, from), Cancel(last, from), from, to);
  }

  lemma SplitsGrow(all: multiset<Task>, kept: multiset<Task>, moved: multiset<Task>,
                   x: multiset<Task>, y: multiset<Task>, z: multiset<Task>)
    requires all == kept + moved && x == y + z
    ensures all + x == (kept + y) + (moved + z)
  {
  }

  ghost predicate Splits(intents: seq<Intent>, from: EntryId, to: EntryId) {
    UnsentTasks(intents, from, to) ==
    UnsentTasks(CancelFollowers(intents, from), from, to) + UnsentTasks(Followers(intents, from), from, to)
  }

  lemma SplitsNone(from: EntryId, to: EntryId)
    ensures Splits([], from, to)
  {
  }

  lemma SplitsWithLast(all: seq<Intent>, before: seq<Intent>, last: Intent, from: EntryId, to: EntryId)
    requires Splits(before, from, to) && all == before + [last]
    ensures Splits(all, from, to)
  {
    var moved := if FollowsRemint(last, from) then UnsentTask(last, from, to) else multiset{};
    LastUnsent(last, from, to);
    UnsentGrows(before, last, from, to);
    CancelledGrow(before, last, from, to);
    FollowersGrow(before, last, from, to);
    SplitsGrow(UnsentTasks(before, from, to), UnsentTasks(CancelFollowers(before, from), from, to),
               UnsentTasks(Followers(before, from), from, to), UnsentTask(last, from, to),
               UnsentTask(Cancel(last, from), from, to), moved);
  }

  lemma {:induction false} CancellingSplits(intents: seq<Intent>, from: EntryId, to: EntryId)
    ensures Splits(intents, from, to)
  {
    if intents == [] {
      SplitsNone(from, to);
    } else {
      var before, last := intents[..|intents| - 1], intents[|intents| - 1];
      CancellingSplits(before, from, to);
      SplitsWithLast(intents, before, last, from, to);
    }
  }

  lemma FollowersGrow(before: seq<Intent>, last: Intent, from: EntryId, to: EntryId)
    ensures UnsentTasks(Followers(before + [last], from), from, to) == UnsentTasks(Followers(before, from), from, to)
            + if FollowsRemint(last, from) then UnsentTask(last, from, to) else multiset{}
  {
    assert (before + [last])[..|before|] == before;
    if FollowsRemint(last, from) { UnsentGrows(Followers(before, from), last, from, to); }
  }

  lemma LastUnsent(last: Intent, from: EntryId, to: EntryId)
    ensures UnsentTask(last, from, to) == UnsentTask(Cancel(last, from), from, to)
            + if FollowsRemint(last, from) then UnsentTask(last, from, to) else multiset{}
  {
  }

  lemma FollowedTwice(desired: Desired, from: EntryId, to: EntryId)
    ensures FollowedDesired(FollowedDesired(desired, from, to), from, to) == FollowedDesired(desired, from, to)
  {
  }

  lemma {:induction false} RequeuedTasks(followers: seq<Intent>, copies: seq<Intent>, from: EntryId, to: EntryId, sequence: int)
    requires |copies| == |followers| && forall i :: 0 <= i < |followers| ==> Unsent(followers[i])
    requires forall i :: 0 <= i < |copies| ==> copies[i] == FollowedIntent(followers[i], from, to, sequence + i)
    ensures UnsentTasks(copies, from, to) == UnsentTasks(followers, from, to)
  {
    if followers != [] {
      var n := |followers| - 1;
      RequeuedTasks(followers[..n], copies[..n], from, to, sequence);
      FollowedTwice(followers[n].desired, from, to);
      assert TaskOf(copies[n]) == TaskOf(followers[n]).(desired := FollowedDesired(followers[n].desired, from, to));
    }
  }

  /** The journal still has the same unsent tasks, each once, now under the new id. */
  lemma FollowingConserves(intents: seq<Intent>, from: EntryId, to: EntryId, next: seq<Intent>)
    requires FollowJournal(intents, from, to) == Some(next)
    ensures UnsentTasks(next, from, to) == UnsentTasks(intents, from, to)
  {
    var followers := Followers(intents, from);
    var copies := Requeue(followers, from, to, MaxSequence(intents));
    CancellingSplits(intents, from, to);
    UnsentOfBoth(CancelFollowers(intents, from), copies, from, to);
    RequeuedTasks(followers, copies, from, to, MaxSequence(intents) + 1);
  }
}
