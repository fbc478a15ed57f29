/**
 * Moving a spent id's unsent work to a new id: its own journal is requeued, and journals that named
 * the old folder follow (packages/resource-replica/src/namespace-journal-policy.ts:98-197,
 * folder-remint.ts:63-162).
 */
module Remint {
  import opened Collation
  import opened Journal
  import opened JournalChange
  import opened JournalHistory
  import opened Records
  import opened Wrappers

  // ------------------------------------------------------------------------------------------
  // Admissions under a new name
  // ------------------------------------------------------------------------------------------

  function EntryKey(id: EntryId): string { "entry:" + id.text }

  function ParentKey(id: EntryId): string { "parent:folder:" + id.text }

  function RenamedKey(key: string, from: EntryId, to: EntryId): string {
    if key == EntryKey(from) then EntryKey(to) else if key == ParentKey(from) then ParentKey(to) else key
  }

  function RenamedKeys(keys: seq<string>, from: EntryId, to: EntryId): (renamed: seq<string>)
    ensures |renamed| == |keys| && forall i :: 0 <= i < |keys| ==> renamed[i] == RenamedKey(keys[i], from, to)
  {
    seq(|keys|, i requires 0 <= i < |keys| => RenamedKey(keys[i], from, to))
  }

  /** Order and predecessors stay; in the scope the old id's keys become the new id's. */
  function RenamedAdmission(admission: Admission, from: EntryId, to: EntryId): Admission {
    admission.(scope := SortStrings(RenamedKeys(admission.scope, from, to)))
  }

  function RenamedIfAny(admission: Option<Admission>, from: EntryId, to: EntryId): Option<Admission> {
    if admission.Some? then Some(RenamedAdmission(admission.value, from, to)) else None
  }

  lemma KeysDiffer(a: EntryId, b: EntryId)
    ensures EntryKey(a) == EntryKey(b) ==> a == b
    ensures ParentKey(a) == ParentKey(b) ==> a == b
    ensures EntryKey(a) != ParentKey(b)
  {
    assert EntryKey(a)[6..] == a.text && EntryKey(b)[6..] == b.text;
    assert ParentKey(a)[14..] == a.text && ParentKey(b)[14..] == b.text;
    assert EntryKey(a)[0] == 'e' && ParentKey(b)[0] == 'p';
  }

  /** Which keys become `key`: the new id's keys come from either id, the old id's from none. */
  predicate RenamedTo(was: string, key: string, from: EntryId, to: EntryId) {
    if key == EntryKey(to) then was == EntryKey(from) || was == EntryKey(to)
    else if key == ParentKey(to) then was == ParentKey(from) || was == ParentKey(to)
    else was == key && key != EntryKey(from) && key != ParentKey(from)
  }

  lemma RenamedKeyExactly(was: string, key: string, from: EntryId, to: EntryId)
    requires from != to
    ensures RenamedKey(was, from, to) == key <==> RenamedTo(was, key, from, to)
  {
    KeysDiffer(from, to);
    KeysDiffer(to, from);
    KeysDiffer(from, from);
    KeysDiffer(to, to);
  }

  /**
   * The renamed scope waits on the new id exactly where the old scope named either, never on the
   * old id, and on every other key as before.
   */
  lemma ScopeFollows(admission: Admission, from: EntryId, to: EntryId, key: string)
    requires from != to
    ensures key in RenamedAdmission(admission, from, to).scope <==>
            exists i :: 0 <= i < |admission.scope| && RenamedTo(admission.scope[i], key, from, to)
  {
    var renamed := RenamedKeys(admission.scope, from, to);
    var scope := RenamedAdmission(admission, from, to).scope;
    assert key in scope <==> key in multiset(scope);
    assert key in renamed <==> key in multiset(renamed);
    forall i | 0 <= i < |admission.scope| ensures renamed[i] == key <==> RenamedTo(admission.scope[i], key, from, to) {
      RenamedKeyExactly(admission.scope[i], key, from, to);
    }
  }

  // ------------------------------------------------------------------------------------------
  // Requeuing one journal
  // ------------------------------------------------------------------------------------------

  /** The revisions and ids of the work replaced and its copies, and the copies' intent ids. */
  datatype Spec = Spec(from: int, to: int, fromId: EntryId, toId: EntryId, retryId: string, rebased: map<string, string>)

  predicate FailedPlacement(intent: Intent, from: int) {
    intent.state.NeedsRepair? && intent.identityRevision == from && Placement(intent.desired)
  }

  /** The newest failed placement. */
  function Failed(intents: seq<Intent>, from: int): (failed: Option<Intent>)
    ensures failed.Some? ==> failed.value in intents && FailedPlacement(failed.value, from)
    ensures forall i :: 0 <= i < |intents| && FailedPlacement(intents[i], from) ==>
              failed.Some? && intents[i].sequence <= failed.value.sequence
  {
    if intents == [] then None
    else
      var n := |intents| - 1;
      var rest := Failed(intents[..n], from);
      assert forall i :: 0 <= i < n ==> intents[..n][i] == intents[i];
      if FailedPlacement(intents[n], from) && (rest.None? || intents[n].sequence > rest.value.sequence) then Some(intents[n])
      else rest
  }

  predicate Dependent(intent: Intent, failed: Option<Intent>, from: int) {
    (failed.None? || intent.sequence > failed.value.sequence) && intent.identityRevision == from && Unsent(intent)
  }

  ghost predicate InOrder(intents: seq<Intent>) {
    forall i, k :: 0 <= i < k < |intents| ==> intents[i].sequence < intents[k].sequence
  }

  function Dependents(intents: seq<Intent>, failed: Option<Intent>, from: int): (r: seq<Intent>)
    ensures forall i :: 0 <= i < |r| ==> Dependent(r[i], failed, from)
  {
    if intents == [] then []
    else
      var n := |intents| - 1;
      var rest := Dependents(intents[..n], failed, from);
      if Dependent(intents[n], failed, from) then rest + [intents[n]] else rest
  }

  ghost predicate Places(at: seq<nat>, intents: seq<Intent>, failed: Option<Intent>, from: int) {
    var r := Dependents(intents, failed, from);
    && |at| == |r| && (forall i :: 0 <= i < |r| ==> at[i] < |intents| && intents[at[i]] == r[i])
    && (forall i, k :: 0 <= i < k < |at| ==> at[i] < at[k])
    && forall p: nat :: p < |intents| && Dependent(intents[p], failed, from) ==> p in at
  }

  /** Where in the journal each dependent stands: in the same order, none missed. */
  lemma {:induction false} DependentPlaces(intents: seq<Intent>, failed: Option<Intent>, from: int) returns (at: seq<nat>)
    ensures Places(at, intents, failed, from)
  {
    if intents == [] {
      at := [];
    } else {
      var n := |intents| - 1;
      at := DependentPlaces(intents[..n], failed, from);
      assert forall i :: 0 <= i < n ==> intents[..n][i] == intents[i];
      if Dependent(intents[n], failed, from) { at := at + [n]; }
    }
  }

  predicate Named(spec: Spec, intent: Intent) {
    intent.intentId in spec.rebased && spec.rebased[intent.intentId] != ""
  }

  function Retry(failed: Intent, spec: Spec, sequence: int): Intent {
    Intent(failed.handle, failed.projectId, spec.retryId, None, sequence,
           RenamedIfAny(failed.admission, spec.fromId, spec.toId), spec.to, failed.desired, [], None, Pending)
  }

  function RebasedOne(intent: Intent, spec: Spec, sequence: int): Intent
    requires Named(spec, intent)
  {
    intent.(intentId := spec.rebased[intent.intentId], sequence := sequence, identityRevision := spec.to,
            admission := RenamedIfAny(intent.admission, spec.fromId, spec.toId))
  }

  function Rebased(dependents: seq<Intent>, spec: Spec, sequence: int): (r: seq<Intent>)
    requires forall i :: 0 <= i < |dependents| ==> Named(spec, dependents[i])
    ensures |r| == |dependents|
    ensures forall i :: 0 <= i < |r| ==> r[i] == RebasedOne(dependents[i], spec, sequence + 1 + i)
  {
    if dependents == [] then []
    else [RebasedOne(dependents[0], spec, sequence + 1)] + Rebased(dependents[1..], spec, sequence + 1)
  }

  function Replacements(failed: Option<Intent>, dependents: seq<Intent>, spec: Spec, max: int): seq<Intent>
    requires forall i :: 0 <= i < |dependents| ==> Named(spec, dependents[i])
  {
    if failed.Some? then [Retry(failed.value, spec, max + 1)] + Rebased(dependents, spec, max + 1)
    else Rebased(dependents, spec, max)
  }

  function Retired(intent: Intent, failed: Option<Intent>, from: int): Intent {
    if failed.Some? && intent.intentId == failed.value.intentId then intent.(state := Superseded)
    else if Dependent(intent, failed, from) then intent.(state := Cancelled)
    else intent
  }

  function RetireAll(intents: seq<Intent>, failed: Option<Intent>, from: int): (r: seq<Intent>)
    ensures |r| == |intents| && forall i :: 0 <= i < |r| ==> r[i] == Retired(intents[i], failed, from)
  {
    seq(|intents|, i requires 0 <= i < |intents| => Retired(intents[i], failed, from))
  }

  datatype RemintError = MissingIdentity

  /** Nothing when there is no work to move; an error when a dependent has no identity to move to. */
  function RemintJournal(intents: seq<Intent>, spec: Spec): Result<Option<seq<Intent>>, RemintError> {
    var failed := Failed(intents, spec.from);
    var dependents := Dependents(intents, failed, spec.from);
    if exists i :: 0 <= i < |dependents| && !Named(spec, dependents[i]) then Err(MissingIdentity)
    else if failed.None? && dependents == [] then Ok(None)
    else Ok(Some(RetireAll(intents, failed, spec.from) + Replacements(failed, dependents, spec, MaxSequence(intents))))
  }

  /** The work a remint moves, oldest first: the failed placement and what is queued behind it. */
  ghost function Work(intents: seq<Intent>, from: int): seq<Intent> {
    var failed := Failed(intents, from);
    (if failed.Some? then [failed.value] else []) + Dependents(intents, failed, from)
  }

  ghost predicate Reminted(intents: seq<Intent>, spec: Spec, next: seq<Intent>) {
    RemintJournal(intents, spec) == Ok(Some(next))
  }

  ghost function CopyId(failed: Option<Intent>, spec: Spec, intent: Intent): string {
    if failed == Some(intent) then spec.retryId
    else if intent.intentId in spec.rebased then spec.rebased[intent.intentId] else ""
  }

  /** The caller mints new ids: none recorded, none twice. */
  ghost predicate FreshIds(intents: seq<Intent>, spec: Spec) {
    var work := Work(intents, spec.from);
    var failed := Failed(intents, spec.from);
    && (forall i :: 0 <= i < |work| ==> Find(intents, CopyId(failed, spec, work[i])).None?)
    && forall i, k :: 0 <= i < k < |work| ==> CopyId(failed, spec, work[i]) != CopyId(failed, spec, work[k])
  }

  /** What a copy keeps of the work it stands for. */
  ghost predicate Carries(work: Intent, copy: Intent, spec: Spec) {
    && copy.desired == work.desired && copy.handle == work.handle && copy.projectId == work.projectId
    && copy.admission == RenamedIfAny(work.admission, spec.fromId, spec.toId)
    && Unsent(copy) && copy.settledAt.None? && copy.identityRevision == spec.to
  }

  lemma RemintShape(intents: seq<Intent>, spec: Spec, next: seq<Intent>)
    requires Reminted(intents, spec, next)
    ensures Work(intents, spec.from) != [] && |next| == |intents| + |Work(intents, spec.from)|
    ensures forall p :: 0 <= p < |intents| ==> KeptAt(intents, spec, next, p)
  {
  }

  ghost predicate KeptAt(intents: seq<Intent>, spec: Spec, next: seq<Intent>, p: nat)
    requires p < |intents| <= |next|
  {
    next[p] == Retired(intents[p], Failed(intents, spec.from), spec.from)
  }

  lemma StartsWith(all: seq<Intent>, front: seq<Intent>)
    requires |front| <= |all| && forall p :: 0 <= p < |front| ==> all[p] == front[p]
    ensures all == front + all[|front|..]
  {
  }

  lemma KeptIsRetired(intents: seq<Intent>, spec: Spec, next: seq<Intent>, p: nat)
    requires p < |intents| <= |next| && KeptAt(intents, spec, next, p)
    ensures next[p] == RetireAll(intents, Failed(intents, spec.from), spec.from)[p]
  {
  }

  /** The recorded part and the copies, apart. */
  lemma NextSplits(intents: seq<Intent>, spec: Spec, next: seq<Intent>)
    requires |next| >= |intents| && forall p :: 0 <= p < |intents| ==> KeptAt(intents, spec, next, p)
    ensures next == RetireAll(intents, Failed(intents, spec.from), spec.from) + next[|intents|..]
  {
    var front := RetireAll(intents, Failed(intents, spec.from), spec.from);
    forall p | 0 <= p < |front| ensures next[p] == front[p] { KeptIsRetired(intents, spec, next, p); }
    StartsWith(next, front);
  }

  ghost predicate Requeued(intents: seq<Intent>, spec: Spec, next: seq<Intent>) {
    && Work(intents, spec.from) != [] && |next| == |intents| + |Work(intents, spec.from)|
    && (forall p :: 0 <= p < |intents| ==> KeptAt(intents, spec, next, p))
    && forall i :: 0 <= i < |Work(intents, spec.from)| ==> CopyOf(intents, spec, next, i)
  }

  /** Each piece of work has one copy, in its order, behind everything recorded. */
  lemma CopiesCarryWork(u0: Update, spec: Spec, next: seq<Intent>)
    requires Allowed(u0) && Reminted(u0.next, spec, next)
    ensures Requeued(u0.next, spec, next)
  {
    RemintShape(u0.next, spec, next);
    forall i | 0 <= i < |Work(u0.next, spec.from)| ensures CopyOf(u0.next, spec, next, i) {
      CopyIs(u0.next, spec, next, i);
      WorkIsUntimed(u0, spec, i);
      CopyCarriesWork(u0.next, spec, next, i);
    }
  }

  ghost predicate CopyOf(intents: seq<Intent>, spec: Spec, next: seq<Intent>, i: nat)
    requires i < |Work(intents, spec.from)| && |next| == |intents| + |Work(intents, spec.from)|
  {
    var work := Work(intents, spec.from)[i];
    var copy := next[|intents| + i];
    && Carries(work, copy, spec) && copy.intentId == CopyId(Failed(intents, spec.from), spec, work)
    && copy.sequence == MaxSequence(intents) + 1 + i
  }

  ghost function Copy(intent: Intent, failed: Option<Intent>, spec: Spec, sequence: int): Intent
    requires failed == Some(intent) || Named(spec, intent)
  {
    if failed == Some(intent) then Retry(intent, spec, sequence) else RebasedOne(intent, spec, sequence)
  }

  lemma ReplacementAt(failed: Option<Intent>, dependents: seq<Intent>, spec: Spec, max: int, i: nat)
    requires forall k :: 0 <= k < |dependents| ==> Named(spec, dependents[k]) && failed != Some(dependents[k])
    requires i < |dependents| + if failed.Some? then 1 else 0
    ensures var work := (if failed.Some? then [failed.value] else []) + dependents;
            && |Replacements(failed, dependents, spec, max)| == |work|
            && (failed == Some(work[i]) || Named(spec, work[i]))
            && Replacements(failed, dependents, spec, max)[i] == Copy(work[i], failed, spec, max + 1 + i)
  {
  }

  lemma UnsentIsUntimed(u0: Update, i: nat)
    requires Allowed(u0) && i < |u0.next|
    ensures u0.next[i].handle == u0.handle && (Unsent(u0.next[i]) ==> u0.next[i].settledAt.None?)
  {
    AllowedAt(u0, i);
  }

  lemma RemintIs(intents: seq<Intent>, spec: Spec, next: seq<Intent>)
    requires Reminted(intents, spec, next)
    ensures var failed := Failed(intents, spec.from); var dependents := Dependents(intents, failed, spec.from);
            && (forall i :: 0 <= i < |dependents| ==> Named(spec, dependents[i]))
            && next == RetireAll(intents, failed, spec.from) + Replacements(failed, dependents, spec, MaxSequence(intents))
  {
  }

  lemma CopyIs(intents: seq<Intent>, spec: Spec, next: seq<Intent>, i: nat)
    requires Reminted(intents, spec, next) && i < |Work(intents, spec.from)|
    ensures CopyAt(intents, spec, next, i)
  {
    RemintIs(intents, spec, next);
    ReplacementAt(Failed(intents, spec.from), Dependents(intents, Failed(intents, spec.from), spec.from), spec,
                  MaxSequence(intents), i);
  }

  lemma CopyCarries(work: Intent, failed: Option<Intent>, spec: Spec, sequence: int)
    requires failed == Some(work) || (Named(spec, work) && Unsent(work) && work.settledAt.None?)
    ensures Carries(work, Copy(work, failed, spec, sequence), spec)
    ensures Copy(work, failed, spec, sequence).sequence == sequence
    ensures Copy(work, failed, spec, sequence).intentId == CopyId(failed, spec, work)
  {
  }

  ghost predicate CopyAt(intents: seq<Intent>, spec: Spec, next: seq<Intent>, i: nat)
    requires i < |Work(intents, spec.from)|
  {
    var work := Work(intents, spec.from)[i]; var failed := Failed(intents, spec.from);
    && |next| == |intents| + |Work(intents, spec.from)|
    && (failed == Some(work) || Named(spec, work))
    && next[|intents| + i] == Copy(work, failed, spec, MaxSequence(intents) + 1 + i)
  }

  lemma CopyCarriesWork(intents: seq<Intent>, spec: Spec, next: seq<Intent>, i: nat)
    requires i < |Work(intents, spec.from)| && CopyAt(intents, spec, next, i)
    requires var work := Work(intents, spec.from)[i];
             Failed(intents, spec.from) == Some(work) || (Unsent(work) && work.settledAt.None?)
    ensures CopyOf(intents, spec, next, i)
  {
    CopyCarries(Work(intents, spec.from)[i], Failed(intents, spec.from), spec, MaxSequence(intents) + 1 + i);
  }

  lemma WorkIsUntimed(u0: Update, spec: Spec, i: nat)
    requires Allowed(u0) && i < |Work(u0.next, spec.from)|
    ensures var work := Work(u0.next, spec.from)[i];
            Failed(u0.next, spec.from) == Some(work) || (Unsent(work) && work.settledAt.None?)
  {
    var p := WorkIsRecorded(u0, spec, i);
    UnsentIsUntimed(u0, p);
  }

  /** A document's or a folder's journal places only its own kind; anything else it asks is a delete. */
  ghost predicate OneKind(intents: seq<Intent>, folder: bool) {
    forall i :: 0 <= i < |intents| ==>
      intents[i].desired.Delete? || (if folder then intents[i].desired.SetFolderLocation? else intents[i].desired.SetLocation?)
  }

  /** `u` stores the reminted journal under the new identity revision. */
  ghost predicate StoresRemint(u0: Update, u: Update, spec: Spec, folder: bool) {
    && Allowed(u0) && u.previous == u0.next && u.handle == u0.handle && u.identityRevision == spec.to
    && Reminted(u0.next, spec, u.next) && FreshIds(u0.next, spec) && OneKind(u0.next, folder)
    && MaxSequence(u0.next) + |Work(u0.next, spec.from)| <= MAX_SAFE_INTEGER
  }

  ghost function MovedPart(u0: Update, spec: Spec): seq<Intent> {
    RetireAll(u0.next, Failed(u0.next, spec.from), spec.from)
  }

  ghost predicate LeftAlone(u0: Update, spec: Spec, i: nat)
    requires i < |u0.next|
  {
    var failed := Failed(u0.next, spec.from);
    failed != Some(u0.next[i]) && !Dependent(u0.next[i], failed, spec.from)
  }

  /** What a remint does to a recorded intent. */
  lemma RetiredAs(u0: Update, spec: Spec, i: nat)
    requires Allowed(u0) && i < |u0.next|
    ensures var failed := Failed(u0.next, spec.from); var now := MovedPart(u0, spec)[i];
            && Moved(u0.next[i], now)
            && (failed == Some(u0.next[i]) ==> now == u0.next[i].(state := Superseded))
            && (Dependent(u0.next[i], failed, spec.from) ==> now == u0.next[i].(state := Cancelled))
            && (LeftAlone(u0, spec, i) ==> now == u0.next[i])
  {
    AllowedIsDistinct(u0);
    var failed := Failed(u0.next, spec.from);
    if failed.Some? && u0.next[i].intentId == failed.value.intentId { FindIs(u0.next, i); SameId(u0, i, failed.value); }
  }

  lemma SameId(u0: Update, i: nat, intent: Intent)
    requires Distinct(u0.next) && i < |u0.next| && intent in u0.next && u0.next[i].intentId == intent.intentId
    ensures u0.next[i] == intent
  {
    var k :| 0 <= k < |u0.next| && u0.next[k] == intent;
    assert k == i;
  }

  lemma CopyIsFresh(u0: Update, spec: Spec, next: seq<Intent>, i: nat)
    requires Allowed(u0) && Requeued(u0.next, spec, next) && i < |Work(u0.next, spec.from)|
    ensures var copy := next[|u0.next| + i];
            && copy.handle == u0.handle && Unsent(copy) && copy.settledAt.None?
            && copy.sequence == MaxSequence(u0.next) + 1 + i
            && copy.intentId == CopyId(Failed(u0.next, spec.from), spec, Work(u0.next, spec.from)[i])
  {
    assert CopyOf(u0.next, spec, next, i);
    CarriedIsFresh(Work(u0.next, spec.from)[i], next[|u0.next| + i], spec);
    WorkHandle(u0, spec, i);
  }

  lemma CarriedIsFresh(work: Intent, copy: Intent, spec: Spec)
    requires Carries(work, copy, spec)
    ensures copy.handle == work.handle && Unsent(copy) && copy.settledAt.None?
  {
  }

  lemma WorkHandle(u0: Update, spec: Spec, i: nat)
    requires Allowed(u0) && i < |Work(u0.next, spec.from)|
    ensures Work(u0.next, spec.from)[i].handle == u0.handle
  {
    var p := WorkIsRecorded(u0, spec, i);
  }

  lemma CopiesQueue(u0: Update, u: Update, spec: Spec, folder: bool)
    requires StoresRemint(u0, u, spec, folder)
    ensures |u.next| >= |u0.next| && Queued(u0.next, u.handle, u.next[|u0.next|..])
  {
    var n := |u0.next|;
    var work := Work(u0.next, spec.from);
    CopiesCarryWork(u0, spec, u.next);
    var copies := u.next[n..];
    forall i | 0 <= i < |copies|
      ensures Fresh(u0.next, u.handle, copies[i])
      ensures copies[i].sequence == MaxSequence(u0.next) + 1 + i && copies[i].intentId == CopyId(Failed(u0.next, spec.from), spec, work[i])
    {
      CopyIsFresh(u0, spec, u.next, i);
    }
  }

  lemma RemintChanges(u0: Update, u: Update, spec: Spec, folder: bool)
    requires StoresRemint(u0, u, spec, folder)
    ensures |u.next| >= |u0.next| && Changes(u, MovedPart(u0, spec), u.next[|u0.next|..])
    ensures Unlocked(u0.next)
  {
    CopiesQueue(u0, u, spec, folder);
    CopiesCarryWork(u0, spec, u.next);
    var n := |u0.next|;
    NextSplits(u0.next, spec, u.next);
    forall i | 0 <= i < n ensures Moved(u0.next[i], MovedPart(u0, spec)[i]) { RetiredAs(u0, spec, i); }
    MovesChange(u0, u, MovedPart(u0, spec), u.next[n..]);
    var live := WorkIsRecorded(u0, spec, 0);
    LiveIsUnlocked(u0, live);
  }

  lemma WorkIsRecorded(u0: Update, spec: Spec, i: nat) returns (p: nat)
    requires Allowed(u0) && i < |Work(u0.next, spec.from)|
    ensures p < |u0.next| && u0.next[p] == Work(u0.next, spec.from)[i] && u0.next[p].handle == u0.handle
    ensures !Ended(u0.next[p].state)
    ensures if Failed(u0.next, spec.from).Some? && i == 0 then Failed(u0.next, spec.from) == Some(u0.next[p])
            else Dependent(u0.next[p], Failed(u0.next, spec.from), spec.from)
  {
    var failed := Failed(u0.next, spec.from);
    if failed.Some? && i == 0 {
      p :| 0 <= p < |u0.next| && u0.next[p] == failed.value;
    } else {
      var at := DependentPlaces(u0.next, failed, spec.from);
      p := at[if failed.Some? then i - 1 else i];
    }
    UnsentIsUntimed(u0, p);
  }

  /** The failed placement has an answer, or was never sent. */
  ghost predicate FailureAnswered(intents: seq<Intent>, from: int) {
    var failed := Failed(intents, from);
    failed.Some? && |failed.value.attempts| > 0 ==> Answer(failed.value).Some?
  }

  ghost predicate NoQueuedDelete(intents: seq<Intent>, from: int) {
    forall i :: 0 <= i < |intents| && Dependent(intents[i], Failed(intents, from), from) ==> !intents[i].desired.Delete?
  }

  /** A placement copy excuses every cancelled placement recorded before it. */
  lemma CopyExcuses(u0: Update, u: Update, spec: Spec, folder: bool, i: nat)
    requires StoresRemint(u0, u, spec, folder) && NoQueuedDelete(u0.next, spec.from)
    requires i < |u0.next| && !u0.next[i].desired.Delete?
    ensures exists k :: 0 <= k < |u.next| && RetiredBy(u, u0.next[i], u.next[k])
  {
    CopiesCarryWork(u0, spec, u.next);
    var p := WorkIsRecorded(u0, spec, 0);
    var k := |u0.next|;
    assert CopyOf(u0.next, spec, u.next, 0);
    assert RetiredBy(u, u0.next[i], u.next[k]);
  }

  lemma SupersededStands(u: Update, was: Intent, i: nat)
    requires i < |u.next| && Find(u.previous, was.intentId) == Some(was) && was.state.NeedsRepair?
    requires u.next[i] == was.(state := Superseded) && Timed(was) && OneOpenAttempt(was)
    ensures StandsAt(u, i) <==> (|was.attempts| > 0 ==> Answer(was).Some?)
  {
  }

  lemma AnsweredBefore(u0: Update, i: nat)
    requires Allowed(u0) && i < |u0.next|
    ensures Timed(u0.next[i]) && OneOpenAttempt(u0.next[i])
  {
    AllowedAt(u0, i);
  }

  lemma FailedStands(u0: Update, u: Update, spec: Spec, folder: bool, i: nat)
    requires StoresRemint(u0, u, spec, folder) && i < |u0.next| <= |u.next|
    requires Failed(u0.next, spec.from) == Some(u0.next[i])
    ensures StandsAt(u, i) <==> FailureAnswered(u0.next, spec.from)
  {
    RemintChanges(u0, u, spec, folder);
    RetiredAs(u0, spec, i);
    assert u.next[i] == MovedPart(u0, spec)[i];
    AllowedIsDistinct(u0);
    FindIs(u0.next, i);
    AnsweredBefore(u0, i);
    SupersededStands(u, u0.next[i], i);
  }

  lemma DependentStands(u0: Update, u: Update, spec: Spec, folder: bool, i: nat)
    requires StoresRemint(u0, u, spec, folder) && i < |u0.next| <= |u.next|
    requires Dependent(u0.next[i], Failed(u0.next, spec.from), spec.from)
    ensures StandsAt(u, i) ==> !u0.next[i].desired.Delete?
    ensures NoQueuedDelete(u0.next, spec.from) ==> StandsAt(u, i)
  {
    RemintChanges(u0, u, spec, folder);
    RetiredAs(u0, spec, i);
    assert u.next[i] == MovedPart(u0, spec)[i];
    UnsentIsUntimed(u0, i);
    if NoQueuedDelete(u0.next, spec.from) {
      CopyExcuses(u0, u, spec, folder, i);
      var k :| 0 <= k < |u.next| && RetiredBy(u, u0.next[i], u.next[k]);
      assert RetiredBy(u, u.next[i], u.next[k]);
    }
  }

  lemma LeftAloneStands(u0: Update, u: Update, spec: Spec, folder: bool, i: nat)
    requires StoresRemint(u0, u, spec, folder) && i < |u0.next| <= |u.next| && LeftAlone(u0, spec, i)
    ensures SupersededAccepted(u0.next[i]) ==> !StandsAt(u, i)
    ensures NoQueuedDelete(u0.next, spec.from) && !SupersededAccepted(u0.next[i]) ==> StandsAt(u, i)
  {
    RemintChanges(u0, u, spec, folder);
    RetiredAs(u0, spec, i);
    UntouchedStands(u0, u, MovedPart(u0, spec), u.next[|u0.next|..], i);
    AllowedAt(u0, i);
    if NoQueuedDelete(u0.next, spec.from) && u0.next[i].state.Cancelled? { CopyExcuses(u0, u, spec, folder, i); }
  }

  ghost predicate Storable(intents: seq<Intent>, from: int) {
    && NoQueuedDelete(intents, from) && FailureAnswered(intents, from)
    && forall i :: 0 <= i < |intents| ==> !SupersededAccepted(intents[i])
  }

  lemma CopyStands(u0: Update, u: Update, spec: Spec, folder: bool, i: nat)
    requires StoresRemint(u0, u, spec, folder) && |u0.next| <= i < |u.next|
    ensures StandsAt(u, i)
  {
    RemintChanges(u0, u, spec, folder);
    CopiesCarryWork(u0, spec, u.next);
    CopyIsFresh(u0, spec, u.next, i - |u0.next|);
    QueuedStands(u, MovedPart(u0, spec), u.next[|u0.next|..], i);
  }

  lemma StorableStands(u0: Update, u: Update, spec: Spec, folder: bool, i: nat)
    requires StoresRemint(u0, u, spec, folder) && Storable(u0.next, spec.from) && i < |u.next|
    ensures StandsAt(u, i)
  {
    if i >= |u0.next| {
      CopyStands(u0, u, spec, folder, i);
    } else if LeftAlone(u0, spec, i) {
      LeftAloneStands(u0, u, spec, folder, i);
    } else if Failed(u0.next, spec.from) == Some(u0.next[i]) {
      FailedStands(u0, u, spec, folder, i);
    } else {
      DependentStands(u0, u, spec, folder, i);
    }
  }

  lemma StandingIsStorable(u0: Update, u: Update, spec: Spec, folder: bool)
    requires StoresRemint(u0, u, spec, folder) && |u0.next| <= |u.next|
    requires forall i :: 0 <= i < |u.next| ==> StandsAt(u, i)
    ensures Storable(u0.next, spec.from)
  {
    forall i | 0 <= i < |u0.next| ensures !SupersededAccepted(u0.next[i]) {
      if LeftAlone(u0, spec, i) { LeftAloneStands(u0, u, spec, folder, i); }
    }
    forall i | 0 <= i < |u0.next| && Dependent(u0.next[i], Failed(u0.next, spec.from), spec.from)
      ensures !u0.next[i].desired.Delete?
    {
      DependentStands(u0, u, spec, folder, i);
    }
    if Failed(u0.next, spec.from).Some? {
      var p := WorkIsRecorded(u0, spec, 0);
      FailedStands(u0, u, spec, folder, p);
    }
  }

  /**
   * A remint may be stored exactly when no delete is queued behind the failed placement, the
   * failed placement is answered, and no superseded intent holds an accepted answer.
   */
  lemma RemintIsAllowedExactly(u0: Update, u: Update, spec: Spec, folder: bool)
    requires StoresRemint(u0, u, spec, folder)
    ensures Allowed(u) <==> Storable(u0.next, spec.from)
  {
    RemintChanges(u0, u, spec, folder);
    ChangeIsAllowedExactly(u0, u, MovedPart(u0, spec), u.next[|u0.next|..]);
    if Storable(u0.next, spec.from) {
      forall i | 0 <= i < |u.next| ensures StandsAt(u, i) { StorableStands(u0, u, spec, folder, i); }
    }
    if Allowed(u) { StandingIsStorable(u0, u, spec, folder); }
  }

  // ------------------------------------------------------------------------------------------
  // Nothing queued is lost or doubled
  // ------------------------------------------------------------------------------------------

  /** A placement or delete the journal still has to send. */
  predicate ToSend(intent: Intent) {
    Unsent(intent) || (intent.state.NeedsRepair? && Placement(intent.desired))
  }

  /** What the writer asked, and where in the account's order it waits; not the ids it is sent under. */
  datatype Task = Task(desired: Desired, order: Option<int>, predecessors: seq<Predecessor>)

  function TaskOf(intent: Intent): Task {
    match intent.admission
    case None => Task(intent.desired, None, [])
    case Some(admission) => Task(intent.desired, Some(admission.order), admission.predecessors)
  }

  function Tasks(intents: seq<Intent>): seq<Task> {
    if intents == [] then []
    else
      var n := |intents| - 1;
      Tasks(intents[..n]) + if ToSend(intents[n]) then [TaskOf(intents[n])] else []
  }

  lemma {:induction false} TasksOfBoth(a: seq<Intent>, b: seq<Intent>)
    ensures Tasks(a + b) == Tasks(a) + Tasks(b)
  {
    if b == [] {
      assert a + b == a;
    } else {
      var n := |b| - 1;
      assert (a + b)[..|a| + n] == a + b[..n];
      TasksOfBoth(a, b[..n]);
    }
  }

  lemma {:induction false} TasksOfQueue(intents: seq<Intent>)
    requires forall i :: 0 <= i < |intents| ==> ToSend(intents[i])
    ensures |Tasks(intents)| == |intents| && forall i :: 0 <= i < |intents| ==> Tasks(intents)[i] == TaskOf(intents[i])
  {
    if intents != [] { TasksOfQueue(intents[..|intents| - 1]); }
  }

  ghost predicate Newest(intents: seq<Intent>, failed: Option<Intent>, from: int) {
    && (failed.Some? ==> FailedPlacement(failed.value, from))
    && forall i :: 0 <= i < |intents| && FailedPlacement(intents[i], from) ==>
         failed.Some? && (intents[i] == failed.value || intents[i].sequence < failed.value.sequence)
  }

  /** The ids of an ordered journal are its own. */
  ghost predicate OwnIds(intents: seq<Intent>, failed: Option<Intent>) {
    forall i :: 0 <= i < |intents| && failed.Some? && intents[i].intentId == failed.value.intentId ==> intents[i] == failed.value
  }

  lemma {:induction false} NoneQueuedBehind(intents: seq<Intent>, failed: Option<Intent>, from: int)
    requires failed.Some? && forall i :: 0 <= i < |intents| ==> intents[i].sequence <= failed.value.sequence
    ensures Dependents(intents, failed, from) == []
  {
    if intents != [] { NoneQueuedBehind(intents[..|intents| - 1], failed, from); }
  }

  ghost function FailedTask(intents: seq<Intent>, failed: Option<Intent>): seq<Task> {
    if failed.Some? && failed.value in intents then [TaskOf(failed.value)] else []
  }

  ghost function StayingTask(last: Intent, failed: Option<Intent>, from: int): seq<Task> {
    if ToSend(Retired(last, failed, from)) then [TaskOf(last)] else []
  }

  ghost function FailingTask(last: Intent, failed: Option<Intent>): seq<Task> {
    if failed == Some(last) then [TaskOf(last)] else []
  }

  ghost function QueuedTask(last: Intent, failed: Option<Intent>, from: int): seq<Task> {
    if Dependent(last, failed, from) then [TaskOf(last)] else []
  }

  /** The last intent's task goes to one of the three runs, behind nothing of the later ones. */
  ghost predicate PlacedLast(before: seq<Intent>, last: Intent, failed: Option<Intent>, from: int) {
    var stays, failing, queued := StayingTask(last, failed, from), FailingTask(last, failed), QueuedTask(last, failed, from);
    && (if ToSend(last) then [TaskOf(last)] else []) == stays + failing + queued
    && (stays != [] || failing != [] ==> Dependents(before, failed, from) == [])
    && (stays != [] ==> FailedTask(before, failed) == [])
    && FailedTask(before + [last], failed) == FailedTask(before, failed) + failing
    && (ToSend(Retired(last, failed, from)) ==> Retired(last, failed, from) == last)
  }

  /** Where the last intent's task goes: it stays, or it is the failed one's, or a dependent's. */
  lemma LastSplits(before: seq<Intent>, last: Intent, failed: Option<Intent>, from: int)
    requires InOrder(before + [last]) && Newest(before + [last], failed, from) && OwnIds(before + [last], failed)
    requires ToSend(last) ==> last.identityRevision == from
    ensures PlacedLast(before, last, failed, from)
  {
    var all := before + [last];
    var n := |before|;
    assert all[n] == last;
    forall i | 0 <= i < n ensures before[i].sequence < last.sequence { assert all[i] == before[i]; }
    if failed.Some? && last.sequence <= failed.value.sequence { NoneQueuedBehind(before, failed, from); }
  }

  lemma TasksGrow(before: seq<Intent>, last: Intent)
    ensures Tasks(before + [last]) == Tasks(before) + if ToSend(last) then [TaskOf(last)] else []
  {
    assert (before + [last])[..|before|] == before;
  }

  lemma RetiredTasksGrow(before: seq<Intent>, last: Intent, failed: Option<Intent>, from: int)
    ensures var retired := Retired(last, failed, from);
            Tasks(RetireAll(before + [last], failed, from)) ==
            Tasks(RetireAll(before, failed, from)) + if ToSend(retired) then [TaskOf(retired)] else []
  {
    assert RetireAll(before + [last], failed, from) == RetireAll(before, failed, from) + [Retired(last, failed, from)];
    TasksGrow(RetireAll(before, failed, from), Retired(last, failed, from));
  }

  lemma DependentTasksGrow(before: seq<Intent>, last: Intent, failed: Option<Intent>, from: int)
    ensures Tasks(Dependents(before + [last], failed, from)) ==
            Tasks(Dependents(before, failed, from)) + if Dependent(last, failed, from) then [TaskOf(last)] else []
  {
    assert (before + [last])[..|before|] == before;
    if Dependent(last, failed, from) { TasksGrow(Dependents(before, failed, from), last); }
  }

  /** Three runs of tasks grow at their ends as their concatenation does, when what follows is empty. */
  lemma GrowTogether(a: seq<Task>, b: seq<Task>, c: seq<Task>, toA: seq<Task>, toB: seq<Task>, toC: seq<Task>)
    requires (toA != [] || toB != [] ==> c == []) && (toA != [] ==> b == [])
    ensures (a + b + c) + (toA + toB + toC) == (a + toA) + (b + toB) + (c + toC)
  {
  }

  /** A journal in order whose work is of one revision, with its newest failed placement. */
  ghost predicate Retiring(intents: seq<Intent>, failed: Option<Intent>, from: int) {
    && InOrder(intents) && Newest(intents, failed, from) && OwnIds(intents, failed)
    && forall i :: 0 <= i < |intents| && ToSend(intents[i]) ==> intents[i].identityRevision == from
  }

  /** The tasks are those that stay, then the failed one's, then the followers'. */
  ghost predicate Splits(intents: seq<Intent>, failed: Option<Intent>, from: int) {
    Tasks(intents) == Tasks(RetireAll(intents, failed, from)) + FailedTask(intents, failed) + Tasks(Dependents(intents, failed, from))
  }

  lemma RetiringBefore(all: seq<Intent>, before: seq<Intent>, last: Intent, failed: Option<Intent>, from: int)
    requires Retiring(all, failed, from) && all == before + [last]
    ensures Retiring(before, failed, from)
  {
    assert forall i :: 0 <= i < |before| ==> before[i] == all[i];
  }

  lemma SplitsWithLast(all: seq<Intent>, before: seq<Intent>, last: Intent, failed: Option<Intent>, from: int)
    requires Retiring(all, failed, from) && all == before + [last] && Splits(before, failed, from)
    ensures Splits(all, failed, from)
  {
    assert all[|before|] == last;
    LastSplits(before, last, failed, from);
    SplitsAdded(before, last, failed, from);
  }

  /** How the three runs grow by the last intent, once it is known where its task goes. */
  lemma SplitsAdded(before: seq<Intent>, last: Intent, failed: Option<Intent>, from: int)
    requires Splits(before, failed, from) && PlacedLast(before, last, failed, from)
    ensures Splits(before + [last], failed, from)
  {
    TasksGrow(before, last);
    RetiredTasksGrow(before, last, failed, from);
    DependentTasksGrow(before, last, failed, from);
    GrowTogether(Tasks(RetireAll(before, failed, from)), FailedTask(before, failed), Tasks(Dependents(before, failed, from)),
                 StayingTask(last, failed, from), FailingTask(last, failed), QueuedTask(last, failed, from));
  }

  lemma SplitsNone(failed: Option<Intent>, from: int)
    ensures Splits([], failed, from)
  {
  }

  lemma {:induction false} RetiringSplits(intents: seq<Intent>, failed: Option<Intent>, from: int)
    requires Retiring(intents, failed, from)
    ensures Splits(intents, failed, from)
  {
    if intents == [] {
      SplitsNone(failed, from);
    } else {
      var before, last := intents[..|intents| - 1], intents[|intents| - 1];
      RetiringBefore(intents, before, last, failed, from);
      RetiringSplits(before, failed, from);
      SplitsWithLast(intents, before, last, failed, from);
    }
  }

  lemma FailedIsNewest(u0: Update, from: int)
    requires Allowed(u0)
    ensures Newest(u0.next, Failed(u0.next, from), from) && OwnIds(u0.next, Failed(u0.next, from))
  {
    var failed := Failed(u0.next, from);
    AllowedIsDistinct(u0);
    if failed.Some? {
      var k :| 0 <= k < |u0.next| && u0.next[k] == failed.value;
      forall i | 0 <= i < |u0.next| && u0.next[i].intentId == failed.value.intentId ensures u0.next[i] == failed.value {
        SameId(u0, i, failed.value);
      }
    }
  }

  /** A remint leaves the same tasks to send, in the same order: each once, none lost. */
  lemma RemintConserves(u0: Update, spec: Spec, next: seq<Intent>)
    requires Allowed(u0) && Reminted(u0.next, spec, next) && InOrder(u0.next)
    requires forall i :: 0 <= i < |u0.next| && ToSend(u0.next[i]) ==> u0.next[i].identityRevision == spec.from
    ensures Tasks(next) == Tasks(u0.next)
  {
    var failed := Failed(u0.next, spec.from);
    var kept, copies := MovedPart(u0, spec), next[|u0.next|..];
    FailedIsNewest(u0, spec.from);
    RetiringSplits(u0.next, failed, spec.from);
    RemintShape(u0.next, spec, next);
    NextSplits(u0.next, spec, next);
    TasksOfBoth(kept, copies);
    CopiesCarryWork(u0, spec, next);
    CopiesKeepTasks(u0, spec, next);
    Associate(Tasks(kept), FailedTask(u0.next, failed), Tasks(Dependents(u0.next, failed, spec.from)));
  }

  lemma Associate(a: seq<Task>, b: seq<Task>, c: seq<Task>)
    ensures a + b + c == a + (b + c)
  {
  }

  lemma SameTasks(a: seq<Intent>, b: seq<Intent>)
    requires |a| == |b| && forall i :: 0 <= i < |a| ==> ToSend(a[i]) && ToSend(b[i]) && TaskOf(a[i]) == TaskOf(b[i])
    ensures Tasks(a) == Tasks(b)
  {
    TasksOfQueue(a);
    TasksOfQueue(b);
  }

  lemma CopiesKeepTasks(u0: Update, spec: Spec, next: seq<Intent>)
    requires Requeued(u0.next, spec, next)
    ensures var failed := Failed(u0.next, spec.from);
            Tasks(next[|u0.next|..]) == FailedTask(u0.next, failed) + Tasks(Dependents(u0.next, failed, spec.from))
  {
    WorkTasks(u0.next, spec);
    var work, copies := Work(u0.next, spec.from), next[|u0.next|..];
    forall i | 0 <= i < |copies| ensures ToSend(copies[i]) && ToSend(work[i]) && TaskOf(copies[i]) == TaskOf(work[i]) {
      assert CopyOf(u0.next, spec, next, i);
    }
    SameTasks(copies, work);
  }

  lemma WorkTasks(intents: seq<Intent>, spec: Spec)
    ensures forall i :: 0 <= i < |Work(intents, spec.from)| ==> ToSend(Work(intents, spec.from)[i])
    ensures var failed := Failed(intents, spec.from);
            Tasks(Work(intents, spec.from)) == FailedTask(intents, failed) + Tasks(Dependents(intents, failed, spec.from))
  {
    var failed := Failed(intents, spec.from);
    TasksOfBoth(if failed.Some? then [failed.value] else [], Dependents(intents, failed, spec.from));
    if failed.Some? { TasksOfQueue([failed.value]); }
  }

  // ------------------------------------------------------------------------------------------
  // What waited on the original waits on its copy
  // ------------------------------------------------------------------------------------------

  /** Of the intents admitted at `order`, the one with the highest sequence: a requeued placement's copy. */
  function LatestAdmitted(intents: seq<Intent>, order: int): (latest: Option<Intent>)
    ensures latest.Some? ==> latest.value in intents && AdmittedAt(latest.value, order)
    ensures forall i :: 0 <= i < |intents| && AdmittedAt(intents[i], order) ==>
              latest.Some? && intents[i].sequence <= latest.value.sequence
  {
    if intents == [] then None
    else
      var n := |intents| - 1;
      var rest := LatestAdmitted(intents[..n], order);
      assert forall i :: 0 <= i < n ==> intents[..n][i] == intents[i];
      if AdmittedAt(intents[n], order) && (rest.None? || intents[n].sequence > rest.value.sequence) then Some(intents[n])
      else rest
  }

  predicate AdmittedAt(intent: Intent, order: int) {
    intent.admission.Some? && intent.admission.value.order == order
  }

  lemma WorkIsInOrder(u0: Update, spec: Spec, i: nat, k: nat)
    requires Allowed(u0) && InOrder(u0.next) && i < k < |Work(u0.next, spec.from)|
    ensures Work(u0.next, spec.from)[i].sequence < Work(u0.next, spec.from)[k].sequence
  {
    var failed := Failed(u0.next, spec.from);
    var at := DependentPlaces(u0.next, failed, spec.from);
    var offset := if failed.Some? then 1 else 0;
    if i >= offset { assert at[i - offset] < at[k - offset]; }
  }

  /** A placement that waited on reminted work now waits on its copy, which is queued again. */
  lemma WaitsOnCopy(u0: Update, spec: Spec, next: seq<Intent>, i: nat, order: int)
    requires Allowed(u0) && Reminted(u0.next, spec, next) && InOrder(u0.next)
    requires i < |Work(u0.next, spec.from)|
    requires LatestAdmitted(u0.next, order) == Some(Work(u0.next, spec.from)[i])
    ensures Requeued(u0.next, spec, next) && FindsCopy(u0.next, spec, next, i, order)
  {
    CopiesCarryWork(u0, spec, next);
    CopyIsFound(u0, spec, next, i, order);
  }

  /** The newest placement admitted at `order` is the copy of the work at `i`, waiting to ask the same. */
  ghost predicate FindsCopy(intents: seq<Intent>, spec: Spec, next: seq<Intent>, i: nat, order: int) {
    && i < |Work(intents, spec.from)| && |next| == |intents| + |Work(intents, spec.from)|
    && var copy := next[|intents| + i];
       LatestAdmitted(next, order) == Some(copy) && Unsent(copy) && copy.desired == Work(intents, spec.from)[i].desired
  }

  lemma CopyIsFound(u0: Update, spec: Spec, next: seq<Intent>, i: nat, order: int)
    requires Allowed(u0) && Requeued(u0.next, spec, next) && InOrder(u0.next)
    requires i < |Work(u0.next, spec.from)| && LatestAdmitted(u0.next, order) == Some(Work(u0.next, spec.from)[i])
    ensures FindsCopy(u0.next, spec, next, i, order)
  {
    CopyIsLatest(u0, spec, next, i, order);
    CopyIsQueued(u0.next, spec, next, i);
  }

  lemma CopyIsLatest(u0: Update, spec: Spec, next: seq<Intent>, i: nat, order: int)
    requires Allowed(u0) && Requeued(u0.next, spec, next) && InOrder(u0.next)
    requires i < |Work(u0.next, spec.from)| && LatestAdmitted(u0.next, order) == Some(Work(u0.next, spec.from)[i])
    ensures LatestAdmitted(next, order) == Some(next[|u0.next| + i])
  {
    var copies := next[|u0.next|..];
    CopyIsNewest(u0, spec, next, copies, i, order);
    NextSplits(u0.next, spec, next);
    LatestOfBoth(next, MovedPart(u0, spec), copies, order, i);
  }

  /** A copy asks what its original asked, and waits to be sent. */
  lemma CopyIsQueued(intents: seq<Intent>, spec: Spec, next: seq<Intent>, i: nat)
    requires Requeued(intents, spec, next) && i < |Work(intents, spec.from)|
    ensures Unsent(next[|intents| + i]) && next[|intents| + i].desired == Work(intents, spec.from)[i].desired
  {
    assert CopyOf(intents, spec, next, i);
  }

  /** Of all admitted at `order`, the copy at `i` has the highest sequence. */
  ghost predicate NewestAmong(moved: seq<Intent>, copies: seq<Intent>, order: int, i: nat) {
    && i < |copies| && AdmittedAt(copies[i], order)
    && (forall p :: 0 <= p < |moved| ==> moved[p].sequence < copies[i].sequence)
    && (forall k :: 0 <= k < i ==> copies[k].sequence < copies[i].sequence)
    && forall k :: i < k < |copies| ==> !AdmittedAt(copies[k], order)
  }

  lemma CopyIsNewest(u0: Update, spec: Spec, next: seq<Intent>, copies: seq<Intent>, i: nat, order: int)
    requires Allowed(u0) && Requeued(u0.next, spec, next) && InOrder(u0.next) && copies == next[|u0.next|..]
    requires i < |Work(u0.next, spec.from)| && LatestAdmitted(u0.next, order) == Some(Work(u0.next, spec.from)[i])
    ensures NewestAmong(MovedPart(u0, spec), copies, order, i)
  {
    forall k | 0 <= k < |copies|
      ensures copies[k].sequence == MaxSequence(u0.next) + 1 + k && (i < k ==> !AdmittedAt(copies[k], order))
    {
      CopyIsNumbered(u0.next, spec, next, copies, k);
      if i < k { LaterCopy(u0, spec, copies[k], i, k, order); }
    }
    CopyIsNumbered(u0.next, spec, next, copies, i);
    RetiredSequences(u0, spec);
  }

  lemma CopyIsNumbered(intents: seq<Intent>, spec: Spec, next: seq<Intent>, copies: seq<Intent>, k: nat)
    requires Requeued(intents, spec, next) && copies == next[|intents|..] && k < |copies|
    ensures k < |Work(intents, spec.from)| && copies[k].sequence == MaxSequence(intents) + 1 + k
    ensures copies[k].admission == RenamedIfAny(Work(intents, spec.from)[k].admission, spec.fromId, spec.toId)
  {
    assert CopyOf(intents, spec, next, k);
  }

  lemma LaterCopy(u0: Update, spec: Spec, copy: Intent, i: nat, k: nat, order: int)
    requires Allowed(u0) && InOrder(u0.next) && i < k < |Work(u0.next, spec.from)|
    requires copy.admission == RenamedIfAny(Work(u0.next, spec.from)[k].admission, spec.fromId, spec.toId)
    requires LatestAdmitted(u0.next, order) == Some(Work(u0.next, spec.from)[i])
    ensures !AdmittedAt(copy, order)
  {
    WorkIsInOrder(u0, spec, i, k);
    LaterIsNotAdmitted(u0, spec, i, k, order);
  }

  lemma RetiredSequences(u0: Update, spec: Spec)
    ensures forall p :: 0 <= p < |u0.next| ==> MovedPart(u0, spec)[p].sequence <= MaxSequence(u0.next)
  {
  }

  lemma LatestOfBoth(all: seq<Intent>, moved: seq<Intent>, copies: seq<Intent>, order: int, i: nat)
    requires NewestAmong(moved, copies, order, i) && all == moved + copies
    ensures LatestAdmitted(all, order) == Some(copies[i])
  {
    assert all[|moved| + i] == copies[i];
    var latest := LatestAdmitted(all, order).value;
    var p :| 0 <= p < |all| && all[p] == latest;
  }

  lemma LaterIsNotAdmitted(u0: Update, spec: Spec, i: nat, k: nat, order: int)
    requires Allowed(u0) && i < k < |Work(u0.next, spec.from)|
    requires Work(u0.next, spec.from)[i].sequence < Work(u0.next, spec.from)[k].sequence
    requires LatestAdmitted(u0.next, order) == Some(Work(u0.next, spec.from)[i])
    ensures !AdmittedAt(Work(u0.next, spec.from)[k], order)
  {
    var at := WorkIsRecorded(u0, spec, k);
  }
}
