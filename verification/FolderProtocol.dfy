/**
 * A device and the server over one folder's id: creates sent, resent, answered or lost, rows hidden
 * and restored, the writer's commands and remints in between
 * (packages/resource-replica/src/server-hold.ts, folder-namespace.ts, folder-remint.ts).
 */
module FolderProtocol {
  import opened FolderJournal
  import opened FolderPlans
  import opened FolderSteps
  import opened Journal
  import opened JournalHistory
  import opened Records
  import opened Remint
  import opened ServerHold
  import opened Wrappers

  /** What the server has under an id: a row the writer reaches, or one deleted or out of reach. */
  datatype Row = Reachable | Hidden

  /** `flying` holds the ids under which copies of a create are on their way. */
  datatype System = System(record: Record, rows: map<EntryId, Row>, flying: set<EntryId>)

  datatype Act =
    | Move(target: Target, intentId: string, operationId: string, admission: Option<Admission>, destination: Destination,
           typedName: Option<string>)
    | Discard(target: Target, intentId: string, operationId: string, admission: Option<Admission>, now: int)
    | Prepare(ids: AttemptIds, lookup: EntryId -> Option<Location>)
    | SendCreate
    | TakeUnheard(accepts: bool, last: bool)
    | TakeAnswered(accepts: bool, intentId: string, attemptId: string, place: Location)
    | AnswerHeld(intentId: string, attemptId: string, outcome: Outcome)
    | Settle(settledAt: nat)
    | Observe(operationId: string, location: Location, parent: ParentRef, version: nat)
    | Replace(folderId: EntryId, retryId: string, rebased: map<string, string>)
    | Hide(id: EntryId)
    | Restore(id: EntryId)
    | CreateElsewhere(id: EntryId)

  /** A write reaches the store only when the store's rule takes it. */
  ghost predicate Commits(s: System, next: Record) {
    exists was :: Stored(was, s.record, None) && Stored(Some(s.record), next, None)
  }

  ghost predicate OpenCreate(record: Record) {
    exists i :: 0 <= i < |record.intents| && record.intents[i].state.Submitted? && record.intents[i].attempts != []
      && record.intents[i].attempts[|record.intents[i].attempts| - 1].request.CreateFolderRequest?
  }

  /** The server takes one copy of a create: an id it holds is answered before anything is refused. */
  function Taken(rows: map<EntryId, Row>, id: EntryId, accepts: bool): map<EntryId, Row> {
    if id !in rows && accepts then rows[id := Reachable] else rows
  }

  function AnswerTo(rows: map<EntryId, Row>, id: EntryId, accepts: bool, place: Location): Outcome {
    if id in rows then FolderCreated(rows[id].Hidden?, id, place.scheme, place.path, place.name)
    else if accepts then FolderCreated(false, id, place.scheme, place.path, place.name)
    else Refusal(id.text, false)
  }

  ghost predicate AtRest(record: Record) {
    forall k :: 0 <= k < |record.intents| ==> !InFlight(record.intents[k])
  }

  predicate RoomFor(record: Record, intentId: string) {
    Find(record.intents, intentId).None? && MaxSequence(record.intents) < MAX_SAFE_INTEGER
  }

  ghost predicate Acts(s: System, act: Act, s': System) {
    match act
    case Move(target, intentId, operationId, admission, destination, typedName) =>
      && target.record == Some(s.record) && RoomFor(s.record, intentId)
      && PlanFolderLocation(target, intentId, operationId, admission, destination, typedName) == Ok(Some(s'.record))
      && Commits(s, s'.record) && s' == s.(record := s'.record)
    case Discard(target, intentId, operationId, admission, now) =>
      && target.record == Some(s.record) && RoomFor(s.record, intentId)
      && PlanFolderDeletion(target, intentId, operationId, admission, now) == Ok(Some(s'.record))
      && Commits(s, s'.record) && s' == s.(record := s'.record)
    case Prepare(ids, lookup) =>
      PrepareFolderAttempt(s.record, ids, lookup) == Some(s'.record) && Commits(s, s'.record) && s' == s.(record := s'.record)
    // A submitted create may be sent, and sent again, until its answer is recorded.
    case SendCreate =>
      OpenCreate(s.record) && s' == s.(flying := s.flying + {s.record.folderId})
    // A copy lands and its answer is lost; other copies may still be on their way.
    case TakeUnheard(accepts, last) =>
      && s.record.folderId in s.flying
      && s' == s.(rows := Taken(s.rows, s.record.folderId, accepts),
                  flying := if last then s.flying - {s.record.folderId} else s.flying)
    // A copy lands and its answer is recorded; no copy outlives the answer the device hears.
    case TakeAnswered(accepts, intentId, attemptId, place) =>
      && s.record.folderId in s.flying
      && RecordFolderOutcome(s.record, intentId, attemptId, AnswerTo(s.rows, s.record.folderId, accepts, place)) == Ok(Some(s'.record))
      && Commits(s, s'.record)
      && s' == System(s'.record, Taken(s.rows, s.record.folderId, accepts), s.flying - {s.record.folderId})
    case AnswerHeld(intentId, attemptId, outcome) =>
      && s.record.hold.Held? && RecordFolderOutcome(s.record, intentId, attemptId, outcome) == Ok(Some(s'.record))
      && Commits(s, s'.record) && s' == s.(record := s'.record)
    case Settle(settledAt) =>
      SettleFolderOutcome(s.record, settledAt) == Some(s'.record) && Commits(s, s'.record) && s' == s.(record := s'.record)
    // The catalog shows the folder while a move waits to be seen there.
    case Observe(operationId, location, parent, version) =>
      && InstallFolderRefresh(s.record, operationId, location, parent, version) == Some(s'.record)
      && Commits(s, s'.record) && s' == s.(record := s'.record)
    // The reconciler remints only a journal that stands on failed or blocked work, under an id nobody has used.
    case Replace(folderId, retryId, rebased) =>
      && AtRest(s.record) && folderId !in s.rows && folderId !in s.flying && folderId !in s.record.aliases
      && FreshIds(s.record.intents, Spec(1, 1, s.record.folderId, folderId, retryId, rebased))
      && MaxSequence(s.record.intents) + |Work(s.record.intents, 1)| <= MAX_SAFE_INTEGER
      && RemintFolder(s.record, folderId, retryId, rebased) == Ok(Some(s'.record))
      && Commits(s, s'.record) && s' == s.(record := s'.record)
    case Hide(id) => id in s.rows && s' == s.(rows := s.rows[id := Hidden])
    // An id answered as held out of reach never succeeds again.
    case Restore(id) =>
      && id in s.rows && id !in s.record.aliases && !(id == s.record.folderId && s.record.hold.Spent?)
      && s' == s.(rows := s.rows[id := Reachable])
    case CreateElsewhere(id) =>
      id !in s.rows && id != s.record.folderId && s' == s.(rows := s.rows[id := Reachable])
  }

  // ------------------------------------------------------------------------------------------
  // The invariant
  // ------------------------------------------------------------------------------------------

  ghost predicate DeletedHere(record: Record) {
    exists i :: 0 <= i < |record.intents| && SettledHere(record.intents[i])
  }

  predicate HoldIsTrue(s: System) {
    match s.record.hold
    case Local => s.record.folderId !in s.rows
    case Uncertain => true
    case Held => s.record.folderId in s.rows
    case Spent => s.record.folderId in s.rows && s.rows[s.record.folderId].Hidden?
  }

  /** The store took the record, its steps are in order, and nothing in it blocks the next write. */
  ghost predicate RecordSound(record: Record) {
    (exists was :: Stored(was, record, None)) && Coherent(record) && Unblocked(record) && record.copiedBy.None?
  }

  /** The hold is the truth, and every id the folder left is out of reach. */
  ghost predicate ServerFits(s: System) {
    && HoldIsTrue(s)
    && s.flying <= {s.record.folderId} && (s.flying != {} ==> s.record.hold.Uncertain?)
    && (forall id :: id in s.record.aliases ==> id in s.rows && s.rows[id].Hidden? && id != s.record.folderId)
    && (DeletedHere(s.record) ==> !DeleteNeedsServer(s.record.hold))
  }

  ghost predicate Safe(s: System) {
    RecordSound(s.record) && ServerFits(s)
  }

  /** A folder created here under an id nobody has used. */
  ghost predicate Starts(s: System) {
    && s.flying == {} && s.record.folderId !in s.rows
    && exists projectId, scheme, intentId, admission, destination ::
         PlanFolderCreate(projectId, scheme, s.record.handle, s.record.folderId, intentId, admission, destination) == Ok(s.record)
  }

  lemma StartIsSafe(s: System)
    requires Starts(s)
    ensures Safe(s)
  {
    var projectId, scheme, intentId, admission, destination :|
      PlanFolderCreate(projectId, scheme, s.record.handle, s.record.folderId, intentId, admission, destination) == Ok(s.record);
    CreatedIsStored(projectId, scheme, s.record.handle, s.record.folderId, intentId, admission, destination, s.record);
    assert !SettledHere(s.record.intents[0]);
  }

  /** A deletion settled here leaves nothing that could still be sent, answered or reminted. */
  lemma DeletedHereIsQuiet(was: Option<Record>, record: Record)
    requires Stored(was, record, None) && DeletedHere(record)
    ensures forall k :: 0 <= k < |record.intents| ==>
              record.intents[k].state.Cancelled? || record.intents[k].state.Superseded? || record.intents[k].state.SettledLocally?
  {
    var i :| 0 <= i < |record.intents| && SettledHere(record.intents[i]);
    AllowedAt(JournalUpdate(was, record), i);
    AllowedIsDistinct(JournalUpdate(was, record));
  }

  // ------------------------------------------------------------------------------------------
  // Every act keeps it
  // ------------------------------------------------------------------------------------------

  lemma SoundStays(record: Record, next: Record)
    requires RecordSound(record) && Stored(Some(record), next, None) && Coherent(next) && SupersedesOld(record, next)
    ensures RecordSound(next)
  {
    var was :| Stored(was, record, None);
    AllowedIsDistinct(JournalUpdate(was, record));
    UnblockedStays(record, None, next);
  }

  predicate SameHold(record: Record, next: Record) {
    next.hold == record.hold && next.folderId == record.folderId && next.aliases == record.aliases
  }

  /** A write that leaves the id and its hold alone leaves the server's side as it fits. */
  lemma ServerStillFits(s: System, next: Record)
    requires ServerFits(s) && Stored(Some(s.record), next, None) && SameHold(s.record, next)
    ensures ServerFits(s.(record := next))
  {
    if DeletedHere(next) { StoredDeletionIsLocal(s.record, next); }
  }

  lemma WasDeletedHere(was: Record, next: Record, i: nat)
    requires Stored(Some(was), next, None) && i < |next.intents| && SettledHere(next.intents[i])
    requires WasIn(JournalUpdate(Some(was), next), next.intents[i], SettledLocally)
    ensures DeletedHere(was)
  {
    var u := JournalUpdate(Some(was), next);
    var found := Find(was.intents, next.intents[i].intentId).value;
    var k :| 0 <= k < |was.intents| && was.intents[k] == found;
    AllowedBefore(u, k);
    AllowedIsDistinct(u);
    FindIs(next.intents, i);
    assert SettledHere(was.intents[k]);
  }

  /** The rule refuses a deletion settled here while the server may hold the folder. */
  lemma StoredDeletionIsLocal(was: Record, next: Record)
    requires Stored(Some(was), next, None) && DeletedHere(next)
    ensures DeletedHere(was) || !DeleteNeedsServer(next.hold)
  {
    var i :| 0 <= i < |next.intents| && SettledHere(next.intents[i]);
    var u := JournalUpdate(Some(was), next);
    AllowedAt(u, i);
    if WasIn(u, next.intents[i], SettledLocally) { WasDeletedHere(was, next, i); }
  }

  lemma DeletionStaysLocal(s: System, next: Record)
    requires ServerFits(s) && Stored(Some(s.record), next, None) && (DeletedHere(s.record) ==> next.hold == s.record.hold)
    ensures DeletedHere(next) ==> !DeleteNeedsServer(next.hold)
  {
    if DeletedHere(next) && !DeletedHere(s.record) { StoredDeletionIsLocal(s.record, next); }
  }

  /** Nothing can be prepared, answered or reminted once the deletion settled here. */
  lemma NothingAfterDeletion(record: Record, ids: AttemptIds, lookup: EntryId -> Option<Location>, intentId: string,
                             attemptId: string, outcome: Outcome, settledAt: nat, folderId: EntryId, retryId: string,
                             rebased: map<string, string>)
    requires exists was :: Stored(was, record, None)
    requires DeletedHere(record)
    ensures PrepareFolderAttempt(record, ids, lookup).None? && SettleFolderOutcome(record, settledAt).None?
    ensures RecordFolderOutcome(record, intentId, attemptId, outcome).Err? || RecordFolderOutcome(record, intentId, attemptId, outcome) == Ok(None)
    ensures RemintFolder(record, folderId, retryId, rebased) == Ok(None)
    ensures !OpenCreate(record)
  {
    var was :| Stored(was, record, None);
    DeletedHereIsQuiet(was, record);
    assert ActiveIntent(record.intents).None?;
    QuietIsUnanswered(record, intentId, attemptId, outcome);
    QuietIsKept(record, folderId, retryId, rebased);
  }

  ghost predicate AllEnded(record: Record) {
    forall k :: 0 <= k < |record.intents| ==>
      record.intents[k].state.Cancelled? || record.intents[k].state.Superseded? || record.intents[k].state.SettledLocally?
  }

  lemma QuietIsUnanswered(record: Record, intentId: string, attemptId: string, outcome: Outcome)
    requires AllEnded(record)
    ensures RecordFolderOutcome(record, intentId, attemptId, outcome).Err? || RecordFolderOutcome(record, intentId, attemptId, outcome) == Ok(None)
  {
    var found := Find(record.intents, intentId);
    if found.Some? {
      var k :| 0 <= k < |record.intents| && record.intents[k] == found.value;
      assert !found.value.state.Submitted?;
    }
  }

  lemma QuietIsKept(record: Record, folderId: EntryId, retryId: string, rebased: map<string, string>)
    requires AllEnded(record)
    ensures RemintFolder(record, folderId, retryId, rebased) == Ok(None)
  {
    assert !AwaitsRemint(record);
  }

  lemma MovedIsSound(record: Record, target: Target, intentId: string, operationId: string, admission: Option<Admission>,
                     destination: Destination, typedName: Option<string>, next: Record)
    requires RecordSound(record) && target.record == Some(record) && RoomFor(record, intentId)
    requires PlanFolderLocation(target, intentId, operationId, admission, destination, typedName) == Ok(Some(next))
    ensures Stored(Some(record), next, None) && RecordSound(next) && SameHold(record, next)
  {
    var was :| Stored(was, record, None);
    MoveIsStoredExactly(was, record, None, target, intentId, operationId, admission, destination, typedName, next);
    var command := MoveQueues(was, record, None, target, intentId, operationId, admission, destination, typedName, next);
    QueueingSupersedesOld(was, record, None, next, SupersedeRepairable(record.intents, record.projectId), command);
    SoundStays(record, next);
  }

  lemma MoveKeepsSafe(s: System, act: Act, s': System)
    requires Safe(s) && act.Move? && Acts(s, act, s')
    ensures Safe(s')
  {
    MovedIsSound(s.record, act.target, act.intentId, act.operationId, act.admission, act.destination, act.typedName, s'.record);
    ServerStillFits(s, s'.record);
  }

  lemma DiscardedIsSound(record: Record, target: Target, intentId: string, operationId: string, admission: Option<Admission>,
                         now: int, next: Record)
    requires RecordSound(record) && target.record == Some(record) && RoomFor(record, intentId)
    requires PlanFolderDeletion(target, intentId, operationId, admission, now) == Ok(Some(next))
    ensures Stored(Some(record), next, None) <==>
            DeleteNeedsServer(record.hold) || forall k :: 0 <= k < |record.intents| ==> Retirable(record.intents[k])
    ensures SameHold(record, next) && (Stored(Some(record), next, None) ==> RecordSound(next))
  {
    var was :| Stored(was, record, None);
    DeletionIsStoredExactly(was, record, None, target, intentId, operationId, admission, now, next);
    DeletionQueues(was, record, None, target, intentId, operationId, admission, next);
    QueueingSupersedesOld(was, record, None, next, Discarded(record),
                          DeletionIntent(record, target.projectId, intentId, operationId, admission));
    if Stored(Some(record), next, None) { SoundStays(record, next); }
  }

  lemma DiscardKeepsSafe(s: System, act: Act, s': System)
    requires Safe(s) && act.Discard? && Acts(s, act, s')
    ensures Safe(s')
  {
    DiscardedIsSound(s.record, act.target, act.intentId, act.operationId, act.admission, act.now, s'.record);
    ServerStillFits(s, s'.record);
  }

  /** A create is prepared only while the hold is `local`; then the server has nothing under the id. */
  lemma PreparedHold(record: Record, ids: AttemptIds, lookup: EntryId -> Option<Location>, next: Record)
    requires PrepareFolderAttempt(record, ids, lookup) == Some(next)
    ensures next.folderId == record.folderId && next.aliases == record.aliases && next.copiedBy == record.copiedBy
    ensures next.hold == record.hold || (record.hold.Local? && next.hold.Uncertain?)
  {
  }

  lemma PreparedIsSound(record: Record, ids: AttemptIds, lookup: EntryId -> Option<Location>, next: Record)
    requires RecordSound(record) && PrepareFolderAttempt(record, ids, lookup) == Some(next)
    ensures Stored(Some(record), next, None) <==>
            !(record.terminal.None? && DeletesFirst(record) && !DeleteNeedsServer(record.hold))
    ensures Stored(Some(record), next, None) ==> RecordSound(next)
  {
    var was :| Stored(was, record, None);
    PreparedIsStoredExactly(was, record, None, ids, lookup, next);
    if Stored(Some(record), next, None) {
      PreparedIsCoherent(was, record, None, ids, lookup, next);
      PreparedSupersedesOld(was, record, None, ids, lookup, next);
      SoundStays(record, next);
    }
  }

  lemma PrepareKeepsSafe(s: System, act: Act, s': System)
    requires Safe(s) && act.Prepare? && Acts(s, act, s')
    ensures Safe(s')
  {
    PreparedIsSound(s.record, act.ids, act.lookup, s'.record);
    PreparedHold(s.record, act.ids, act.lookup, s'.record);
    if DeletedHere(s.record) { NothingAfterDeletion(s.record, act.ids, act.lookup, "", "", Refusal("", false), 0, s.record.folderId, "", map[]); }
    DeletionStaysLocal(s, s'.record);
  }

  lemma SettledIsSound(record: Record, settledAt: nat, next: Record)
    requires RecordSound(record) && SettleFolderOutcome(record, settledAt) == Some(next)
    ensures Stored(Some(record), next, None) && RecordSound(next) && SameHold(record, next)
  {
    var was :| Stored(was, record, None);
    SettledIsStored(was, record, None, settledAt, next);
    SettledIsCoherent(was, record, None, settledAt, next);
    SettledSupersedesOld(was, record, None, settledAt, next);
    SoundStays(record, next);
  }

  lemma SettleKeepsSafe(s: System, act: Act, s': System)
    requires Safe(s) && act.Settle? && Acts(s, act, s')
    ensures Safe(s')
  {
    SettledIsSound(s.record, act.settledAt, s'.record);
    ServerStillFits(s, s'.record);
  }

  lemma ObservedIsSound(record: Record, operationId: string, location: Location, parent: ParentRef, version: nat, next: Record)
    requires RecordSound(record) && InstallFolderRefresh(record, operationId, location, parent, version) == Some(next)
    ensures Stored(Some(record), next, None) && RecordSound(next) && SameHold(record, next)
  {
    var was :| Stored(was, record, None);
    RefreshIsStored(was, record, None, operationId, location, parent, version, next);
    RefreshIs(record, operationId, location, parent, version, next);
    RefreshSupersedesNone(record, next);
    SoundStays(record, next);
  }

  lemma ObserveKeepsSafe(s: System, act: Act, s': System)
    requires Safe(s) && act.Observe? && Acts(s, act, s')
    ensures Safe(s')
  {
    ObservedIsSound(s.record, act.operationId, act.location, act.parent, act.version, s'.record);
    ServerStillFits(s, s'.record);
  }

  /** While a create may be under way, it is the request in flight. */
  lemma AnsweredIsCreate(record: Record, i: nat, outcome: Outcome, next: Record)
    requires RecordFits(record) && Coherent(record) && RecordsAnswer(record, i, outcome, next)
    ensures if record.hold.Uncertain? then
              record.intents[i].attempts[|record.intents[i].attempts| - 1].request.CreateFolderRequest?
            else !record.intents[i].attempts[|record.intents[i].attempts| - 1].request.CreateFolderRequest?
  {
    assert CoherentAt(record, record.intents[i]) && IntentFits(record, record.intents[i]);
    assert RequestFits(record, record.intents[i].attempts[|record.intents[i].attempts| - 1].request);
  }

  lemma RecordedHold(record: Record, intentId: string, attemptId: string, outcome: Outcome, next: Record)
    requires RecordFits(record) && Coherent(record)
    requires RecordFolderOutcome(record, intentId, attemptId, outcome) == Ok(Some(next))
    ensures next.folderId == record.folderId && next.aliases == record.aliases && next.copiedBy == record.copiedBy
    ensures !record.hold.Uncertain? ==> next.hold == record.hold
    ensures record.hold.Uncertain? ==>
              (next.hold == match outcome
                            case Refusal(_, _) => Local
                            case FolderCreated(conflict, _, _, _, _) => if conflict then Spent else Held
                            case _ => Uncertain)
  {
    var i := RecordedAt(record, intentId, attemptId, outcome, next);
    AnsweredIsCreate(record, i, outcome, next);
    AnswerProves(record, i, outcome, next);
  }

  /** The hold the answer leaves, by the request it answers. */
  lemma AnswerProves(record: Record, i: nat, outcome: Outcome, next: Record)
    requires RecordsAnswer(record, i, outcome, next)
    ensures var request := record.intents[i].attempts[|record.intents[i].attempts| - 1].request;
            next.hold == if !request.CreateFolderRequest? && !request.CreateRequest? then record.hold
                         else
                           match outcome
                           case Refusal(_, _) => Local
                           case FolderCreated(conflict, _, _, _, _) => if conflict then Spent else Held
                           case Created(status, _) => if status.Conflict? then Spent else Held
                           case Operation(_) => record.hold
  {
  }

  lemma RecordedIsSound(record: Record, intentId: string, attemptId: string, outcome: Outcome, next: Record)
    requires RecordSound(record) && RecordFolderOutcome(record, intentId, attemptId, outcome) == Ok(Some(next))
    ensures Stored(Some(record), next, None) && RecordSound(next)
  {
    var was :| Stored(was, record, None);
    RecordedIsStored(was, record, None, intentId, attemptId, outcome, next);
    RecordedIsCoherent(was, record, None, intentId, attemptId, outcome, next);
    var i := RecordedAt(record, intentId, attemptId, outcome, next);
    RecordedSupersedesOld(was, record, None, i, outcome, next);
    SoundStays(record, next);
  }

  lemma SoundFits(record: Record)
    requires RecordSound(record)
    ensures RecordFits(record) && Coherent(record)
  {
  }

  lemma AnsweredIsLive(record: Record, intentId: string, attemptId: string, outcome: Outcome, next: Record)
    requires RecordSound(record) && RecordFolderOutcome(record, intentId, attemptId, outcome) == Ok(Some(next))
    ensures !DeletedHere(record)
  {
    if DeletedHere(record) {
      NothingAfterDeletion(record, AttemptIds("", ""), (id: EntryId) => None, intentId, attemptId, outcome, 0, record.folderId, "",
                           map[]);
    }
  }

  lemma AnswerKeepsSafe(s: System, act: Act, s': System)
    requires Safe(s) && (act.TakeAnswered? || act.AnswerHeld?) && Acts(s, act, s')
    ensures Safe(s')
  {
    var outcome := if act.AnswerHeld? then act.outcome else AnswerTo(s.rows, s.record.folderId, act.accepts, act.place);
    RecordedIsSound(s.record, act.intentId, act.attemptId, outcome, s'.record);
    SoundFits(s.record);
    RecordedHold(s.record, act.intentId, act.attemptId, outcome, s'.record);
    AnsweredIsLive(s.record, act.intentId, act.attemptId, outcome, s'.record);
    DeletionStaysLocal(s, s'.record);
    AnswerFits(s, act, outcome, s');
  }

  /** What the answer proves of the id is what the server then has under it. */
  lemma AnswerFits(s: System, act: Act, outcome: Outcome, s': System)
    requires ServerFits(s) && (act.TakeAnswered? || act.AnswerHeld?) && Acts(s, act, s')
    requires outcome == if act.AnswerHeld? then act.outcome else AnswerTo(s.rows, s.record.folderId, act.accepts, act.place)
    requires s'.record.folderId == s.record.folderId && s'.record.aliases == s.record.aliases
    requires !s.record.hold.Uncertain? ==> s'.record.hold == s.record.hold
    requires s.record.hold.Uncertain? ==>
               s'.record.hold == match outcome
                                 case Refusal(_, _) => Local
                                 case FolderCreated(conflict, _, _, _, _) => if conflict then Spent else Held
                                 case _ => Uncertain
    requires DeletedHere(s'.record) ==> !DeleteNeedsServer(s'.record.hold)
    ensures ServerFits(s')
  {
  }

  /** The failed placement and what follows it may be reminted exactly while no delete is queued behind it. */
  lemma RemintedIsSound(record: Record, folderId: EntryId, retryId: string, rebased: map<string, string>, next: Record)
    requires RecordSound(record) && AtRest(record)
    requires RemintFolder(record, folderId, retryId, rebased) == Ok(Some(next))
    requires FreshIds(record.intents, Spec(1, 1, record.folderId, folderId, retryId, rebased))
    requires MaxSequence(record.intents) + |Work(record.intents, 1)| <= MAX_SAFE_INTEGER
    ensures Stored(Some(record), next, None) <==> NoQueuedDelete(record.intents, 1)
    ensures Stored(Some(record), next, None) ==> RecordSound(next)
  {
    var was :| Stored(was, record, None);
    RemintIsStoredExactly(was, record, None, folderId, retryId, rebased, next);
    if Stored(Some(record), next, None) {
      var spec := Spec(1, 1, record.folderId, folderId, retryId, rebased);
      CopiesCarryWork(JournalUpdate(was, record), spec, next.intents);
      RemintSupersedesOld(JournalUpdate(was, record), record, spec, next);
      SoundStays(record, next);
    }
  }

  lemma ReplaceKeepsSafe(s: System, act: Act, s': System)
    requires Safe(s) && act.Replace? && Acts(s, act, s')
    ensures Safe(s')
  {
    RemintedIsSound(s.record, act.folderId, act.retryId, act.rebased, s'.record);
    ReplacementIsLocal(s, act, s');
    ReplacementIs(s.record, act.folderId, act.retryId, act.rebased, s'.record);
    ReplacementFits(s, act.folderId, s'.record);
  }

  lemma ReplacementIsLocal(s: System, act: Act, s': System)
    requires Safe(s) && act.Replace? && Acts(s, act, s')
    ensures DeletedHere(s'.record) ==> !DeleteNeedsServer(s'.record.hold)
  {
    if DeletedHere(s.record) {
      NothingAfterDeletion(s.record, AttemptIds("", ""), (id: EntryId) => None, "", "", Refusal("", false), 0, act.folderId,
                           act.retryId, act.rebased);
    }
    DeletionStaysLocal(s, s'.record);
  }

  lemma ReplacementIs(record: Record, folderId: EntryId, retryId: string, rebased: map<string, string>, next: Record)
    requires RemintFolder(record, folderId, retryId, rebased) == Ok(Some(next))
    ensures record.hold.Spent? && next.hold.Local? && next.folderId == folderId != record.folderId
    ensures next.aliases == record.aliases + [record.folderId]
  {
  }

  lemma ReplacementFits(s: System, folderId: EntryId, next: Record)
    requires ServerFits(s) && s.record.hold.Spent? && next.hold.Local? && next.folderId == folderId != s.record.folderId
    requires folderId !in s.rows && folderId !in s.record.aliases && next.aliases == s.record.aliases + [s.record.folderId]
    requires DeletedHere(next) ==> !DeleteNeedsServer(next.hold)
    ensures ServerFits(s.(record := next))
  {
  }

  lemma SendKeepsSafe(s: System, act: Act, s': System)
    requires Safe(s) && act.SendCreate? && Acts(s, act, s')
    ensures Safe(s')
  {
    var i :| 0 <= i < |s.record.intents| && s.record.intents[i].state.Submitted? && s.record.intents[i].attempts != []
      && s.record.intents[i].attempts[|s.record.intents[i].attempts| - 1].request.CreateFolderRequest?;
    assert CoherentAt(s.record, s.record.intents[i]);
    var was :| Stored(was, s.record, None);
    AllowedAt(JournalUpdate(was, s.record), i);
  }

  /** Every act of the device, the server and the network keeps the invariant. */
  lemma ActKeepsSafe(s: System, act: Act, s': System)
    requires Safe(s) && Acts(s, act, s')
    ensures Safe(s')
  {
    match act
    case SendCreate => SendKeepsSafe(s, act, s');
    case TakeAnswered(_, _, _, _) => AnswerKeepsSafe(s, act, s');
    case AnswerHeld(_, _, _) => AnswerKeepsSafe(s, act, s');
    case TakeUnheard(_, _) => NetworkKeepsSafe(s, act, s');
    case Hide(_) => NetworkKeepsSafe(s, act, s');
    case Restore(_) => NetworkKeepsSafe(s, act, s');
    case CreateElsewhere(_) => NetworkKeepsSafe(s, act, s');
    case _ => DeviceKeepsSafe(s, act, s');
  }

  lemma DeviceKeepsSafe(s: System, act: Act, s': System)
    requires Safe(s) && Acts(s, act, s')
    requires act.Move? || act.Discard? || act.Prepare? || act.Settle? || act.Observe? || act.Replace?
    ensures Safe(s')
  {
    match act
    case Move(_, _, _, _, _, _) => MoveKeepsSafe(s, act, s');
    case Discard(_, _, _, _, _) => DiscardKeepsSafe(s, act, s');
    case Prepare(_, _) => PrepareKeepsSafe(s, act, s');
    case Settle(_) => SettleKeepsSafe(s, act, s');
    case Observe(_, _, _, _) => ObserveKeepsSafe(s, act, s');
    case Replace(_, _, _) => ReplaceKeepsSafe(s, act, s');
  }

  lemma NetworkKeepsSafe(s: System, act: Act, s': System)
    requires Safe(s) && (act.TakeUnheard? || act.Hide? || act.Restore? || act.CreateElsewhere?) && Acts(s, act, s')
    ensures Safe(s')
  {
    assert s'.record == s.record;
    assert ServerFits(s');
  }

  /** What an act writes, the store took. */
  lemma ActCommits(s: System, act: Act, s': System)
    requires Acts(s, act, s')
    ensures s'.record == s.record || Stored(Some(s.record), s'.record, None)
  {
    if s'.record != s.record { assert Commits(s, s'.record); }
  }

  // ------------------------------------------------------------------------------------------
  // Over any run
  // ------------------------------------------------------------------------------------------

  ghost predicate RunsAs(states: seq<System>, acts: seq<Act>) {
    && |states| == |acts| + 1 && Starts(states[0])
    && forall i :: 0 <= i < |acts| ==> ActsAt(states, acts, i)
  }

  ghost predicate ActsAt(states: seq<System>, acts: seq<Act>, i: nat)
    requires i < |acts| && |states| == |acts| + 1
  {
    Acts(states[i], acts[i], states[i + 1])
  }

  lemma {:induction false} RunIsSafe(states: seq<System>, acts: seq<Act>, i: nat)
    requires RunsAs(states, acts) && i < |states|
    ensures Safe(states[i])
    decreases i
  {
    if i == 0 {
      StartIsSafe(states[0]);
    } else {
      RunIsSafe(states, acts, i - 1);
      assert ActsAt(states, acts, i - 1);
      ActKeepsSafe(states[i - 1], acts[i - 1], states[i]);
    }
  }

  // ------------------------------------------------------------------------------------------
  // Which writes the store takes in a reachable state
  // ------------------------------------------------------------------------------------------

  ghost predicate Answers(record: Record, next: Record) {
    exists intentId, attemptId, outcome :: RecordFolderOutcome(record, intentId, attemptId, outcome) == Ok(Some(next))
  }

  ghost predicate SettlesInto(record: Record, next: Record) {
    exists settledAt: nat :: SettleFolderOutcome(record, settledAt) == Some(next)
  }

  ghost predicate SeenAs(record: Record, next: Record) {
    exists operationId, location, parent, version: nat ::
      InstallFolderRefresh(record, operationId, location, parent, version) == Some(next)
  }

  ghost predicate MovesTo(record: Record, next: Record) {
    exists target: Target, intentId, operationId, admission, destination, typedName ::
      target.record == Some(record) && RoomFor(record, intentId)
      && PlanFolderLocation(target, intentId, operationId, admission, destination, typedName) == Ok(Some(next))
  }

  /** Recording an answer, settling one, moving the folder and seeing it in the catalog are always taken. */
  lemma WritesAreTaken(states: seq<System>, acts: seq<Act>, i: nat, next: Record)
    requires RunsAs(states, acts) && i < |states|
    ensures var record := states[i].record;
            Answers(record, next) || SettlesInto(record, next) || SeenAs(record, next) || MovesTo(record, next) ==>
              Stored(Some(record), next, None)
  {
    RunIsSafe(states, acts, i);
    SoundWritesAreTaken(states[i].record, next);
  }

  lemma SoundWritesAreTaken(record: Record, next: Record)
    requires RecordSound(record)
    ensures Answers(record, next) || SettlesInto(record, next) || SeenAs(record, next) || MovesTo(record, next) ==>
              Stored(Some(record), next, None)
  {
    if Answers(record, next) {
      var intentId, attemptId, outcome :| RecordFolderOutcome(record, intentId, attemptId, outcome) == Ok(Some(next));
      RecordedIsSound(record, intentId, attemptId, outcome, next);
    } else if SettlesInto(record, next) {
      var settledAt: nat :| SettleFolderOutcome(record, settledAt) == Some(next);
      SettledIsSound(record, settledAt, next);
    } else if SeenAs(record, next) {
      var operationId, location, parent, version: nat :|
        InstallFolderRefresh(record, operationId, location, parent, version) == Some(next);
      ObservedIsSound(record, operationId, location, parent, version, next);
    } else if MovesTo(record, next) {
      var target: Target, intentId, operationId, admission, destination, typedName :|
        target.record == Some(record) && RoomFor(record, intentId)
        && PlanFolderLocation(target, intentId, operationId, admission, destination, typedName) == Ok(Some(next));
      MovedIsSound(record, target, intentId, operationId, admission, destination, typedName, next);
    }
  }

  /** A preparation is taken unless it would settle a delete on this device. */
  lemma PreparationsAreTakenExactly(states: seq<System>, acts: seq<Act>, i: nat, ids: AttemptIds,
                                    lookup: EntryId -> Option<Location>, next: Record)
    requires RunsAs(states, acts) && i < |states| && PrepareFolderAttempt(states[i].record, ids, lookup) == Some(next)
    ensures var record := states[i].record;
            Stored(Some(record), next, None) <==>
            !(record.terminal.None? && DeletesFirst(record) && !DeleteNeedsServer(record.hold))
  {
    RunIsSafe(states, acts, i);
    PreparedIsSound(states[i].record, ids, lookup, next);
  }

  /** A deletion is taken when it needs the server, or when everything in the journal can be retired. */
  lemma DeletionsAreTakenExactly(states: seq<System>, acts: seq<Act>, i: nat, target: Target, intentId: string,
                                 operationId: string, admission: Option<Admission>, now: int, next: Record)
    requires RunsAs(states, acts) && i < |states|
    requires target.record == Some(states[i].record) && RoomFor(states[i].record, intentId)
    requires PlanFolderDeletion(target, intentId, operationId, admission, now) == Ok(Some(next))
    ensures var record := states[i].record;
            Stored(Some(record), next, None) <==>
            DeleteNeedsServer(record.hold) || forall k :: 0 <= k < |record.intents| ==> Retirable(record.intents[k])
  {
    RunIsSafe(states, acts, i);
    DiscardedIsSound(states[i].record, target, intentId, operationId, admission, now, next);
  }

  /** `local` is the truth: the server has nothing under the id, and nothing on its way can put it there. */
  lemma LocalMeansNothingThere(states: seq<System>, acts: seq<Act>, i: nat)
    requires RunsAs(states, acts) && i < |states| && states[i].record.hold.Local?
    ensures states[i].record.folderId !in states[i].rows && states[i].flying == {}
  {
    RunIsSafe(states, acts, i);
  }

  /** Preparing puts a create in flight only from `local`, so never while the server may hold the id. */
  lemma CreateLeavesFromLocal(s: System, act: Act, s': System)
    requires Safe(s) && Acts(s, act, s') && act.Prepare? && OpenCreate(s'.record)
    ensures s.record.hold.Local? && s.record.folderId !in s.rows && s.flying == {}
  {
    PreparesFromLocal(s.record, act.ids, act.lookup, s'.record);
  }

  lemma PreparesFromLocal(record: Record, ids: AttemptIds, lookup: EntryId -> Option<Location>, next: Record)
    requires (exists was :: Stored(was, record, None)) && Coherent(record)
    requires PrepareFolderAttempt(record, ids, lookup) == Some(next) && OpenCreate(next)
    ensures record.hold.Local?
  {
    var was :| Stored(was, record, None);
    var k :| 0 <= k < |next.intents| && next.intents[k].state.Submitted? && next.intents[k].attempts != []
      && next.intents[k].attempts[|next.intents[k].attempts| - 1].request.CreateFolderRequest?;
    PreparedCreateIsLocal(was, record, ids, lookup, next, k);
  }

  lemma CreatesLeaveFromLocal(states: seq<System>, acts: seq<Act>, i: nat)
    requires RunsAs(states, acts) && i < |acts| && acts[i].Prepare? && OpenCreate(states[i + 1].record)
    ensures states[i].record.hold.Local? && states[i].record.folderId !in states[i].rows && states[i].flying == {}
  {
    RunIsSafe(states, acts, i);
    assert ActsAt(states, acts, i);
    CreateLeavesFromLocal(states[i], acts[i], states[i + 1]);
  }

  lemma PreparedCreateIsLocal(was: Option<Record>, record: Record, ids: AttemptIds, lookup: EntryId -> Option<Location>,
                              next: Record, k: nat)
    requires Stored(was, record, None) && Coherent(record) && PrepareFolderAttempt(record, ids, lookup) == Some(next)
    requires k < |next.intents| && next.intents[k].state.Submitted? && next.intents[k].attempts != []
    requires next.intents[k].attempts[|next.intents[k].attempts| - 1].request.CreateFolderRequest?
    ensures record.hold.Local?
  {
    var i := ActiveIsAt(record);
    var intent := record.intents[i];
    match PreparationOf(record, intent, ids, lookup)
    case Send(attempt) =>
      SentAtOnly(was, record, i, k, attempt, next);
    case _ =>
      AllowedIsDistinct(JournalUpdate(was, record));
      if k != i { OthersAtRest(was, record, None, i, k); }
  }

  lemma SentAtOnly(was: Option<Record>, record: Record, i: nat, k: nat, attempt: Attempt, next: Record)
    requires Stored(was, record, None) && Coherent(record) && i < |record.intents| && record.intents[i].state.Pending?
    requires ActiveIntent(record.intents) == Some(record.intents[i]) && k < |next.intents| && next.intents[k].state.Submitted?
    requires next.intents == ReplaceIntent(record.intents, record.intents[i].intentId, Sent(record.intents[i], attempt))
    ensures next.intents[k].attempts == [attempt]
  {
    AllowedIsDistinct(JournalUpdate(was, record));
    AllowedAt(JournalUpdate(was, record), i);
    if k != i { OthersAtRest(was, record, None, i, k); }
  }

  /** A held id is never lost: no answer, resend or command takes it back. */
  lemma {:induction false} HeldStays(states: seq<System>, acts: seq<Act>, i: nat, j: nat)
    requires RunsAs(states, acts) && i <= j < |states| && states[i].record.hold.Held?
    ensures states[j].record.hold.Held? && states[j].record.folderId == states[i].record.folderId
    ensures states[j].record.folderId in states[j].rows
    decreases j
  {
    RunIsSafe(states, acts, j);
    if i < j {
      HeldStays(states, acts, i, j - 1);
      assert ActsAt(states, acts, j - 1);
      ActKeepsHeld(states[j - 1], acts[j - 1], states[j]);
    }
  }

  lemma ActKeepsHeld(s: System, act: Act, s': System)
    requires Acts(s, act, s') && s.record.hold.Held?
    ensures s'.record.hold.Held? && s'.record.folderId == s.record.folderId
  {
    ActCommits(s, act, s');
  }

  /** No row under the folder's id or any id it left is one the writer reaches, and no create can add one. */
  ghost predicate Gone(s: System) {
    s.flying == {} && forall id :: NamesRecord(s.record, id) && id in s.rows ==> s.rows[id].Hidden?
  }

  lemma DeletedHereIsGone(s: System)
    requires Safe(s) && DeletedHere(s.record)
    ensures Gone(s)
  {
  }

  /** A deletion settled on this device is the end of the folder on the server too, from then on. */
  lemma {:induction false} DeletedHereForGood(states: seq<System>, acts: seq<Act>, i: nat, j: nat)
    requires RunsAs(states, acts) && i <= j < |states| && DeletedHere(states[i].record)
    ensures DeletedHere(states[j].record) && Gone(states[j])
    decreases j
  {
    if i < j {
      DeletedHereForGood(states, acts, i, j - 1);
      RunIsSafe(states, acts, j - 1);
      assert ActsAt(states, acts, j - 1);
      ActKeepsGone(states[j - 1], acts[j - 1], states[j]);
    } else {
      RunIsSafe(states, acts, j);
      DeletedHereIsGone(states[j]);
    }
  }

  lemma ActKeepsGone(s: System, act: Act, s': System)
    requires Safe(s) && Acts(s, act, s') && DeletedHere(s.record)
    ensures DeletedHere(s'.record) && Gone(s')
  {
    ActKeepsDeletion(s, act, s');
    ActKeepsSafe(s, act, s');
    DeletedHereIsGone(s');
  }

  lemma ActKeepsDeletion(s: System, act: Act, s': System)
    requires Safe(s) && Acts(s, act, s') && DeletedHere(s.record)
    ensures DeletedHere(s'.record)
  {
    ActCommits(s, act, s');
    if s'.record != s.record { StoredKeepsDeletion(s.record, s'.record); }
  }

  lemma StoredKeepsDeletion(record: Record, next: Record)
    requires Stored(Some(record), next, None) && DeletedHere(record)
    ensures DeletedHere(next)
  {
    var i :| 0 <= i < |record.intents| && SettledHere(record.intents[i]);
    AllowedBefore(JournalUpdate(Some(record), next), i);
    var now := Find(next.intents, record.intents[i].intentId).value;
    var k :| 0 <= k < |next.intents| && next.intents[k] == now;
    assert SettledHere(next.intents[k]);
  }

  /** The server never shows the folder twice: every id it left is out of reach. */
  lemma AtMostOneRow(states: seq<System>, acts: seq<Act>, i: nat, a: EntryId, b: EntryId)
    requires RunsAs(states, acts) && i < |states|
    requires NamesRecord(states[i].record, a) && a in states[i].rows && states[i].rows[a].Reachable?
    requires NamesRecord(states[i].record, b) && b in states[i].rows && states[i].rows[b].Reachable?
    ensures a == b == states[i].record.folderId
  {
    RunIsSafe(states, acts, i);
  }
}
