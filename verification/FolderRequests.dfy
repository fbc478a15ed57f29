/**
 * What a folder's requests ask of the server, and where its answers put it: the effect of a sent
 * move or create is what the writer asked for, and nothing is asked that the folder already has
 * (packages/resource-replica/src/namespace-requests.ts:25-62, folder-namespace.ts).
 */
module FolderRequests {
  import opened Answers
  import opened FolderJournal
  import opened Journal
  import Paths
  import opened Records
  import opened ServerHold
  import opened Settlement
  import opened Wrappers

  // ------------------------------------------------------------------------------------------
  // What a move does
  // ------------------------------------------------------------------------------------------

  /** Where an entry stands: its parent, folders to make beneath that, its name and its place in the list. */
  datatype Place = Place(parent: Option<ParentRef>, folders: seq<string>, name: string, position: Option<Position>)

  /** A move puts an entry under the parent it names and gives it the name it names; what it leaves out stays. */
  function Moved(request: Request, parent: Option<ParentRef>, name: string): Place
    requires request.MoveRequest?
  {
    var under := match request.newParent case None => Place(parent, [], name, request.position)
                                         case Some(np) => Place(Some(np.parent), np.createFolders, name, request.position);
    match request.name
    case None => under
    case Some(given) => under.(name := given)
  }

  /** What identifies a parent: a folder's id, or a scheme and its owner's id without the handles. */
  function Identity(parent: ParentRef): ParentRef {
    match parent
    case FolderParent(_) => parent
    case RootParent(scheme, ProjectOwner) => parent
    case RootParent(scheme, WorkOwner(id, _)) => RootParent(scheme, WorkOwner(id, None))
    case RootParent(scheme, LineageOwner(id, _)) => RootParent(scheme, LineageOwner(id, ""))
    case RootParent(scheme, ChatOwner(id, _)) => RootParent(scheme, ChatOwner(id, None))
  }

  lemma SameParentExactly(a: ParentRef, b: ParentRef)
    ensures SameParent(a, b) <==> Identity(a) == Identity(b)
  {
  }

  /**
   * Moved from `parent` and `name`, the entry stands where `destination` says, with the typed name
   * unless the destination keeps the name it has; a parent or a name it has already is left out.
   */
  ghost predicate Achieves(request: Request, parent: Option<ParentRef>, name: string, destination: Destination, typedName: string) {
    && request.MoveRequest?
    && var to := Moved(request, parent, name);
    && to.parent.Some? && Identity(to.parent.value) == Identity(destination.parent)
    && to.folders == destination.createFolders
    && to.name == (if destination.name == name then name else typedName)
    && to.position == destination.position
    && (request.newParent.Some? ==>
          && request.newParent.value.parent == destination.parent
          && (destination.createFolders != [] || parent.None? || Identity(parent.value) != Identity(destination.parent)))
    && (request.name.Some? ==> request.name.value != name)
  }

  lemma MoveAchieves(folderId: EntryId, operationId: string, destination: Destination, typedName: string, name: string, parent: Option<ParentRef>)
    ensures var request := MoveFor(folderId, operationId, destination, typedName, name, parent);
            Achieves(request, parent, name, destination, typedName) && request.entry == EntryRef(Folder, folderId) && request.operationId == operationId
  {
    if parent.Some? { SameParentExactly(parent.value, destination.parent); }
  }

  // ------------------------------------------------------------------------------------------
  // What is sent
  // ------------------------------------------------------------------------------------------

  /** The record with its intent sent once more, as this request. */
  function SentAs(record: Record, intent: Intent, ids: AttemptIds, request: Request): Record {
    record.(revision := record.revision + 1,
            intents := ReplaceIntent(record.intents, intent.intentId,
                                     intent.(state := Submitted, attempts := intent.attempts + [Attempt(ids.attemptId, request, None)])))
  }

  /** The oldest open intent is waiting to be sent, and no earlier move is waiting to be seen in the catalog. */
  ghost predicate MayGo(record: Record, intent: Intent) {
    && ActiveIntent(record.intents) == Some(intent) && intent.state.Pending?
    && record.terminal.None? && record.canonicalRefresh.None?
  }

  predicate KnownParent(parent: ParentRef, lookup: EntryId -> Option<Location>) {
    parent.FolderParent? ==> lookup(parent.folderId).Some?
  }

  /** The operation id the writer queued the work under, else a fresh one. */
  ghost predicate Under(operationId: string, intent: Intent, ids: AttemptIds) {
    match intent.operationId
    case None => operationId == ids.operationId
    case Some(queued) => operationId == queued
  }

  /** A held folder is sent a move that brings it from where it was last seen to where it was asked to go. */
  lemma MoveIsSent(record: Record, intent: Intent, ids: AttemptIds, lookup: EntryId -> Option<Location>) returns (request: Request)
    requires MayGo(record, intent) && intent.desired.SetFolderLocation? && KnownParent(intent.desired.destination.parent, lookup)
    requires record.hold.Held? && record.canonical.Some?
    ensures PrepareFolderAttempt(record, ids, lookup) == Some(SentAs(record, intent, ids, request))
    ensures Achieves(request, record.canonicalParent, record.canonical.value.name, intent.desired.destination, intent.desired.typedName)
    ensures request.entry == EntryRef(Folder, record.folderId) && Under(request.operationId, intent, ids)
  {
    var destination, typedName, seen := intent.desired.destination, intent.desired.typedName, record.canonical.value.name;
    MoveAchieves(record.folderId, OperationIdFor(intent, ids), destination, typedName, seen, record.canonicalParent);
    request := MoveFor(record.folderId, OperationIdFor(intent, ids), destination, typedName, seen, record.canonicalParent);
  }

  /** A folder the server has never been asked for is created at its destination, under the parent's owner. */
  lemma CreateIsSent(record: Record, intent: Intent, ids: AttemptIds, lookup: EntryId -> Option<Location>) returns (request: Request)
    requires MayGo(record, intent) && intent.desired.SetFolderLocation? && KnownParent(intent.desired.destination.parent, lookup)
    requires record.hold.Local?
    ensures PrepareFolderAttempt(record, ids, lookup) == Some(SentAs(record, intent, ids, request).(hold := Uncertain))
    ensures request.CreateFolderRequest? && request.folderId == record.folderId && request.home == intent.desired.destination
    ensures match intent.desired.destination.parent
            case RootParent(_, owner) => request.owner == owner
            case FolderParent(id) => request.owner == lookup(id).value.owner
  {
    var owner := ParentOwner(intent.desired.destination.parent, lookup);
    request := CreateFolderRequest(owner.value, record.folderId, intent.desired.destination);
  }

  /** A delete of a folder the server holds, or may hold, names the folder and nothing else. */
  lemma DeleteIsSent(record: Record, intent: Intent, ids: AttemptIds, lookup: EntryId -> Option<Location>) returns (request: Request)
    requires MayGo(record, intent) && intent.desired.Delete?
    requires (record.hold.Held? || record.hold.Uncertain?) && record.canonical.Some?
    ensures PrepareFolderAttempt(record, ids, lookup) == Some(SentAs(record, intent, ids, request))
    ensures request.DeleteRequest? && request.entry == EntryRef(Folder, record.folderId) && Under(request.operationId, intent, ids)
  {
    request := DeleteRequest(EntryRef(Folder, record.folderId), OperationIdFor(intent, ids));
  }

  /** Those three are the only ways anything is sent. */
  ghost predicate Sendable(record: Record, intent: Intent, lookup: EntryId -> Option<Location>) {
    && MayGo(record, intent)
    && match intent.desired
       case SetFolderLocation(_, destination) =>
         KnownParent(destination.parent, lookup) && (record.hold.Local? || (record.hold.Held? && record.canonical.Some?))
       case Delete => (record.hold.Held? || record.hold.Uncertain?) && record.canonical.Some?
       case _ => false
  }

  /** Some intent had these attempts before. */
  ghost predicate SentBefore(was: seq<Intent>, attempts: seq<Attempt>) {
    exists k :: 0 <= k < |was| && was[k].attempts == attempts
  }

  /** Where none of the three applies, preparing sends nothing. */
  lemma NothingElseIsSent(record: Record, ids: AttemptIds, lookup: EntryId -> Option<Location>)
    requires forall intent :: !Sendable(record, intent, lookup)
    ensures var next := PrepareFolderAttempt(record, ids, lookup);
            next.Some? ==> forall i :: 0 <= i < |next.value.intents| ==> SentBefore(record.intents, next.value.intents[i].attempts)
  {
    var ready := ReadyIntent(record);
    if ready.Some? {
      assert !Sendable(record, ready.value, lookup);
      var next := PrepareFolderAttempt(record, ids, lookup);
      if next.Some? {
        var k :| 0 <= k < |record.intents| && record.intents[k] == ready.value;
        forall i | 0 <= i < |next.value.intents| ensures SentBefore(record.intents, next.value.intents[i].attempts) {
          assert next.value.intents[i].attempts == record.intents[i].attempts || next.value.intents[i].attempts == record.intents[k].attempts;
        }
      }
    }
  }

  /** A held folder seen at its root, asked under folder `a` with its name kept: the move names `a` and nothing more. */
  lemma MoveIntoFolder(record: Record, intent: Intent, ids: AttemptIds, lookup: EntryId -> Option<Location>, a: EntryId, scheme: string)
    requires MayGo(record, intent) && record.hold.Held? && record.canonical.Some? && lookup(a).Some?
    requires record.canonicalParent == Some(RootParent(scheme, ProjectOwner))
    requires intent.desired == SetFolderLocation("B", Destination(FolderParent(a), [], "B", None)) && record.canonical.value.name == "B"
    requires intent.operationId == Some("operation")
    ensures PrepareFolderAttempt(record, ids, lookup)
         == Some(SentAs(record, intent, ids, MoveRequest(EntryRef(Folder, record.folderId), "operation", Some(NewParent(FolderParent(a), [])), None, None)))
  {
    var request := MoveIsSent(record, intent, ids, lookup);
  }

  /** Where the destination's folder is not known any more, the work waits to be repaired. */
  lemma HomelessIsRepaired(record: Record, intent: Intent, ids: AttemptIds, lookup: EntryId -> Option<Location>)
    requires MayGo(record, intent) && intent.desired.SetFolderLocation? && !KnownParent(intent.desired.destination.parent, lookup)
    ensures PrepareFolderAttempt(record, ids, lookup)
         == Some(record.(revision := record.revision + 1, intents := ReplaceIntent(record.intents, intent.intentId, intent.(state := NeedsRepair))))
  {
  }

  // ------------------------------------------------------------------------------------------
  // What is queued
  // ------------------------------------------------------------------------------------------

  /** A fresh intent at the end of a journal, after everything in it. */
  ghost predicate QueuedLast(was: seq<Intent>, now: seq<Intent>, intentId: string, operationId: Option<string>, admission: Option<Admission>) {
    && |now| == |was| + 1
    && var queued := now[|was|];
    && queued.intentId == intentId && queued.operationId == operationId && queued.state.Pending? && queued.attempts == []
    && queued.settledAt.None? && queued.admission == admission && queued.identityRevision == 1
    && forall i :: 0 <= i < |was| ==> now[i].intentId == was[i].intentId && now[i].sequence == was[i].sequence < queued.sequence
  }

  function TypedOr(typedName: Option<string>, name: string): string {
    match typedName
    case None => name
    case Some(typed) => typed
  }

  /** A new folder's one intent is to stand at its destination, under its name. */
  lemma CreateIsQueued(projectId: string, scheme: string, handle: string, folderId: EntryId, intentId: string,
                       admission: Option<Admission>, destination: Destination)
    ensures var planned := PlanFolderCreate(projectId, scheme, handle, folderId, intentId, admission, destination);
            && (planned.Ok? <==> destination.name !in ["", ".", ".."] && '/' !in destination.name)
            && (planned.Ok? ==>
                  && planned.value.folderId == folderId && planned.value.handle == handle && planned.value.hold.Local?
                  && planned.value.canonical.None? && (planned.value.projectId == if scheme == "user" then None else Some(projectId))
                  && QueuedLast([], planned.value.intents, intentId, None, admission)
                  && planned.value.intents[0].desired == SetFolderLocation(destination.name, destination))
  {
  }

  /** A planned move queues the destination asked for, with the typed name where there is one. */
  lemma MoveIsQueued(target: Target, intentId: string, operationId: string, admission: Option<Admission>,
                     destination: Destination, typedName: Option<string>, planned: Record)
    requires PlanFolderLocation(target, intentId, operationId, admission, destination, typedName) == Ok(Some(planned))
    ensures target.record.Some? ==>
              var was := target.record.value;
              planned == was.(revision := was.revision + 1, intents := planned.intents) && QueuedLast(was.intents, planned.intents, intentId, Some(operationId), admission)
    ensures target.record.None? ==> |planned.intents| == 1 && QueuedLast([], planned.intents, intentId, Some(operationId), admission)
    ensures planned.intents[|planned.intents| - 1].desired == SetFolderLocation(TypedOr(typedName, destination.name), destination)
  {
  }

  /** Nothing is queued only for a folder seen at that very path, when no position is asked and nothing waits to be repaired. */
  lemma NothingToQueue(target: Target, intentId: string, operationId: string, admission: Option<Admission>,
                       destination: Destination, typedName: Option<string>)
    requires PlanFolderLocation(target, intentId, operationId, admission, destination, typedName) == Ok(None)
    ensures destination.parent.RootParent? && destination.position.None?
    ensures var seen := if target.record.Some? then target.record.value.canonical else target.source;
            && seen.Some? && seen.value.scheme == destination.parent.scheme && SameOwner(seen.value.owner, destination.parent.owner)
            && seen.value.path == "/" + Paths.Join(destination.createFolders + [destination.name])
    ensures target.record.Some? ==> forall i :: 0 <= i < |target.record.value.intents| ==> !RepairIn(target.record.value.intents[i], target.record.value.projectId)
  {
  }

  lemma {:induction false} LastIsActive(intents: seq<Intent>)
    requires intents != [] && !Ended(intents[|intents| - 1].state)
    requires forall i :: 0 <= i < |intents| - 1 ==> Ended(intents[i].state)
    ensures ActiveIntent(intents) == Some(intents[|intents| - 1])
  {
    var active := ActiveIntent(intents);
    var i :| 0 <= i < |intents| && intents[i] == active.value;
  }

  lemma QueuedMoveIsSent(planned: Record, operationId: string, destination: Destination, typedName: string, ids: AttemptIds,
                         lookup: EntryId -> Option<Location>)
    returns (request: Request)
    requires planned.intents != [] && forall i :: 0 <= i < |planned.intents| - 1 ==> Ended(planned.intents[i].state)
    requires var queued := planned.intents[|planned.intents| - 1];
             queued.desired == SetFolderLocation(typedName, destination) && queued.state.Pending? && queued.operationId == Some(operationId)
    requires planned.hold.Held? && planned.canonical.Some? && planned.terminal.None? && planned.canonicalRefresh.None?
    requires KnownParent(destination.parent, lookup)
    ensures PrepareFolderAttempt(planned, ids, lookup) == Some(SentAs(planned, planned.intents[|planned.intents| - 1], ids, request))
    ensures Achieves(request, planned.canonicalParent, planned.canonical.value.name, destination, typedName)
    ensures request.entry == EntryRef(Folder, planned.folderId) && request.operationId == operationId
  {
    LastIsActive(planned.intents);
    request := MoveIsSent(planned, planned.intents[|planned.intents| - 1], ids, lookup);
  }

  /** From the command to the request: with nothing else open, the writer's move is what is sent. */
  lemma PlannedMoveIsSent(target: Target, intentId: string, operationId: string, admission: Option<Admission>, destination: Destination,
                          typedName: Option<string>, planned: Record, ids: AttemptIds, lookup: EntryId -> Option<Location>)
    returns (request: Request)
    requires PlanFolderLocation(target, intentId, operationId, admission, destination, typedName) == Ok(Some(planned))
    requires forall i :: 0 <= i < |planned.intents| - 1 ==> Ended(planned.intents[i].state)
    requires planned.hold.Held? && planned.canonical.Some? && planned.terminal.None? && planned.canonicalRefresh.None?
    requires KnownParent(destination.parent, lookup)
    ensures PrepareFolderAttempt(planned, ids, lookup) == Some(SentAs(planned, planned.intents[|planned.intents| - 1], ids, request))
    ensures Achieves(request, planned.canonicalParent, planned.canonical.value.name, destination, TypedOr(typedName, destination.name))
    ensures request.entry == EntryRef(Folder, planned.folderId) && request.operationId == operationId
  {
    MoveIsQueued(target, intentId, operationId, admission, destination, typedName, planned);
    request := QueuedMoveIsSent(planned, operationId, destination, TypedOr(typedName, destination.name), ids, lookup);
  }

  // ------------------------------------------------------------------------------------------
  // Where answers and observations put the folder
  // ------------------------------------------------------------------------------------------

  /** The answer in hand of the oldest open intent. */
  ghost predicate InHand(record: Record, intent: Intent, request: Request, outcome: Outcome) {
    && ActiveIntent(record.intents) == Some(intent) && intent.state.Received? && intent.attempts != []
    && intent.attempts[|intent.attempts| - 1].request == request && Answer(intent) == Some(outcome)
  }

  /** An accepted create gives the folder its first place: where the server put it, under the owner it was asked for. */
  lemma CreatedStandsThere(record: Record, intent: Intent, settledAt: int, owner: Owner, id: EntryId, home: Destination,
                           created: EntryId, scheme: string, path: string, name: string)
    requires record.terminal.None?
    requires InHand(record, intent, CreateFolderRequest(owner, id, home), FolderCreated(false, created, scheme, path, name))
    ensures var next := SettleFolderOutcome(record, settledAt);
            && next.Some? && next.value.canonical == Some(Location(scheme, Paths.Displayed(path), name, owner))
            && next.value.canonicalRefresh == record.canonicalRefresh && next.value.canonicalParent == record.canonicalParent
  {
  }

  /** An accepted move leaves the place as it was seen, and waits for the catalog to show it at least as new as the answer. */
  lemma MovedIsAwaited(record: Record, intent: Intent, settledAt: int, request: Request, receipt: Receipt)
    requires record.terminal.None? && InHand(record, intent, request, Operation(receipt)) && receipt.ok && receipt.command.MoveCommand?
    requires request.MoveRequest?
    ensures var next := SettleFolderOutcome(record, settledAt);
            && next.Some? && next.value.canonicalRefresh == Some(Refresh(receipt.operationId, Some(receipt.observationVersion)))
            && next.value.canonical == record.canonical && next.value.canonicalParent == record.canonicalParent
  {
  }

  /** A refusal, or any answer once the folder is gone, moves nothing. */
  lemma RefusedMovesNothing(record: Record, settledAt: int, next: Record)
    requires SettleFolderOutcome(record, settledAt) == Some(next)
    requires forall intent, request, outcome :: InHand(record, intent, request, outcome) ==> record.terminal.Some? || DispositionOf(outcome, false).Refuse?
    ensures next.canonical == record.canonical && next.canonicalParent == record.canonicalParent && next.canonicalRefresh == record.canonicalRefresh
  {
    var intent := ActiveIntent(record.intents).value;
    assert InHand(record, intent, intent.attempts[|intent.attempts| - 1].request, Answer(intent).value);
  }

  /** Seen at least as new as what is awaited, and no older than what was seen last. */
  ghost predicate Completes(record: Record, version: nat)
    requires record.canonicalRefresh.Some?
  {
    && (record.observationVersion.None? || record.observationVersion.value <= version)
    && (record.canonicalRefresh.value.observationVersion.None? || record.canonicalRefresh.value.observationVersion.value <= version)
  }

  ghost predicate Newer(record: Record, version: nat) {
    record.observationVersion.None? || record.observationVersion.value < version
  }

  /** An awaited observation is taken if and only if it is newer or ends the wait; the newest place seen is the one kept. */
  lemma ObservationShowsExactly(record: Record, operationId: string, location: Location, parent: ParentRef, version: nat)
    ensures var next := InstallFolderRefresh(record, operationId, location, parent, version);
            && (next.Some? <==> record.canonicalRefresh.Some? && record.canonicalRefresh.value.operationId == operationId
                                && (Newer(record, version) || Completes(record, version)))
            && (next.Some? ==>
                  && next.value.intents == record.intents && next.value.hold == record.hold
                  && (next.value.canonicalRefresh == if Completes(record, version) then None else record.canonicalRefresh)
                  && (if Newer(record, version)
                      then next.value.canonical == Some(location) && next.value.canonicalParent == Some(parent)
                           && next.value.observationVersion == Some(version) && next.value.terminal.None?
                      else next.value.canonical == record.canonical && next.value.canonicalParent == record.canonicalParent
                           && next.value.observationVersion == record.observationVersion && next.value.terminal == record.terminal))
  {
  }
}
