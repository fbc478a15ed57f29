/**
 * A folder's namespace record: the planners that queue work on it, the steps that send it and apply
 * its answers, and the rule every stored record passes
 * (packages/resource-replica/src/folder-namespace.ts, folder-remint.ts:18-49).
 */
module FolderJournal {
  import opened Answers
  import opened Journal
  import Paths
  import opened Records
  import opened Remint
  import opened ServerHold
  import opened Settlement
  import opened Wrappers

  datatype Refresh = Refresh(operationId: string, observationVersion: Option<nat>)
  datatype Window = Window(obligationId: string, notBefore: int)

  datatype Record = Record(
    projectId: Option<string>,
    handle: string,
    folderId: EntryId,
    aliases: seq<EntryId>,
    revision: nat,
    hold: Hold,
    copiedBy: Option<string>,
    canonical: Option<Location>,
    canonicalParent: Option<ParentRef>,
    observationVersion: Option<nat>,
    canonicalRefresh: Option<Refresh>,
    localDeletion: Option<Window>,
    terminal: Option<string>,
    intents: seq<Intent>)

  /** The journal of the operation a record's `copiedBy` names. */
  datatype OriginOperation = OriginOperation(operationId: string, intents: seq<Intent>)

  datatype PlanError = IdentityMismatch | Unavailable | BeingDeleted | InvalidName | InsideItself

  const LOCAL_DELETION_UNDO_MS: int := 600_000

  // ------------------------------------------------------------------------------------------
  // Reading the record
  // ------------------------------------------------------------------------------------------

  /** The namespace version an accepted deletion was confirmed at. */
  function ConfirmedDeletion(intent: Intent): Option<nat> {
    if intent.desired.Delete? && intent.state.Settled? && Answer(intent).Some? && Answer(intent).value.Operation? then
      Some(Answer(intent).value.receipt.observationVersion)
    else None
  }

  /** An accepted deletion stands only until a strictly newer observation shows the folder present. */
  predicate OwnsDeletionAt(intent: Intent, observed: Option<nat>) {
    && OwnsDeletion(intent)
    && (ConfirmedDeletion(intent).None? || observed.None? || observed.value <= ConfirmedDeletion(intent).value)
  }

  predicate FolderOwnsDeletion(record: Record) {
    record.terminal.Some?
    || exists i :: 0 <= i < |record.intents| && OwnsDeletionAt(record.intents[i], record.observationVersion)
  }

  predicate InScope(intent: Intent, projectId: Option<string>) {
    projectId.None? || intent.projectId == projectId.value
  }

  predicate RepairIn(intent: Intent, projectId: Option<string>) {
    InScope(intent, projectId) && intent.state.NeedsRepair?
  }

  predicate Repaired(intents: seq<Intent>, projectId: Option<string>) {
    exists i :: 0 <= i < |intents| && RepairIn(intents[i], projectId)
  }

  function SupersededOne(intent: Intent, projectId: Option<string>): Intent {
    if RepairIn(intent, projectId) then intent.(state := Superseded)
    else if InScope(intent, projectId) && Unsent(intent) then intent.(state := Cancelled)
    else intent
  }

  /** The writer's next command retires what failed before it and the unsent work queued behind that. */
  function SupersedeRepairable(intents: seq<Intent>, projectId: Option<string>): (r: seq<Intent>)
    ensures |r| == |intents|
    ensures forall i :: 0 <= i < |r| ==>
              r[i] == if Repaired(intents, projectId) then SupersededOne(intents[i], projectId) else intents[i]
  {
    if Repaired(intents, projectId) then
      seq(|intents|, i requires 0 <= i < |intents| => SupersededOne(intents[i], projectId))
    else intents
  }

  /** Failed work is superseded, unsent work cancelled, and nothing else moves. */
  predicate RetiredHere(was: Intent, now: Intent) {
    || (was.state.NeedsRepair? && now == was.(state := Superseded))
    || (Unsent(was) && now == was.(state := Cancelled))
  }

  predicate LeftToDo(intent: Intent, projectId: Option<string>) {
    InScope(intent, projectId) && (intent.state.NeedsRepair? || Unsent(intent))
  }

  /**
   * Once something in scope has failed, nothing in scope is left to repair or to send; until then
   * nothing changes. What changes is in scope and retired, and doing it again changes nothing.
   */
  lemma NothingLeftToRepair(intents: seq<Intent>, projectId: Option<string>)
    ensures var r := SupersedeRepairable(intents, projectId);
            && (forall i :: 0 <= i < |r| ==> !RepairIn(r[i], projectId))
            && (if Repaired(intents, projectId) then forall i :: 0 <= i < |r| ==> !LeftToDo(r[i], projectId) else r == intents)
            && (forall i :: 0 <= i < |r| ==> r[i] == intents[i] || (InScope(intents[i], projectId) && RetiredHere(intents[i], r[i])))
            && SupersedeRepairable(r, projectId) == r
  {
    var r := SupersedeRepairable(intents, projectId);
    assert !Repaired(r, projectId);
  }

  /** Behind a failure the writer's next command waits only for a request under way or its answer. */
  lemma FailureClearsTheWay(intents: seq<Intent>, projectId: Option<string>)
    requires Repaired(intents, projectId) && forall i :: 0 <= i < |intents| ==> InScope(intents[i], projectId)
    ensures var active := ActiveIntent(SupersedeRepairable(intents, projectId));
            active.Some? ==> active.value.state.Submitted? || active.value.state.Received? || active.value.attempts != []
  {
    NothingLeftToRepair(intents, projectId);
    var r := SupersedeRepairable(intents, projectId);
    var active := ActiveIntent(r);
    if active.Some? {
      var i :| 0 <= i < |r| && r[i] == active.value;
      assert InScope(intents[i], projectId) && !LeftToDo(r[i], projectId);
    }
  }

  function ResolveUnavailable(intents: seq<Intent>, terminal: bool): (r: seq<Intent>)
    ensures |r| == |intents| && forall i :: 0 <= i < |r| ==> r[i] == UnavailableOne(intents[i], terminal)
  {
    seq(|intents|, i requires 0 <= i < |intents| => UnavailableOne(intents[i], terminal))
  }

  function UnavailableOne(intent: Intent, terminal: bool): Intent {
    if intent.state.Pending? || intent.state.NeedsRepair? then
      intent.(state := if terminal then Unexecutable else NeedsRepair)
    else intent
  }

  // ------------------------------------------------------------------------------------------
  // Planning
  // ------------------------------------------------------------------------------------------

  /** What names a folder in a command: the record held, or the catalog's place for it. */
  datatype Target = Target(record: Option<Record>, projectId: string, handle: string, folderId: EntryId,
                           source: Option<Location>, sourceParent: Option<ParentRef>, sourceVersion: Option<nat>)

  function RecordFor(target: Target): Result<Record, PlanError> {
    match target.record
    case Some(record) =>
      if (record.projectId.Some? && record.projectId.value != target.projectId) || record.handle != target.handle
         || record.folderId != target.folderId then Err(IdentityMismatch)
      else Ok(record)
    case None =>
      if target.source.None? then Err(Unavailable)
      else
        Ok(Record(if target.source.value.scheme == "user" then None else Some(target.projectId), target.handle,
                  target.folderId, [], 0, Held, None, target.source, target.sourceParent, target.sourceVersion,
                  None, None, None, []))
  }

  function CancelUnsent(intent: Intent): Intent {
    if Unsent(intent) then intent.(state := Cancelled) else intent
  }

  function CancelAllUnsent(intents: seq<Intent>): (r: seq<Intent>)
    ensures |r| == |intents| && forall i :: 0 <= i < |r| ==> r[i] == CancelUnsent(intents[i])
  {
    seq(|intents|, i requires 0 <= i < |intents| => CancelUnsent(intents[i]))
  }

  function DeletionIntent(record: Record, projectId: string, intentId: string, operationId: string,
                          admission: Option<Admission>): Intent {
    Intent(record.handle, projectId, intentId, Some(operationId), MaxSequence(record.intents) + 1, admission, 1, Delete, [],
           None, if DeleteNeedsServer(record.hold) then Pending else SettledLocally)
  }

  /** Nothing when the folder is being deleted already. */
  function PlanFolderDeletion(target: Target, intentId: string, operationId: string, admission: Option<Admission>, now: int)
      : Result<Option<Record>, PlanError> {
    match RecordFor(target)
    case Err(error) => Err(error)
    case Ok(record) =>
      if FolderOwnsDeletion(record) then Ok(None)
      else
        var window := if DeleteNeedsServer(record.hold) then record.localDeletion
                      else Some(Window(intentId, now + LOCAL_DELETION_UNDO_MS));
        Ok(Some(record.(revision := record.revision + 1, localDeletion := window,
                        intents := CancelAllUnsent(SupersedeRepairable(record.intents, record.projectId))
                                   + [DeletionIntent(record, target.projectId, intentId, operationId, admission)])))
  }

  predicate ValidName(name: string) {
    name != "" && '/' !in name && name != "." && name != ".."
  }

  function PlacementIntent(record: Record, projectId: string, intentId: string, operationId: Option<string>,
                           admission: Option<Admission>, destination: Destination, typedName: Option<string>): Intent {
    Intent(record.handle, projectId, intentId, operationId, MaxSequence(record.intents) + 1, admission, 1,
           SetFolderLocation(if typedName.Some? then typedName.value else destination.name, destination), [], None, Pending)
  }

  function PlanFolderCreate(projectId: string, scheme: string, handle: string, folderId: EntryId, intentId: string,
                            admission: Option<Admission>, destination: Destination): Result<Record, PlanError> {
    if !ValidName(destination.name) then Err(InvalidName)
    else
      var record := Record(if scheme == "user" then None else Some(projectId), handle, folderId, [], 1, Local, None, None,
                           None, None, None, None, None, []);
      Ok(record.(intents := [PlacementIntent(record, projectId, intentId, None, admission, destination, None)]))
  }

  /** Where a destination in an area's root lands; a destination in a folder is not resolved here. */
  function RootLocation(destination: Destination): Option<Location> {
    match destination.parent
    case FolderParent(_) => None
    case RootParent(scheme, owner) =>
      Some(Location(scheme, "/" + Paths.Join(destination.createFolders + [destination.name]), destination.name, owner))
  }

  /** Nothing when the folder already stands where it is asked to go and nothing needs repair. */
  function PlanFolderLocation(target: Target, intentId: string, operationId: string, admission: Option<Admission>,
                              destination: Destination, typedName: Option<string>): Result<Option<Record>, PlanError> {
    if target.record.Some? && FolderOwnsDeletion(target.record.value) then Err(BeingDeleted)
    else
      match RecordFor(target)
      case Err(error) => Err(error)
      case Ok(record) =>
        if !ValidName(destination.name) then Err(InvalidName)
        else if destination.parent == FolderParent(target.folderId) then Err(InsideItself)
        else
          var place := RootLocation(destination);
          if record.canonical.Some? && place.Some? && place.value.scheme == record.canonical.value.scheme
             && SameOwner(place.value.owner, record.canonical.value.owner) && place.value.path == record.canonical.value.path
             && destination.position.None? && !Repaired(record.intents, record.projectId) then Ok(None)
          else
            Ok(Some(record.(revision := record.revision + 1,
                            intents := SupersedeRepairable(record.intents, record.projectId)
                                       + [PlacementIntent(record, target.projectId, intentId, Some(operationId), admission,
                                                          destination, typedName)])))
  }

  // ------------------------------------------------------------------------------------------
  // Sending and answering
  // ------------------------------------------------------------------------------------------

  datatype AttemptIds = AttemptIds(attemptId: string, operationId: string)

  function ReplaceIntent(intents: seq<Intent>, intentId: string, replacement: Intent): (r: seq<Intent>)
    ensures |r| == |intents|
    ensures forall i :: 0 <= i < |r| ==> r[i] == if intents[i].intentId == intentId then replacement else intents[i]
  {
    seq(|intents|, i requires 0 <= i < |intents| => if intents[i].intentId == intentId then replacement else intents[i])
  }

  function Sent(intent: Intent, attempt: Attempt): Intent {
    intent.(state := Submitted, attempts := intent.attempts + [attempt])
  }

  function Replaced(record: Record, intent: Intent, replacement: Intent, hold: Hold): Record {
    record.(revision := record.revision + 1, hold := hold,
            intents := ReplaceIntent(record.intents, intent.intentId, replacement))
  }

  /** Only what differs from the folder's place as last observed is asked of the server. */
  function MoveFor(folderId: EntryId, operationId: string, destination: Destination, typedName: string,
                   currentName: string, currentParent: Option<ParentRef>): Request {
    var sameParent := destination.createFolders == [] && currentParent.Some? && SameParent(currentParent.value, destination.parent);
    MoveRequest(EntryRef(Folder, folderId), operationId,
                if sameParent then None else Some(NewParent(destination.parent, destination.createFolders)),
                if typedName != currentName && destination.name != currentName then Some(typedName) else None,
                destination.position)
  }

  /** The active intent, when it may be sent or settled now. */
  function ReadyIntent(record: Record): Option<Intent> {
    var active := ActiveIntent(record.intents);
    if active.None? || !active.value.state.Pending?
       || !(active.value.desired.SetFolderLocation? || active.value.desired.Delete?)
       || (record.canonicalRefresh.Some? && record.terminal.None?) then None
    else active
  }

  function OperationIdFor(intent: Intent, ids: AttemptIds): string {
    if intent.operationId.Some? then intent.operationId.value else ids.operationId
  }

  /** The place a destination's parent stands at: an area's own root, or where the server holds the folder. */
  function ParentOwner(parent: ParentRef, lookup: EntryId -> Option<Location>): Option<Owner> {
    match parent
    case RootParent(_, owner) => Some(owner)
    case FolderParent(id) => if lookup(id).Some? then Some(lookup(id).value.owner) else None
  }

  datatype Preparation =
    | Blocked                        // nothing to send now
    | Absorbed                       // the identity is gone: nothing can be sent any more
    | DeletedHere                    // a delete of something the server never held
    | Unplaceable                    // the destination's parent is gone
    | Send(attempt: Attempt)

  /** What preparing the ready intent comes to. */
  function PreparationOf(record: Record, intent: Intent, ids: AttemptIds, lookup: EntryId -> Option<Location>): Preparation {
    if record.terminal.Some? then Absorbed
    else if !intent.desired.SetFolderLocation? then
      if !DeleteNeedsServer(record.hold) then DeletedHere
      else if record.canonical.None? then Blocked
      else Send(Attempt(ids.attemptId, DeleteRequest(EntryRef(Folder, record.folderId), OperationIdFor(intent, ids)), None))
    else
      var destination := intent.desired.destination;
      var owner := ParentOwner(destination.parent, lookup);
      if owner.None? then Unplaceable
      else if record.hold.Local? then
        Send(Attempt(ids.attemptId, CreateFolderRequest(owner.value, record.folderId, destination), None))
      else if !record.hold.Held? || record.canonical.None? then Blocked
      else
        Send(Attempt(ids.attemptId,
                     MoveFor(record.folderId, OperationIdFor(intent, ids), destination, intent.desired.typedName,
                             record.canonical.value.name, record.canonicalParent), None))
  }

  function PrepareFolderAttempt(record: Record, ids: AttemptIds, lookup: EntryId -> Option<Location>): Option<Record> {
    var ready := ReadyIntent(record);
    if ready.None? then None
    else
      var intent := ready.value;
      match PreparationOf(record, intent, ids, lookup)
      case Blocked => None
      case Absorbed =>
        Some(record.(revision := record.revision + 1, intents := ResolveUnavailable(record.intents, true)))
      case DeletedHere => Some(Replaced(record, intent, intent.(state := SettledLocally), record.hold))
      case Unplaceable => Some(Replaced(record, intent, intent.(state := NeedsRepair), record.hold))
      case Send(attempt) =>
        Some(Replaced(record, intent, Sent(intent, attempt), HoldAfterAttempt(record.hold, attempt)))
  }

  datatype RecordError = NotCurrent | NotAnAnswer

  function Answered(intent: Intent, outcome: Outcome): Intent
    requires intent.attempts != []
  {
    var n := |intent.attempts| - 1;
    intent.(state := Received, attempts := intent.attempts[n := intent.attempts[n].(outcome := Some(outcome))])
  }

  /** Nothing when the attempt is answered already. */
  function RecordFolderOutcome(record: Record, intentId: string, attemptId: string, outcome: Outcome)
      : Result<Option<Record>, RecordError> {
    var found := Find(record.intents, intentId);
    if found.None? || found.value.attempts == [] then Err(NotCurrent)
    else
      var attempt := found.value.attempts[|found.value.attempts| - 1];
      if attempt.attemptId != attemptId then Err(NotCurrent)
      else if attempt.outcome.Some? then Ok(None)
      else if !found.value.state.Submitted? || !AnswersAttempt(attempt, outcome) then Err(NotAnAnswer)
      else
        Ok(Some(Replaced(record, found.value, Answered(found.value, outcome),
                         HoldAfterAttempt(record.hold, attempt.(outcome := Some(outcome))))))
  }

  /** The place an accepted create answers. */
  function AnsweredPlace(attempt: Attempt): Option<Location> {
    match (attempt.request, attempt.outcome)
    case (CreateFolderRequest(owner, _, _), Some(FolderCreated(false, _, scheme, path, name))) =>
      Some(Location(scheme, Paths.Displayed(path), name, owner))
    case _ => None
  }

  /** The received intent, when its answer is one a folder settles. */
  function SettlingIntent(record: Record): Option<Intent> {
    var active := ActiveIntent(record.intents);
    if active.None? || !active.value.state.Received? || Answer(active.value).None? || Answer(active.value).value.Created?
       || (Answer(active.value).value.Operation? && Answer(active.value).value.receipt.command.CopyCommand?) then None
    else active
  }

  function SettleFolderOutcome(record: Record, settledAt: int): Option<Record> {
    var settling := SettlingIntent(record);
    if settling.None? then None
    else
      var intent := settling.value;
      var outcome := Answer(intent).value;
      var disposition := DispositionOf(outcome, record.terminal.Some?);
      var settled := record.(revision := record.revision + 1,
                             intents := SettleNamespaceIntent(record.intents, intent, disposition, settledAt, record.hold));
      if !disposition.Accept? then Some(settled)
      else
        var refreshed :=
          if outcome.Operation? && outcome.receipt.command.MoveCommand? then
            settled.(canonicalRefresh := Some(Refresh(outcome.receipt.operationId, Some(outcome.receipt.observationVersion))))
          else settled;
        var place := AnsweredPlace(intent.attempts[|intent.attempts| - 1]);
        Some(if place.Some? then refreshed.(canonical := place) else refreshed)
  }

  /** A catalog observation of the folder, taken while a move waits to be seen there. */
  function InstallFolderRefresh(record: Record, operationId: string, location: Location, parent: ParentRef, version: nat)
      : Option<Record> {
    if record.canonicalRefresh.None? || record.canonicalRefresh.value.operationId != operationId then None
    else
      var awaited := record.canonicalRefresh.value.observationVersion;
      var newer := record.observationVersion.None? || version > record.observationVersion.value;
      var completes := (newer || record.observationVersion == Some(version)) && (awaited.None? || version >= awaited.value);
      if !newer && !completes then None
      else
        var base := if completes then record.(canonicalRefresh := None) else record;
        var seen := if newer then base.(terminal := None, canonical := Some(location), canonicalParent := Some(parent),
                                        observationVersion := Some(version))
                    else base;
        Some(seen.(revision := record.revision + 1))
  }

  // ------------------------------------------------------------------------------------------
  // Replacing a spent id
  // ------------------------------------------------------------------------------------------

  predicate AwaitsRemint(record: Record) {
    && record.hold.Spent?
    && exists i :: 0 <= i < |record.intents| && Placement(record.intents[i].desired)
         && (record.intents[i].state.NeedsRepair? || Unsent(record.intents[i]))
  }

  datatype RemintFolderError = SameIdentity | DependentUnnamed

  function RemintFolder(record: Record, folderId: EntryId, retryId: string, rebased: map<string, string>)
      : Result<Option<Record>, RemintFolderError> {
    if !AwaitsRemint(record) then Ok(None)
    else if record.folderId == folderId then Err(SameIdentity)
    else
      match RemintJournal(record.intents, Spec(1, 1, record.folderId, folderId, retryId, rebased))
      case Err(_) => Err(DependentUnnamed)
      case Ok(None) => Ok(None)
      case Ok(Some(intents)) =>
        Ok(Some(record.(revision := record.revision + 1, hold := Local, folderId := folderId,
                        aliases := record.aliases + [record.folderId], intents := intents)))
  }

  // ------------------------------------------------------------------------------------------
  // The rule a stored record passes
  // ------------------------------------------------------------------------------------------

  /** Every accepted answer in a journal. */
  ghost predicate AcceptedIn(intents: seq<Intent>, outcome: Outcome) {
    exists i, k :: 0 <= i < |intents| && 0 <= k < |intents[i].attempts|
      && intents[i].attempts[k].outcome == Some(outcome) && DispositionOf(outcome, false).Accept?
  }

  ghost predicate AcceptedFor(record: Record, operation: Option<OriginOperation>, outcome: Outcome) {
    || AcceptedIn(record.intents, outcome)
    || (operation.Some? && record.copiedBy == Some(operation.value.operationId) && AcceptedIn(operation.value.intents, outcome))
  }

  /** An accepted create, or the record's Copy naming it as a folder, stands behind its first place. */
  ghost predicate FirstPlaceWitnessed(record: Record, operation: Option<OriginOperation>) {
    exists outcome :: AcceptedFor(record, operation, outcome) && PlacesFolder(outcome, record.folderId)
  }

  predicate PlacesFolder(outcome: Outcome, folderId: EntryId) {
    || outcome.FolderCreated?
    || (outcome.Operation? && outcome.receipt.command.CopyCommand? && outcome.receipt.ok
        && exists i :: 0 <= i < |outcome.receipt.entries| && outcome.receipt.entries[i].id == folderId
                       && outcome.receipt.entries[i].kind.Folder?)
  }

  /** An accepted move of the record, or the Copy that made it, stands behind its refresh. */
  ghost predicate RefreshWitnessed(record: Record, operation: Option<OriginOperation>, operationId: string) {
    exists outcome :: AcceptedFor(record, operation, outcome) && RefreshedBy(outcome, operationId)
  }

  predicate RefreshedBy(outcome: Outcome, operationId: string) {
    outcome.Operation? && outcome.receipt.operationId == operationId && !outcome.receipt.command.DeleteCommand?
  }

  predicate NamesRecord(record: Record, id: EntryId) {
    id == record.folderId || id in record.aliases
  }

  predicate RequestFits(record: Record, request: Request) {
    match request
    case CreateFolderRequest(_, folderId, _) => NamesRecord(record, folderId)
    case MoveRequest(entry, _, _, _, _) => entry.kind.Folder? && NamesRecord(record, entry.id)
    case DeleteRequest(entry, _) => entry.kind.Folder? && NamesRecord(record, entry.id)
    case _ => false
  }

  predicate IntentFits(record: Record, intent: Intent) {
    && (record.projectId.Some? ==> intent.projectId == record.projectId.value)
    && intent.identityRevision == 1 && (intent.desired.SetFolderLocation? || intent.desired.Delete?)
    && forall k :: 0 <= k < |intent.attempts| ==> RequestFits(record, intent.attempts[k].request)
  }

  predicate SettledHere(intent: Intent) {
    intent.desired.Delete? && intent.state.SettledLocally?
  }

  /** A record's own shape, whatever came before it. */
  ghost predicate RecordFits(record: Record) {
    && (forall i :: 0 <= i < |record.intents| ==> IntentFits(record, record.intents[i]))
    && (record.localDeletion.Some? ==>
          exists i :: 0 <= i < |record.intents| && record.intents[i].intentId == record.localDeletion.value.obligationId
                      && SettledHere(record.intents[i]))
    && (record.localDeletion.None? ==> forall i :: 0 <= i < |record.intents| ==> !SettledHere(record.intents[i]))
    && (record.canonical.Some? ==> record.hold.Held?)
    && (record.copiedBy.Some? ==> record.hold.Uncertain? || record.hold.Held?)
    && (record.canonical.None? ==>
          && record.canonicalParent.None? && record.observationVersion.None? && record.canonicalRefresh.None?
          && record.terminal.None?
          && (record.copiedBy.Some?
              || exists i :: 0 <= i < |record.intents| && record.intents[i].desired.SetFolderLocation?))
  }

  /** What one record may make of the one before it. */
  predicate Succeeds(was: Record, now: Record) {
    && now.handle == was.handle && now.projectId == was.projectId && now.copiedBy == was.copiedBy
    && (now.folderId != was.folderId ==>
          && was.hold.Spent? && now.hold.Local? && was.folderId in now.aliases
          && forall id :: id in was.aliases ==> id in now.aliases)
    && (was.canonicalRefresh.Some? && now.canonicalRefresh.Some? ==>
          was.canonicalRefresh.value.operationId == now.canonicalRefresh.value.operationId)
    && (was.terminal.Some? && now.terminal != was.terminal ==>
          && now.terminal.None? && now.observationVersion.Some?
          && (was.observationVersion.None? || now.observationVersion.value > was.observationVersion.value))
    && (was.hold.Held? ==> now.hold.Held?)
    && (was.canonical.Some? ==> now.canonical.Some?)
  }

  function JournalUpdate(was: Option<Record>, now: Record): Update {
    Update(if was.Some? then was.value.intents else [], now.handle, now.intents, 1, !DeleteNeedsServer(now.hold),
           now.terminal.Some?)
  }

  ghost predicate FolderUpdateAllowed(was: Option<Record>, now: Record, operation: Option<OriginOperation>) {
    && now.revision == (if was.Some? then was.value.revision else 0) + 1
    && (was.Some? ==> Succeeds(was.value, now))
    && RecordFits(now) && Allowed(JournalUpdate(was, now))
    && (was.Some? && was.value.canonical.None? && now.canonical.Some? ==> FirstPlaceWitnessed(now, operation))
    && (now.canonicalRefresh.Some? ==> RefreshWitnessed(now, operation, now.canonicalRefresh.value.operationId))
  }

  // ------------------------------------------------------------------------------------------
  // What the rule keeps over any run
  // ------------------------------------------------------------------------------------------

  ghost predicate StoredRun(run: seq<Record>) {
    forall i :: 0 < i < |run| ==> StoredAfter(run[i - 1], run[i])
  }

  ghost predicate StoredAfter(was: Record, now: Record) {
    exists operation :: FolderUpdateAllowed(Some(was), now, operation)
  }

  /**
   * However a stored folder changes, it keeps its handle, once held it stays held under the same
   * id, once placed it stays placed, and any id it left is one of its aliases until the next remint.
   */
  lemma {:induction false} HeldForGood(run: seq<Record>, i: nat, j: nat)
    requires StoredRun(run) && i <= j < |run|
    ensures run[j].handle == run[i].handle && run[j].projectId == run[i].projectId && run[j].copiedBy == run[i].copiedBy
    ensures run[i].hold.Held? ==> run[j].hold.Held? && run[j].folderId == run[i].folderId
    ensures run[i].canonical.Some? ==> run[j].canonical.Some?
    ensures run[j].folderId != run[i].folderId ==> exists k :: i <= k < j && run[k].hold.Spent? && run[k].folderId == run[i].folderId
    decreases j
  {
    if i < j {
      HeldForGood(run, i, j - 1);
      assert StoredAfter(run[j - 1], run[j]);
      assert Succeeds(run[j - 1], run[j]);
      if run[j].folderId != run[i].folderId && run[j - 1].folderId == run[i].folderId {
        assert run[j - 1].hold.Spent?;
      }
    }
  }
}
