/**
 * The writer's commands on a folder and the replacement of a spent id, against the rule their
 * records are stored under: exactly when the rule takes each write
 * (packages/resource-replica/src/folder-namespace.ts:203-372, folder-remint.ts:18-49).
 */
module FolderPlans {
  import opened FolderJournal
  import opened FolderSteps
  import opened Journal
  import opened JournalChange
  import opened JournalHistory
  import opened Records
  import opened Remint
  import opened ServerHold
  import opened Settlement
  import opened Wrappers

  // ------------------------------------------------------------------------------------------
  // Creating
  // ------------------------------------------------------------------------------------------

  /** A folder created here starts a history the rule accepts. */
  lemma CreatedIsStored(projectId: string, scheme: string, handle: string, folderId: EntryId, intentId: string,
                        admission: Option<Admission>, destination: Destination, record: Record)
    requires PlanFolderCreate(projectId, scheme, handle, folderId, intentId, admission, destination) == Ok(record)
    ensures Stored(None, record, None) && Coherent(record) && Unblocked(record)
  {
    var u := JournalUpdate(None, record);
    assert |u.next| == 1 && MaxSequence([]) == 0;
    assert NextHolds(u, 0);
    AllowedExactly(u);
    assert record.intents[0].desired.SetFolderLocation?;
  }

  // ------------------------------------------------------------------------------------------
  // Queueing a command behind the record's history
  // ------------------------------------------------------------------------------------------

  /** Retired work, or work left alone, with one command queued behind it. */
  ghost predicate Queues(was: Option<Record>, record: Record, operation: Option<OriginOperation>, next: Record,
                         moved: seq<Intent>, command: Intent) {
    && Stored(was, record, operation) && Coherent(record) && Unlocked(record.intents)
    && next.intents == moved + [command] && |moved| == |record.intents|
    && (forall k :: 0 <= k < |moved| ==> RetiredFor(record.intents[k], moved[k]))
    && next.handle == record.handle && Fresh(record.intents, record.handle, command)
  }

  /** Failed work superseded, unsent work that is no delete cancelled, the rest left alone. */
  predicate RetiredFor(was: Intent, now: Intent) {
    || now == was
    || (was.state.NeedsRepair? && now == was.(state := Superseded))
    || (Unsent(was) && !was.desired.Delete? && now == was.(state := Cancelled))
  }

  lemma RetiredIsMoved(was: Intent, now: Intent)
    requires RetiredFor(was, now)
    ensures Moved(was, now)
  {
  }

  lemma QueueingChanges(was: Option<Record>, record: Record, operation: Option<OriginOperation>, next: Record,
                        moved: seq<Intent>, command: Intent)
    requires Queues(was, record, operation, next, moved, command)
    ensures Changes(JournalUpdate(Some(record), next), moved, [command])
  {
    forall k | 0 <= k < |moved| ensures Moved(record.intents[k], moved[k]) { RetiredIsMoved(record.intents[k], moved[k]); }
    MovesChange(JournalUpdate(was, record), JournalUpdate(Some(record), next), moved, [command]);
  }

  /** The command excuses what it cancels: it is a delete, or a placement behind placements. */
  predicate Excuses(command: Intent) {
    command.identityRevision == 1 && (command.desired.Delete? || command.desired.SetFolderLocation?)
  }

  lemma RetiredCommandStands(was: Option<Record>, record: Record, operation: Option<OriginOperation>, next: Record,
                             moved: seq<Intent>, command: Intent, k: nat)
    requires Queues(was, record, operation, next, moved, command) && Excuses(command) && k < |moved|
    ensures StandsAt(JournalUpdate(Some(record), next), k) <==> !SupersededAccepted(record.intents[k])
  {
    var u0, u := JournalUpdate(was, record), JournalUpdate(Some(record), next);
    QueueingChanges(was, record, operation, next, moved, command);
    assert u.next[k] == moved[k] && RetiredFor(record.intents[k], moved[k]) && CoherentAt(record, record.intents[k]);
    if moved[k] == record.intents[k] {
      UntouchedStands(u0, u, moved, [command], k);
      ReasonStays(u0, u, moved, [command], k);
    } else if record.intents[k].state.NeedsRepair? {
      AllowedIsDistinct(u0);
      FindIs(u0.next, k);
      AnsweredBefore(u0, k);
      SupersededStands(u, record.intents[k], k);
    } else {
      assert IntentFits(record, record.intents[k]);
      UnsentIsUntimed(u0, k);
      assert u.next[|moved|] == command;
      assert RetiredBy(u, moved[k], u.next[|moved|]);
    }
  }

  lemma QueueingSupersedesOld(was: Option<Record>, record: Record, operation: Option<OriginOperation>, next: Record,
                              moved: seq<Intent>, command: Intent)
    requires Queues(was, record, operation, next, moved, command) && !command.state.Superseded?
    ensures SupersedesOld(record, next)
  {
    forall k | 0 <= k < |next.intents| && next.intents[k].state.Superseded?
      ensures k < |moved| && RetiredFor(record.intents[k], next.intents[k])
    {
      assert next.intents[k] == if k < |moved| then moved[k] else command;
    }
  }

  /** The journal may take the command exactly when the command itself stands. */
  lemma QueueingIsAllowedExactly(was: Option<Record>, record: Record, operation: Option<OriginOperation>, next: Record,
                                 moved: seq<Intent>, command: Intent)
    requires Queues(was, record, operation, next, moved, command) && Excuses(command)
    ensures |next.intents| == |moved| + 1
    ensures Allowed(JournalUpdate(Some(record), next)) <==>
            Unblocked(record) && StandsAt(JournalUpdate(Some(record), next), |moved|)
  {
    QueueingChanges(was, record, operation, next, moved, command);
    ChangeIsAllowedExactly(JournalUpdate(was, record), JournalUpdate(Some(record), next), moved, [command]);
    forall k | 0 <= k < |moved| ensures StandsAt(JournalUpdate(Some(record), next), k) <==> !SupersededAccepted(record.intents[k]) {
      RetiredCommandStands(was, record, operation, next, moved, command, k);
    }
  }

  lemma QueueingFits(record: Record, next: Record, moved: seq<Intent>, command: Intent)
    requires RecordFits(record) && Unlocked(record.intents) && next.intents == moved + [command] && |moved| == |record.intents|
    requires forall k :: 0 <= k < |moved| ==> RetiredFor(record.intents[k], moved[k])
    requires next == record.(revision := next.revision, localDeletion := next.localDeletion, intents := next.intents)
    requires IntentFits(record, command)
    requires if SettledHere(command) then next.localDeletion.Some? && next.localDeletion.value.obligationId == command.intentId
             else next.localDeletion == record.localDeletion
    ensures RecordFits(next) && Succeeds(record, next)
  {
    NoWindow(record);
    forall k | 0 <= k < |next.intents| ensures IntentFits(next, next.intents[k]) && (k < |moved| ==> !SettledHere(next.intents[k])) {
      if k < |moved| { assert next.intents[k] == moved[k] && IntentFits(record, record.intents[k]); }
    }
    assert next.intents[|moved|] == command;
    if record.canonical.None? && record.copiedBy.None? {
      var k :| 0 <= k < |record.intents| && record.intents[k].desired.SetFolderLocation?;
      assert next.intents[k] == moved[k] && RetiredFor(record.intents[k], moved[k]);
    }
  }

  lemma QueueingWitnesses(was: Option<Record>, record: Record, operation: Option<OriginOperation>, next: Record,
                          moved: seq<Intent>, command: Intent)
    requires Queues(was, record, operation, next, moved, command)
    requires next.canonicalRefresh == record.canonicalRefresh && next.copiedBy == record.copiedBy
    ensures next.canonicalRefresh.Some? ==> RefreshWitnessed(next, operation, next.canonicalRefresh.value.operationId)
  {
    if next.canonicalRefresh.Some? {
      forall k | 0 <= k < |record.intents| ensures AttemptsKept(record.intents[k], next.intents[k]) {
        assert next.intents[k] == moved[k] && RetiredFor(record.intents[k], moved[k]);
      }
      RefreshStaysWitnessed(record, next, operation, next.canonicalRefresh.value.operationId);
    }
  }

  lemma QueuedIsCoherent(was: Option<Record>, record: Record, operation: Option<OriginOperation>, next: Record,
                         moved: seq<Intent>, command: Intent)
    requires Queues(was, record, operation, next, moved, command) && Stored(Some(record), next, operation)
    requires next == record.(revision := next.revision, localDeletion := next.localDeletion, intents := next.intents)
    ensures Coherent(next)
  {
    forall k | 0 <= k < |next.intents|
      ensures k < |moved| ==> next.intents[k].intentId == record.intents[k].intentId
      ensures QuietAt(record, next, k)
    {
      QueuedIsQuiet(record, next, moved, command, k);
    }
    KeptEnds(Some(record), next);
    forall k | 0 <= k < |next.intents|
      ensures RepairAnswered(next.intents[k])
      ensures InFlight(next.intents[k]) ==> k < |record.intents| && next.intents[k] == record.intents[k]
    {
      assert QuietAt(record, next, k);
    }
    QuietIsCoherent(record, next);
  }

  predicate QuietAt(record: Record, next: Record, k: nat)
    requires k < |next.intents|
  {
    && RepairAnswered(next.intents[k])
    && (InFlight(next.intents[k]) ==> k < |record.intents| && next.intents[k] == record.intents[k])
  }

  lemma QueuedIsQuiet(record: Record, next: Record, moved: seq<Intent>, command: Intent, k: nat)
    requires Coherent(record) && next.intents == moved + [command] && |moved| == |record.intents| && k < |next.intents|
    requires k < |moved| ==> RetiredFor(record.intents[k], moved[k])
    requires command.state.Pending? || command.state.SettledLocally?
    ensures QuietAt(record, next, k) && (k < |moved| ==> next.intents[k].intentId == record.intents[k].intentId)
  {
    if k < |moved| { assert CoherentAt(record, record.intents[k]); }
  }

  /** A command queued on a stored record is taken exactly when the journal may take it. */
  lemma QueueingIsStoredExactly(was: Option<Record>, record: Record, operation: Option<OriginOperation>, next: Record,
                                moved: seq<Intent>, command: Intent)
    requires Queues(was, record, operation, next, moved, command) && Excuses(command) && IntentFits(record, command)
    requires next == record.(revision := record.revision + 1, localDeletion := next.localDeletion, intents := next.intents)
    requires if SettledHere(command) then next.localDeletion.Some? && next.localDeletion.value.obligationId == command.intentId
             else next.localDeletion == record.localDeletion
    ensures |next.intents| == |moved| + 1
    ensures Stored(Some(record), next, operation) <==>
            Unblocked(record) && StandsAt(JournalUpdate(Some(record), next), |moved|)
    ensures Stored(Some(record), next, operation) ==> Coherent(next)
  {
    QueueingIsAllowedExactly(was, record, operation, next, moved, command);
    QueueingFits(record, next, moved, command);
    QueueingWitnesses(was, record, operation, next, moved, command);
    if Stored(Some(record), next, operation) { QueuedIsCoherent(was, record, operation, next, moved, command); }
  }

  // ------------------------------------------------------------------------------------------
  // Moving
  // ------------------------------------------------------------------------------------------

  lemma NotBeingDeleted(record: Record, k: nat)
    requires !FolderOwnsDeletion(record) && k < |record.intents|
    ensures !record.intents[k].state.SettledLocally? || !record.intents[k].desired.Delete?
    ensures Unsent(record.intents[k]) ==> !record.intents[k].desired.Delete?
  {
    assert !OwnsDeletionAt(record.intents[k], record.observationVersion);
  }

  lemma NotDeletedIsUnlocked(was: Option<Record>, record: Record, operation: Option<OriginOperation>)
    requires Stored(was, record, operation) && !FolderOwnsDeletion(record)
    ensures Unlocked(record.intents)
  {
    forall k | 0 <= k < |record.intents| ensures !record.intents[k].state.SettledLocally? {
      AllowedAt(JournalUpdate(was, record), k);
      NotBeingDeleted(record, k);
    }
  }

  lemma SupersededFor(record: Record, k: nat)
    requires !FolderOwnsDeletion(record) && k < |record.intents|
    ensures RetiredFor(record.intents[k], SupersedeRepairable(record.intents, record.projectId)[k])
  {
    NotBeingDeleted(record, k);
  }

  /** A writer's move of a folder held here is always taken, but for history the rule refuses to keep. */
  lemma MoveIsStoredExactly(was: Option<Record>, record: Record, operation: Option<OriginOperation>, target: Target,
                            intentId: string, operationId: string, admission: Option<Admission>, destination: Destination,
                            typedName: Option<string>, next: Record)
    requires Stored(was, record, operation) && Coherent(record) && target.record == Some(record)
    requires PlanFolderLocation(target, intentId, operationId, admission, destination, typedName) == Ok(Some(next))
    requires Find(record.intents, intentId).None? && MaxSequence(record.intents) < MAX_SAFE_INTEGER
    ensures Stored(Some(record), next, operation) <==> Unblocked(record)
    ensures Unblocked(record) ==> Coherent(next)
  {
    var moved := SupersedeRepairable(record.intents, record.projectId);
    var command := MoveQueues(was, record, operation, target, intentId, operationId, admission, destination, typedName, next);
    QueueingIsStoredExactly(was, record, operation, next, moved, command);
    QueueingChanges(was, record, operation, next, moved, command);
    QueuedStands(JournalUpdate(Some(record), next), moved, [command], |moved|);
  }

  lemma MoveQueues(was: Option<Record>, record: Record, operation: Option<OriginOperation>, target: Target, intentId: string,
                   operationId: string, admission: Option<Admission>, destination: Destination, typedName: Option<string>,
                   next: Record)
    returns (command: Intent)
    requires Stored(was, record, operation) && Coherent(record) && target.record == Some(record)
    requires PlanFolderLocation(target, intentId, operationId, admission, destination, typedName) == Ok(Some(next))
    requires Find(record.intents, intentId).None? && MaxSequence(record.intents) < MAX_SAFE_INTEGER
    ensures Queues(was, record, operation, next, SupersedeRepairable(record.intents, record.projectId), command)
    ensures Excuses(command) && IntentFits(record, command) && command.state.Pending? && !SettledHere(command)
    ensures next == record.(revision := record.revision + 1, intents := next.intents)
  {
    var moved := SupersedeRepairable(record.intents, record.projectId);
    command := MoveIs(record, target, intentId, operationId, admission, destination, typedName, next);
    NotDeletedIsUnlocked(was, record, operation);
    forall k | 0 <= k < |moved| ensures RetiredFor(record.intents[k], moved[k]) { SupersededFor(record, k); }
  }

  /** What a move writes: a placement to be sent, behind what the command retires. */
  lemma MoveIs(record: Record, target: Target, intentId: string, operationId: string, admission: Option<Admission>,
               destination: Destination, typedName: Option<string>, next: Record)
    returns (command: Intent)
    requires target.record == Some(record)
    requires PlanFolderLocation(target, intentId, operationId, admission, destination, typedName) == Ok(Some(next))
    ensures !FolderOwnsDeletion(record) && Excuses(command) && IntentFits(record, command) && !SettledHere(command)
    ensures next == record.(revision := record.revision + 1,
                            intents := SupersedeRepairable(record.intents, record.projectId) + [command])
    ensures command.handle == record.handle && command.intentId == intentId && command.state.Pending? && command.attempts == []
    ensures command.settledAt.None? && command.sequence == MaxSequence(record.intents) + 1
  {
    command := next.intents[|record.intents|];
  }

  // ------------------------------------------------------------------------------------------
  // Deleting
  // ------------------------------------------------------------------------------------------

  /** Work a local deletion can retire: nothing sent and unsettled, and nothing settled. */
  predicate Retirable(intent: Intent) {
    intent.state.Cancelled? || intent.state.Superseded? || intent.state.NeedsRepair? || intent.state.Pending?
  }

  function Discarded(record: Record): seq<Intent> {
    CancelAllUnsent(SupersedeRepairable(record.intents, record.projectId))
  }

  lemma DiscardedFor(was: Option<Record>, record: Record, operation: Option<OriginOperation>, k: nat)
    requires Stored(was, record, operation) && !FolderOwnsDeletion(record) && k < |record.intents|
    ensures RetiredFor(record.intents[k], Discarded(record)[k])
    ensures Retirable(record.intents[k]) <==> Discarded(record)[k].state.Cancelled? || Discarded(record)[k].state.Superseded?
  {
    NotBeingDeleted(record, k);
    AllowedAt(JournalUpdate(was, record), k);
    assert IntentFits(record, record.intents[k]);
    if record.intents[k].state.NeedsRepair? { assert RepairIn(record.intents[k], record.projectId); }
  }

  /** What the deletion writes: the command behind everything retired, and the undo window when it settles here. */
  ghost predicate Deletes(record: Record, command: Intent, next: Record) {
    && next == record.(revision := record.revision + 1, localDeletion := next.localDeletion, intents := next.intents)
    && next.intents == Discarded(record) + [command]
    && (if SettledHere(command) then next.localDeletion.Some? && next.localDeletion.value.obligationId == command.intentId
        else next.localDeletion == record.localDeletion)
    && command.desired.Delete? && command.attempts == []
    && command.state == if DeleteNeedsServer(record.hold) then Pending else SettledLocally
  }

  lemma DeletionIs(record: Record, target: Target, intentId: string, operationId: string, admission: Option<Admission>, now: int,
                   next: Record)
    requires target.record == Some(record)
    requires PlanFolderDeletion(target, intentId, operationId, admission, now) == Ok(Some(next))
    ensures RecordFor(target) == Ok(record) && !FolderOwnsDeletion(record)
    ensures Deletes(record, DeletionIntent(record, target.projectId, intentId, operationId, admission), next)
  {
  }

  lemma DeletionFits(record: Record, target: Target, intentId: string, operationId: string, admission: Option<Admission>)
    requires target.record == Some(record) && RecordFor(target) == Ok(record)
    ensures var command := DeletionIntent(record, target.projectId, intentId, operationId, admission);
            IntentFits(record, command) && Excuses(command)
  {
  }

  /**
   * Deleting a folder the server may hold is always taken. A deletion that settles here is taken
   * exactly when the journal holds only work it can retire: not while an answer waits to be
   * settled, such as the refusal of the create that made the deletion local.
   */
  lemma DeletionIsStoredExactly(was: Option<Record>, record: Record, operation: Option<OriginOperation>, target: Target,
                                intentId: string, operationId: string, admission: Option<Admission>, now: int, next: Record)
    requires Stored(was, record, operation) && Coherent(record) && target.record == Some(record)
    requires PlanFolderDeletion(target, intentId, operationId, admission, now) == Ok(Some(next))
    requires Find(record.intents, intentId).None? && MaxSequence(record.intents) < MAX_SAFE_INTEGER
    ensures Stored(Some(record), next, operation) <==>
            (Unblocked(record)
             && (DeleteNeedsServer(record.hold) || forall k :: 0 <= k < |record.intents| ==> Retirable(record.intents[k])))
    ensures Stored(Some(record), next, operation) ==> Coherent(next)
  {
    var command := DeletionIntent(record, target.projectId, intentId, operationId, admission);
    DeletionIs(record, target, intentId, operationId, admission, now, next);
    DeletionFits(record, target, intentId, operationId, admission);
    DeletionQueues(was, record, operation, target, intentId, operationId, admission, next);
    DiscardIsStoredExactly(was, record, operation, command, next);
  }

  lemma DiscardIsStoredExactly(was: Option<Record>, record: Record, operation: Option<OriginOperation>, command: Intent, next: Record)
    requires Queues(was, record, operation, next, Discarded(record), command) && Deletes(record, command, next)
    requires IntentFits(record, command) && Excuses(command) && !FolderOwnsDeletion(record)
    ensures Stored(Some(record), next, operation) <==>
            (Unblocked(record)
             && (DeleteNeedsServer(record.hold) || forall k :: 0 <= k < |record.intents| ==> Retirable(record.intents[k])))
    ensures Stored(Some(record), next, operation) ==> Coherent(next)
  {
    QueueingIsStoredExactly(was, record, operation, next, Discarded(record), command);
    QueueingChanges(was, record, operation, next, Discarded(record), command);
    DeletionStands(record, next, Discarded(record), command);
    DiscardedAll(was, record, operation);
  }

  lemma DiscardedAll(was: Option<Record>, record: Record, operation: Option<OriginOperation>)
    requires Stored(was, record, operation) && !FolderOwnsDeletion(record)
    ensures (forall k :: 0 <= k < |record.intents| ==> Retirable(record.intents[k])) <==>
            (forall k :: 0 <= k < |record.intents| ==> Discarded(record)[k].state.Cancelled? || Discarded(record)[k].state.Superseded?)
  {
    forall k | 0 <= k < |record.intents|
      ensures Retirable(record.intents[k]) <==> Discarded(record)[k].state.Cancelled? || Discarded(record)[k].state.Superseded?
    {
      DiscardedFor(was, record, operation, k);
    }
  }

  lemma DeletionQueues(was: Option<Record>, record: Record, operation: Option<OriginOperation>, target: Target, intentId: string,
                       operationId: string, admission: Option<Admission>, next: Record)
    requires Stored(was, record, operation) && Coherent(record) && RecordFor(target) == Ok(record) && !FolderOwnsDeletion(record)
    requires next.handle == record.handle
    requires next.intents == Discarded(record) + [DeletionIntent(record, target.projectId, intentId, operationId, admission)]
    requires Find(record.intents, intentId).None? && MaxSequence(record.intents) < MAX_SAFE_INTEGER
    ensures Queues(was, record, operation, next, Discarded(record),
                   DeletionIntent(record, target.projectId, intentId, operationId, admission))
  {
    NotDeletedIsUnlocked(was, record, operation);
    forall k | 0 <= k < |record.intents| ensures RetiredFor(record.intents[k], Discarded(record)[k]) {
      DiscardedFor(was, record, operation, k);
    }
  }

  lemma DeletionStands(record: Record, next: Record, moved: seq<Intent>, command: Intent)
    requires next.intents == moved + [command] && Changes(JournalUpdate(Some(record), next), moved, [command])
    requires command.desired.Delete? && next.hold == record.hold
    requires command.state == if DeleteNeedsServer(record.hold) then Pending else SettledLocally
    ensures StandsAt(JournalUpdate(Some(record), next), |moved|) <==>
            (DeleteNeedsServer(record.hold)
             || forall k :: 0 <= k < |moved| ==> moved[k].state.Cancelled? || moved[k].state.Superseded?)
  {
    var u := JournalUpdate(Some(record), next);
    assert u.next[|moved|] == command;
    if !DeleteNeedsServer(record.hold) {
      forall k | 0 <= k < |moved| ensures u.next[k] == moved[k] && moved[k].intentId != command.intentId {
        assert Step(u.previous[k], moved[k]) && Fresh(u.previous, u.handle, command);
      }
    }
  }

  // ------------------------------------------------------------------------------------------
  // Replacing a spent id
  // ------------------------------------------------------------------------------------------

  lemma RetiredIntentFits(u0: Update, record: Record, spec: Spec, next: Record, k: nat)
    requires Allowed(u0) && u0.next == record.intents && RecordFits(record) && Unlocked(record.intents) && k < |record.intents|
    requires next.projectId == record.projectId && next.aliases == record.aliases + [record.folderId]
    ensures IntentFits(next, MovedPart(u0, spec)[k]) && !SettledHere(MovedPart(u0, spec)[k])
  {
    RetiredAs(u0, spec, k);
    AliasedFits(record, next, record.intents[k]);
  }

  lemma CopyFits(u0: Update, record: Record, spec: Spec, next: Record, i: nat, copy: Intent)
    requires Allowed(u0) && u0.next == record.intents && RecordFits(record) && i < |Work(record.intents, spec.from)|
    requires Carries(Work(record.intents, spec.from)[i], copy, spec) && spec.to == 1 && next.projectId == record.projectId
    ensures IntentFits(next, copy) && !SettledHere(copy)
  {
    var p := WorkIsRecorded(u0, spec, i);
    assert IntentFits(record, record.intents[p]);
  }

  lemma CopyCarries(intents: seq<Intent>, spec: Spec, next: seq<Intent>, i: nat)
    requires Requeued(intents, spec, next) && |intents| + i < |next|
    ensures i < |Work(intents, spec.from)| && Carries(Work(intents, spec.from)[i], next[|intents| + i], spec)
  {
    assert CopyOf(intents, spec, next, i);
  }

  lemma RemintedCopyFits(u0: Update, record: Record, spec: Spec, next: Record, i: nat)
    requires Allowed(u0) && u0.next == record.intents && RecordFits(record) && next.projectId == record.projectId
    requires Requeued(record.intents, spec, next.intents) && spec.to == 1 && |record.intents| + i < |next.intents|
    ensures IntentFits(next, next.intents[|record.intents| + i]) && !SettledHere(next.intents[|record.intents| + i])
  {
    CopyCarries(record.intents, spec, next.intents, i);
    CopyFits(u0, record, spec, next, i, next.intents[|record.intents| + i]);
  }

  lemma RemintedIntentFits(u0: Update, record: Record, spec: Spec, next: Record, k: nat)
    requires Allowed(u0) && u0.next == record.intents && RecordFits(record) && Unlocked(record.intents)
    requires Requeued(record.intents, spec, next.intents) && spec.from == spec.to == 1 && k < |next.intents|
    requires next.projectId == record.projectId && next.aliases == record.aliases + [record.folderId]
    ensures IntentFits(next, next.intents[k]) && !SettledHere(next.intents[k])
  {
    if k < |record.intents| {
      RetiredIntentFits(u0, record, spec, next, k);
      KeptIsRetired(record.intents, spec, next.intents, k);
    } else {
      RemintedCopyFits(u0, record, spec, next, k - |record.intents|);
    }
  }

  lemma RemintedKeepsPlacement(u0: Update, record: Record, spec: Spec, next: Record)
    requires Allowed(u0) && u0.next == record.intents && Requeued(record.intents, spec, next.intents)
    requires exists k :: 0 <= k < |record.intents| && record.intents[k].desired.SetFolderLocation?
    ensures exists k :: 0 <= k < |next.intents| && next.intents[k].desired.SetFolderLocation?
  {
    var k :| 0 <= k < |record.intents| && record.intents[k].desired.SetFolderLocation?;
    RetiredAs(u0, spec, k);
    assert KeptAt(record.intents, spec, next.intents, k);
  }

  lemma RemintedFits(was: Option<Record>, record: Record, operation: Option<OriginOperation>, folderId: EntryId,
                     spec: Spec, next: Record)
    requires Stored(was, record, operation) && Unlocked(record.intents) && record.hold.Spent?
    requires Requeued(record.intents, spec, next.intents) && spec.from == spec.to == 1
    requires next == record.(revision := record.revision + 1, hold := Local, folderId := folderId,
                             aliases := record.aliases + [record.folderId], intents := next.intents)
    ensures RecordFits(next) && Succeeds(record, next) && next.canonicalRefresh.None?
  {
    NoWindow(record);
    forall k | 0 <= k < |next.intents| ensures IntentFits(next, next.intents[k]) && !SettledHere(next.intents[k]) {
      RemintedIntentFits(JournalUpdate(was, record), record, spec, next, k);
    }
    if record.copiedBy.None? { RemintedKeepsPlacement(JournalUpdate(was, record), record, spec, next); }
  }

  /** What was sent under the old id still names the record, by its alias. */
  lemma AliasedFits(record: Record, next: Record, intent: Intent)
    requires RecordFits(record) && intent in record.intents && next.projectId == record.projectId
    requires next.aliases == record.aliases + [record.folderId]
    ensures forall now: Intent :: now == intent.(state := now.state, settledAt := now.settledAt) ==> IntentFits(next, now)
  {
    var k :| 0 <= k < |record.intents| && record.intents[k] == intent;
    assert IntentFits(record, record.intents[k]);
    forall i | 0 <= i < |intent.attempts| ensures RequestFits(next, intent.attempts[i].request) {
      assert RequestFits(record, intent.attempts[i].request);
      NamedAfter(record, next, intent.attempts[i].request);
    }
  }

  lemma NamedAfter(record: Record, next: Record, request: Request)
    requires RequestFits(record, request) && next.aliases == record.aliases + [record.folderId]
    ensures RequestFits(next, request)
  {
  }

  /**
   * A remint is taken exactly when no delete is queued behind the failed placement. With nothing in
   * flight it leaves a coherent record.
   */
  lemma RemintIsStoredExactly(was: Option<Record>, record: Record, operation: Option<OriginOperation>, folderId: EntryId,
                              retryId: string, rebased: map<string, string>, next: Record)
    requires Stored(was, record, operation) && Coherent(record)
    requires forall k :: 0 <= k < |record.intents| ==> !InFlight(record.intents[k])
    requires RemintFolder(record, folderId, retryId, rebased) == Ok(Some(next))
    requires FreshIds(record.intents, Spec(1, 1, record.folderId, folderId, retryId, rebased))
    requires MaxSequence(record.intents) + |Work(record.intents, 1)| <= MAX_SAFE_INTEGER
    ensures Stored(Some(record), next, operation) <==> Unblocked(record) && NoQueuedDelete(record.intents, 1)
    ensures Stored(Some(record), next, operation) ==> Coherent(next)
  {
    RemintedIsStoredExactly(was, record, operation, Spec(1, 1, record.folderId, folderId, retryId, rebased), next);
  }

  lemma RemintedIsStoredExactly(was: Option<Record>, record: Record, operation: Option<OriginOperation>, spec: Spec, next: Record)
    requires Stored(was, record, operation) && Coherent(record) && record.hold.Spent? && spec.from == spec.to == 1
    requires forall k :: 0 <= k < |record.intents| ==> !InFlight(record.intents[k])
    requires Reminted(record.intents, spec, next.intents) && spec.toId != record.folderId && spec.fromId == record.folderId
    requires next == record.(revision := record.revision + 1, hold := Local, folderId := spec.toId,
                             aliases := record.aliases + [record.folderId], intents := next.intents)
    requires FreshIds(record.intents, spec) && MaxSequence(record.intents) + |Work(record.intents, 1)| <= MAX_SAFE_INTEGER
    ensures Stored(Some(record), next, operation) <==> Unblocked(record) && NoQueuedDelete(record.intents, 1)
    ensures Stored(Some(record), next, operation) ==> Coherent(next)
  {
    var u0, u := JournalUpdate(was, record), JournalUpdate(Some(record), next);
    RemintIsUnlocked(u0, u, record, spec, next);
    RemintIsAllowedExactly(u0, u, spec, true);
    RemintedFits(was, record, operation, spec.toId, spec, next);
    FailureIsAnswered(record);
    RemintIsCoherent(u0, record, spec, next);
  }

  lemma RemintIsUnlocked(u0: Update, u: Update, record: Record, spec: Spec, next: Record)
    requires Allowed(u0) && u0.next == record.intents && RecordFits(record)
    requires u.previous == u0.next && u.next == next.intents && u.handle == u0.handle && u.identityRevision == spec.to
    requires Reminted(record.intents, spec, next.intents) && FreshIds(record.intents, spec)
    requires MaxSequence(record.intents) + |Work(record.intents, spec.from)| <= MAX_SAFE_INTEGER
    ensures StoresRemint(u0, u, spec, true) && Requeued(record.intents, spec, next.intents) && Unlocked(record.intents)
  {
    CopiesCarryWork(u0, spec, next.intents);
    RemintStores(u0, u, record, spec, next);
    RemintChanges(u0, u, spec, true);
  }

  lemma RemintIsCoherent(u0: Update, record: Record, spec: Spec, next: Record)
    requires Allowed(u0) && u0.next == record.intents && Requeued(record.intents, spec, next.intents) && Coherent(record)
    requires forall k :: 0 <= k < |record.intents| ==> !InFlight(record.intents[k])
    ensures Coherent(next)
  {
    forall k | 0 <= k < |next.intents| ensures CoherentAt(next, next.intents[k]) {
      RemintedAtRest(u0, record, spec, next, k);
    }
  }

  lemma RemintSupersedesOld(u0: Update, record: Record, spec: Spec, next: Record)
    requires Allowed(u0) && u0.next == record.intents && Requeued(record.intents, spec, next.intents)
    ensures SupersedesOld(record, next)
  {
    forall k | 0 <= k < |next.intents| && next.intents[k].state.Superseded?
      ensures k < |record.intents| && Moved(record.intents[k], next.intents[k])
    {
      if k < |record.intents| {
        RetiredAs(u0, spec, k);
        KeptIsRetired(record.intents, spec, next.intents, k);
      } else {
        CopyIsQueued(record.intents, spec, next.intents, k - |record.intents|);
      }
    }
  }

  lemma RemintStores(u0: Update, u: Update, record: Record, spec: Spec, next: Record)
    requires Allowed(u0) && u0.next == record.intents && RecordFits(record)
    requires u.previous == u0.next && u.next == next.intents && u.handle == u0.handle && u.identityRevision == spec.to
    requires Reminted(record.intents, spec, next.intents) && FreshIds(record.intents, spec)
    requires MaxSequence(record.intents) + |Work(record.intents, spec.from)| <= MAX_SAFE_INTEGER
    ensures StoresRemint(u0, u, spec, true)
  {
    forall k | 0 <= k < |record.intents| ensures record.intents[k].desired.Delete? || record.intents[k].desired.SetFolderLocation? {
      assert IntentFits(record, record.intents[k]);
    }
  }

  lemma FailureIsAnswered(record: Record)
    requires Coherent(record)
    ensures FailureAnswered(record.intents, 1)
  {
    var failed := Failed(record.intents, 1);
    if failed.Some? {
      var p :| 0 <= p < |record.intents| && record.intents[p] == failed.value;
      assert CoherentAt(record, record.intents[p]);
    }
  }

  lemma RetiredAtRest(u0: Update, record: Record, spec: Spec, k: nat)
    requires Allowed(u0) && u0.next == record.intents && Coherent(record) && k < |record.intents|
    requires !InFlight(record.intents[k])
    ensures !InFlight(MovedPart(u0, spec)[k]) && RepairAnswered(MovedPart(u0, spec)[k])
  {
    RetiredAs(u0, spec, k);
    assert CoherentAt(record, record.intents[k]);
  }

  lemma KeptAtRest(u0: Update, record: Record, spec: Spec, next: seq<Intent>, k: nat)
    requires Allowed(u0) && u0.next == record.intents && Coherent(record) && k < |record.intents| <= |next|
    requires !InFlight(record.intents[k]) && KeptAt(record.intents, spec, next, k)
    ensures !InFlight(next[k]) && RepairAnswered(next[k])
  {
    RetiredAtRest(u0, record, spec, k);
  }

  lemma CopyAtRest(intents: seq<Intent>, spec: Spec, next: seq<Intent>, i: nat)
    requires i < |Work(intents, spec.from)| && |next| == |intents| + |Work(intents, spec.from)| && CopyOf(intents, spec, next, i)
    ensures !InFlight(next[|intents| + i]) && RepairAnswered(next[|intents| + i])
  {
  }

  lemma RemintedAtRest(u0: Update, record: Record, spec: Spec, next: Record, k: nat)
    requires Allowed(u0) && u0.next == record.intents && Requeued(record.intents, spec, next.intents) && Coherent(record)
    requires forall i :: 0 <= i < |record.intents| ==> !InFlight(record.intents[i])
    requires k < |next.intents|
    ensures !InFlight(next.intents[k]) && RepairAnswered(next.intents[k])
  {
    if k < |record.intents| {
      KeptAtRest(u0, record, spec, next.intents, k);
    } else {
      CopyAtRest(record.intents, spec, next.intents, k - |record.intents|);
    }
  }
}
