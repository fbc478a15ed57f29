/**
 * Runs of one device and the server that come to the writes the store refuses: a folder created
 * here, its create under way, and a delete asked for before the answer is settled
 * (packages/resource-replica/src/folder-namespace.ts, folder-remint.ts).
 */
module FolderRuns {
  import opened Answers
  import opened FolderJournal
  import opened FolderPlans
  import opened FolderProtocol
  import opened FolderSteps
  import opened Journal
  import opened Records
  import opened Remint
  import opened ServerHold
  import opened Settlement
  import opened Wrappers

  const FOLDER := EntryId("f")
  const RENAMED := EntryId("g")
  const HOME := Destination(RootParent("manuscript", ProjectOwner), [], "n", None)
  const PLACE := Location("manuscript", "/n", "n", ProjectOwner)
  const IDS := AttemptIds("attempt", "operation")

  function NoFolder(): EntryId -> Option<Location> {
    (id: EntryId) => None
  }

  function Create(state: State, attempts: seq<Attempt>, settledAt: Option<Stamp>): Intent {
    Intent("h", "p", "create", None, 1, None, 1, SetFolderLocation("n", HOME), attempts, settledAt, state)
  }

  function Queued(): Intent {
    Intent("h", "p", "delete", Some("d"), 2, None, 1, Delete, [], None, Pending)
  }

  function SentCreate(outcome: Option<Outcome>): Attempt {
    Attempt("attempt", CreateFolderRequest(ProjectOwner, FOLDER, HOME), outcome)
  }

  function InFlightCreate(): Intent { Create(Submitted, [SentCreate(None)], None) }

  function AnsweredCreate(outcome: Outcome): Intent { Create(Received, [SentCreate(Some(outcome))], None) }

  function FolderRecord(revision: nat, hold: Hold, intents: seq<Intent>): Record {
    Record(Some("p"), "h", FOLDER, [], revision, hold, None, None, None, None, None, None, None, intents)
  }

  function Asked(record: Record): Target {
    Target(Some(record), "p", "h", FOLDER, None, None, None)
  }

  // ------------------------------------------------------------------------------------------
  // Reading short journals
  // ------------------------------------------------------------------------------------------

  lemma OneIntent(a: Intent)
    ensures ActiveIntent([a]) == (if Ended(a.state) then None else Some(a))
    ensures a.sequence > 0 ==> MaxSequence([a]) == a.sequence
    ensures forall id :: Find([a], id) == (if id == a.intentId then Some(a) else None)
  {
    assert [a][..0] == [] && [a][1..] == [];
  }

  lemma TwoIntents(a: Intent, b: Intent)
    requires 0 < a.sequence < b.sequence && a.intentId != b.intentId
    ensures ActiveIntent([a, b]) == (if !Ended(a.state) then Some(a) else if !Ended(b.state) then Some(b) else None)
    ensures MaxSequence([a, b]) == b.sequence
  {
    OneIntent(a);
    OneIntent(b);
    assert [a, b][..1] == [a] && [a, b][1..] == [b];
  }

  // ------------------------------------------------------------------------------------------
  // The steps
  // ------------------------------------------------------------------------------------------

  function Planned(): Record { FolderRecord(1, Local, [Create(Pending, [], None)]) }

  function Sending(): Record { FolderRecord(2, Uncertain, [InFlightCreate()]) }

  function SendingThenDelete(): Record { FolderRecord(3, Uncertain, [InFlightCreate(), Queued()]) }

  lemma PlanIs()
    ensures PlanFolderCreate("p", "manuscript", "h", FOLDER, "create", None, HOME) == Ok(Planned())
  {
    assert ValidName("n");
  }

  lemma PrepareIs()
    ensures PrepareFolderAttempt(Planned(), IDS, NoFolder()) == Some(Sending())
  {
    OneIntent(Create(Pending, [], None));
    assert ReplaceIntent(Planned().intents, "create", InFlightCreate()) == [InFlightCreate()];
    assert Sent(Create(Pending, [], None), SentCreate(None)) == InFlightCreate();
  }

  lemma DiscardIs()
    ensures RoomFor(Sending(), "delete")
    ensures PlanFolderDeletion(Asked(Sending()), "delete", "d", None, 0) == Ok(Some(SendingThenDelete()))
  {
    OneIntent(InFlightCreate());
    NotDeleted(Sending());
    assert SupersedeRepairable([InFlightCreate()], Some("p")) == [InFlightCreate()];
    assert CancelAllUnsent([InFlightCreate()]) == [InFlightCreate()];
    assert DeletionIntent(Sending(), "p", "delete", "d", None) == Queued();
    assert [InFlightCreate()] + [Queued()] == [InFlightCreate(), Queued()];
  }

  lemma NotDeleted(record: Record)
    requires record.terminal.None? && forall i :: 0 <= i < |record.intents| ==> !record.intents[i].desired.Delete?
    ensures !FolderOwnsDeletion(record)
  {
  }

  lemma AnswerIs(record: Record, outcome: Outcome, next: Record)
    requires record.intents == [InFlightCreate()] || record.intents == [InFlightCreate(), Queued()]
    requires AnswersAttempt(SentCreate(None), outcome)
    requires next == record.(revision := record.revision + 1, hold := HoldAfterAttempt(record.hold, SentCreate(Some(outcome))),
                             intents := if |record.intents| == 1 then [AnsweredCreate(outcome)]
                                        else [AnsweredCreate(outcome), Queued()])
    ensures RecordFolderOutcome(record, "create", "attempt", outcome) == Ok(Some(next))
  {
    OneIntent(InFlightCreate());
    TwoIntents(InFlightCreate(), Queued());
    assert Answered(InFlightCreate(), outcome) == AnsweredCreate(outcome);
    assert ReplaceIntent(record.intents, "create", AnsweredCreate(outcome)) == next.intents;
  }

  lemma StartsPlanned()
    ensures Starts(System(Planned(), map[], {}))
  {
    PlanIs();
  }

  lemma PreparesCreate()
    ensures Acts(System(Planned(), map[], {}), Prepare(IDS, NoFolder()), System(Sending(), map[], {}))
  {
    StartsPlanned();
    StartIsSafe(System(Planned(), map[], {}));
    PrepareIs();
    OneIntent(Create(Pending, [], None));
    PreparedIsSound(Planned(), IDS, NoFolder(), Sending());
    var was :| Stored(was, Planned(), None);
    CommitsBy(System(Planned(), map[], {}), was, Sending());
  }

  lemma CommitsBy(s: System, was: Option<Record>, next: Record)
    requires Stored(was, s.record, None) && Stored(Some(s.record), next, None)
    ensures Commits(s, next)
  {
  }

  lemma SendsCreate()
    ensures Acts(System(Sending(), map[], {}), SendCreate, System(Sending(), map[], {FOLDER}))
  {
    assert Sending().intents[0] == InFlightCreate();
  }

  lemma ActHolds(states: seq<System>, acts: seq<Act>, i: nat, s: System, act: Act, s': System)
    requires i < |acts| && |states| == |acts| + 1
    requires states[i] == s && acts[i] == act && states[i + 1] == s' && Acts(s, act, s')
    ensures ActsAt(states, acts, i)
  {
  }

  /** One act more. */
  lemma RunGrows(states: seq<System>, acts: seq<Act>, act: Act, s: System)
    requires RunsAs(states, acts) && Acts(states[|acts|], act, s)
    ensures RunsAs(states + [s], acts + [act])
  {
    var states', acts' := states + [s], acts + [act];
    forall i | 0 <= i < |acts'| ensures ActsAt(states', acts', i) {
      if i < |acts| {
        assert ActsAt(states, acts, i);
        ActHolds(states', acts', i, states[i], acts[i], states[i + 1]);
      } else {
        ActHolds(states', acts', i, states[|acts|], act, s);
      }
    }
  }

  lemma RunStarts(s: System)
    requires Starts(s)
    ensures RunsAs([s], [])
  {
  }

  /** Planned, prepared and sent. */
  lemma SentRuns() returns (states: seq<System>, acts: seq<Act>)
    ensures RunsAs(states, acts) && |acts| == 2 && states[2] == System(Sending(), map[], {FOLDER})
  {
    StartsPlanned();
    RunStarts(System(Planned(), map[], {}));
    PreparesCreate();
    var prepare := Prepare(IDS, NoFolder());
    RunGrows([System(Planned(), map[], {})], [], prepare, System(Sending(), map[], {}));
    states, acts := [System(Planned(), map[], {})] + [System(Sending(), map[], {})], [] + [prepare];
    SendsCreate();
    RunGrows(states, acts, SendCreate, System(Sending(), map[], {FOLDER}));
    states, acts := states + [System(Sending(), map[], {FOLDER})], acts + [SendCreate];
  }

  lemma RecordsWrite(states: seq<System>, acts: seq<Act>, next: Record)
    requires RunsAs(states, acts) && Stored(Some(states[|acts|].record), next, None)
    ensures Commits(states[|acts|], next)
  {
    RunIsSafe(states, acts, |acts|);
  }

  // ------------------------------------------------------------------------------------------
  // Deleting while the refusal of the create waits to be settled
  // ------------------------------------------------------------------------------------------

  const REFUSED := Refusal("f", false)

  function RefusalWaits(): Record { FolderRecord(3, Local, [AnsweredCreate(REFUSED)]) }

  /** The answer to the create in flight is recorded. */
  lemma TakesAnswer(states: seq<System>, acts: seq<Act>, record: Record, rows: map<EntryId, Row>, outcome: Outcome, answered: Record)
    requires RunsAs(states, acts) && states[|acts|] == System(record, rows, {FOLDER})
    requires record == Sending() || record == SendingThenDelete()
    requires outcome == AnswerTo(rows, FOLDER, false, PLACE) && AnswersAttempt(SentCreate(None), outcome)
    requires answered == record.(revision := record.revision + 1, hold := HoldAfterAttempt(record.hold, SentCreate(Some(outcome))),
                                 intents := if |record.intents| == 1 then [AnsweredCreate(outcome)]
                                            else [AnsweredCreate(outcome), Queued()])
    ensures Acts(states[|acts|], TakeAnswered(false, "create", "attempt", PLACE), System(answered, rows, {}))
  {
    AnswerIs(record, outcome, answered);
    RunIsSafe(states, acts, |acts|);
    RecordedIsSound(record, "create", "attempt", outcome, answered);
    RecordsWrite(states, acts, answered);
  }

  lemma RefusalComes() returns (states: seq<System>, acts: seq<Act>)
    ensures RunsAs(states, acts) && |acts| == 3 && states[3].record == RefusalWaits()
  {
    states, acts := SentRuns();
    TakesAnswer(states, acts, Sending(), map[], REFUSED, RefusalWaits());
    var act := TakeAnswered(false, "create", "attempt", PLACE);
    RunGrows(states, acts, act, System(RefusalWaits(), map[], {}));
    states, acts := states + [System(RefusalWaits(), map[], {})], acts + [act];
  }

  /** The create is refused; before the refusal is settled, the deletion the writer asks for is refused too. */
  lemma WaitingRefusalBlocksDeletion() returns (states: seq<System>, acts: seq<Act>, next: Record)
    ensures RunsAs(states, acts) && states[|acts|].record == RefusalWaits()
    ensures PlanFolderDeletion(Asked(RefusalWaits()), "delete", "d", None, 0) == Ok(Some(next))
    ensures !Stored(Some(RefusalWaits()), next, None)
  {
    states, acts := RefusalComes();
    NotDeleted(RefusalWaits());
    OneIntent(AnsweredCreate(REFUSED));
    next := PlanFolderDeletion(Asked(RefusalWaits()), "delete", "d", None, 0).value.value;
    DeletionsAreTakenExactly(states, acts, 3, Asked(RefusalWaits()), "delete", "d", None, 0, next);
    assert !Retirable(RefusalWaits().intents[0]);
  }

  // ------------------------------------------------------------------------------------------
  // A delete queued behind the create
  // ------------------------------------------------------------------------------------------

  lemma AsksForDelete(states: seq<System>, acts: seq<Act>)
    requires RunsAs(states, acts) && states[|acts|] == System(Sending(), map[], {FOLDER})
    ensures Acts(states[|acts|], Discard(Asked(Sending()), "delete", "d", None, 0), System(SendingThenDelete(), map[], {FOLDER}))
  {
    DiscardIs();
    RunIsSafe(states, acts, |acts|);
    DiscardedIsSound(Sending(), Asked(Sending()), "delete", "d", None, 0, SendingThenDelete());
    RecordsWrite(states, acts, SendingThenDelete());
  }

  lemma DeleteIsQueued() returns (states: seq<System>, acts: seq<Act>)
    ensures RunsAs(states, acts) && states[|acts|] == System(SendingThenDelete(), map[], {FOLDER})
  {
    states, acts := SentRuns();
    AsksForDelete(states, acts);
    var act := Discard(Asked(Sending()), "delete", "d", None, 0);
    RunGrows(states, acts, act, System(SendingThenDelete(), map[], {FOLDER}));
    states, acts := states + [System(SendingThenDelete(), map[], {FOLDER})], acts + [act];
  }

  /** The answer to the create is recorded and settled behind a run that queued the delete. */
  lemma AnswerThenSettle(states: seq<System>, acts: seq<Act>, rows: map<EntryId, Row>, outcome: Outcome, answered: Record,
                         settled: Record)
    returns (states': seq<System>, acts': seq<Act>)
    requires RunsAs(states, acts) && states[|acts|] == System(SendingThenDelete(), rows, {FOLDER})
    requires outcome == AnswerTo(rows, FOLDER, false, PLACE) && AnswersAttempt(SentCreate(None), outcome)
    requires answered == FolderRecord(4, HoldAfterAttempt(Uncertain, SentCreate(Some(outcome))), [AnsweredCreate(outcome), Queued()])
    requires SettleFolderOutcome(answered, 0) == Some(settled)
    ensures RunsAs(states', acts') && states'[|acts'|] == System(settled, rows, {})
  {
    TakesAnswer(states, acts, SendingThenDelete(), rows, outcome, answered);
    var act := TakeAnswered(false, "create", "attempt", PLACE);
    RunGrows(states, acts, act, System(answered, rows, {}));
    states', acts' := states + [System(answered, rows, {})], acts + [act];
    SettlesAnswer(states', acts', rows, answered, settled);
    RunGrows(states', acts', Settle(0), System(settled, rows, {}));
    states', acts' := states' + [System(settled, rows, {})], acts' + [Settle(0)];
  }

  lemma SettlesAnswer(states: seq<System>, acts: seq<Act>, rows: map<EntryId, Row>, answered: Record, settled: Record)
    requires RunsAs(states, acts) && states[|acts|] == System(answered, rows, {})
    requires SettleFolderOutcome(answered, 0) == Some(settled)
    ensures Acts(states[|acts|], Settle(0), System(settled, rows, {}))
  {
    RunIsSafe(states, acts, |acts|);
    SettledIsSound(answered, 0, settled);
    RecordsWrite(states, acts, settled);
  }

  function RefusedThenDelete(): Record {
    FolderRecord(5, Local, [Create(Superseded, [SentCreate(Some(REFUSED))], Some(At(0))), Queued()])
  }

  lemma RefusalSettles()
    ensures SettleFolderOutcome(FolderRecord(4, Local, [AnsweredCreate(REFUSED), Queued()]), 0) == Some(RefusedThenDelete())
  {
    var record := FolderRecord(4, Local, [AnsweredCreate(REFUSED), Queued()]);
    TwoIntents(AnsweredCreate(REFUSED), Queued());
    var marked := MarkAll(record.intents, AnsweredCreate(REFUSED), NeedsRepair, 0);
    assert marked == [Create(NeedsRepair, [SentCreate(Some(REFUSED))], Some(At(0))), Queued()];
    assert DeletedAfter(marked, AnsweredCreate(REFUSED)) by { assert DeletesAfter(marked[1], AnsweredCreate(REFUSED)); }
    assert ResolveRefusedLocationChain(marked, AnsweredCreate(REFUSED)) == RefusedThenDelete().intents;
  }

  /** The create is refused with a delete queued behind it: the write that would delete the folder here is refused too. */
  lemma QueuedDeleteIsRefused() returns (states: seq<System>, acts: seq<Act>, next: Record)
    ensures RunsAs(states, acts) && states[|acts|].record == RefusedThenDelete()
    ensures PrepareFolderAttempt(RefusedThenDelete(), IDS, NoFolder()) == Some(next)
    ensures !Stored(Some(RefusedThenDelete()), next, None)
  {
    states, acts := DeleteIsQueued();
    RefusalSettles();
    states, acts := AnswerThenSettle(states, acts, map[], REFUSED, FolderRecord(4, Local, [AnsweredCreate(REFUSED), Queued()]),
                                     RefusedThenDelete());
    next := RefusedPreparation(states, acts);
  }

  lemma RefusedPreparation(states: seq<System>, acts: seq<Act>) returns (next: Record)
    requires RunsAs(states, acts) && states[|acts|].record == RefusedThenDelete()
    ensures PrepareFolderAttempt(RefusedThenDelete(), IDS, NoFolder()) == Some(next)
    ensures !Stored(Some(RefusedThenDelete()), next, None)
  {
    TwoIntents(Create(Superseded, [SentCreate(Some(REFUSED))], Some(At(0))), Queued());
    next := PrepareFolderAttempt(RefusedThenDelete(), IDS, NoFolder()).value;
    PreparationsAreTakenExactly(states, acts, |acts|, IDS, NoFolder(), next);
  }

  // ------------------------------------------------------------------------------------------
  // Replacing the id with a delete queued
  // ------------------------------------------------------------------------------------------

  const OUT_OF_REACH := FolderCreated(true, FOLDER, "manuscript", "/n", "n")

  function ConflictThenDelete(): Record {
    FolderRecord(5, Spent, [Create(NeedsRepair, [SentCreate(Some(OUT_OF_REACH))], Some(At(0))), Queued()])
  }

  lemma ConflictSettles()
    ensures SettleFolderOutcome(FolderRecord(4, Spent, [AnsweredCreate(OUT_OF_REACH), Queued()]), 0) == Some(ConflictThenDelete())
  {
    var record := FolderRecord(4, Spent, [AnsweredCreate(OUT_OF_REACH), Queued()]);
    TwoIntents(AnsweredCreate(OUT_OF_REACH), Queued());
    assert MarkAll(record.intents, AnsweredCreate(OUT_OF_REACH), NeedsRepair, 0) == ConflictThenDelete().intents;
  }

  function Rebased(): map<string, string> { map["delete" := "delete again"] }

  /** The work of a journal that holds one failed placement and one intent queued behind it. */
  ghost predicate WorkIsBoth(intents: seq<Intent>, failed: Intent, queued: Intent) {
    && intents == [failed, queued] && Failed(intents, 1) == Some(failed)
    && Dependents(intents, Some(failed), 1) == [queued] && Work(intents, 1) == [failed, queued]
  }

  lemma WorkIs(failed: Intent, queued: Intent)
    requires FailedPlacement(failed, 1) && Dependent(queued, Some(failed), 1)
    ensures WorkIsBoth([failed, queued], failed, queued)
  {
    var intents := [failed, queued];
    assert intents[..1] == [failed] && [failed][..0] == [];
    assert Failed([failed], 1) == Some(failed);
    assert Dependents([failed], Some(failed), 1) == [];
  }

  lemma RemintsBoth(record: Record, failed: Intent, queued: Intent, folderId: EntryId, retryId: string, rebased: map<string, string>)
    returns (next: Record)
    requires WorkIsBoth(record.intents, failed, queued) && AwaitsRemint(record) && folderId != record.folderId
    requires queued.intentId in rebased && rebased[queued.intentId] != ""
    ensures RemintFolder(record, folderId, retryId, rebased) == Ok(Some(next))
  {
    next := RemintFolder(record, folderId, retryId, rebased).value.value;
  }

  lemma DeleteIsQueuedBehind(intents: seq<Intent>, failed: Intent, queued: Intent)
    requires WorkIsBoth(intents, failed, queued) && Dependent(queued, Some(failed), 1) && queued.desired.Delete?
    ensures !NoQueuedDelete(intents, 1)
  {
    assert Dependent(intents[1], Failed(intents, 1), 1);
  }

  lemma BothAreFresh(intents: seq<Intent>, failed: Intent, queued: Intent, spec: Spec)
    requires WorkIsBoth(intents, failed, queued) && failed != queued && spec.from == 1
    requires queued.intentId in spec.rebased && spec.rebased[queued.intentId] != spec.retryId
    requires Find(intents, spec.retryId).None? && Find(intents, spec.rebased[queued.intentId]).None?
    ensures FreshIds(intents, spec)
  {
    assert CopyId(Some(failed), spec, failed) == spec.retryId;
    assert CopyId(Some(failed), spec, queued) == spec.rebased[queued.intentId];
  }

  lemma FindsNeither(a: Intent, b: Intent, id: string)
    requires a.intentId != id && b.intentId != id
    ensures Find([a, b], id).None?
  {
  }

  function FailedCreate(): Intent { Create(NeedsRepair, [SentCreate(Some(OUT_OF_REACH))], Some(At(0))) }

  lemma ConflictWorkIs()
    ensures WorkIsBoth(ConflictThenDelete().intents, FailedCreate(), Queued()) && Dependent(Queued(), Some(FailedCreate()), 1)
  {
    WorkIs(FailedCreate(), Queued());
  }

  lemma RemintHasRoom()
    ensures FreshIds(ConflictThenDelete().intents, Spec(1, 1, FOLDER, RENAMED, "retry", Rebased()))
    ensures MaxSequence(ConflictThenDelete().intents) + |Work(ConflictThenDelete().intents, 1)| <= MAX_SAFE_INTEGER
  {
    ConflictWorkIs();
    TwoIntents(FailedCreate(), Queued());
    FindsNeither(FailedCreate(), Queued(), "retry");
    FindsNeither(FailedCreate(), Queued(), "delete again");
    BothAreFresh(ConflictThenDelete().intents, FailedCreate(), Queued(), Spec(1, 1, FOLDER, RENAMED, "retry", Rebased()));
  }

  lemma RemintIs() returns (next: Record)
    ensures RemintFolder(ConflictThenDelete(), RENAMED, "retry", Rebased()) == Ok(Some(next))
    ensures !NoQueuedDelete(ConflictThenDelete().intents, 1)
  {
    ConflictWorkIs();
    DeleteIsQueuedBehind(ConflictThenDelete().intents, FailedCreate(), Queued());
    assert AwaitsRemint(ConflictThenDelete()) by { assert FailedPlacement(ConflictThenDelete().intents[0], 1); }
    next := RemintsBoth(ConflictThenDelete(), FailedCreate(), Queued(), RENAMED, "retry", Rebased());
  }

  lemma ConflictIsAtRest()
    ensures AtRest(ConflictThenDelete())
  {
  }

  /** The create lands unheard, and its row is put out of the writer's reach. */
  lemma CreateLandsAndHides() returns (states: seq<System>, acts: seq<Act>)
    ensures RunsAs(states, acts) && states[|acts|] == System(SendingThenDelete(), map[FOLDER := Hidden], {FOLDER})
  {
    states, acts := DeleteIsQueued();
    var landed := System(SendingThenDelete(), map[FOLDER := Reachable], {FOLDER});
    RunGrows(states, acts, TakeUnheard(true, false), landed);
    states, acts := states + [landed], acts + [TakeUnheard(true, false)];
    var hidden := System(SendingThenDelete(), map[FOLDER := Hidden], {FOLDER});
    assert map[FOLDER := Reachable][FOLDER := Hidden] == map[FOLDER := Hidden];
    RunGrows(states, acts, Hide(FOLDER), hidden);
    states, acts := states + [hidden], acts + [Hide(FOLDER)];
  }

  /** The id is out of the writer's reach with a delete queued behind the create: the remint is refused. */
  lemma QueuedDeleteBlocksRemint() returns (states: seq<System>, acts: seq<Act>, next: Record)
    ensures RunsAs(states, acts) && states[|acts|].record == ConflictThenDelete()
    ensures RemintFolder(ConflictThenDelete(), RENAMED, "retry", Rebased()) == Ok(Some(next))
    ensures !Stored(Some(ConflictThenDelete()), next, None)
  {
    states, acts := CreateLandsAndHides();
    ConflictSettles();
    states, acts := AnswerThenSettle(states, acts, map[FOLDER := Hidden], OUT_OF_REACH,
                                     FolderRecord(4, Spent, [AnsweredCreate(OUT_OF_REACH), Queued()]), ConflictThenDelete());
    next := RefusedRemint(states, acts);
  }

  lemma RefusedRemint(states: seq<System>, acts: seq<Act>) returns (next: Record)
    requires RunsAs(states, acts) && states[|acts|].record == ConflictThenDelete()
    ensures RemintFolder(ConflictThenDelete(), RENAMED, "retry", Rebased()) == Ok(Some(next))
    ensures !Stored(Some(ConflictThenDelete()), next, None)
  {
    next := RemintIs();
    RemintHasRoom();
    ConflictIsAtRest();
    RunIsSafe(states, acts, |acts|);
    RemintedIsSound(ConflictThenDelete(), RENAMED, "retry", Rebased(), next);
  }
}
