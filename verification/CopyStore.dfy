/**
 * The store's own rule for a Copy's operation, and that it takes every write a Copy comes to
 * (packages/resource-replica/src/operation-journal.ts:64-98).
 */
module CopyStore {
  import opened Answers
  import opened CopyJournal
  import opened Journal
  import opened JournalHistory
  import opened Records
  import opened Settlement
  import opened Wrappers

  function UpdateOf(was: Option<CopyOperation>, next: CopyOperation): Update {
    Update(if was.Some? then was.value.intents else [], next.operationId, next.intents, 1, false, false)
  }

  /** Sent under the operation's id, never another. */
  predicate SentUnder(operation: CopyOperation, attempt: Attempt) {
    attempt.request.CopyRequest? && attempt.request.operationId == operation.operationId
  }

  predicate IntentFits(operation: CopyOperation, intent: Intent) {
    && intent.projectId == operation.projectId && intent.identityRevision == 1 && intent.desired.Copy?
    && forall k :: 0 <= k < |intent.attempts| ==> SentUnder(operation, intent.attempts[k])
  }

  /** `validateOperationRecordUpdate`. */
  ghost predicate Stored(was: Option<CopyOperation>, next: CopyOperation) {
    && next.revision == (if was.Some? then was.value.revision else 0) + 1
    && (was.Some? ==> next.operationId == was.value.operationId && next.projectId == was.value.projectId)
    && (forall i :: 0 <= i < |next.intents| ==> IntentFits(next, next.intents[i]))
    && Allowed(UpdateOf(was, next))
  }

  // ------------------------------------------------------------------------------------------
  // What a stored operation's one intent may become
  // ------------------------------------------------------------------------------------------

  predicate AnsweredOnce(intent: Intent) {
    |intent.attempts| == 1 && intent.attempts[0].outcome.Some?
  }

  predicate StateFits(intent: Intent) {
    match intent.state
    case Pending => intent.attempts == [] && intent.settledAt.None?
    case Submitted => |intent.attempts| == 1 && intent.attempts[0].outcome.None? && intent.settledAt.None?
    case Received => AnsweredOnce(intent) && intent.settledAt.None?
    case Settled => AnsweredOnce(intent) && AcceptedAnswer(intent)
    case NeedsRepair => intent.attempts == [] || AnsweredOnce(intent)
    case Superseded => intent.attempts == [] || AnsweredOnce(intent)
    case _ => false
  }

  /** One intent, in a state the steps of a Copy lead to. */
  ghost predicate Recorded(operation: CopyOperation) {
    && |operation.intents| == 1
    && var intent := operation.intents[0];
       && IntentFits(operation, intent) && intent.handle == operation.operationId
       && 1 <= intent.sequence <= MAX_SAFE_INTEGER && Timed(intent) && Evidenced(intent) && StateFits(intent)
  }

  predicate Sends(was: Intent, now: Intent) {
    && was.state.Pending? && |now.attempts| == 1 && now.attempts[0].outcome.None?
    && now == was.(state := Submitted, attempts := now.attempts)
  }

  predicate TakesAnswer(was: Intent, now: Intent) {
    && was.state.Submitted? && AnsweredOnce(now) && |was.attempts| == 1 && OutcomeMatches(now.attempts[0])
    && now.attempts[0] == was.attempts[0].(outcome := now.attempts[0].outcome)
    && now == was.(state := Received, attempts := now.attempts)
  }

  predicate Ends(was: Intent, now: Intent) {
    && now == was.(state := now.state, settledAt := now.settledAt)
    && (was.settledAt.Some? ==> now.settledAt == was.settledAt) && Timed(now)
    && match now.state
       case Settled => was.state.Received? && AcceptedAnswer(was)
       case NeedsRepair => was.state.Pending? || was.state.Received?
       case Superseded => was.state.NeedsRepair?
       case _ => false
  }

  predicate GoesOn(was: Intent, now: Intent) {
    Sends(was, now) || TakesAnswer(was, now) || Ends(was, now)
  }

  /** The next step of a Copy is one the store takes, and one to go on from. */
  lemma NextIsStored(operation: CopyOperation, now: Intent, next: CopyOperation)
    requires Recorded(operation) && GoesOn(operation.intents[0], now) && IntentFits(operation, now)
    requires next == operation.(revision := operation.revision + 1, intents := [now])
    ensures Stored(Some(operation), next) && Recorded(next)
  {
    var was := operation.intents[0];
    assert operation.intents == [was];
    FindIs([was], 0);
    NextIsStep(was, now);
    NextStateHolds(UpdateOf(Some(operation), next), was, now);
    OneIntentIsAllowed(UpdateOf(Some(operation), next), was, now);
  }

  lemma NextIsStep(was: Intent, now: Intent)
    requires StateFits(was) && Timed(was) && Evidenced(was) && GoesOn(was, now)
    ensures SameIntention(was, now) && CompletedStays(was, now) && StaysReceived(was, now) && AttemptsKept(was, now)
    ensures Timed(now) && Evidenced(now) && StateFits(now) && now.handle == was.handle && now.sequence == was.sequence
  {
  }

  lemma NextStateHolds(u: Update, was: Intent, now: Intent)
    requires Find(u.previous, now.intentId) == Some(was) && StateFits(was) && GoesOn(was, now) && StateFits(now)
    ensures StateHolds(u, now)
  {
  }

  // ------------------------------------------------------------------------------------------
  // Every act's write
  // ------------------------------------------------------------------------------------------

  /** A clock that reads no time before its epoch. */
  predicate Clocked(act: Act) {
    act.Settle? ==> act.settledAt >= 0
  }

  ghost predicate WritesNext(s: System, s': System, now: Intent) {
    && |s.operation.intents| == 1 && GoesOn(s.operation.intents[0], now) && IntentFits(s.operation, now)
    && s'.operation == s.operation.(revision := s.operation.revision + 1, intents := [now])
  }

  lemma RefusalIsNext(s: System, s': System)
    requires Sound(s) && Recorded(s.operation)
    requires s.operation.intents[0].state.Pending? || s.operation.intents[0].state.Received?
    requires s'.operation == Refused(s.operation, s.operation.intents[0]).next
    ensures WritesNext(s, s', s.operation.intents[0].(state := NeedsRepair))
  {
  }

  lemma PreparedIsNext(s: System, act: Act, s': System) returns (now: Intent)
    requires Sound(s) && Recorded(s.operation) && act.Prepare? && Acts(s, act, s')
    ensures WritesNext(s, s', now)
  {
    ActiveIsOnly(s.operation);
    var intent := s.operation.intents[0];
    now := s'.operation.intents[0];
    if ParentPlace(intent.desired.parent, act.destination).None? || AllPlaced(act.sources).None? {
      RefusalIsNext(s, s');
    } else {
      assert s'.operation.intents == [now];
    }
  }

  lemma RecordedIsNext(s: System, act: Act, s': System) returns (now: Intent)
    requires Sound(s) && Recorded(s.operation) && act.Record? && Acts(s, act, s')
    ensures WritesNext(s, s', now)
  {
    FoundIsOnly(s.operation, act.intentId);
    var intent := s.operation.intents[0];
    RecordedAnswersMatch(intent.attempts[0], act.outcome);
    var answered := intent.attempts[0].(outcome := Some(act.outcome));
    now := intent.(state := Received, attempts := [answered]);
    assert intent.attempts[0 := answered] == [answered];
    assert s'.operation.intents == [now];
  }

  lemma SettledIsNext(s: System, act: Act, s': System) returns (now: Intent)
    requires Sound(s) && Recorded(s.operation) && act.Settle? && Clocked(act) && Acts(s, act, s')
    ensures WritesNext(s, s', now)
  {
    SettlingWrites(s, act, s');
    var intent := s.operation.intents[0];
    now := s'.operation.intents[0];
    if s'.operation == Refused(s.operation, intent).next {
      RefusalIsNext(s, s');
    } else {
      SettledEnds(s.operation, intent, now, act.settledAt);
    }
  }

  /** Settling refuses the Copy or marks its one intent with what the answer means. */
  lemma SettlingWrites(s: System, act: Act, s': System)
    requires Sound(s) && act.Settle? && Acts(s, act, s')
    ensures s.operation.intents[0].state.Received?
    ensures var intent := s.operation.intents[0];
            || s'.operation == Refused(s.operation, intent).next
            || s'.operation == s.operation.(revision := s.operation.revision + 1, intents := [SettledAs(intent, act.settledAt)])
  {
    ActiveIsOnly(s.operation);
    var intent := s.operation.intents[0];
    assert s.operation.intents == [intent];
    SettledAlone(intent, DispositionOf(intent.attempts[0].outcome.value, false), act.settledAt);
  }

  function SettledAs(intent: Intent, settledAt: int): Intent
    requires Answer(intent).Some?
  {
    intent.(state := SettledState(DispositionOf(Answer(intent).value, false)), settledAt := Some(At(settledAt)))
  }

  lemma SettledEnds(operation: CopyOperation, intent: Intent, now: Intent, settledAt: int)
    requires intent.state.Received? && StateFits(intent) && IntentFits(operation, intent) && settledAt >= 0
    requires now == SettledAs(intent, settledAt)
    ensures Ends(intent, now) && IntentFits(operation, now)
  {
  }

  lemma ResolvedIsNext(s: System, act: Act, s': System) returns (now: Intent)
    requires Sound(s) && Recorded(s.operation) && act.Resolve? && Acts(s, act, s')
    ensures WritesNext(s, s', now)
  {
    now := s.operation.intents[0].(state := Superseded);
    assert s'.operation.intents == [now];
  }

  lemma ActIsNext(s: System, act: Act, s': System) returns (now: Intent)
    requires Sound(s) && Recorded(s.operation) && Clocked(act) && Acts(s, act, s')
    ensures WritesNext(s, s', now)
  {
    ActiveIsOnly(s.operation);
    match act
    case Prepare(_, _, _) => now := PreparedIsNext(s, act, s');
    case Record(_, _, _) => now := RecordedIsNext(s, act, s');
    case Settle(_) => now := SettledIsNext(s, act, s');
    case GiveUp => now := s'.operation.intents[0]; RefusalIsNext(s, s');
    case PlacingFails => now := s'.operation.intents[0]; RefusalIsNext(s, s');
    case Resolve => now := ResolvedIsNext(s, act, s');
  }

  /** A new Copy is taken. */
  lemma PlannedIsTaken(s: System)
    requires Planned(s)
    ensures Stored(None, s.operation) && Recorded(s.operation)
  {
    var u := UpdateOf(None, s.operation);
    assert NextHolds(u, 0);
    AllowedExactly(u);
  }

  lemma ActIsTaken(s: System, act: Act, s': System)
    requires Sound(s) && Recorded(s.operation) && Clocked(act) && Acts(s, act, s')
    ensures Stored(Some(s.operation), s'.operation) && Recorded(s'.operation)
  {
    var now := ActIsNext(s, act, s');
    NextIsStored(s.operation, now, s'.operation);
  }

  ghost predicate AllClocked(acts: seq<Act>) {
    forall k :: 0 <= k < |acts| ==> Clocked(acts[k])
  }

  lemma ActAt(states: seq<System>, acts: seq<Act>, i: nat)
    requires RunsAs(states, acts) && AllClocked(acts) && i < |acts|
    ensures Acts(states[i], acts[i], states[i + 1]) && Clocked(acts[i])
  {
    assert ActsAt(states, acts, i);
  }

  lemma {:induction false} RunIsRecorded(states: seq<System>, acts: seq<Act>, i: nat)
    requires RunsAs(states, acts) && i < |states| && AllClocked(acts)
    ensures Sound(states[i]) && Recorded(states[i].operation)
    decreases i
  {
    if i == 0 {
      RunIsSound(states, acts, 0);
      PlannedIsTaken(states[0]);
    } else {
      RunIsRecorded(states, acts, i - 1);
      ActAt(states, acts, i - 1);
      ActIsTaken(states[i - 1], acts[i - 1], states[i]);
      ActKeepsSound(states[i - 1], acts[i - 1], states[i]);
    }
  }

  /**
   * The store takes the new Copy, and in every state the Copy comes to whatever is written next: the
   * request, its answer, the settlement, a refusal, the dismissal.
   */
  lemma WritesAreTaken(states: seq<System>, acts: seq<Act>, i: nat, act: Act, s': System)
    requires RunsAs(states, acts) && i < |states| && AllClocked(acts)
    requires Clocked(act) && Acts(states[i], act, s')
    ensures Stored(None, states[0].operation) && Stored(Some(states[i].operation), s'.operation)
  {
    PlannedIsTaken(states[0]);
    RunIsRecorded(states, acts, i);
    ActIsTaken(states[i], act, s');
  }

  // ------------------------------------------------------------------------------------------
  // The end of a Copy
  // ------------------------------------------------------------------------------------------

  lemma EndedTakesNoAct(s: System, act: Act, s': System)
    requires Sound(s) && Ended(s.operation.intents[0].state)
    ensures !Acts(s, act, s')
  {
    ActiveIsOnly(s.operation);
    if act.Record? { FoundIsOnly(s.operation, act.intentId); }
  }

  /** Once settled or dismissed a Copy is written no more. */
  lemma EndIsLast(states: seq<System>, acts: seq<Act>, i: nat)
    requires RunsAs(states, acts) && i < |states|
    ensures Sound(states[i]) && (Ended(states[i].operation.intents[0].state) ==> i == |acts|)
  {
    RunIsSound(states, acts, i);
    if i < |acts| && Ended(states[i].operation.intents[0].state) {
      assert ActsAt(states, acts, i);
      EndedTakesNoAct(states[i], acts[i], states[i + 1]);
    }
  }

  /** So a journal that could take no update any more is never asked to. */
  lemma BlockedIsLast(states: seq<System>, acts: seq<Act>, i: nat)
    requires RunsAs(states, acts) && i < |states|
    ensures Sound(states[i]) && (SupersededAccepted(states[i].operation.intents[0]) ==> i == |acts|)
  {
    EndIsLast(states, acts, i);
  }

  // ------------------------------------------------------------------------------------------
  // An accepted Copy that is dismissed
  // ------------------------------------------------------------------------------------------

  const ROOT := CopyRoot(File, "r", EntryId("copy"), EntryId("source"), "n")
  const HOME := RootParent("manuscript", ProjectOwner)
  const SOURCE := Location("manuscript", "/n", "n", ProjectOwner)

  function Dragged(revision: nat, state: State, attempts: seq<Attempt>, settledAt: Option<Stamp>): CopyOperation {
    CopyOperation("c", "p", revision, [Intent("c", "p", "i", Some("c"), 1, Some(Admission(1, [], [])), 1, Copy([ROOT], HOME, None),
                                              attempts, settledAt, state)])
  }

  function Asked(outcome: Option<Outcome>): seq<Attempt> {
    [Attempt("a", CopyRequest(ProjectOwner, "c", [SourceOf(CopyJournal.Placed(ROOT, SOURCE))], "manuscript", HOME, None), outcome)]
  }

  /** An answer that succeeds and names no copy of the root. */
  function NamesNone(): Outcome {
    Operation(Receipt("c", CopyCommand([Copied(EntryId("copy"), EntryRef(File, EntryId("source")))], HOME, None), true, [], 1))
  }

  function StateAt(step: nat): System {
    var waiting := map["r" := Waiting];
    if step == 0 then System(Dragged(1, Pending, [], None), waiting)
    else if step == 1 then System(Dragged(2, Submitted, Asked(None), None), waiting)
    else if step == 2 then System(Dragged(3, Received, Asked(Some(NamesNone())), None), waiting)
    else if step == 3 then System(Dragged(4, NeedsRepair, Asked(Some(NamesNone())), None), map[])
    else System(Dragged(5, Superseded, Asked(Some(NamesNone())), None), map[])
  }

  function ActOf(step: nat): Act {
    if step == 0 then Prepare("a", None, [Some(SOURCE)])
    else if step == 1 then Record("i", "a", NamesNone())
    else if step == 2 then Settle(0)
    else Resolve
  }

  lemma OneIsActive(operation: CopyOperation)
    requires |operation.intents| == 1 && operation.intents[0].desired.Copy? && !Ended(operation.intents[0].state)
    ensures ActiveCopy(operation) == Some(operation.intents[0])
  {
    assert ActiveIntent(operation.intents[..0]).None?;
  }

  lemma OneIsOutermost(item: CopyJournal.Placed)
    ensures OutermostPlaced([item]) == [item] && CollapsedUpTo([item], 1) == []
  {
    assert Outermost([item], 0);
    assert OutermostUpTo([item], 0) == [] && CollapsedUpTo([item], 0) == [];
  }

  lemma DraggedIsPlanned()
    ensures Planned(StateAt(0))
  {
    var s := StateAt(0);
    var write := PlanCopy("p", "c", "i", Admission(1, [], []), [ROOT], HOME, None);
    assert HandlesOf([ROOT]) == ["r"];
    assert s == CopyJournal.After(System(s.operation, map[]), write);
  }

  lemma OneIsPlaced(place: Location)
    ensures AllPlaced([Some(place)]) == Some([place])
  {
    assert [Some(place)][1..] == [];
    assert AllPlaced([Some(place)][1..]) == Some([]);
    assert [place] + [] == [place];
  }

  /** A Copy of one root is sent for it alone. */
  lemma OneIsSentFor(root: CopyRoot, place: Location)
    ensures PlacedRoots([root], [place]) == [CopyJournal.Placed(root, place)]
    ensures OutermostPlaced(PlacedRoots([root], [place])) == [CopyJournal.Placed(root, place)]
    ensures SourcesOf(OutermostPlaced(PlacedRoots([root], [place]))) == [SourceOf(CopyJournal.Placed(root, place))]
    ensures CollapsedUpTo(PlacedRoots([root], [place]), 1) == []
  {
    var item := CopyJournal.Placed(root, place);
    assert PlacedRoots([root], [place]) == [item];
    OneIsOutermost(item);
    assert SourcesOf([item]) == [SourceOf(item)];
  }

  lemma OneIsReplaced(record: CopyOperation, intentId: string, replacement: Intent)
    requires |record.intents| == 1 && record.intents[0].intentId == intentId
    ensures ReplaceIn(record, intentId, replacement).intents == [replacement]
  {
  }

  lemma DraggedIsSent()
    ensures Acts(StateAt(0), ActOf(0), StateAt(1))
  {
    var operation := StateAt(0).operation;
    OneIsActive(operation);
    OneIsPlaced(SOURCE);
    OneIsSentFor(ROOT, SOURCE);
    OneIsReplaced(operation, "i", StateAt(1).operation.intents[0]);
    assert operation.intents[0].attempts + Asked(None) == Asked(None);
  }

  lemma DraggedIsAnswered()
    ensures Acts(StateAt(1), ActOf(1), StateAt(2))
  {
    var intent := StateAt(1).operation.intents[0];
    assert Find([intent], "i") == Some(intent);
    assert AnswersAttempt(Asked(None)[0], NamesNone());
    assert Asked(None)[0 := Asked(Some(NamesNone()))[0]] == Asked(Some(NamesNone()));
  }

  lemma DraggedIsRefused()
    ensures Acts(StateAt(2), ActOf(2), StateAt(3))
  {
    var s := StateAt(2);
    OneIsActive(s.operation);
    var request := Asked(None)[0].request;
    assert SentFor(request.sources, ROOT) by { assert request.sources[0].copied.copyId == ROOT.copyId; }
    assert EntryFor([], ROOT.copyId).None?;
    assert SentFor(request.sources, [ROOT][0]) && !Names(NamesNone().receipt, [ROOT][0]);
    assert HandlesOf([ROOT]) == ["r"];
  }

  lemma DraggedIsDismissed()
    ensures Acts(StateAt(3), ActOf(3), StateAt(4))
  {
    assert StateAt(3).operation.intents[0].state.NeedsRepair?;
  }

  lemma StepHolds(step: nat)
    requires step < 4
    ensures Acts(StateAt(step), ActOf(step), StateAt(step + 1))
  {
    if step == 0 { DraggedIsSent(); } else if step == 1 { DraggedIsAnswered(); } else if step == 2 { DraggedIsRefused(); } else { DraggedIsDismissed(); }
  }

  /** The answer succeeds without naming the root's copy, so the Copy is refused and dismissed: its journal is blocked. */
  lemma DismissedIsBlocked() returns (states: seq<System>, acts: seq<Act>)
    ensures RunsAs(states, acts) && |acts| == 4 && AllClocked(acts)
    ensures |states[4].operation.intents| == 1 && SupersededAccepted(states[4].operation.intents[0])
  {
    states := seq(5, step requires 0 <= step < 5 => StateAt(step));
    acts := seq(4, step requires 0 <= step < 4 => ActOf(step));
    DraggedIsPlanned();
    forall step | 0 <= step < |acts| ensures ActsAt(states, acts, step) { StepHolds(step); }
    assert DispositionOf(NamesNone(), false).Accept?;
  }
}
