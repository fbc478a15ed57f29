/**
 * Every step a folder's journal takes, against the rule its records are stored under: what each
 * step keeps, and exactly when the rule refuses its write
 * (packages/resource-replica/src/folder-namespace.ts, folder-remint.ts).
 */
module FolderSteps {
  import opened Answers
  import opened FolderJournal
  import opened Journal
  import opened JournalChange
  import opened JournalHistory
  import opened Records
  import opened Remint
  import opened ServerHold
  import opened Settlement
  import opened Wrappers

  // ------------------------------------------------------------------------------------------
  // What the steps keep
  // ------------------------------------------------------------------------------------------

  predicate InFlight(intent: Intent) {
    intent.state.Submitted? || intent.state.Received?
  }

  /** The hold is what the create in flight has proved; a move or a delete goes out only from a place. */
  predicate FlightFits(record: Record, intent: Intent) {
    InFlight(intent) ==>
      && intent.attempts != []
      && match intent.attempts[|intent.attempts| - 1].request
         case CreateFolderRequest(_, folderId, _) =>
           && folderId == record.folderId && record.canonical.None? && record.copiedBy.None?
           && record.hold == HoldAfterAttempt(Local, intent.attempts[|intent.attempts| - 1])
         case MoveRequest(_, _, _, _, _) => record.canonical.Some? && record.canonicalRefresh.None?
         case DeleteRequest(_, _) => record.canonical.Some?
         case _ => true
  }

  predicate FirstInFlight(record: Record, intent: Intent) {
    InFlight(intent) ==> ActiveIntent(record.intents) == Some(intent)
  }

  predicate RepairAnswered(intent: Intent) {
    intent.state.NeedsRepair? && intent.attempts != [] ==> RefusedAnswer(intent)
  }

  predicate CoherentAt(record: Record, intent: Intent) {
    FlightFits(record, intent) && FirstInFlight(record, intent) && RepairAnswered(intent)
  }

  ghost predicate Coherent(record: Record) {
    forall i :: 0 <= i < |record.intents| ==> CoherentAt(record, record.intents[i])
  }

  /** A record some allowed update stored. */
  ghost predicate Stored(was: Option<Record>, record: Record, operation: Option<OriginOperation>) {
    FolderUpdateAllowed(was, record, operation)
  }

  /** No superseded intent holds an accepted answer, so an update may keep them all. */
  ghost predicate Unblocked(record: Record) {
    forall i :: 0 <= i < |record.intents| ==> !SupersededAccepted(record.intents[i])
  }

  // ------------------------------------------------------------------------------------------
  // One intent replaced
  // ------------------------------------------------------------------------------------------

  ghost predicate Replaces(u0: Update, u: Update, i: nat, replacement: Intent) {
    && Allowed(u0) && u.previous == u0.next && u.handle == u0.handle && u.identityRevision == u0.identityRevision
    && i < |u0.next| && !Ended(u0.next[i].state) && Step(u0.next[i], replacement)
    && u.next == ReplaceIntent(u0.next, u0.next[i].intentId, replacement)
  }

  lemma ReplacedAt(u0: Update, u: Update, i: nat, replacement: Intent, k: nat)
    requires Replaces(u0, u, i, replacement) && k < |u0.next|
    ensures |u.next| == |u0.next| && u.next[k] == if k == i then replacement else u0.next[k]
  {
    AllowedIsDistinct(u0);
  }

  lemma UnchangedIsStep(u0: Update, i: nat)
    requires Allowed(u0) && i < |u0.next|
    ensures Step(u0.next[i], u0.next[i])
  {
    AllowedAt(u0, i);
  }

  lemma ReplacingChanges(u0: Update, u: Update, i: nat, replacement: Intent)
    requires Replaces(u0, u, i, replacement)
    ensures Changes(u, u.next, []) && Unlocked(u0.next)
  {
    assert u.next + [] == u.next;
    forall k | 0 <= k < |u.next| ensures Step(u.previous[k], u.next[k]) {
      ReplacedAt(u0, u, i, replacement, k);
      UnchangedIsStep(u0, k);
    }
    LiveIsUnlocked(u0, i);
  }

  /** Replacing one live intent is allowed exactly when the replacement stands. */
  lemma ReplacingIsAllowedExactly(u0: Update, u: Update, i: nat, replacement: Intent)
    requires Replaces(u0, u, i, replacement)
    ensures |u.next| == |u0.next|
    ensures Allowed(u) <==> StandsAt(u, i) && Unreached(u0)
  {
    ReplacingChanges(u0, u, i, replacement);
    ChangeIsAllowedExactly(u0, u, u.next, []);
    forall k | 0 <= k < |u.next| && k != i ensures StandsAt(u, k) <==> !SupersededAccepted(u0.next[k]) {
      ReplacedAt(u0, u, i, replacement, k);
      UntouchedStands(u0, u, u.next, [], k);
      ReasonStays(u0, u, u.next, [], k);
    }
    assert !SupersededAccepted(u0.next[i]);
  }

  // ------------------------------------------------------------------------------------------
  // Evidence only grows
  // ------------------------------------------------------------------------------------------

  lemma AcceptedStays(was: seq<Intent>, now: seq<Intent>, outcome: Outcome)
    requires |was| <= |now| && forall i :: 0 <= i < |was| ==> AttemptsKept(was[i], now[i])
    requires AcceptedIn(was, outcome)
    ensures AcceptedIn(now, outcome)
  {
    var i, k :| 0 <= i < |was| && 0 <= k < |was[i].attempts|
      && was[i].attempts[k].outcome == Some(outcome) && DispositionOf(outcome, false).Accept?;
    assert AttemptStays(was[i].attempts[k], now[i].attempts[k]);
    assert now[i].attempts[k].outcome == Some(outcome);
  }

  lemma RefreshStaysWitnessed(was: Record, now: Record, operation: Option<OriginOperation>, operationId: string)
    requires RefreshWitnessed(was, operation, operationId) && now.copiedBy == was.copiedBy
    requires |was.intents| <= |now.intents| && forall i :: 0 <= i < |was.intents| ==> AttemptsKept(was.intents[i], now.intents[i])
    ensures RefreshWitnessed(now, operation, operationId)
  {
    var outcome :| AcceptedFor(was, operation, outcome) && RefreshedBy(outcome, operationId);
    if AcceptedIn(was.intents, outcome) { AcceptedStays(was.intents, now.intents, outcome); }
    assert AcceptedFor(now, operation, outcome);
  }

  // ------------------------------------------------------------------------------------------
  // Sending, recording an answer
  // ------------------------------------------------------------------------------------------

  /** `next` replaces the live intent at `i` of a stored record. */
  ghost predicate ReplacesIn(was: Option<Record>, record: Record, operation: Option<OriginOperation>, next: Record, i: nat,
                             replacement: Intent, hold: Hold) {
    && Stored(was, record, operation) && i < |record.intents| && !Ended(record.intents[i].state)
    && Step(record.intents[i], replacement) && next == Replaced(record, record.intents[i], replacement, hold)
  }

  /** The hold may become this while the record stays as it is. */
  predicate HoldFits(record: Record, hold: Hold) {
    && (record.canonical.Some? ==> hold.Held?)
    && (record.copiedBy.Some? ==> hold.Uncertain? || hold.Held?)
    && (record.hold.Held? ==> hold.Held?)
  }

  lemma ReplacesJournal(was: Option<Record>, record: Record, operation: Option<OriginOperation>, next: Record, i: nat,
                        replacement: Intent, hold: Hold)
    requires ReplacesIn(was, record, operation, next, i, replacement, hold)
    ensures Replaces(JournalUpdate(was, record), JournalUpdate(Some(record), next), i, replacement)
    ensures Unlocked(record.intents)
    ensures forall k :: 0 <= k < |record.intents| ==> next.intents[k] == if k == i then replacement else record.intents[k]
  {
    LiveIsUnlocked(JournalUpdate(was, record), i);
    forall k | 0 <= k < |record.intents| ensures next.intents[k] == if k == i then replacement else record.intents[k] {
      ReplacedAt(JournalUpdate(was, record), JournalUpdate(Some(record), next), i, replacement, k);
    }
  }

  lemma NoWindow(record: Record)
    requires RecordFits(record) && Unlocked(record.intents)
    ensures record.localDeletion.None?
  {
  }

  lemma ReplacedFits(record: Record, next: Record, i: nat, replacement: Intent, hold: Hold)
    requires RecordFits(record) && Unlocked(record.intents) && i < |record.intents|
    requires next == Replaced(record, record.intents[i], replacement, hold) && HoldFits(record, hold)
    requires forall k :: 0 <= k < |record.intents| ==> next.intents[k] == if k == i then replacement else record.intents[k]
    requires IntentFits(next, replacement) && !SettledHere(replacement) && replacement.desired == record.intents[i].desired
    ensures RecordFits(next) && Succeeds(record, next)
  {
    NoWindow(record);
    forall k | 0 <= k < |next.intents| ensures IntentFits(next, next.intents[k]) {
      if k != i { assert IntentFits(record, record.intents[k]); }
    }
    if record.canonical.None? && record.copiedBy.None? {
      var k :| 0 <= k < |record.intents| && record.intents[k].desired.SetFolderLocation?;
      assert next.intents[k].desired.SetFolderLocation?;
    }
  }

  /** A record whose one live intent is replaced is stored exactly when the replacement stands. */
  lemma ReplacedIsStoredExactly(was: Option<Record>, record: Record, operation: Option<OriginOperation>, next: Record, i: nat,
                                replacement: Intent, hold: Hold)
    requires ReplacesIn(was, record, operation, next, i, replacement, hold) && HoldFits(record, hold)
    requires IntentFits(next, replacement) && !SettledHere(replacement)
    ensures |next.intents| == |record.intents|
    ensures Stored(Some(record), next, operation) <==> StandsAt(JournalUpdate(Some(record), next), i) && Unblocked(record)
  {
    ReplacesJournal(was, record, operation, next, i, replacement, hold);
    ReplacingIsAllowedExactly(JournalUpdate(was, record), JournalUpdate(Some(record), next), i, replacement);
    ReplacedFits(record, next, i, replacement, hold);
    if next.canonicalRefresh.Some? {
      forall k | 0 <= k < |record.intents| ensures AttemptsKept(record.intents[k], next.intents[k]) {
        if k != i { UnchangedIsStep(JournalUpdate(was, record), k); }
      }
      RefreshStaysWitnessed(record, next, operation, next.canonicalRefresh.value.operationId);
    }
  }

  lemma ActiveIsAt(record: Record) returns (i: nat)
    requires ActiveIntent(record.intents).Some?
    ensures i < |record.intents| && record.intents[i] == ActiveIntent(record.intents).value && !Ended(record.intents[i].state)
  {
    i :| 0 <= i < |record.intents| && record.intents[i] == ActiveIntent(record.intents).value;
  }

  /** The request a preparation sends is one the record may hold. */
  lemma PreparedFits(record: Record, intent: Intent, ids: AttemptIds, lookup: EntryId -> Option<Location>, attempt: Attempt)
    requires PreparationOf(record, intent, ids, lookup) == Send(attempt) && RecordFits(record)
    ensures RequestFits(record, attempt.request) && attempt.outcome.None? && HoldFits(record, HoldAfterAttempt(record.hold, attempt))
  {
  }

  lemma SentIsStep(intent: Intent, attempt: Attempt)
    requires Unsent(intent) && attempt.outcome.None?
    ensures Step(intent, Sent(intent, attempt)) && Answer(Sent(intent, attempt)).None?
  {
  }

  /** The oldest live work is a delete. */
  predicate DeletesFirst(record: Record) {
    ActiveIntent(record.intents).Some? && ActiveIntent(record.intents).value.desired.Delete?
  }

  /** What a preparation writes for the oldest live intent, at `i`. */
  ghost predicate Prepares(record: Record, i: nat, made: Preparation, next: Record) {
    && i < |record.intents| && Unsent(record.intents[i])
    && var intent := record.intents[i];
       match made
       case Send(attempt) =>
         && RequestFits(record, attempt.request) && attempt.outcome.None?
         && HoldFits(record, HoldAfterAttempt(record.hold, attempt))
         && next == Replaced(record, intent, Sent(intent, attempt), HoldAfterAttempt(record.hold, attempt))
       case Unplaceable => next == Replaced(record, intent, intent.(state := NeedsRepair), record.hold)
       case DeletedHere => intent.desired.Delete? && next == Replaced(record, intent, intent.(state := SettledLocally), record.hold)
       case Absorbed =>
         record.terminal.Some?
         && next == record.(revision := record.revision + 1, intents := ResolveUnavailable(record.intents, true))
       case Blocked => false
  }

  lemma PreparedAt(was: Option<Record>, record: Record, ids: AttemptIds, lookup: EntryId -> Option<Location>, next: Record)
    returns (i: nat, made: Preparation)
    requires RecordFits(record) && Allowed(JournalUpdate(was, record)) && PrepareFolderAttempt(record, ids, lookup) == Some(next)
    ensures Prepares(record, i, made, next)
    ensures made.DeletedHere? <==> record.terminal.None? && DeletesFirst(record) && !DeleteNeedsServer(record.hold)
  {
    i := ActiveIsAt(record);
    AllowedAt(JournalUpdate(was, record), i);
    assert IntentFits(record, record.intents[i]);
    made := PreparationOf(record, record.intents[i], ids, lookup);
    if made.Send? { PreparedFits(record, record.intents[i], ids, lookup, made.attempt); }
  }

  /**
   * Preparing an attempt writes a record the rule stores, with one exception: a delete queued
   * behind a refused create is settled here without the window the rule asks of it, so that write
   * is always refused.
   */
  lemma PreparedIsStoredExactly(was: Option<Record>, record: Record, operation: Option<OriginOperation>, ids: AttemptIds,
                                lookup: EntryId -> Option<Location>, next: Record)
    requires Stored(was, record, operation) && PrepareFolderAttempt(record, ids, lookup) == Some(next)
    ensures Stored(Some(record), next, operation) <==>
            Unblocked(record) && !(record.terminal.None? && DeletesFirst(record) && !DeleteNeedsServer(record.hold))
  {
    var i, made := PreparedAt(was, record, ids, lookup, next);
    PreparesStored(was, record, operation, i, made, next);
  }

  lemma PreparesStored(was: Option<Record>, record: Record, operation: Option<OriginOperation>, i: nat, made: Preparation, next: Record)
    requires Stored(was, record, operation) && Prepares(record, i, made, next)
    ensures Stored(Some(record), next, operation) <==> Unblocked(record) && !made.DeletedHere?
  {
    match made
    case Send(attempt) => SentStands(was, record, operation, next, i, attempt);
    case Unplaceable => UnplaceableStands(was, record, operation, next, i);
    case DeletedHere => DeletedHereIsRefused(was, record, operation, next, i);
    case Absorbed => AbsorbedIsStored(was, record, operation, next, i);
  }

  lemma SentStands(was: Option<Record>, record: Record, operation: Option<OriginOperation>, next: Record, i: nat, attempt: Attempt)
    requires Stored(was, record, operation) && i < |record.intents| && Unsent(record.intents[i])
    requires RequestFits(record, attempt.request) && attempt.outcome.None?
    requires HoldFits(record, HoldAfterAttempt(record.hold, attempt))
    requires next == Replaced(record, record.intents[i], Sent(record.intents[i], attempt), HoldAfterAttempt(record.hold, attempt))
    ensures Stored(Some(record), next, operation) <==> Unblocked(record)
  {
    SentIsStep(record.intents[i], attempt);
    UnsentIsUntimed(JournalUpdate(was, record), i);
    assert IntentFits(record, record.intents[i]);
    PreparedStands(was, record, operation, next, i, Sent(record.intents[i], attempt), HoldAfterAttempt(record.hold, attempt));
  }

  lemma UnplaceableStands(was: Option<Record>, record: Record, operation: Option<OriginOperation>, next: Record, i: nat)
    requires Stored(was, record, operation) && i < |record.intents| && Unsent(record.intents[i])
    requires next == Replaced(record, record.intents[i], record.intents[i].(state := NeedsRepair), record.hold)
    ensures Stored(Some(record), next, operation) <==> Unblocked(record)
  {
    MovedIsStep(JournalUpdate(was, record), i, record.intents[i].(state := NeedsRepair));
    UnsentIsUntimed(JournalUpdate(was, record), i);
    assert IntentFits(record, record.intents[i]);
    PreparedStands(was, record, operation, next, i, record.intents[i].(state := NeedsRepair), record.hold);
  }

  lemma PreparedStands(was: Option<Record>, record: Record, operation: Option<OriginOperation>, next: Record, i: nat,
                       replacement: Intent, hold: Hold)
    requires ReplacesIn(was, record, operation, next, i, replacement, hold) && HoldFits(record, hold)
    requires IntentFits(next, replacement) && replacement.settledAt.None?
    requires replacement.state.NeedsRepair? || (replacement.state.Submitted? && Answer(replacement).None? && replacement.attempts != [])
    requires OneOpenAttempt(replacement)
    ensures Stored(Some(record), next, operation) <==> Unblocked(record)
  {
    ReplacedIsStoredExactly(was, record, operation, next, i, replacement, hold);
    ReplacesJournal(was, record, operation, next, i, replacement, hold);
    assert StandsAt(JournalUpdate(Some(record), next), i);
  }

  lemma DeletedHereIsRefused(was: Option<Record>, record: Record, operation: Option<OriginOperation>, next: Record, i: nat)
    requires Stored(was, record, operation) && i < |record.intents| && record.intents[i].state.Pending?
    requires record.intents[i].desired.Delete?
    requires next == Replaced(record, record.intents[i], record.intents[i].(state := SettledLocally), record.hold)
    ensures !Stored(Some(record), next, operation)
  {
    LiveIsUnlocked(JournalUpdate(was, record), i);
    NoWindow(record);
    assert next.intents[i].state.SettledLocally?;
    assert SettledHere(next.intents[i]);
  }

  lemma AbsorbedStands(was: Option<Record>, record: Record, operation: Option<OriginOperation>, next: Record, k: nat)
    requires Stored(was, record, operation) && record.terminal.Some? && Unlocked(record.intents) && k < |record.intents|
    requires next == record.(revision := record.revision + 1, intents := ResolveUnavailable(record.intents, true))
    requires Changes(JournalUpdate(Some(record), next), next.intents, [])
    ensures StandsAt(JournalUpdate(Some(record), next), k) <==> !SupersededAccepted(record.intents[k])
  {
    var u0, u := JournalUpdate(was, record), JournalUpdate(Some(record), next);
    AllowedAt(u0, k);
    assert u.next[k] == UnavailableOne(record.intents[k], true);
    if u.next[k] == record.intents[k] {
      UntouchedStands(u0, u, u.next, [], k);
      ReasonStays(u0, u, u.next, [], k);
    }
  }

  lemma AbsorbedIsStored(was: Option<Record>, record: Record, operation: Option<OriginOperation>, next: Record, i: nat)
    requires Stored(was, record, operation) && record.terminal.Some? && i < |record.intents| && record.intents[i].state.Pending?
    requires next == record.(revision := record.revision + 1, intents := ResolveUnavailable(record.intents, true))
    ensures Stored(Some(record), next, operation) <==> Unblocked(record)
  {
    var u0, u := JournalUpdate(was, record), JournalUpdate(Some(record), next);
    LiveIsUnlocked(u0, i);
    NoWindow(record);
    assert u.next + [] == u.next;
    MovesChange(u0, u, u.next, []);
    ChangeIsAllowedExactly(u0, u, u.next, []);
    forall k | 0 <= k < |u.next| ensures StandsAt(u, k) <==> !SupersededAccepted(record.intents[k]) {
      AbsorbedStands(was, record, operation, next, k);
    }
    AbsorbedFits(record, next);
    if next.canonicalRefresh.Some? {
      forall k | 0 <= k < |record.intents| ensures AttemptsKept(record.intents[k], next.intents[k]) {
        assert Step(u.previous[k], u.next[k]);
      }
      RefreshStaysWitnessed(record, next, operation, next.canonicalRefresh.value.operationId);
    }
  }

  lemma AbsorbedFits(record: Record, next: Record)
    requires RecordFits(record) && record.localDeletion.None? && record.terminal.Some?
    requires next == record.(revision := record.revision + 1, intents := ResolveUnavailable(record.intents, true))
    ensures RecordFits(next) && Succeeds(record, next)
  {
    forall k | 0 <= k < |next.intents| ensures IntentFits(next, next.intents[k]) && !SettledHere(next.intents[k]) {
      assert IntentFits(record, record.intents[k]);
      assert next.intents[k] == UnavailableOne(record.intents[k], true);
    }
  }

  lemma AnsweredIsStep(u0: Update, i: nat, outcome: Outcome)
    requires Allowed(u0) && i < |u0.next| && u0.next[i].state.Submitted? && u0.next[i].attempts != []
    requires AnswersAttempt(u0.next[i].attempts[|u0.next[i].attempts| - 1], outcome)
    ensures Answer(u0.next[i]).None?
    ensures var replacement := Answered(u0.next[i], outcome);
            && Step(u0.next[i], replacement) && OneOpenAttempt(replacement)
            && Answer(replacement) == Some(outcome) && replacement.settledAt.None?
  {
    AllowedAt(u0, i);
    var intent := u0.next[i];
    var n := |intent.attempts| - 1;
    RecordedAnswersMatch(intent.attempts[n], outcome);
    var replacement := Answered(intent, outcome);
    forall k | 0 <= k < |intent.attempts| ensures AttemptStays(intent.attempts[k], replacement.attempts[k]) {}
    forall k | 0 <= k < |replacement.attempts| ensures OutcomeMatches(replacement.attempts[k]) {
      if k < n { assert replacement.attempts[k] == intent.attempts[k]; }
    }
  }

  /** `next` records the answer to the open attempt of the intent at `i`. */
  ghost predicate RecordsAnswer(record: Record, i: nat, outcome: Outcome, next: Record) {
    && i < |record.intents| && record.intents[i].state.Submitted? && record.intents[i].attempts != []
    && var last := record.intents[i].attempts[|record.intents[i].attempts| - 1];
       && last.outcome.None? && AnswersAttempt(last, outcome)
       && next == Replaced(record, record.intents[i], Answered(record.intents[i], outcome),
                           HoldAfterAttempt(record.hold, last.(outcome := Some(outcome))))
  }

  lemma RecordedAt(record: Record, intentId: string, attemptId: string, outcome: Outcome, next: Record) returns (i: nat)
    requires RecordFolderOutcome(record, intentId, attemptId, outcome) == Ok(Some(next))
    ensures RecordsAnswer(record, i, outcome, next)
  {
    var found := Find(record.intents, intentId).value;
    i :| 0 <= i < |record.intents| && record.intents[i] == found;
  }

  /** Only the answer to the create in flight changes the hold, and the record then has no place yet. */
  lemma AnsweredHoldFits(record: Record, intent: Intent, outcome: Outcome)
    requires intent.attempts != [] && InFlight(intent) && Answer(intent).None? && FlightFits(record, intent)
    requires IntentFits(record, intent) && RecordFits(record)
    ensures var last := intent.attempts[|intent.attempts| - 1];
            HoldFits(record, HoldAfterAttempt(record.hold, last.(outcome := Some(outcome))))
  {
    assert RequestFits(record, intent.attempts[|intent.attempts| - 1].request);
  }

  /** Recording an answer to the request in flight writes a record the rule stores. */
  lemma RecordedIsStored(was: Option<Record>, record: Record, operation: Option<OriginOperation>, intentId: string,
                         attemptId: string, outcome: Outcome, next: Record)
    requires Stored(was, record, operation) && Coherent(record)
    requires RecordFolderOutcome(record, intentId, attemptId, outcome) == Ok(Some(next))
    ensures Stored(Some(record), next, operation) <==> Unblocked(record)
  {
    var i := RecordedAt(record, intentId, attemptId, outcome, next);
    RecordedStands(was, record, operation, i, outcome, next);
  }

  lemma RecordedStands(was: Option<Record>, record: Record, operation: Option<OriginOperation>, i: nat, outcome: Outcome,
                       next: Record)
    requires Stored(was, record, operation) && Coherent(record) && RecordsAnswer(record, i, outcome, next)
    ensures Stored(Some(record), next, operation) <==> Unblocked(record)
  {
    var intent := record.intents[i];
    assert CoherentAt(record, intent) && IntentFits(record, intent);
    AnsweredIsStep(JournalUpdate(was, record), i, outcome);
    var last := intent.attempts[|intent.attempts| - 1];
    AnsweredFits(record, intent, outcome);
    AnsweredHoldFits(record, intent, outcome);
    ReceivedStands(was, record, operation, next, i, Answered(intent, outcome),
                   HoldAfterAttempt(record.hold, last.(outcome := Some(outcome))));
  }

  lemma ReceivedStands(was: Option<Record>, record: Record, operation: Option<OriginOperation>, next: Record, i: nat,
                       replacement: Intent, hold: Hold)
    requires ReplacesIn(was, record, operation, next, i, replacement, hold) && HoldFits(record, hold)
    requires IntentFits(next, replacement) && replacement.settledAt.None?
    requires replacement.state.Received? && Answer(replacement).Some? && OneOpenAttempt(replacement)
    ensures Stored(Some(record), next, operation) <==> Unblocked(record)
  {
    ReplacedIsStoredExactly(was, record, operation, next, i, replacement, hold);
    ReplacesJournal(was, record, operation, next, i, replacement, hold);
    assert StandsAt(JournalUpdate(Some(record), next), i);
  }

  lemma AnsweredFits(record: Record, intent: Intent, outcome: Outcome)
    requires intent.attempts != [] && IntentFits(record, intent)
    ensures IntentFits(record, Answered(intent, outcome))
  {
    var replacement := Answered(intent, outcome);
    forall k | 0 <= k < |replacement.attempts| ensures RequestFits(record, replacement.attempts[k].request) {
      assert replacement.attempts[k].request == intent.attempts[k].request;
    }
  }

  // ------------------------------------------------------------------------------------------
  // Settling an answer
  // ------------------------------------------------------------------------------------------

  ghost predicate SettlesAs(record: Record, i: nat, settledAt: nat, next: Record) {
    && i < |record.intents| && record.intents[i].state.Received? && Answer(record.intents[i]).Some?
    && SettlingIntent(record) == Some(record.intents[i])
    && next.intents == SettleNamespaceIntent(record.intents, record.intents[i],
                                             DispositionOf(Answer(record.intents[i]).value, record.terminal.Some?), settledAt,
                                             record.hold)
  }

  lemma SettlingAt(record: Record, settledAt: nat, next: Record) returns (i: nat)
    requires SettleFolderOutcome(record, settledAt) == Some(next)
    ensures SettlesAs(record, i, settledAt, next)
  {
    i := ActiveIsAt(record);
  }

  lemma SettlingJournal(was: Option<Record>, record: Record, operation: Option<OriginOperation>, settledAt: nat, next: Record, i: nat)
    requires Stored(was, record, operation) && Coherent(record)
    requires SettleFolderOutcome(record, settledAt) == Some(next) && SettlesAs(record, i, settledAt, next)
    ensures Settles(JournalUpdate(was, record), JournalUpdate(Some(record), next), i,
                    DispositionOf(Answer(record.intents[i]).value, record.terminal.Some?), settledAt, record.hold)
    ensures ConflictAnswer(record.intents[i]) && record.terminal.None? ==> record.hold.Spent?
  {
    assert CoherentAt(record, record.intents[i]);
    AllowedAt(JournalUpdate(was, record), i);
    assert IntentFits(record, record.intents[i]);
    var last := record.intents[i].attempts[|record.intents[i].attempts| - 1];
    assert OutcomeMatches(last) && RequestFits(record, last.request);
  }

  lemma SettledIntentFits(was: Option<Record>, record: Record, operation: Option<OriginOperation>, settledAt: nat,
                          next: Record, i: nat, k: nat)
    requires Stored(was, record, operation) && SettlesAs(record, i, settledAt, next) && k < |record.intents|
    requires Settles(JournalUpdate(was, record), JournalUpdate(Some(record), next), i,
                     DispositionOf(Answer(record.intents[i]).value, record.terminal.Some?), settledAt, record.hold)
    requires !record.intents[k].state.SettledLocally? && next.projectId == record.projectId
    requires next.folderId == record.folderId && next.aliases == record.aliases
    ensures |next.intents| == |record.intents|
    ensures IntentFits(next, next.intents[k]) && !SettledHere(next.intents[k])
    ensures next.intents[k].desired == record.intents[k].desired && AttemptsKept(record.intents[k], next.intents[k])
  {
    SettledAtIndex(JournalUpdate(was, record), JournalUpdate(Some(record), next), i,
                   DispositionOf(Answer(record.intents[i]).value, record.terminal.Some?), settledAt, record.hold, k);
    assert IntentFits(record, record.intents[k]);
  }

  lemma SettledIntentsFit(was: Option<Record>, record: Record, operation: Option<OriginOperation>, settledAt: nat,
                          next: Record, i: nat)
    requires Stored(was, record, operation) && Coherent(record)
    requires SettleFolderOutcome(record, settledAt) == Some(next) && SettlesAs(record, i, settledAt, next)
    ensures |next.intents| == |record.intents| && record.localDeletion.None?
    ensures forall k :: 0 <= k < |record.intents| ==>
              && IntentFits(next, next.intents[k]) && !SettledHere(next.intents[k])
              && next.intents[k].desired == record.intents[k].desired && AttemptsKept(record.intents[k], next.intents[k])
  {
    SettlingJournal(was, record, operation, settledAt, next, i);
    LiveIsUnlocked(JournalUpdate(was, record), i);
    NoWindow(record);
    forall k | 0 <= k < |record.intents|
      ensures IntentFits(next, next.intents[k]) && !SettledHere(next.intents[k])
      ensures next.intents[k].desired == record.intents[k].desired && AttemptsKept(record.intents[k], next.intents[k])
    {
      SettledIntentFits(was, record, operation, settledAt, next, i, k);
    }
  }

  /** What an accepted answer adds to the record: a first place under a held id, or a refresh to wait for. */
  lemma SettledPlaceFits(was: Option<Record>, record: Record, operation: Option<OriginOperation>, settledAt: nat,
                         next: Record, i: nat)
    requires Stored(was, record, operation) && Coherent(record)
    requires SettleFolderOutcome(record, settledAt) == Some(next) && SettlesAs(record, i, settledAt, next)
    ensures next.hold == record.hold && next.folderId == record.folderId && next.aliases == record.aliases
    ensures next.canonical.Some? ==> next.hold.Held?
    ensures record.canonical.Some? ==> next.canonical.Some?
    ensures next.canonicalRefresh != record.canonicalRefresh ==> record.canonicalRefresh.None? && record.canonical.Some?
  {
    assert CoherentAt(record, record.intents[i]);
    AllowedAt(JournalUpdate(was, record), i);
    assert IntentFits(record, record.intents[i]);
    var last := record.intents[i].attempts[|record.intents[i].attempts| - 1];
    assert OutcomeMatches(last) && RequestFits(record, last.request);
  }

  lemma SettledFits(was: Option<Record>, record: Record, operation: Option<OriginOperation>, settledAt: nat, next: Record, i: nat)
    requires Stored(was, record, operation) && Coherent(record)
    requires SettleFolderOutcome(record, settledAt) == Some(next) && SettlesAs(record, i, settledAt, next)
    ensures RecordFits(next) && Succeeds(record, next)
  {
    SettledIntentsFit(was, record, operation, settledAt, next, i);
    SettledPlaceFits(was, record, operation, settledAt, next, i);
    SettledKeeps(record, settledAt, next);
    SettledRecordFits(record, next);
  }

  /** What settling leaves of a record alone. */
  predicate KeptBySettling(record: Record, next: Record) {
    next == record.(revision := next.revision, canonicalRefresh := next.canonicalRefresh, canonical := next.canonical,
                    intents := next.intents)
  }

  lemma SettledKeeps(record: Record, settledAt: nat, next: Record)
    requires SettleFolderOutcome(record, settledAt) == Some(next)
    ensures KeptBySettling(record, next)
  {
  }

  lemma SettledRecordFits(record: Record, next: Record)
    requires RecordFits(record) && record.localDeletion.None? && KeptBySettling(record, next) && |next.intents| == |record.intents|
    requires forall k :: 0 <= k < |record.intents| ==>
               IntentFits(next, next.intents[k]) && !SettledHere(next.intents[k]) && next.intents[k].desired == record.intents[k].desired
    requires (next.canonical.Some? ==> next.hold.Held?) && (record.canonical.Some? ==> next.canonical.Some?)
    requires next.canonicalRefresh != record.canonicalRefresh ==> record.canonicalRefresh.None? && record.canonical.Some?
    ensures RecordFits(next) && Succeeds(record, next)
  {
    if record.canonical.None? && record.copiedBy.None? {
      var k :| 0 <= k < |record.intents| && record.intents[k].desired.SetFolderLocation?;
      assert next.intents[k].desired.SetFolderLocation?;
    }
  }

  /** Settling the answer in hand writes a record the rule stores: the hold says what became of the id. */
  lemma SettledIsStored(was: Option<Record>, record: Record, operation: Option<OriginOperation>, settledAt: nat, next: Record)
    requires Stored(was, record, operation) && Coherent(record)
    requires SettleFolderOutcome(record, settledAt) == Some(next)
    ensures Stored(Some(record), next, operation) <==> Unblocked(record)
  {
    var i := SettlingAt(record, settledAt, next);
    SettlingJournal(was, record, operation, settledAt, next, i);
    SettledFits(was, record, operation, settledAt, next, i);
    SettledIntentsFit(was, record, operation, settledAt, next, i);
    SettlingIsAllowed(JournalUpdate(was, record), JournalUpdate(Some(record), next), i,
                      DispositionOf(Answer(record.intents[i]).value, record.terminal.Some?), settledAt, record.hold);
    SettledWitnesses(record, operation, settledAt, next, i);
  }

  lemma SettledWitnesses(record: Record, operation: Option<OriginOperation>, settledAt: nat, next: Record, i: nat)
    requires SettleFolderOutcome(record, settledAt) == Some(next) && SettlesAs(record, i, settledAt, next)
    requires record.canonicalRefresh.Some? ==> RefreshWitnessed(record, operation, record.canonicalRefresh.value.operationId)
    requires forall k :: 0 <= k < |record.intents| ==> AttemptsKept(record.intents[k], next.intents[k])
    ensures record.canonical.None? && next.canonical.Some? ==> FirstPlaceWitnessed(next, operation)
    ensures next.canonicalRefresh.Some? ==> RefreshWitnessed(next, operation, next.canonicalRefresh.value.operationId)
  {
    var outcome := Answer(record.intents[i]).value;
    if DispositionOf(outcome, false).Accept? { SettledIsAccepted(record, operation, next, i); }
    if record.canonical.None? && next.canonical.Some? {
      FirstPlaceIsAnswered(record, settledAt, next, i);
      assert AcceptedFor(next, operation, outcome) && PlacesFolder(outcome, next.folderId);
    }
    if record.canonicalRefresh.Some? && next.canonicalRefresh == record.canonicalRefresh {
      RefreshStaysWitnessed(record, next, operation, record.canonicalRefresh.value.operationId);
    }
  }

  /** The first place comes with the answer to a create. */
  lemma FirstPlaceIsAnswered(record: Record, settledAt: nat, next: Record, i: nat)
    requires SettleFolderOutcome(record, settledAt) == Some(next) && SettlesAs(record, i, settledAt, next)
    requires record.canonical.None? && next.canonical.Some?
    ensures var outcome := Answer(record.intents[i]).value;
            DispositionOf(outcome, false).Accept? && PlacesFolder(outcome, next.folderId)
  {
  }

  lemma SettledIsAccepted(record: Record, operation: Option<OriginOperation>, next: Record, i: nat)
    requires i < |record.intents| && AcceptedAnswer(record.intents[i]) && |next.intents| >= |record.intents|
    requires forall k :: 0 <= k < |record.intents| ==> AttemptsKept(record.intents[k], next.intents[k])
    ensures AcceptedFor(next, operation, Answer(record.intents[i]).value)
  {
    var outcome := Answer(record.intents[i]).value;
    assert AcceptedIn(record.intents, outcome);
    AcceptedStays(record.intents, next.intents, outcome);
  }

  // ------------------------------------------------------------------------------------------
  // Seeing the folder in the catalog
  // ------------------------------------------------------------------------------------------

  /** An observation a move waited for is taken, and leaves a coherent record. */
  lemma RefreshIsStored(was: Option<Record>, record: Record, operation: Option<OriginOperation>, operationId: string,
                        location: Location, parent: ParentRef, version: nat, next: Record)
    requires Stored(was, record, operation) && Coherent(record)
    requires InstallFolderRefresh(record, operationId, location, parent, version) == Some(next)
    ensures Stored(Some(record), next, operation) <==> Unblocked(record)
    ensures Coherent(next)
  {
    RefreshIs(record, operationId, location, parent, version, next);
    RefreshJournal(was, record, next);
    RefreshFits(record, next);
    RefreshIsCoherent(record, next);
    if next.canonicalRefresh.Some? {
      RefreshStaysWitnessed(record, next, operation, next.canonicalRefresh.value.operationId);
    }
  }

  lemma RefreshJournal(was: Option<Record>, record: Record, next: Record)
    requires Allowed(JournalUpdate(was, record)) && next.intents == record.intents && next.handle == record.handle
    ensures Allowed(JournalUpdate(Some(record), next)) <==> Unblocked(record)
  {
    SameAgainExactly(JournalUpdate(was, record), JournalUpdate(Some(record), next));
  }

  lemma RefreshIsCoherent(record: Record, next: Record)
    requires RecordFits(record) && Coherent(record) && Refreshed(record, next)
    ensures Coherent(next)
  {
    forall k | 0 <= k < |next.intents| ensures CoherentAt(next, next.intents[k]) {
      assert CoherentAt(record, record.intents[k]);
    }
  }

  /** What an observation changes of a record that waited for one. */
  predicate Refreshed(record: Record, next: Record) {
    && record.canonicalRefresh.Some? && (record.canonical.Some? ==> next.canonical.Some?)
    && next == record.(revision := record.revision + 1, canonicalRefresh := next.canonicalRefresh, terminal := next.terminal,
                       canonical := next.canonical, canonicalParent := next.canonicalParent,
                       observationVersion := next.observationVersion)
    && (next.canonicalRefresh.Some? ==> next.canonicalRefresh == record.canonicalRefresh)
    && (next.terminal == record.terminal
        || (next.terminal.None? && next.observationVersion.Some?
            && (record.observationVersion.None? || next.observationVersion.value > record.observationVersion.value)))
  }

  lemma RefreshIs(record: Record, operationId: string, location: Location, parent: ParentRef, version: nat, next: Record)
    requires InstallFolderRefresh(record, operationId, location, parent, version) == Some(next)
    ensures Refreshed(record, next)
  {
  }

  lemma RefreshSupersedesNone(record: Record, next: Record)
    requires Refreshed(record, next)
    ensures SupersedesOld(record, next)
    ensures next.hold == record.hold && next.folderId == record.folderId && next.aliases == record.aliases
  {
  }

  lemma RefreshFits(record: Record, next: Record)
    requires RecordFits(record) && Refreshed(record, next)
    ensures RecordFits(next) && Succeeds(record, next)
  {
    forall k | 0 <= k < |next.intents| ensures IntentFits(next, next.intents[k]) { assert IntentFits(record, record.intents[k]); }
  }

  // ------------------------------------------------------------------------------------------
  // Coherence through every step
  // ------------------------------------------------------------------------------------------

  /** Ended work stays ended, and live work keeps its place in the order. */
  ghost predicate EndsKept(was: seq<Intent>, now: seq<Intent>) {
    && |was| <= |now|
    && (forall k :: 0 <= k < |was| ==> now[k].sequence == was[k].sequence && (Ended(was[k].state) ==> Ended(now[k].state)))
    && (forall j, k :: 0 <= j < |was| <= k < |now| ==> was[j].sequence < now[k].sequence)
    && forall j, k :: 0 <= j < k < |now| ==> now[j].sequence != now[k].sequence
  }

  /** The first live intent stays the first. */
  lemma FirstStays(was: seq<Intent>, now: seq<Intent>, i: nat)
    requires EndsKept(was, now) && i < |was| && ActiveIntent(was) == Some(was[i]) && !Ended(now[i].state)
    ensures ActiveIntent(now) == Some(now[i])
  {
    var active := ActiveIntent(now).value;
    var k :| 0 <= k < |now| && now[k] == active;
    forall j | 0 <= j < |was| && !Ended(now[j].state) ensures now[i].sequence <= now[j].sequence {
      assert !Ended(was[j].state);
    }
  }

  lemma KeptEnds(was: Option<Record>, now: Record)
    requires Allowed(JournalUpdate(was, now)) && was.Some? && |was.value.intents| <= |now.intents|
    requires forall k :: 0 <= k < |was.value.intents| ==> now.intents[k].intentId == was.value.intents[k].intentId
    requires forall k :: |was.value.intents| <= k < |now.intents| ==> MaxSequence(was.value.intents) < now.intents[k].sequence
    ensures EndsKept(was.value.intents, now.intents)
  {
    var u := JournalUpdate(was, now);
    AllowedIsDistinct(u);
    forall k | 0 <= k < |was.value.intents|
      ensures now.intents[k].sequence == was.value.intents[k].sequence
      ensures Ended(was.value.intents[k].state) ==> Ended(now.intents[k].state)
    {
      AllowedBefore(u, k);
      FindIs(now.intents, k);
    }
  }

  /** What a step may do and keep the record coherent: nothing new in flight, repairs answered. */
  ghost predicate Quiet(record: Record, next: Record) {
    && EndsKept(record.intents, next.intents)
    && forall k :: 0 <= k < |next.intents| ==>
         && RepairAnswered(next.intents[k])
         && (InFlight(next.intents[k]) ==> k < |record.intents| && next.intents[k] == record.intents[k])
  }

  lemma QuietIsCoherent(record: Record, next: Record)
    requires Coherent(record) && Quiet(record, next)
    requires next.hold == record.hold && next.folderId == record.folderId && next.canonical == record.canonical
    requires next.copiedBy == record.copiedBy && next.canonicalRefresh == record.canonicalRefresh
    ensures Coherent(next)
  {
    forall k | 0 <= k < |next.intents| ensures CoherentAt(next, next.intents[k]) {
      if InFlight(next.intents[k]) {
        assert CoherentAt(record, record.intents[k]);
        FirstStays(record.intents, next.intents, k);
      }
    }
  }

  /** What a step may supersede: nothing answered by it, so nothing newly accepted. */
  ghost predicate SupersedesOld(record: Record, next: Record) {
    forall k :: 0 <= k < |next.intents| && next.intents[k].state.Superseded? ==>
      k < |record.intents| && next.intents[k].intentId == record.intents[k].intentId
      && next.intents[k].attempts == record.intents[k].attempts
  }

  lemma ReplacedSupersedesOld(was: Option<Record>, record: Record, operation: Option<OriginOperation>, next: Record, i: nat,
                              replacement: Intent, hold: Hold)
    requires ReplacesIn(was, record, operation, next, i, replacement, hold) && !replacement.state.Superseded?
    ensures SupersedesOld(record, next)
  {
    ReplacesJournal(was, record, operation, next, i, replacement, hold);
  }

  lemma PreparedSupersedesOld(was: Option<Record>, record: Record, operation: Option<OriginOperation>, ids: AttemptIds,
                              lookup: EntryId -> Option<Location>, next: Record)
    requires Stored(was, record, operation) && PrepareFolderAttempt(record, ids, lookup) == Some(next)
    ensures SupersedesOld(record, next)
  {
    var i, made := PreparedAt(was, record, ids, lookup, next);
    PreparesSuperseded(was, record, operation, i, made, next);
  }

  lemma PreparesSuperseded(was: Option<Record>, record: Record, operation: Option<OriginOperation>, i: nat, made: Preparation,
                           next: Record)
    requires Stored(was, record, operation) && Prepares(record, i, made, next)
    ensures SupersedesOld(record, next)
  {
    var intent := record.intents[i];
    match made
    case Send(attempt) =>
      SentIsStep(intent, attempt);
      ReplacedSupersedesOld(was, record, operation, next, i, Sent(intent, attempt), HoldAfterAttempt(record.hold, attempt));
    case Unplaceable =>
      MovedIsStep(JournalUpdate(was, record), i, intent.(state := NeedsRepair));
      ReplacedSupersedesOld(was, record, operation, next, i, intent.(state := NeedsRepair), record.hold);
    case DeletedHere =>
      MovedIsStep(JournalUpdate(was, record), i, intent.(state := SettledLocally));
      ReplacedSupersedesOld(was, record, operation, next, i, intent.(state := SettledLocally), record.hold);
    case Absorbed => AbsorbedSupersedesNone(record, next);
  }

  lemma AbsorbedSupersedesNone(record: Record, next: Record)
    requires next.intents == ResolveUnavailable(record.intents, true)
    ensures SupersedesOld(record, next)
  {
    forall k | 0 <= k < |next.intents| ensures next.intents[k] == UnavailableOne(record.intents[k], true) {}
  }

  lemma RecordedSupersedesOld(was: Option<Record>, record: Record, operation: Option<OriginOperation>, i: nat, outcome: Outcome,
                              next: Record)
    requires Stored(was, record, operation) && RecordsAnswer(record, i, outcome, next)
    ensures SupersedesOld(record, next)
  {
    var intent := record.intents[i];
    AnsweredIsStep(JournalUpdate(was, record), i, outcome);
    var last := intent.attempts[|intent.attempts| - 1];
    ReplacedSupersedesOld(was, record, operation, next, i, Answered(intent, outcome),
                          HoldAfterAttempt(record.hold, last.(outcome := Some(outcome))));
  }

  lemma SettledSupersedesOld(was: Option<Record>, record: Record, operation: Option<OriginOperation>, settledAt: nat, next: Record)
    requires Stored(was, record, operation) && Coherent(record) && SettleFolderOutcome(record, settledAt) == Some(next)
    ensures SupersedesOld(record, next)
  {
    var i := SettlingAt(record, settledAt, next);
    SettlingJournal(was, record, operation, settledAt, next, i);
    forall k | 0 <= k < |next.intents| ensures k < |record.intents| && Moved(record.intents[k], next.intents[k]) {
      SettledAtIndex(JournalUpdate(was, record), JournalUpdate(Some(record), next), i,
                     DispositionOf(Answer(record.intents[i]).value, record.terminal.Some?), settledAt, record.hold, k);
    }
  }

  /** Such a step leaves every accepted answer out of superseded work, as it found it. */
  lemma UnblockedStays(record: Record, operation: Option<OriginOperation>, next: Record)
    requires Stored(Some(record), next, operation) && Coherent(record) && Unblocked(record) && SupersedesOld(record, next)
    requires Distinct(record.intents)
    ensures Unblocked(next)
  {
    forall k | 0 <= k < |next.intents| && next.intents[k].state.Superseded? ensures !AcceptedAnswer(next.intents[k]) {
      AllowedAt(JournalUpdate(Some(record), next), k);
      FindIs(record.intents, k);
      assert CoherentAt(record, record.intents[k]) && !SupersededAccepted(record.intents[k]);
    }
  }

  /** Only the first live intent is ever in flight. */
  lemma OthersAtRest(was: Option<Record>, record: Record, operation: Option<OriginOperation>, i: nat, k: nat)
    requires Stored(was, record, operation) && Coherent(record) && i < |record.intents| && k < |record.intents| && k != i
    requires ActiveIntent(record.intents) == Some(record.intents[i])
    ensures !InFlight(record.intents[k])
  {
    AllowedIsDistinct(JournalUpdate(was, record));
    assert CoherentAt(record, record.intents[k]);
  }

  lemma ReplacedIsCoherent(was: Option<Record>, record: Record, operation: Option<OriginOperation>, next: Record, i: nat,
                           replacement: Intent, hold: Hold)
    requires ReplacesIn(was, record, operation, next, i, replacement, hold) && Stored(Some(record), next, operation)
    requires Coherent(record) && ActiveIntent(record.intents) == Some(record.intents[i])
    requires FlightFits(next, replacement) && RepairAnswered(replacement)
    ensures Coherent(next)
  {
    ReplacesJournal(was, record, operation, next, i, replacement, hold);
    KeptEnds(Some(record), next);
    forall k | 0 <= k < |next.intents| ensures CoherentAt(next, next.intents[k]) {
      if k == i {
        if InFlight(replacement) { FirstStays(record.intents, next.intents, i); }
      } else {
        OthersAtRest(was, record, operation, i, k);
        assert CoherentAt(record, record.intents[k]);
      }
    }
  }

  /** A stored preparation is coherent: a create leaves only from `local`, a move only from a held place. */
  lemma PreparedIsCoherent(was: Option<Record>, record: Record, operation: Option<OriginOperation>, ids: AttemptIds,
                           lookup: EntryId -> Option<Location>, next: Record)
    requires Stored(was, record, operation) && Coherent(record)
    requires PrepareFolderAttempt(record, ids, lookup) == Some(next) && Stored(Some(record), next, operation)
    ensures Coherent(next)
  {
    var i := ActiveIsAt(record);
    var intent := record.intents[i];
    AllowedAt(JournalUpdate(was, record), i);
    assert IntentFits(record, intent);
    match PreparationOf(record, intent, ids, lookup)
    case Send(attempt) =>
      SentIsStep(intent, attempt);
      SentFits(record, intent, ids, lookup, attempt, next);
      ReplacedIsCoherent(was, record, operation, next, i, Sent(intent, attempt), HoldAfterAttempt(record.hold, attempt));
    case Unplaceable =>
      MovedIsStep(JournalUpdate(was, record), i, intent.(state := NeedsRepair));
      ReplacedIsCoherent(was, record, operation, next, i, intent.(state := NeedsRepair), record.hold);
    case Absorbed =>
      AbsorbedIsCoherent(was, record, operation, next, i);
    case DeletedHere =>
      DeletedHereIsRefused(was, record, operation, next, i);
    case Blocked => assert false;
  }

  lemma SentFits(record: Record, intent: Intent, ids: AttemptIds, lookup: EntryId -> Option<Location>, attempt: Attempt, next: Record)
    requires RecordFits(record) && ReadyIntent(record) == Some(intent) && intent.attempts == []
    requires PreparationOf(record, intent, ids, lookup) == Send(attempt)
    requires next == Replaced(record, intent, Sent(intent, attempt), HoldAfterAttempt(record.hold, attempt))
    ensures FlightFits(next, Sent(intent, attempt))
  {
    assert Sent(intent, attempt).attempts == [attempt];
  }

  lemma AbsorbedIsCoherent(was: Option<Record>, record: Record, operation: Option<OriginOperation>, next: Record, i: nat)
    requires Stored(was, record, operation) && Coherent(record) && Stored(Some(record), next, operation)
    requires i < |record.intents| && record.intents[i].state.Pending?
    requires ActiveIntent(record.intents) == Some(record.intents[i])
    requires next == record.(revision := record.revision + 1, intents := ResolveUnavailable(record.intents, true))
    ensures Coherent(next)
  {
    KeptEnds(Some(record), next);
    forall k | 0 <= k < |next.intents| ensures RepairAnswered(next.intents[k]) && !InFlight(next.intents[k]) {
      assert next.intents[k] == UnavailableOne(record.intents[k], true);
      if k != i { OthersAtRest(was, record, operation, i, k); }
    }
    QuietIsCoherent(record, next);
  }

  lemma AnsweredFlight(record: Record, intent: Intent, outcome: Outcome, next: Record)
    requires intent.attempts != [] && InFlight(intent) && Answer(intent).None? && FlightFits(record, intent)
    requires var last := intent.attempts[|intent.attempts| - 1];
             && AnswersAttempt(last, outcome)
             && next == Replaced(record, intent, Answered(intent, outcome),
                                 HoldAfterAttempt(record.hold, last.(outcome := Some(outcome))))
    ensures FlightFits(next, Answered(intent, outcome))
  {
    var n := |intent.attempts| - 1;
    assert Answered(intent, outcome).attempts[n] == intent.attempts[n].(outcome := Some(outcome));
  }

  lemma RecordedIsCoherent(was: Option<Record>, record: Record, operation: Option<OriginOperation>, intentId: string,
                           attemptId: string, outcome: Outcome, next: Record)
    requires Stored(was, record, operation) && Coherent(record)
    requires RecordFolderOutcome(record, intentId, attemptId, outcome) == Ok(Some(next))
    requires Stored(Some(record), next, operation)
    ensures Coherent(next)
  {
    var i := RecordedAt(record, intentId, attemptId, outcome, next);
    AnsweredIsCoherent(was, record, operation, i, outcome, next);
  }

  lemma AnsweredIsCoherent(was: Option<Record>, record: Record, operation: Option<OriginOperation>, i: nat, outcome: Outcome,
                           next: Record)
    requires Stored(was, record, operation) && Coherent(record) && RecordsAnswer(record, i, outcome, next)
    requires Stored(Some(record), next, operation)
    ensures Coherent(next)
  {
    var intent := record.intents[i];
    assert CoherentAt(record, intent);
    AnsweredIsStep(JournalUpdate(was, record), i, outcome);
    AnsweredFlight(record, intent, outcome, next);
    var last := intent.attempts[|intent.attempts| - 1];
    ReplacedIsCoherent(was, record, operation, next, i, Answered(intent, outcome),
                       HoldAfterAttempt(record.hold, last.(outcome := Some(outcome))));
  }

  lemma SettledIsCoherent(was: Option<Record>, record: Record, operation: Option<OriginOperation>, settledAt: nat, next: Record)
    requires Stored(was, record, operation) && Coherent(record)
    requires SettleFolderOutcome(record, settledAt) == Some(next) && Stored(Some(record), next, operation)
    ensures Coherent(next) && forall k :: 0 <= k < |next.intents| ==> !InFlight(next.intents[k])
  {
    var i := SettlingAt(record, settledAt, next);
    SettlingJournal(was, record, operation, settledAt, next, i);
    forall k | 0 <= k < |next.intents| ensures RepairAnswered(next.intents[k]) && !InFlight(next.intents[k]) {
      SettledAtRest(was, record, operation, settledAt, next, i, k);
    }
  }

  lemma SettledAtRest(was: Option<Record>, record: Record, operation: Option<OriginOperation>, settledAt: nat, next: Record,
                      i: nat, k: nat)
    requires Stored(was, record, operation) && Coherent(record) && SettlesAs(record, i, settledAt, next)
    requires Settles(JournalUpdate(was, record), JournalUpdate(Some(record), next), i,
                     DispositionOf(Answer(record.intents[i]).value, record.terminal.Some?), settledAt, record.hold)
    requires k < |next.intents|
    ensures RepairAnswered(next.intents[k]) && !InFlight(next.intents[k])
  {
    SettledAtIndex(JournalUpdate(was, record), JournalUpdate(Some(record), next), i,
                   DispositionOf(Answer(record.intents[i]).value, record.terminal.Some?), settledAt, record.hold, k);
    assert CoherentAt(record, record.intents[k]);
    if k != i { OthersAtRest(was, record, operation, i, k); }
  }
}
