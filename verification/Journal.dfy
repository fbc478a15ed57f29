/**
 * The namespace journal of one identity: its ordered intents, the requests each has sent and the
 * answers recorded, and the update rule every stored journal passes
 * (packages/resource-replica/src/namespace-journal-policy.ts, resource-records.ts).
 */
module Journal {
  import opened Records
  import opened Wrappers

  datatype Copied = Copied(copyId: EntryId, expected: EntryRef)
  datatype CopySource = CopySource(copied: Copied, place: Location)

  /** The parent a move asks for, with the folders to make beneath it. */
  datatype NewParent = NewParent(parent: ParentRef, createFolders: seq<string>)

  datatype Request =
    | CreateRequest(documentId: EntryId, placed: Option<Destination>)
    | CreateFolderRequest(owner: Owner, folderId: EntryId, home: Destination)
    | MoveRequest(entry: EntryRef, operationId: string, newParent: Option<NewParent>, name: Option<string>,
                  position: Option<Position>)
    | DeleteRequest(entry: EntryRef, operationId: string)
    | CopyRequest(owner: Owner, operationId: string, sources: seq<CopySource>, scheme: string, parent: ParentRef,
                  position: Option<Position>)

  datatype Command =
    | MoveCommand(expected: EntryRef, newParent: Option<NewParent>, name: Option<string>, position: Option<Position>)
    | DeleteCommand(expected: EntryRef)
    | CopyCommand(sources: seq<Copied>, parent: ParentRef, position: Option<Position>)

  datatype CopiedEntry = CopiedEntry(id: EntryId, kind: EntryKind, path: string, name: string)

  datatype Receipt = Receipt(operationId: string, command: Command, ok: bool, entries: seq<CopiedEntry>,
                             observationVersion: nat)

  datatype CreateStatus = Accepted | Joined | Conflict

  datatype Outcome =
    | Refusal(requestId: string, retryable: bool)
    | Operation(receipt: Receipt)
    | Created(status: CreateStatus, documentId: EntryId)
    | FolderCreated(conflict: bool, folderId: EntryId, scheme: string, path: string, name: string)

  datatype Attempt = Attempt(attemptId: string, request: Request, outcome: Option<Outcome>)

  datatype CopyRoot = CopyRoot(kind: EntryKind, handle: string, copyId: EntryId, sourceId: EntryId,
                               predictedName: string)

  datatype Desired =
    | SetLocation(typedName: string, destination: Destination)
    | SetFolderLocation(typedName: string, destination: Destination)
    | Delete
    | Copy(roots: seq<CopyRoot>, parent: ParentRef, position: Option<Position>)

  datatype State =
    | Pending | Submitted | Received | Settled | Superseded | Unexecutable | NeedsRepair | Cancelled | SettledLocally

  /** A recorded time; a number the source refuses as not finite is `NotFinite`. */
  datatype Stamp = At(ms: int) | NotFinite

  datatype Predecessor = Predecessor(journal: string, handle: string, order: int, anchor: bool)
  datatype Admission = Admission(order: int, scope: seq<string>, predecessors: seq<Predecessor>)

  datatype Intent = Intent(
    handle: string,
    projectId: string,
    intentId: string,
    operationId: Option<string>,
    sequence: int,
    admission: Option<Admission>,
    identityRevision: int,
    desired: Desired,
    attempts: seq<Attempt>,
    settledAt: Option<Stamp>,
    state: State)

  const MAX_SAFE_INTEGER: int := 0x1F_FFFF_FFFF_FFFF

  // ------------------------------------------------------------------------------------------
  // Reading a journal
  // ------------------------------------------------------------------------------------------

  function Find(intents: seq<Intent>, intentId: string): (found: Option<Intent>)
    ensures found.Some? <==> exists i :: 0 <= i < |intents| && intents[i].intentId == intentId
    ensures found.Some? ==> found.value in intents && found.value.intentId == intentId
  {
    if intents == [] then None
    else if intents[0].intentId == intentId then Some(intents[0])
    else
      var found := Find(intents[1..], intentId);
      assert forall i :: 1 <= i < |intents| ==> intents[1..][i - 1] == intents[i];
      found
  }

  predicate Ended(state: State) {
    state.Cancelled? || state.Settled? || state.Superseded? || state.Unexecutable? || state.SettledLocally?
  }

  /** The oldest intent not ended. */
  function ActiveIntent(intents: seq<Intent>): (active: Option<Intent>)
    ensures active.Some? ==> active.value in intents && !Ended(active.value.state)
    ensures forall i :: 0 <= i < |intents| && !Ended(intents[i].state) ==>
              active.Some? && active.value.sequence <= intents[i].sequence
  {
    if intents == [] then None
    else
      var n := |intents| - 1;
      var rest := ActiveIntent(intents[..n]);
      assert forall i :: 0 <= i < n ==> intents[..n][i] == intents[i];
      if !Ended(intents[n].state) && (rest.None? || intents[n].sequence < rest.value.sequence) then Some(intents[n]) else rest
  }

  /** `Math.max(0, ...sequences)`. */
  function MaxSequence(intents: seq<Intent>): (max: int)
    ensures 0 <= max && forall i :: 0 <= i < |intents| ==> intents[i].sequence <= max
    ensures max > 0 ==> exists i :: 0 <= i < |intents| && intents[i].sequence == max
  {
    if intents == [] then 0
    else
      var n := |intents| - 1;
      var rest := MaxSequence(intents[..n]);
      assert forall i :: 0 <= i < n ==> intents[..n][i] == intents[i];
      if intents[n].sequence > rest then intents[n].sequence else rest
  }

  /** The answer of the last attempt; the source reads it as `attempts.at(-1)?.outcome`. */
  function Answer(intent: Intent): Option<Outcome> {
    if |intent.attempts| == 0 then None else intent.attempts[|intent.attempts| - 1].outcome
  }

  datatype Disposition = Accept | Refuse | Absorb

  /** What an answer means for its intent; a terminal identity absorbs every answer. */
  function DispositionOf(outcome: Outcome, terminal: bool): Disposition {
    if terminal then Absorb
    else
      match outcome
      case Operation(receipt) => if receipt.ok then Accept else Refuse
      case Created(status, _) => if status.Conflict? then Refuse else Accept
      case FolderCreated(conflict, _, _, _, _) => if conflict then Refuse else Accept
      case Refusal(_, _) => Refuse
  }

  predicate AcceptedAnswer(intent: Intent) {
    Answer(intent).Some? && DispositionOf(Answer(intent).value, false).Accept?
  }

  function RequestId(request: Request): string {
    match request
    case CreateRequest(documentId, _) => documentId.text
    case CreateFolderRequest(_, folderId, _) => folderId.text
    case MoveRequest(_, operationId, _, _, _) => operationId
    case DeleteRequest(_, operationId) => operationId
    case CopyRequest(_, operationId, _, _, _, _) => operationId
  }

  predicate Placement(desired: Desired) {
    desired.SetLocation? || desired.SetFolderLocation?
  }

  predicate SameKind(left: Desired, right: Desired) {
    || (left.SetLocation? && right.SetLocation?) || (left.SetFolderLocation? && right.SetFolderLocation?)
    || (left.Delete? && right.Delete?) || (left.Copy? && right.Copy?)
  }

  /** A later queued placement that rides on `earlier`. */
  predicate Follows(intent: Intent, earlier: Intent) {
    && Placement(earlier.desired) && SameKind(intent.desired, earlier.desired)
    && intent.identityRevision == earlier.identityRevision && intent.sequence > earlier.sequence
  }

  predicate Unsent(intent: Intent) {
    intent.state.Pending? && intent.attempts == []
  }

  // ------------------------------------------------------------------------------------------
  // The update rule
  // ------------------------------------------------------------------------------------------

  /** A stored journal, the one replacing it, and what the identity allows; no journal yet is []. */
  datatype Update = Update(
    previous: seq<Intent>,
    handle: string,
    next: seq<Intent>,
    identityRevision: int,
    localDeletionAllowed: bool,
    terminal: bool)

  datatype Rule =
    | Identity | Order | SettlementTime | Evidence | Cancellation | LocalSettlement | TerminalHistory | StateEvidence
    | HistoryKept | CompletedStay | ReceivedStays | AttemptsStay

  predicate AboutNext(rule: Rule) {
    !(rule.HistoryKept? || rule.CompletedStay? || rule.ReceivedStays? || rule.AttemptsStay?)
  }

  predicate OutcomeMatches(attempt: Attempt) {
    var request := attempt.request;
    match attempt.outcome
    case None => true
    case Some(Refusal(requestId, retryable)) => requestId == RequestId(request) && !retryable
    case Some(Operation(receipt)) =>
      (match (request, receipt.command)
       case (MoveRequest(entry, operationId, _, _, _), MoveCommand(expected, _, _, _)) =>
         receipt.operationId == operationId && expected == entry
       case (DeleteRequest(entry, operationId), DeleteCommand(expected)) =>
         receipt.operationId == operationId && expected == entry
       case (CopyRequest(_, operationId, sources, _, _, _), CopyCommand(copied, _, _)) =>
         && receipt.operationId == operationId && |sources| == |copied|
         && forall i :: 0 <= i < |sources| ==> sources[i].copied == copied[i]
       case _ => false)
    case Some(Created(status, documentId)) =>
      request.CreateRequest? && (status.Accepted? ==> documentId == request.documentId)
    case Some(FolderCreated(conflict, folderId, _, _, _)) =>
      request.CreateFolderRequest? && (conflict || folderId == request.folderId)
  }

  predicate Ordered(u: Update, i: nat)
    requires i < |u.next|
  {
    var intent := u.next[i];
    && (forall k :: 0 <= k < i ==> u.next[k].intentId != intent.intentId && u.next[k].sequence != intent.sequence)
    && 1 <= intent.sequence <= MAX_SAFE_INTEGER
    && (Find(u.previous, intent.intentId).None? ==> intent.sequence > MaxSequence(u.previous))
  }

  predicate Timed(intent: Intent) {
    intent.settledAt.Some? ==>
      && intent.settledAt.value.At? && intent.settledAt.value.ms >= 0
      && (intent.state.Settled? || intent.state.NeedsRepair? || intent.state.Superseded? || intent.state.Unexecutable?)
  }

  predicate Evidenced(intent: Intent) {
    && (forall i, k :: 0 <= i < k < |intent.attempts| ==> intent.attempts[i].attemptId != intent.attempts[k].attemptId)
    && (forall i :: 0 <= i < |intent.attempts| ==> OutcomeMatches(intent.attempts[i]))
  }

  /** A later delete, a refused placement it rode on, or a later intent for the same thing. */
  predicate RetiredBy(u: Update, intent: Intent, other: Intent) {
    || (other.desired.Delete? && other.sequence > intent.sequence)
    || (Follows(intent, other) && Answer(other).Some?
        && (Answer(other).value.Refusal? || (Answer(other).value.Operation? && !Answer(other).value.receipt.ok)))
    || (other.sequence > intent.sequence && other.identityRevision == u.identityRevision
        && (other.desired == intent.desired || (Placement(intent.desired) && SameKind(other.desired, intent.desired))))
  }

  predicate CancelledHolds(u: Update, intent: Intent) {
    intent.state.Cancelled? ==>
      && intent.attempts == [] && !intent.desired.Delete?
      && exists k :: 0 <= k < |u.next| && RetiredBy(u, intent, u.next[k])
  }

  predicate LocalHolds(u: Update, intent: Intent) {
    intent.state.SettledLocally? ==>
      && (forall k :: 0 <= k < |u.next| && u.next[k].intentId != intent.intentId ==>
            u.next[k].state.Cancelled? || u.next[k].state.Superseded?)
      && intent.desired.Delete? && intent.attempts == []
      && (u.localDeletionAllowed || WasIn(u, intent, SettledLocally))
  }

  predicate WasIn(u: Update, intent: Intent, state: State) {
    Find(u.previous, intent.intentId).Some? && Find(u.previous, intent.intentId).value.state == state
  }

  predicate TerminalHolds(u: Update, intent: Intent) {
    intent.state.Unexecutable? ==> u.terminal || WasIn(u, intent, Unexecutable)
  }

  predicate StateHolds(u: Update, intent: Intent) {
    && (intent.state.Submitted? ==> |intent.attempts| > 0 && Answer(intent).None?)
    && (intent.state.Received? ==> Answer(intent).Some?)
    && (intent.state.Settled? ==> AcceptedAnswer(intent))
    && (intent.state.Superseded? ==>
          && (|intent.attempts| > 0 ==> Answer(intent).Some?)
          && (AcceptedAnswer(intent) ==> WasIn(u, intent, NeedsRepair))
          && (Find(u.previous, intent.intentId).None? || WasIn(u, intent, NeedsRepair)
              || WasIn(u, intent, Received) || WasIn(u, intent, Superseded)))
    && (intent.state.Pending? ==> intent.attempts == [])
    && (forall i :: 0 <= i < |intent.attempts| - 1 ==> intent.attempts[i].outcome.Some?)
  }

  /** What an intent says of itself, fixed from the moment it is recorded. */
  predicate SameIntention(was: Intent, now: Intent) {
    && now.intentId == was.intentId && now.projectId == was.projectId && now.sequence == was.sequence
    && now.identityRevision == was.identityRevision && now.operationId == was.operationId
    && (was.settledAt.Some? ==> now.settledAt == was.settledAt)
    && now.desired == was.desired && now.admission == was.admission
  }

  predicate CompletedStays(was: Intent, now: Intent) {
    && ((was.state.Cancelled? || was.state.SettledLocally?) ==> now.state == was.state && now.attempts == [])
    && ((was.state.Settled? || was.state.Superseded? || was.state.Unexecutable?) ==>
          now.state == was.state && |now.attempts| == |was.attempts|)
  }

  predicate StaysReceived(was: Intent, now: Intent) {
    was.state.Received? ==>
      !now.state.Pending? && !now.state.Submitted? && |now.attempts| == |was.attempts| && Answer(now).Some?
  }

  predicate AttemptStays(was: Attempt, now: Attempt) {
    now.attemptId == was.attemptId && now.request == was.request && (was.outcome.Some? ==> now.outcome == was.outcome)
  }

  predicate AttemptsKept(was: Intent, now: Intent) {
    && |was.attempts| <= |now.attempts|
    && forall i :: 0 <= i < |was.attempts| ==> AttemptStays(was.attempts[i], now.attempts[i])
  }

  predicate UpholdsAt(u: Update, rule: Rule, i: nat)
    requires i < if AboutNext(rule) then |u.next| else |u.previous|
  {
    if AboutNext(rule) then
      var intent := u.next[i];
      match rule
      case Identity => intent.handle == u.handle
      case Order => Ordered(u, i)
      case SettlementTime => Timed(intent)
      case Evidence => Evidenced(intent)
      case Cancellation => CancelledHolds(u, intent)
      case LocalSettlement => LocalHolds(u, intent)
      case TerminalHistory => TerminalHolds(u, intent)
      case _ => StateHolds(u, intent)
    else
      var was := u.previous[i];
      var now := Find(u.next, was.intentId);
      match rule
      case HistoryKept => now.Some? && SameIntention(was, now.value)
      case CompletedStay => now.Some? ==> CompletedStays(was, now.value)
      case ReceivedStays => now.Some? ==> StaysReceived(was, now.value)
      case _ => now.Some? ==> AttemptsKept(was, now.value)
  }

  ghost predicate Upholds(u: Update, rule: Rule) {
    forall i :: 0 <= i < (if AboutNext(rule) then |u.next| else |u.previous|) ==> UpholdsAt(u, rule, i)
  }

  ghost predicate Allowed(u: Update) {
    forall rule :: Upholds(u, rule)
  }

  // ------------------------------------------------------------------------------------------
  // The validator
  // ------------------------------------------------------------------------------------------

  ghost function IdsOf(intents: seq<Intent>): set<string> {
    set i | 0 <= i < |intents| :: intents[i].intentId
  }

  ghost function SequencesOf(intents: seq<Intent>): set<int> {
    set i | 0 <= i < |intents| :: intents[i].sequence
  }

  method CheckEvidence(intent: Intent) returns (ok: bool)
    ensures ok == Evidenced(intent)
  {
    var ids: set<string> := {};
    for i := 0 to |intent.attempts|
      invariant forall k :: 0 <= k < i ==> intent.attempts[k].attemptId in ids
      invariant forall id :: id in ids ==> exists k :: 0 <= k < i && intent.attempts[k].attemptId == id
      invariant forall j, k :: 0 <= j < k < i ==> intent.attempts[j].attemptId != intent.attempts[k].attemptId
      invariant forall k :: 0 <= k < i ==> OutcomeMatches(intent.attempts[k])
    {
      var attempt := intent.attempts[i];
      if attempt.attemptId in ids { return false; }
      ids := ids + {attempt.attemptId};
      if !OutcomeMatches(attempt) { return false; }
    }
    ok := true;
  }

  predicate AboutState(rule: Rule) {
    rule.Cancellation? || rule.LocalSettlement? || rule.TerminalHistory? || rule.StateEvidence?
  }

  /** The second half of the checks: what the intent's state says against the rest of the journals. */
  method CheckState(u: Update, i: nat) returns (broken: Option<Rule>)
    requires i < |u.next|
    ensures broken.None? <==> forall rule :: AboutState(rule) ==> UpholdsAt(u, rule, i)
    ensures broken.Some? ==> AboutState(broken.value) && !UpholdsAt(u, broken.value, i)
  {
    var intent := u.next[i];
    if !CancelledHolds(u, intent) { assert !UpholdsAt(u, Cancellation, i); return Some(Cancellation); }
    if !LocalHolds(u, intent) { assert !UpholdsAt(u, LocalSettlement, i); return Some(LocalSettlement); }
    if !TerminalHolds(u, intent) { assert !UpholdsAt(u, TerminalHistory, i); return Some(TerminalHistory); }
    if !StateHolds(u, intent) { assert !UpholdsAt(u, StateEvidence, i); return Some(StateEvidence); }
    broken := None;
  }

  /** The checks of one intent of the new journal, in the order the source makes them. */
  method CheckIntent(u: Update, i: nat, previousMax: int, previousIds: set<string>, ids: set<string>, sequences: set<int>)
    returns (broken: Option<Rule>)
    requires i < |u.next| && previousMax == MaxSequence(u.previous)
    requires forall id :: id in previousIds <==> Find(u.previous, id).Some?
    requires ids == IdsOf(u.next[..i]) && sequences == SequencesOf(u.next[..i])
    ensures broken.None? <==> forall rule :: AboutNext(rule) ==> UpholdsAt(u, rule, i)
    ensures broken.Some? ==> AboutNext(broken.value) && !UpholdsAt(u, broken.value, i)
  {
    var intent := u.next[i];
    PrefixGrows(u.next, i);
    if intent.handle != u.handle { assert !UpholdsAt(u, Identity, i); return Some(Identity); }
    if intent.intentId in ids || intent.sequence in sequences || !(1 <= intent.sequence <= MAX_SAFE_INTEGER)
       || (intent.intentId !in previousIds && intent.sequence <= previousMax) {
      assert !UpholdsAt(u, Order, i);
      return Some(Order);
    }
    if !Timed(intent) { assert !UpholdsAt(u, SettlementTime, i); return Some(SettlementTime); }
    var evidenced := CheckEvidence(intent);
    if !evidenced { assert !UpholdsAt(u, Evidence, i); return Some(Evidence); }
    broken := CheckState(u, i);
  }

  /** The first pass: every intent of the new journal by itself. */
  method CheckNext(u: Update) returns (broken: Option<Rule>)
    ensures broken.None? <==> forall rule :: AboutNext(rule) ==> Upholds(u, rule)
    ensures broken.Some? ==> !Upholds(u, broken.value)
  {
    var previousMax := MaxSequence(u.previous);
    var previousIds := set i | 0 <= i < |u.previous| :: u.previous[i].intentId;
    var ids: set<string> := {};
    var sequences: set<int> := {};
    for i := 0 to |u.next|
      invariant ids == IdsOf(u.next[..i]) && sequences == SequencesOf(u.next[..i])
      invariant forall rule, k {:trigger UpholdsAt(u, rule, k)} :: AboutNext(rule) && 0 <= k < i ==> UpholdsAt(u, rule, k)
    {
      broken := CheckIntent(u, i, previousMax, previousIds, ids, sequences);
      if broken.Some? { return; }
      PrefixGrows(u.next, i);
      ids, sequences := ids + {u.next[i].intentId}, sequences + {u.next[i].sequence};
    }
    broken := None;
  }

  lemma PrefixGrows(intents: seq<Intent>, i: nat)
    requires i < |intents|
    ensures IdsOf(intents[..i + 1]) == IdsOf(intents[..i]) + {intents[i].intentId}
    ensures SequencesOf(intents[..i + 1]) == SequencesOf(intents[..i]) + {intents[i].sequence}
    ensures intents[i].intentId in IdsOf(intents[..i]) <==> exists k :: 0 <= k < i && intents[k].intentId == intents[i].intentId
    ensures intents[i].sequence in SequencesOf(intents[..i]) <==> exists k :: 0 <= k < i && intents[k].sequence == intents[i].sequence
  {
    assert intents[..i + 1] == intents[..i] + [intents[i]];
    assert forall k :: 0 <= k < i ==> intents[..i][k] == intents[k];
    var longer := intents[..i + 1];
    assert longer[i] == intents[i];
    forall id | id in IdsOf(intents[..i]) ensures id in IdsOf(longer) {
      var k :| 0 <= k < i && intents[..i][k].intentId == id;
      assert longer[k].intentId == id;
    }
    forall s | s in SequencesOf(intents[..i]) ensures s in SequencesOf(longer) {
      var k :| 0 <= k < i && intents[..i][k].sequence == s;
      assert longer[k].sequence == s;
    }
  }

  /** The second pass: every intent already recorded, against its successor. */
  method CheckPrevious(u: Update) returns (broken: Option<Rule>)
    ensures broken.None? <==> forall rule :: !AboutNext(rule) ==> Upholds(u, rule)
    ensures broken.Some? ==> !Upholds(u, broken.value)
  {
    for i := 0 to |u.previous|
      invariant forall rule, k {:trigger UpholdsAt(u, rule, k)} :: !AboutNext(rule) && 0 <= k < i ==> UpholdsAt(u, rule, k)
    {
      var was := u.previous[i];
      var now := Find(u.next, was.intentId);
      if now.None? || !SameIntention(was, now.value) { assert !UpholdsAt(u, HistoryKept, i); return Some(HistoryKept); }
      if !CompletedStays(was, now.value) { assert !UpholdsAt(u, CompletedStay, i); return Some(CompletedStay); }
      if !StaysReceived(was, now.value) { assert !UpholdsAt(u, ReceivedStays, i); return Some(ReceivedStays); }
      for k := 0 to |was.attempts|
        invariant k <= |now.value.attempts|
        invariant forall j :: 0 <= j < k ==> AttemptStays(was.attempts[j], now.value.attempts[j])
      {
        if k >= |now.value.attempts| || !AttemptStays(was.attempts[k], now.value.attempts[k]) {
          assert !UpholdsAt(u, AttemptsStay, i);
          return Some(AttemptsStay);
        }
      }
      forall rule | !AboutNext(rule) ensures UpholdsAt(u, rule, i) {}
    }
    broken := None;
  }

  /** Nothing when the update is allowed, otherwise a rule it breaks. */
  method ValidateNamespaceJournal(u: Update) returns (broken: Option<Rule>)
    ensures broken.None? <==> Allowed(u)
    ensures broken.Some? ==> !Upholds(u, broken.value)
  {
    broken := CheckNext(u);
    if broken.None? { broken := CheckPrevious(u); }
  }
}
