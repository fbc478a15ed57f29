/**
 * What the update rule of Journal guarantees over whole histories of a journal
 * (packages/resource-replica/src/namespace-journal-policy.ts:224-435).
 */
module JournalHistory {
  import opened Journal
  import opened Records
  import opened Wrappers

  ghost predicate Distinct(intents: seq<Intent>) {
    forall i, k :: 0 <= i < k < |intents| ==> intents[i].intentId != intents[k].intentId && intents[i].sequence != intents[k].sequence
  }

  lemma FindIs(intents: seq<Intent>, i: nat)
    requires Distinct(intents) && i < |intents|
    ensures Find(intents, intents[i].intentId) == Some(intents[i])
  {
    var found := Find(intents, intents[i].intentId).value;
    var k :| 0 <= k < |intents| && intents[k] == found;
    assert k == i;
  }

  /** The rule for one intent of the new journal, its seven checks together. */
  lemma AllowedAt(u: Update, i: nat)
    requires Allowed(u) && i < |u.next|
    ensures u.next[i].handle == u.handle && Ordered(u, i) && Timed(u.next[i]) && Evidenced(u.next[i])
    ensures CancelledHolds(u, u.next[i]) && LocalHolds(u, u.next[i]) && TerminalHolds(u, u.next[i]) && StateHolds(u, u.next[i])
  {
    AllowedShape(u, i);
    AllowedState(u, i);
  }

  lemma UpheldAt(u: Update, rule: Rule, i: nat)
    requires Allowed(u) && i < if AboutNext(rule) then |u.next| else |u.previous|
    ensures UpholdsAt(u, rule, i)
  {
    assert Upholds(u, rule);
  }

  lemma AllowedShape(u: Update, i: nat)
    requires Allowed(u) && i < |u.next|
    ensures u.next[i].handle == u.handle && Ordered(u, i) && Timed(u.next[i]) && Evidenced(u.next[i])
  {
    UpheldAt(u, Identity, i);
    UpheldAt(u, Order, i);
    UpheldAt(u, SettlementTime, i);
    UpheldAt(u, Evidence, i);
  }

  lemma AllowedState(u: Update, i: nat)
    requires Allowed(u) && i < |u.next|
    ensures CancelledHolds(u, u.next[i]) && LocalHolds(u, u.next[i]) && TerminalHolds(u, u.next[i]) && StateHolds(u, u.next[i])
  {
    UpheldAt(u, Cancellation, i);
    UpheldAt(u, LocalSettlement, i);
    UpheldAt(u, TerminalHistory, i);
    UpheldAt(u, StateEvidence, i);
  }

  ghost predicate NextHolds(u: Update, i: nat)
    requires i < |u.next|
  {
    && u.next[i].handle == u.handle && Ordered(u, i) && Timed(u.next[i]) && Evidenced(u.next[i])
    && CancelledHolds(u, u.next[i]) && LocalHolds(u, u.next[i]) && TerminalHolds(u, u.next[i]) && StateHolds(u, u.next[i])
  }

  ghost predicate PreviousHolds(u: Update, i: nat)
    requires i < |u.previous|
  {
    var now := Find(u.next, u.previous[i].intentId);
    && now.Some? && SameIntention(u.previous[i], now.value) && CompletedStays(u.previous[i], now.value)
    && StaysReceived(u.previous[i], now.value) && AttemptsKept(u.previous[i], now.value)
  }

  lemma AllowedBefore(u: Update, i: nat)
    requires Allowed(u) && i < |u.previous|
    ensures PreviousHolds(u, i)
  {
    UpheldAt(u, HistoryKept, i);
    UpheldAt(u, CompletedStay, i);
    UpheldAt(u, ReceivedStays, i);
    UpheldAt(u, AttemptsStay, i);
  }

  ghost predicate AllHold(u: Update) {
    && (forall i :: 0 <= i < |u.next| ==> NextHolds(u, i))
    && (forall i :: 0 <= i < |u.previous| ==> PreviousHolds(u, i))
  }

  /** An update is allowed exactly when each new intent and each recorded one passes its checks. */
  lemma AllowedExactly(u: Update)
    ensures Allowed(u) <==> AllHold(u)
  {
    if Allowed(u) {
      forall i | 0 <= i < |u.next| ensures NextHolds(u, i) { AllowedAt(u, i); }
      forall i | 0 <= i < |u.previous| ensures PreviousHolds(u, i) { AllowedBefore(u, i); }
    }
    if AllHold(u) {
      forall rule ensures Upholds(u, rule) {
        forall i | 0 <= i < (if AboutNext(rule) then |u.next| else |u.previous|) ensures UpholdsAt(u, rule, i) {
          if AboutNext(rule) { assert NextHolds(u, i); } else { assert PreviousHolds(u, i); }
        }
      }
    }
  }

  lemma AllowedIsDistinct(u: Update)
    requires Allowed(u)
    ensures Distinct(u.next)
  {
    forall i, k | 0 <= i < k < |u.next|
      ensures u.next[i].intentId != u.next[k].intentId && u.next[i].sequence != u.next[k].sequence
    {
      AllowedAt(u, k);
    }
  }

  // ------------------------------------------------------------------------------------------
  // Over any run of allowed updates
  // ------------------------------------------------------------------------------------------

  /** Each update starts from the journal the one before it stored. */
  ghost predicate AllowedRun(run: seq<Update>) {
    && (forall i :: 0 <= i < |run| ==> Allowed(run[i]))
    && forall i :: 0 < i < |run| ==> run[i].previous == run[i - 1].next
  }

  /**
   * The same intention, its requests and answers frozen, and a completed state for good. A received
   * intent may go on (an answer that could not be applied is repaired and sent again), so only its
   * answer is kept.
   */
  predicate Carried(was: Intent, now: Intent) {
    SameIntention(was, now) && CompletedStays(was, now) && AttemptsKept(was, now)
  }

  ghost predicate CarriedFrom(earlier: seq<Intent>, later: seq<Intent>, i: nat)
    requires i < |earlier|
  {
    var now := Find(later, earlier[i].intentId);
    now.Some? && Carried(earlier[i], now.value)
  }

  ghost predicate OutranksAt(earlier: seq<Intent>, later: seq<Intent>, i: nat)
    requires i < |later|
  {
    Find(earlier, later[i].intentId).None? ==> later[i].sequence > MaxSequence(earlier)
  }

  /** Nothing recorded is lost or rewritten, and whatever is new comes after all of it. */
  ghost predicate Extends(earlier: seq<Intent>, later: seq<Intent>) {
    && (forall i :: 0 <= i < |earlier| ==> CarriedFrom(earlier, later, i))
    && (forall i :: 0 <= i < |later| ==> OutranksAt(earlier, later, i))
  }

  lemma AllowedExtends(u: Update)
    requires Allowed(u)
    ensures Extends(u.previous, u.next)
  {
    forall i | 0 <= i < |u.previous| ensures CarriedFrom(u.previous, u.next, i) { AllowedBefore(u, i); }
    forall i | 0 <= i < |u.next| ensures OutranksAt(u.previous, u.next, i) { AllowedAt(u, i); }
  }

  lemma CarriedOn(a: Intent, b: Intent, c: Intent)
    requires Carried(a, b) && Carried(b, c)
    ensures Carried(a, c)
  {
    forall i | 0 <= i < |a.attempts| ensures AttemptStays(a.attempts[i], c.attempts[i]) {
      assert AttemptStays(a.attempts[i], b.attempts[i]) && AttemptStays(b.attempts[i], c.attempts[i]);
    }
  }

  lemma ExtendsOn(a: seq<Intent>, b: seq<Intent>, c: seq<Intent>)
    requires Distinct(c) && Extends(a, b) && Extends(b, c)
    ensures Extends(a, c)
  {
    forall i | 0 <= i < |a| ensures CarriedFrom(a, c, i) {
      assert CarriedFrom(a, b, i);
      var mid := Find(b, a[i].intentId).value;
      var k :| 0 <= k < |b| && b[k] == mid;
      assert CarriedFrom(b, c, k);
      CarriedOn(a[i], mid, Find(c, mid.intentId).value);
    }
    forall i | 0 <= i < |c| ensures OutranksAt(a, c, i) {
      assert OutranksAt(b, c, i);
      var mid := Find(b, c[i].intentId);
      if Find(a, c[i].intentId).None? {
        if mid.None? {
          KeptSequences(a, b);
        } else {
          var k :| 0 <= k < |b| && b[k] == mid.value;
          assert OutranksAt(a, b, k) && CarriedFrom(b, c, k);
          FindIs(c, i);
        }
      }
    }
  }

  lemma KeptSequences(a: seq<Intent>, b: seq<Intent>)
    requires Extends(a, b)
    ensures MaxSequence(a) <= MaxSequence(b)
  {
    if MaxSequence(a) > 0 {
      var i :| 0 <= i < |a| && a[i].sequence == MaxSequence(a);
      assert CarriedFrom(a, b, i);
      var k :| 0 <= k < |b| && b[k] == Find(b, a[i].intentId).value;
      assert b[k].sequence == MaxSequence(a);
    }
  }

  /** One intent may be unanswered at a time, and only its last attempt. */
  predicate OneOpenAttempt(intent: Intent) {
    forall i :: 0 <= i < |intent.attempts| - 1 ==> intent.attempts[i].outcome.Some?
  }

  /**
   * Whatever the updates between them, a later journal of a run carries every intent of an earlier
   * one with its requests and answers, completed work never restarts, and new work comes after it.
   */
  lemma {:induction false} RunExtends(run: seq<Update>, i: nat, j: nat)
    requires AllowedRun(run) && i <= j < |run|
    ensures Distinct(run[j].next) && (forall k :: 0 <= k < |run[j].next| ==> OneOpenAttempt(run[j].next[k]))
    ensures Extends(run[i].previous, run[j].next)
    decreases j
  {
    AllowedIsDistinct(run[j]);
    forall k | 0 <= k < |run[j].next| ensures OneOpenAttempt(run[j].next[k]) { AllowedAt(run[j], k); }
    AllowedExtends(run[j]);
    if i < j {
      RunExtends(run, i, j - 1);
      ExtendsOn(run[i].previous, run[j - 1].next, run[j].next);
    }
  }

  /** A settled intent stays settled with the same accepted answer. */
  lemma SettledForGood(run: seq<Update>, i: nat, j: nat, k: nat)
    requires AllowedRun(run) && i < j < |run| && k < |run[i].next| && run[i].next[k].state.Settled?
    ensures var now := Find(run[j].next, run[i].next[k].intentId);
            now.Some? && now.value.state.Settled? && AcceptedAnswer(run[i].next[k]) && Answer(now.value) == Answer(run[i].next[k])
  {
    RunExtends(run, i + 1, j);
    AllowedAt(run[i], k);
    var was := run[i].next[k];
    assert CarriedFrom(run[i + 1].previous, run[j].next, k);
    var now := Find(run[j].next, was.intentId).value;
    assert AttemptStays(was.attempts[|was.attempts| - 1], now.attempts[|was.attempts| - 1]);
  }

  // ------------------------------------------------------------------------------------------
  // Storing a journal again unchanged
  // ------------------------------------------------------------------------------------------

  /** Superseded with an accepted answer: reachable from repair, and then not storable again. */
  predicate SupersededAccepted(intent: Intent) {
    intent.state.Superseded? && AcceptedAnswer(intent)
  }

  /**
   * A journal an update stored can be stored again as it is exactly when it holds no superseded
   * intent with an accepted answer; whether local deletion or a terminal identity is allowed then
   * does not matter.
   */
  lemma SameAgainExactly(u: Update, again: Update)
    requires Allowed(u) && again.previous == u.next && again.next == u.next
    requires again.handle == u.handle && again.identityRevision == u.identityRevision
    ensures Allowed(again) <==> forall k :: 0 <= k < |u.next| ==> !SupersededAccepted(u.next[k])
  {
    AllowedIsDistinct(u);
    forall i | 0 <= i < |again.previous| ensures PreviousHolds(again, i) {
      FindIs(u.next, i);
      AllowedAt(u, i);
    }
    forall i | 0 <= i < |again.next| ensures NextHolds(again, i) <==> !SupersededAccepted(u.next[i]) {
      FindIs(u.next, i);
      AllowedAt(u, i);
      KeptCancelled(u, again, u.next[i]);
    }
    AllowedExactly(again);
  }

  /** Nor can anything else be: a journal that holds such an intent takes no further update. */
  lemma BlockedTakesNoUpdate(was: Update, u: Update, i: nat)
    requires Allowed(was) && u.previous == was.next && i < |u.previous| && SupersededAccepted(u.previous[i])
    ensures !Allowed(u)
  {
    if Allowed(u) {
      AllowedIsDistinct(was);
      AllowedBefore(u, i);
      FindIs(u.previous, i);
      var now := Find(u.next, u.previous[i].intentId).value;
      var k :| 0 <= k < |u.next| && u.next[k] == now;
      AllowedAt(u, k);
      KeptAnswer(u.previous[i], now);
    }
  }

  lemma KeptAnswer(was: Intent, now: Intent)
    requires SupersededAccepted(was) && CompletedStays(was, now) && AttemptsKept(was, now)
    ensures SupersededAccepted(now)
  {
    assert AttemptStays(was.attempts[|was.attempts| - 1], now.attempts[|was.attempts| - 1]);
  }

  lemma KeptCancelled(u: Update, again: Update, intent: Intent)
    requires again.next == u.next && again.identityRevision == u.identityRevision && CancelledHolds(u, intent)
    ensures CancelledHolds(again, intent)
  {
    if intent.state.Cancelled? {
      var k :| 0 <= k < |u.next| && RetiredBy(u, intent, u.next[k]);
      assert RetiredBy(again, intent, again.next[k]);
    }
  }

  function MoveIn(state: State, attempts: seq<Attempt>): Intent {
    Intent("h", "p", "move", Some("op"), 1, None, 1,
           SetLocation("n", Destination(RootParent("manuscript", ProjectOwner), [], "n", None)), attempts, None, state)
  }

  function MoveSent(outcome: Option<Outcome>): Attempt {
    Attempt("attempt", MoveRequest(EntryRef(File, EntryId("d")), "op", None, Some("n"), None), outcome)
  }

  function MoveDone(): Outcome {
    Operation(Receipt("op", MoveCommand(EntryRef(File, EntryId("d")), None, Some("n"), None), true, [], 1))
  }

  /** A move sent and accepted whose result could not be applied, superseded by its repair. */
  function MoveAfter(step: nat): seq<Intent> {
    if step == 0 then []
    else if step == 1 then [MoveIn(Pending, [])]
    else if step == 2 then [MoveIn(Submitted, [MoveSent(None)])]
    else if step == 3 then [MoveIn(Received, [MoveSent(Some(MoveDone()))])]
    else if step == 4 then [MoveIn(NeedsRepair, [MoveSent(Some(MoveDone()))])]
    else [MoveIn(Superseded, [MoveSent(Some(MoveDone()))])]
  }

  function MoveStep(step: nat): Update { Update(MoveAfter(step), "h", MoveAfter(step + 1), 1, false, false) }

  /** The rule for a journal of one intent that is neither retired nor settled on this device. */
  lemma OneIntentIsAllowed(u: Update, was: Intent, now: Intent)
    requires u.previous == [was] && u.next == [now] && u.handle == now.handle && 1 <= now.sequence <= MAX_SAFE_INTEGER
    requires Timed(now) && Evidenced(now) && StateHolds(u, now)
    requires !now.state.Cancelled? && !now.state.SettledLocally? && !now.state.Unexecutable?
    requires SameIntention(was, now) && CompletedStays(was, now) && StaysReceived(was, now) && AttemptsKept(was, now)
    ensures Allowed(u)
  {
    FindIs([was], 0);
    FindIs([now], 0);
    assert NextHolds(u, 0) && PreviousHolds(u, 0);
    AllowedExactly(u);
  }

  lemma FirstMoveIsAllowed()
    ensures Allowed(MoveStep(0))
  {
    assert NextHolds(MoveStep(0), 0);
    AllowedExactly(MoveStep(0));
  }

  lemma MoveStepIsAllowed(step: nat)
    requires step < 5
    ensures Allowed(MoveStep(step))
  {
    if step == 0 {
      FirstMoveIsAllowed();
    } else {
      MoveStands(step);
      MoveIsKept(MoveAfter(step)[0], MoveAfter(step + 1)[0], step);
      OneIntentIsAllowed(MoveStep(step), MoveAfter(step)[0], MoveAfter(step + 1)[0]);
    }
  }

  lemma MoveStands(step: nat)
    requires 1 <= step < 5
    ensures Timed(MoveAfter(step + 1)[0]) && Evidenced(MoveAfter(step + 1)[0]) && StateHolds(MoveStep(step), MoveAfter(step + 1)[0])
  {
    FindIs(MoveAfter(step), 0);
  }

  lemma MoveIsKept(was: Intent, now: Intent, step: nat)
    requires 1 <= step < 5 && [was] == MoveAfter(step) && [now] == MoveAfter(step + 1)
    ensures SameIntention(was, now) && CompletedStays(was, now) && StaysReceived(was, now) && AttemptsKept(was, now)
  {
    assert [was][0] == MoveAfter(step)[0] && [now][0] == MoveAfter(step + 1)[0];
  }

  /** Five allowed updates after which the journal cannot be stored again as it is. */
  lemma RepairedMoveIsNotStoredAgain() returns (run: seq<Update>)
    ensures |run| == 5 && run[0].previous == [] && AllowedRun(run)
    ensures !Allowed(run[4].(previous := run[4].next))
  {
    run := seq(5, step requires 0 <= step < 5 => MoveStep(step));
    forall step | 0 <= step < |run| ensures Allowed(run[step]) { MoveStepIsAllowed(step); }
    SameAgainExactly(run[4], run[4].(previous := run[4].next));
    assert SupersededAccepted(run[4].next[0]);
  }
}
