/**
 * Updates that change the states of recorded intents and queue new ones behind them: what the
 * update rule still asks of them.
 */
module JournalChange {
  import opened Journal
  import opened JournalHistory
  import opened Wrappers

  /** Only the state and the settlement time move, and neither where they may not. */
  predicate Moved(was: Intent, now: Intent) {
    && now == was.(state := now.state, settledAt := now.settledAt)
    && (was.settledAt.Some? ==> now.settledAt == was.settledAt)
    && (Ended(was.state) ==> now.state == was.state)
    && (was.state.Received? ==> !now.state.Pending? && !now.state.Submitted?)
  }

  /** One intent's successor: the same intention, its evidence grown, nothing completed or received undone. */
  predicate Step(was: Intent, now: Intent) {
    && SameIntention(was, now) && now.handle == was.handle
    && CompletedStays(was, now) && StaysReceived(was, now) && AttemptsKept(was, now)
    && (Evidenced(was) ==> Evidenced(now))
    && (Answer(was).Some? ==> Answer(now) == Answer(was))
  }

  lemma MovedIsStep(u0: Update, i: nat, now: Intent)
    requires Allowed(u0) && i < |u0.next| && Moved(u0.next[i], now)
    ensures Step(u0.next[i], now)
  {
    AllowedAt(u0, i);
  }

  ghost predicate Fresh(journal: seq<Intent>, handle: string, copy: Intent) {
    && copy.handle == handle && copy.attempts == [] && copy.settledAt.None?
    && (copy.state.Pending? || copy.state.SettledLocally?)
    && MaxSequence(journal) < copy.sequence <= MAX_SAFE_INTEGER && Find(journal, copy.intentId).None?
  }

  /** Work added behind everything recorded: to be sent, or a deletion settled here. */
  ghost predicate Queued(journal: seq<Intent>, handle: string, copies: seq<Intent>) {
    && (forall i :: 0 <= i < |copies| ==> Fresh(journal, handle, copies[i]))
    && forall i, k :: 0 <= i < k < |copies| ==>
         copies[i].intentId != copies[k].intentId && copies[i].sequence != copies[k].sequence
  }

  ghost predicate Changes(u: Update, moved: seq<Intent>, copies: seq<Intent>) {
    && u.next == moved + copies && |moved| == |u.previous|
    && (forall i :: 0 <= i < |moved| ==> Step(u.previous[i], moved[i]))
    && Queued(u.previous, u.handle, copies)
  }

  lemma MovesChange(u0: Update, u: Update, moved: seq<Intent>, copies: seq<Intent>)
    requires Allowed(u0) && u.previous == u0.next && u.next == moved + copies && |moved| == |u.previous|
    requires forall i :: 0 <= i < |moved| ==> Moved(u.previous[i], moved[i])
    requires Queued(u.previous, u.handle, copies)
    ensures Changes(u, moved, copies)
  {
    forall i | 0 <= i < |moved| ensures Step(u.previous[i], moved[i]) { MovedIsStep(u0, i, moved[i]); }
  }

  /** What is left to check of an intent once its identity, order and evidence are settled. */
  ghost predicate StandsAt(u: Update, i: nat)
    requires i < |u.next|
  {
    && Timed(u.next[i]) && CancelledHolds(u, u.next[i]) && LocalHolds(u, u.next[i])
    && TerminalHolds(u, u.next[i]) && StateHolds(u, u.next[i])
  }

  lemma ChangesAreOrdered(u0: Update, u: Update, moved: seq<Intent>, copies: seq<Intent>, i: nat)
    requires Allowed(u0) && u.previous == u0.next && u.handle == u0.handle && Changes(u, moved, copies) && i < |u.next|
    ensures u.next[i].handle == u.handle && Ordered(u, i) && Evidenced(u.next[i])
  {
    AllowedIsDistinct(u0);
    var n := |moved|;
    if i < n {
      AllowedAt(u0, i);
      assert u.next[i] == moved[i] && Step(u.previous[i], moved[i]);
      FindIs(u.previous, i);
      forall k | 0 <= k < i ensures u.next[k].intentId != u.next[i].intentId && u.next[k].sequence != u.next[i].sequence {
        assert u.next[k] == moved[k] && Step(u.previous[k], moved[k]);
      }
    } else {
      assert u.next[i] == copies[i - n];
      forall k | 0 <= k < i ensures u.next[k].intentId != u.next[i].intentId && u.next[k].sequence != u.next[i].sequence {
        if k < n {
          assert u.next[k] == moved[k] && Step(u.previous[k], moved[k]);
        } else {
          assert u.next[k] == copies[k - n];
        }
      }
    }
  }

  lemma ChangesKeepHistory(u0: Update, u: Update, moved: seq<Intent>, copies: seq<Intent>, i: nat)
    requires Allowed(u0) && u.previous == u0.next && u.handle == u0.handle && Changes(u, moved, copies) && i < |u.previous|
    requires Distinct(u.next)
    ensures PreviousHolds(u, i)
  {
    AllowedAt(u0, i);
    assert u.next[i] == moved[i] && Step(u.previous[i], moved[i]);
    FindIs(u.next, i);
  }

  /** Such a change is allowed exactly when every resulting intent stands. */
  lemma ChangeIsAllowedExactly(u0: Update, u: Update, moved: seq<Intent>, copies: seq<Intent>)
    requires Allowed(u0) && u.previous == u0.next && u.handle == u0.handle && Changes(u, moved, copies)
    ensures Allowed(u) <==> forall i :: 0 <= i < |u.next| ==> StandsAt(u, i)
  {
    forall i | 0 <= i < |u.next| ensures u.next[i].handle == u.handle && Ordered(u, i) && Evidenced(u.next[i]) {
      ChangesAreOrdered(u0, u, moved, copies, i);
    }
    forall i, k | 0 <= i < k < |u.next|
      ensures u.next[i].intentId != u.next[k].intentId && u.next[i].sequence != u.next[k].sequence
    {
      assert Ordered(u, k);
    }
    forall i | 0 <= i < |u.previous| ensures PreviousHolds(u, i) {
      ChangesKeepHistory(u0, u, moved, copies, i);
    }
    AllowedExactly(u);
    forall i | 0 <= i < |u.next| ensures NextHolds(u, i) <==> StandsAt(u, i) {}
  }

  /** How the journal an update stored stands once another change follows it. */
  ghost predicate Unlocked(journal: seq<Intent>) {
    forall i :: 0 <= i < |journal| ==> !journal[i].state.SettledLocally?
  }

  /** Live work rules out a locally settled deletion. */
  lemma LiveIsUnlocked(u0: Update, live: nat)
    requires Allowed(u0) && live < |u0.next| && !Ended(u0.next[live].state)
    ensures Unlocked(u0.next)
  {
    AllowedIsDistinct(u0);
    forall i | 0 <= i < |u0.next| ensures !u0.next[i].state.SettledLocally? {
      AllowedAt(u0, i);
    }
  }

  /**
   * An untouched intent still stands, but for one superseded with an accepted answer, which no
   * second update may keep, and a cancelled one whose reason has to be found again.
   */
  lemma UntouchedStands(u0: Update, u: Update, moved: seq<Intent>, copies: seq<Intent>, i: nat)
    requires Allowed(u0) && u.previous == u0.next && Changes(u, moved, copies) && Unlocked(u0.next)
    requires i < |moved| && moved[i] == u0.next[i]
    ensures StandsAt(u, i) <==> CancelledHolds(u, moved[i]) && !SupersededAccepted(moved[i])
  {
    AllowedAt(u0, i);
    AllowedIsDistinct(u0);
    FindIs(u.previous, i);
    assert u.next[i] == moved[i];
  }

  /** A cancelled intent keeps its reason while the identity revision does. */
  lemma ReasonStays(u0: Update, u: Update, moved: seq<Intent>, copies: seq<Intent>, i: nat)
    requires Allowed(u0) && u.previous == u0.next && Changes(u, moved, copies)
    requires u.identityRevision == u0.identityRevision
    requires i < |moved| && moved[i] == u0.next[i]
    ensures CancelledHolds(u, moved[i])
  {
    AllowedAt(u0, i);
    if moved[i].state.Cancelled? {
      var k :| 0 <= k < |u0.next| && RetiredBy(u0, u0.next[i], u0.next[k]);
      assert Step(u.previous[k], moved[k]) && u.next[k] == moved[k];
      assert RetiredBy(u, moved[i], u.next[k]);
    }
  }

  lemma QueuedStands(u: Update, moved: seq<Intent>, copies: seq<Intent>, i: nat)
    requires Changes(u, moved, copies) && |moved| <= i < |u.next| && u.next[i].state.Pending?
    ensures StandsAt(u, i)
  {
    assert u.next[i] == copies[i - |moved|];
  }
}
