/**
 * Applying a recorded answer to its intent and to the placements queued behind it
 * (packages/resource-replica/src/namespace-journal-policy.ts:22-96, 200-216).
 */
module Settlement {
  import opened Journal
  import opened JournalChange
  import opened JournalHistory
  import opened Records
  import opened ServerHold
  import opened Wrappers

  function SettledState(disposition: Disposition): State {
    match disposition
    case Accept => Settled
    case Refuse => NeedsRepair
    case Absorb => Unexecutable
  }

  predicate OwnsDeletion(intent: Intent) {
    && intent.desired.Delete?
    && (intent.state.Pending? || intent.state.Submitted? || intent.state.Received? || intent.state.Settled?
        || intent.state.SettledLocally?)
  }

  predicate DeletesAfter(intent: Intent, failed: Intent) {
    intent.sequence > failed.sequence && intent.identityRevision == failed.identityRevision && OwnsDeletion(intent)
  }

  predicate DeletedAfter(intents: seq<Intent>, failed: Intent) {
    !failed.desired.Delete? && exists i :: 0 <= i < |intents| && DeletesAfter(intents[i], failed)
  }

  function Resolved(intent: Intent, failed: Intent, deleted: bool): Intent {
    if intent.intentId == failed.intentId && deleted then intent.(state := Superseded)
    else if Follows(intent, failed) && Unsent(intent) then intent.(state := Cancelled)
    else intent
  }

  /** Refusal retires the placements queued behind it; an admitted later delete retires its blocker too. */
  function ResolveRefusedLocationChain(intents: seq<Intent>, failed: Intent): (resolved: seq<Intent>)
    ensures |resolved| == |intents|
  {
    var deleted := DeletedAfter(intents, failed);
    seq(|intents|, i requires 0 <= i < |intents| => Resolved(intents[i], failed, deleted))
  }

  function Marked(intent: Intent, settled: Intent, state: State, settledAt: int): Intent {
    if intent.intentId == settled.intentId then intent.(state := state, settledAt := Some(At(settledAt))) else intent
  }

  function MarkAll(intents: seq<Intent>, settled: Intent, state: State, settledAt: int): (marked: seq<Intent>)
    ensures |marked| == |intents|
  {
    seq(|intents|, i requires 0 <= i < |intents| => Marked(intents[i], settled, state, settledAt))
  }

  predicate RefusedAnswer(intent: Intent) {
    Answer(intent).Some? && DispositionOf(Answer(intent).value, false).Refuse?
  }

  /** An answer saying the id is held out of reach. */
  predicate ConflictAnswer(intent: Intent) {
    RefusedAnswer(intent) && !RefusedOutright(intent)
  }

  predicate RefusedOutright(intent: Intent) {
    && Answer(intent).Some?
    && (Answer(intent).value.Refusal? || (Answer(intent).value.Operation? && !Answer(intent).value.receipt.ok))
  }

  function SettleNamespaceIntent(intents: seq<Intent>, intent: Intent, disposition: Disposition, settledAt: int, hold: Hold)
      : (settled: seq<Intent>)
    ensures |settled| == |intents|
  {
    var next := MarkAll(intents, intent, SettledState(disposition), settledAt);
    if disposition.Refuse? && !hold.Spent? && RefusedAnswer(intent) then ResolveRefusedLocationChain(next, intent)
    else next
  }

  /** `u` settles the received intent at `at` of the journal `u0` stored. */
  ghost predicate Settles(u0: Update, u: Update, at: nat, disposition: Disposition, settledAt: nat, hold: Hold) {
    && Allowed(u0) && u.previous == u0.next && u.handle == u0.handle && u.identityRevision == u0.identityRevision
    && at < |u0.next| && u0.next[at].state.Received?
    && (disposition.Accept? ==> AcceptedAnswer(u0.next[at])) && (disposition.Absorb? ==> u.terminal)
    && u.next == SettleNamespaceIntent(u0.next, u0.next[at], disposition, settledAt, hold)
  }

  ghost predicate Retires(disposition: Disposition, hold: Hold, intent: Intent) {
    disposition.Refuse? && !hold.Spent? && RefusedAnswer(intent)
  }

  /** What settling did to the intent at `i`. */
  lemma SettledAtIndex(u0: Update, u: Update, at: nat, disposition: Disposition, settledAt: nat, hold: Hold, i: nat)
    requires Settles(u0, u, at, disposition, settledAt, hold) && i < |u0.next|
    ensures |u.next| == |u0.next| && Moved(u0.next[i], u.next[i])
    ensures i == at ==> u.next[i].settledAt == Some(At(settledAt))
    ensures i == at ==> (u.next[i].state == SettledState(disposition)
                         || (u.next[i].state.Superseded? && Retires(disposition, hold, u0.next[at])))
    ensures i != at && Retires(disposition, hold, u0.next[at]) && Follows(u0.next[i], u0.next[at]) && Unsent(u0.next[i]) ==>
              u.next[i] == u0.next[i].(state := Cancelled)
    ensures i != at && !(Retires(disposition, hold, u0.next[at]) && Follows(u0.next[i], u0.next[at]) && Unsent(u0.next[i])) ==>
              u.next[i] == u0.next[i]
  {
    AllowedIsDistinct(u0);
    AllowedAt(u0, at);
    AllowedAt(u0, i);
    var next := MarkAll(u0.next, u0.next[at], SettledState(disposition), settledAt);
    assert next[i] == Marked(u0.next[i], u0.next[at], SettledState(disposition), settledAt);
    assert next[at] == Marked(u0.next[at], u0.next[at], SettledState(disposition), settledAt);
  }

  lemma SettlingChanges(u0: Update, u: Update, at: nat, disposition: Disposition, settledAt: nat, hold: Hold)
    requires Settles(u0, u, at, disposition, settledAt, hold)
    ensures Changes(u, u.next, []) && Unlocked(u0.next)
  {
    forall i | 0 <= i < |u.next| ensures Moved(u.previous[i], u.next[i]) {
      SettledAtIndex(u0, u, at, disposition, settledAt, hold, i);
    }
    assert u.next + [] == u.next;
    MovesChange(u0, u, u.next, []);
    LiveIsUnlocked(u0, at);
  }

  /** A received intent, settled by what its answer means. */
  predicate SettledBy(u: Update, was: Intent, now: Intent, disposition: Disposition, settledAt: nat) {
    && was.state.Received? && Answer(was).Some? && Moved(was, now) && now.settledAt == Some(At(settledAt))
    && (disposition.Accept? ==> AcceptedAnswer(was)) && (disposition.Absorb? ==> u.terminal)
    && (now.state == SettledState(disposition) || (now.state.Superseded? && !AcceptedAnswer(was)))
  }

  lemma SettledByStands(u: Update, was: Intent, now: Intent, disposition: Disposition, settledAt: nat)
    requires SettledBy(u, was, now, disposition, settledAt) && Find(u.previous, now.intentId) == Some(was)
    requires OneOpenAttempt(was)
    ensures Timed(now) && CancelledHolds(u, now) && LocalHolds(u, now) && TerminalHolds(u, now) && StateHolds(u, now)
  {
  }

  lemma SettlesBy(u0: Update, u: Update, at: nat, disposition: Disposition, settledAt: nat, hold: Hold)
    requires Settles(u0, u, at, disposition, settledAt, hold)
    ensures |u.next| == |u0.next| && SettledBy(u, u0.next[at], u.next[at], disposition, settledAt) && OneOpenAttempt(u0.next[at])
  {
    AllowedAt(u0, at);
    SettledAtIndex(u0, u, at, disposition, settledAt, hold, at);
  }

  /** The settled intent itself always stands. */
  lemma SettledStands(u0: Update, u: Update, at: nat, disposition: Disposition, settledAt: nat, hold: Hold)
    requires Settles(u0, u, at, disposition, settledAt, hold)
    ensures StandsAt(u, at)
  {
    AllowedIsDistinct(u0);
    SettlesBy(u0, u, at, disposition, settledAt, hold);
    FindIs(u.previous, at);
    SettledByStands(u, u0.next[at], u.next[at], disposition, settledAt);
  }

  ghost predicate Unreached(u0: Update) {
    forall i :: 0 <= i < |u0.next| ==> !SupersededAccepted(u0.next[i])
  }

  ghost predicate RetiredAt(u0: Update, at: nat, disposition: Disposition, hold: Hold, i: nat)
    requires at < |u0.next| && i < |u0.next|
  {
    i != at && Retires(disposition, hold, u0.next[at]) && Follows(u0.next[i], u0.next[at]) && Unsent(u0.next[i])
  }

  /** Settling is allowed exactly when each placement it retires has a reason the rule accepts. */
  lemma SettlingStandsExactly(u0: Update, u: Update, at: nat, disposition: Disposition, settledAt: nat, hold: Hold)
    requires Settles(u0, u, at, disposition, settledAt, hold)
    ensures |u.next| == |u0.next|
    ensures Allowed(u) <==>
            (Unreached(u0) && forall i :: 0 <= i < |u0.next| && RetiredAt(u0, at, disposition, hold, i) ==> CancelledHolds(u, u.next[i]))
  {
    SettlingChanges(u0, u, at, disposition, settledAt, hold);
    ChangeIsAllowedExactly(u0, u, u.next, []);
    SettledStands(u0, u, at, disposition, settledAt, hold);
    forall i | 0 <= i < |u.next| && i != at && !RetiredAt(u0, at, disposition, hold, i)
      ensures StandsAt(u, i) <==> !SupersededAccepted(u0.next[i])
    {
      SettledAtIndex(u0, u, at, disposition, settledAt, hold, i);
      UntouchedStands(u0, u, u.next, [], i);
      ReasonStays(u0, u, u.next, [], i);
    }
    forall i | 0 <= i < |u.next| && RetiredAt(u0, at, disposition, hold, i)
      ensures StandsAt(u, i) <==> CancelledHolds(u, u.next[i])
    {
      AllowedAt(u0, i);
      SettledAtIndex(u0, u, at, disposition, settledAt, hold, i);
    }
  }

  /**
   * Every answer settles into a journal the rule allows, as long as a refusal of an id held out of
   * reach is settled with that hold: `spent` leaves the queue to the replacement id.
   */
  lemma SettlingIsAllowed(u0: Update, u: Update, at: nat, disposition: Disposition, settledAt: nat, hold: Hold)
    requires Settles(u0, u, at, disposition, settledAt, hold)
    requires ConflictAnswer(u0.next[at]) ==> hold.Spent? || !disposition.Refuse?
    ensures Allowed(u) <==> Unreached(u0)
  {
    SettlingStandsExactly(u0, u, at, disposition, settledAt, hold);
    forall i | 0 <= i < |u0.next| && RetiredAt(u0, at, disposition, hold, i) ensures CancelledHolds(u, u.next[i]) {
      SettledAtIndex(u0, u, at, disposition, settledAt, hold, i);
      SettledAtIndex(u0, u, at, disposition, settledAt, hold, at);
      assert RetiredBy(u, u.next[i], u.next[at]);
    }
  }

  ghost predicate NewestRetired(u0: Update, at: nat, hold: Hold, i: nat)
    requires at < |u0.next| && i < |u0.next|
  {
    && RetiredAt(u0, at, Refuse, hold, i)
    && forall k :: 0 <= k < |u0.next| && RetiredAt(u0, at, Refuse, hold, k) ==> u0.next[k].sequence <= u0.next[i].sequence
  }

  /** Something recorded already is a reason for the placement at `i` to be cancelled. */
  ghost predicate Excused(u0: Update, i: nat)
    requires i < |u0.next|
  {
    exists k :: 0 <= k < |u0.next| && RetiredBy(u0, u0.next[i], u0.next[k])
  }

  /** A reason is read off what a settling never changes. */
  lemma ReasonsAreKept(u0: Update, u: Update, intent: Intent, now: Intent, other: Intent, otherNow: Intent)
    requires u.identityRevision == u0.identityRevision && Moved(intent, now) && Moved(other, otherNow)
    ensures RetiredBy(u, now, otherNow) <==> RetiredBy(u0, intent, other)
  {
  }

  lemma ExcusedStays(u0: Update, u: Update, i: nat)
    requires u.identityRevision == u0.identityRevision && |u.next| == |u0.next| && i < |u0.next|
    requires forall k :: 0 <= k < |u0.next| ==> Moved(u0.next[k], u.next[k])
    ensures (exists k :: 0 <= k < |u.next| && RetiredBy(u, u.next[i], u.next[k])) <==> Excused(u0, i)
  {
    forall k | 0 <= k < |u0.next| ensures RetiredBy(u, u.next[i], u.next[k]) <==> RetiredBy(u0, u0.next[i], u0.next[k]) {
      ReasonsAreKept(u0, u, u0.next[i], u.next[i], u0.next[k], u.next[k]);
    }
    if Excused(u0, i) {
      var k :| 0 <= k < |u0.next| && RetiredBy(u0, u0.next[i], u0.next[k]);
      assert RetiredBy(u, u.next[i], u.next[k]);
    }
  }

  /**
   * The precondition is needed: without that hold, retiring the queue behind such an answer is
   * allowed exactly when the newest placement retired has a reason of its own. The ones before it
   * may cite the newest, which has nothing later to cite.
   */
  lemma UnspentConflictExactly(u0: Update, u: Update, at: nat, settledAt: nat, hold: Hold, newest: nat)
    requires Settles(u0, u, at, Refuse, settledAt, hold) && Unreached(u0)
    requires ConflictAnswer(u0.next[at]) && !hold.Spent? && u0.next[at].identityRevision == u0.identityRevision
    requires newest < |u0.next| && NewestRetired(u0, at, hold, newest)
    ensures Allowed(u) <==> Excused(u0, newest)
  {
    SettlingStandsExactly(u0, u, at, Refuse, settledAt, hold);
    forall k | 0 <= k < |u0.next| ensures Moved(u0.next[k], u.next[k]) {
      SettledAtIndex(u0, u, at, Refuse, settledAt, hold, k);
    }
    forall i | 0 <= i < |u0.next| && RetiredAt(u0, at, Refuse, hold, i) ensures Retirement(u, i) <==> CancelledHolds(u, u.next[i]) {
      RetiredNeedsReason(u0, u, at, settledAt, hold, i);
    }
    forall i | 0 <= i < |u0.next| && RetiredAt(u0, at, Refuse, hold, i) && i != newest ensures Retirement(u, i) {
      NewestIsReason(u0, u, at, settledAt, hold, newest, i);
    }
    ExcusedStays(u0, u, newest);
  }

  ghost predicate Retirement(u: Update, i: nat)
    requires i < |u.next|
  {
    exists k :: 0 <= k < |u.next| && RetiredBy(u, u.next[i], u.next[k])
  }

  lemma RetiredNeedsReason(u0: Update, u: Update, at: nat, settledAt: nat, hold: Hold, i: nat)
    requires Settles(u0, u, at, Refuse, settledAt, hold) && i < |u0.next| && RetiredAt(u0, at, Refuse, hold, i)
    ensures |u.next| == |u0.next|
    ensures Retirement(u, i) <==> CancelledHolds(u, u.next[i])
  {
    SettledAtIndex(u0, u, at, Refuse, settledAt, hold, i);
  }

  lemma NewestIsReason(u0: Update, u: Update, at: nat, settledAt: nat, hold: Hold, newest: nat, i: nat)
    requires Settles(u0, u, at, Refuse, settledAt, hold) && i < |u0.next| && RetiredAt(u0, at, Refuse, hold, i) && i != newest
    requires u0.next[at].identityRevision == u0.identityRevision && newest < |u0.next| && NewestRetired(u0, at, hold, newest)
    ensures |u.next| == |u0.next|
    ensures Retirement(u, i)
  {
    SettledAtIndex(u0, u, at, Refuse, settledAt, hold, i);
    SettledAtIndex(u0, u, at, Refuse, settledAt, hold, newest);
    AllowedIsDistinct(u0);
    assert RetiredBy(u, u.next[i], u.next[newest]);
  }

  // ------------------------------------------------------------------------------------------
  // What a refusal leaves
  // ------------------------------------------------------------------------------------------

  /** No placement is left queued behind a refused one, and resolving the chain again does nothing. */
  lemma RefusalEndsChain(intents: seq<Intent>, failed: Intent)
    ensures var resolved := ResolveRefusedLocationChain(intents, failed);
            && (forall i :: 0 <= i < |resolved| ==> !(Follows(resolved[i], failed) && Unsent(resolved[i])) || resolved[i].intentId == failed.intentId)
            && ResolveRefusedLocationChain(resolved, failed) == resolved
  {
    var deleted := DeletedAfter(intents, failed);
    var resolved := ResolveRefusedLocationChain(intents, failed);
    forall i | 0 <= i < |resolved| ensures resolved[i] == Resolved(intents[i], failed, deleted) {}
    if deleted {
      var k :| 0 <= k < |intents| && DeletesAfter(intents[k], failed);
      assert resolved[k] == Resolved(intents[k], failed, deleted);
    }
    if DeletedAfter(resolved, failed) {
      var k :| 0 <= k < |resolved| && DeletesAfter(resolved[k], failed);
      assert DeletesAfter(intents[k], failed);
    }
  }

  /** Once a refusal is settled no placement is queued behind the refused one, and resolving its chain again does nothing. */
  lemma SettledRefusalEndsChain(u0: Update, u: Update, at: nat, settledAt: nat, hold: Hold)
    requires Settles(u0, u, at, Refuse, settledAt, hold) && Retires(Refuse, hold, u0.next[at])
    ensures |u.next| == |u0.next| && ResolveRefusedLocationChain(u.next, u0.next[at]) == u.next
    ensures forall k :: 0 <= k < |u.next| && Follows(u.next[k], u.next[at]) ==> !Unsent(u.next[k])
  {
    AllowedIsDistinct(u0);
    RefusalEndsChain(MarkAll(u0.next, u0.next[at], SettledState(Refuse), settledAt), u0.next[at]);
    SettledAtIndex(u0, u, at, Refuse, settledAt, hold, at);
    forall k | 0 <= k < |u.next| && Follows(u.next[k], u.next[at]) ensures !Unsent(u.next[k]) {
      SettledAtIndex(u0, u, at, Refuse, settledAt, hold, k);
    }
  }

  /** The intent whose destination a repair starts from: the newest cancelled follower, else the failed one. */
  function RepairSource(intents: seq<Intent>, failed: Intent): (source: Intent)
    ensures source == failed || (source in intents && source.state.Cancelled? && Follows(source, failed))
    ensures source.sequence >= failed.sequence
    ensures forall i :: 0 <= i < |intents| && intents[i].state.Cancelled? && Follows(intents[i], failed) ==>
              intents[i].sequence <= source.sequence
  {
    if intents == [] then failed
    else
      var n := |intents| - 1;
      var candidate := RepairSource(intents[..n], failed);
      assert forall i :: 0 <= i < n ==> intents[..n][i] == intents[i];
      if intents[n].state.Cancelled? && Follows(intents[n], failed) && intents[n].sequence > candidate.sequence
      then intents[n] else candidate
  }

  /** What a repair offers for a placement: a document's starts from the name as it was typed. */
  function Offered(desired: Desired): Option<Destination> {
    match desired
    case SetLocation(typedName, destination) => Some(destination.(name := typedName))
    case SetFolderLocation(_, destination) => Some(destination)
    case _ => None
  }

  function NamespaceRepairDestination(intents: seq<Intent>, failed: Intent): Option<Destination> {
    Offered(RepairSource(intents, failed).desired)
  }

  /** A placement is offered again where it was to go: a document under its typed name, a folder under the destination's. */
  ghost predicate OffersAgain(desired: Desired, offered: Option<Destination>) {
    if !desired.SetLocation? && !desired.SetFolderLocation? then offered.None?
    else
      && offered.Some? && offered.value.parent == desired.destination.parent && offered.value.position == desired.destination.position
      && offered.value.createFolders == desired.destination.createFolders
      && offered.value.name == if desired.SetLocation? then desired.typedName else desired.destination.name
  }

  ghost predicate NewestCancelled(intents: seq<Intent>, failed: Intent, n: nat)
    requires n < |intents|
  {
    && intents[n].state.Cancelled? && Follows(intents[n], failed)
    && forall i :: 0 <= i < |intents| && i != n && intents[i].state.Cancelled? && Follows(intents[i], failed) ==>
         intents[i].sequence < intents[n].sequence
  }

  lemma RepairSourceIs(intents: seq<Intent>, failed: Intent, n: nat)
    requires n < |intents| && NewestCancelled(intents, failed, n)
    ensures RepairSource(intents, failed) == intents[n]
  {
    var source := RepairSource(intents, failed);
    assert source.sequence >= intents[n].sequence > failed.sequence;
    assert source != failed;
    var k :| 0 <= k < |intents| && intents[k] == source;
  }

  /** Behind the answer at `at`: queued, or cancelled before. */
  predicate QueuedBehind(u0: Update, at: nat, i: nat)
    requires at < |u0.next| && i < |u0.next|
  {
    i != at && Follows(u0.next[i], u0.next[at]) && (Unsent(u0.next[i]) || u0.next[i].state.Cancelled?)
  }

  /**
   * After a refusal the repair starts from the last placement the writer asked for behind the one
   * that failed, and from the failed one only when there is none.
   */
  lemma RepairStartsFromNewest(u0: Update, u: Update, at: nat, settledAt: nat, hold: Hold, newest: nat)
    requires Settles(u0, u, at, Refuse, settledAt, hold) && Retires(Refuse, hold, u0.next[at])
    requires newest < |u0.next| && QueuedBehind(u0, at, newest)
    requires forall k :: 0 <= k < |u0.next| && QueuedBehind(u0, at, k) ==> u0.next[k].sequence <= u0.next[newest].sequence
    ensures |u.next| == |u0.next| && OffersAgain(u0.next[newest].desired, NamespaceRepairDestination(u.next, u.next[at]))
  {
    AllowedIsDistinct(u0);
    SettledAtIndex(u0, u, at, Refuse, settledAt, hold, newest);
    SettledAtIndex(u0, u, at, Refuse, settledAt, hold, at);
    forall i | 0 <= i < |u.next| && i != newest && u.next[i].state.Cancelled? && Follows(u.next[i], u.next[at])
      ensures u.next[i].sequence < u.next[newest].sequence
    {
      SettledAtIndex(u0, u, at, Refuse, settledAt, hold, i);
      assert QueuedBehind(u0, at, i);
    }
    RepairSourceIs(u.next, u.next[at], newest);
  }

  lemma RepairStartsFromFailed(u0: Update, u: Update, at: nat, settledAt: nat, hold: Hold)
    requires Settles(u0, u, at, Refuse, settledAt, hold)
    requires forall k :: 0 <= k < |u0.next| ==> !QueuedBehind(u0, at, k)
    ensures |u.next| == |u0.next| && OffersAgain(u0.next[at].desired, NamespaceRepairDestination(u.next, u.next[at]))
  {
    SettledAtIndex(u0, u, at, Refuse, settledAt, hold, at);
    var source := RepairSource(u.next, u.next[at]);
    if source != u.next[at] {
      var i :| 0 <= i < |u.next| && u.next[i] == source;
      SettledAtIndex(u0, u, at, Refuse, settledAt, hold, i);
      assert QueuedBehind(u0, at, i);
    }
  }
}
