/**
 * A Copy of several roots as one operation: which roots are sent, where the answer places them, and
 * what becomes of each root's record
 * (packages/resource-replica/src/operation-journal.ts).
 */
module CopyJournal {
  import opened Answers
  import opened Journal
  import opened JournalHistory
  import Paths
  import opened Records
  import opened ServerHold
  import opened Settlement
  import opened Wrappers

  // ------------------------------------------------------------------------------------------
  // The outermost of the selected roots
  // ------------------------------------------------------------------------------------------

  datatype Placed = Placed(root: CopyRoot, place: Location)

  function Trailing(path: string): string {
    if path != [] && path[|path| - 1] == '/' then Trailing(path[..|path| - 1]) else path
  }

  /** The path with no slashes at either end. */
  function Within(place: Location): string {
    Trailing(Paths.WithoutLeadingSlashes(place.path))
  }

  predicate StartsWith(path: string, prefix: string) {
    |prefix| <= |path| && path[..|prefix|] == prefix
  }

  /** The root at `o` already carries the one at `i`: its folder, or the same place earlier in the selection. */
  predicate Carries(placed: seq<Placed>, o: nat, i: nat)
    requires o < |placed| && i < |placed|
  {
    && o != i && placed[o].place.scheme == placed[i].place.scheme && SameOwner(placed[o].place.owner, placed[i].place.owner)
    && ((placed[o].root.kind.Folder? && StartsWith(Within(placed[i].place), Within(placed[o].place) + "/"))
        || (Within(placed[o].place) == Within(placed[i].place) && o < i))
  }

  predicate Outermost(placed: seq<Placed>, i: nat)
    requires i < |placed|
  {
    forall o: nat :: o < |placed| ==> !Carries(placed, o, i)
  }

  function OutermostUpTo(placed: seq<Placed>, n: nat): seq<Placed>
    requires n <= |placed|
  {
    if n == 0 then []
    else OutermostUpTo(placed, n - 1) + if Outermost(placed, n - 1) then [placed[n - 1]] else []
  }

  function OutermostPlaced(placed: seq<Placed>): seq<Placed> {
    OutermostUpTo(placed, |placed|)
  }

  lemma {:induction false} KeptExactly(placed: seq<Placed>, n: nat, item: Placed)
    requires n <= |placed|
    ensures item in OutermostUpTo(placed, n) <==> exists i :: 0 <= i < n && placed[i] == item && Outermost(placed, i)
  {
    if n > 0 { KeptExactly(placed, n - 1, item); }
  }

  /** The same area, at the place or beneath it. */
  predicate AtOrUnder(inner: Location, outer: Location) {
    && inner.scheme == outer.scheme && SameOwner(inner.owner, outer.owner)
    && (Within(inner) == Within(outer) || StartsWith(Within(inner), Within(outer) + "/"))
  }

  lemma UnderUnder(a: string, b: string, c: string)
    requires StartsWith(a, b + "/") && StartsWith(b, c + "/")
    ensures StartsWith(a, c + "/")
  {
    assert a[..|c| + 1] == (a[..|b| + 1])[..|c| + 1];
    assert (b + "/")[..|c| + 1] == b[..|c| + 1];
  }

  /** A carried root lies at or under the place of a root that is kept, however long the chain between. */
  lemma {:induction false} CarriedByKept(placed: seq<Placed>, i: nat) returns (k: nat)
    requires i < |placed|
    ensures k < |placed| && Outermost(placed, k) && AtOrUnder(placed[i].place, placed[k].place)
    decreases |Within(placed[i].place)|, i
  {
    if Outermost(placed, i) {
      k := i;
    } else {
      var o: nat :| o < |placed| && Carries(placed, o, i);
      k := CarriedByKept(placed, o);
      var a, b, c := Within(placed[i].place), Within(placed[o].place), Within(placed[k].place);
      if StartsWith(a, b + "/") && StartsWith(b, c + "/") { UnderUnder(a, b, c); }
    }
  }

  /** No kept root lies in another kept folder or shares its place, and something is always kept. */
  lemma OutermostIsApart(placed: seq<Placed>, i: nat, k: nat)
    requires i < |placed| && k < |placed| && Outermost(placed, i) && Outermost(placed, k)
    requires i != k && placed[i].place.scheme == placed[k].place.scheme
    requires SameOwner(placed[i].place.owner, placed[k].place.owner)
    ensures Within(placed[i].place) != Within(placed[k].place)
    ensures placed[k].root.kind.Folder? ==> !AtOrUnder(placed[i].place, placed[k].place)
  {
    assert !Carries(placed, k, i) && !Carries(placed, i, k);
    OwnerIsSymmetric(placed[i].place.owner, placed[k].place.owner);
  }

  lemma OwnerIsSymmetric(a: Owner, b: Owner)
    ensures SameOwner(a, b) == SameOwner(b, a)
  {
  }

  lemma SomethingIsSent(placed: seq<Placed>)
    requires placed != []
    ensures OutermostPlaced(placed) != []
  {
    var k := CarriedByKept(placed, 0);
    KeptExactly(placed, |placed|, placed[k]);
  }

  // ------------------------------------------------------------------------------------------
  // The operation and its writes
  // ------------------------------------------------------------------------------------------

  datatype CopyOperation = CopyOperation(operationId: string, projectId: string, revision: nat, intents: seq<Intent>)

  datatype RootPlace = RootPlace(handle: string, kind: EntryKind, location: Location, parent: ParentRef,
                                 observationVersion: nat)

  /** What a write does to the roots' records, in the transaction that stores the operation. */
  datatype Roots = Untouched | Admitted(handles: seq<string>) | Place(places: seq<RootPlace>) | Drop(handles: seq<string>)

  datatype Write = Write(next: CopyOperation, roots: Roots)

  function HandlesOf(roots: seq<CopyRoot>): (handles: seq<string>)
    ensures |handles| == |roots| && forall i :: 0 <= i < |roots| ==> handles[i] == roots[i].handle
  {
    seq(|roots|, i requires 0 <= i < |roots| => roots[i].handle)
  }

  function PlanCopy(projectId: string, operationId: string, intentId: string, admission: Admission, roots: seq<CopyRoot>,
                    parent: ParentRef, position: Option<Position>): Write {
    var intent := Intent(operationId, projectId, intentId, Some(operationId), 1, Some(admission), 1,
                         Copy(roots, parent, position), [], None, Pending);
    Write(CopyOperation(operationId, projectId, 1, [intent]), Admitted(HandlesOf(roots)))
  }

  function ReplaceIn(record: CopyOperation, intentId: string, replacement: Intent): CopyOperation {
    record.(revision := record.revision + 1,
            intents := seq(|record.intents|, i requires 0 <= i < |record.intents| =>
                             if record.intents[i].intentId == intentId then replacement else record.intents[i]))
  }

  /** A Copy that is off: its intent waits for repair, and no root keeps a record. */
  function Refused(record: CopyOperation, intent: Intent): Write
    requires intent.desired.Copy?
  {
    Write(ReplaceIn(record, intent.intentId, intent.(state := NeedsRepair)), Drop(HandlesOf(intent.desired.roots)))
  }

  function SourceOf(placed: Placed): CopySource {
    CopySource(Copied(placed.root.copyId, EntryRef(placed.root.kind, placed.root.sourceId)), placed.place)
  }

  function SourcesOf(sent: seq<Placed>): (sources: seq<CopySource>)
    ensures |sources| == |sent| && forall i :: 0 <= i < |sent| ==> sources[i] == SourceOf(sent[i])
  {
    seq(|sent|, i requires 0 <= i < |sent| => SourceOf(sent[i]))
  }

  function PlacedRoots(roots: seq<CopyRoot>, places: seq<Location>): (placed: seq<Placed>)
    requires |roots| == |places|
    ensures |placed| == |roots| && forall i :: 0 <= i < |roots| ==> placed[i] == Placed(roots[i], places[i])
  {
    seq(|roots|, i requires 0 <= i < |roots| => Placed(roots[i], places[i]))
  }

  /** The handles of the roots another root carries, in selection order. */
  function CollapsedUpTo(placed: seq<Placed>, n: nat): seq<string>
    requires n <= |placed|
  {
    if n == 0 then []
    else CollapsedUpTo(placed, n - 1) + if Outermost(placed, n - 1) then [] else [placed[n - 1].root.handle]
  }

  lemma {:induction false} CollapsedExactly(placed: seq<Placed>, n: nat, handle: string)
    requires n <= |placed|
    ensures handle in CollapsedUpTo(placed, n) <==>
            exists i :: 0 <= i < n && placed[i].root.handle == handle && !Outermost(placed, i)
  {
    if n > 0 { CollapsedExactly(placed, n - 1, handle); }
  }

  /** The active Copy: the operation's intent while it is not ended. */
  function ActiveCopy(record: CopyOperation): Option<Intent> {
    var live := ActiveIntent(record.intents);
    if live.Some? && live.value.desired.Copy? then live else None
  }

  /** Where the destination's parent stands; a folder's place is looked up. */
  function ParentPlace(parent: ParentRef, destination: Option<Location>): Option<Location> {
    match parent
    case FolderParent(_) => destination
    case RootParent(scheme, owner) => Some(Location(scheme, "", "", owner))
  }

  function AllPlaced(sources: seq<Option<Location>>): Option<seq<Location>> {
    if sources == [] then Some([])
    else if sources[0].None? then None
    else
      var rest := AllPlaced(sources[1..]);
      if rest.None? then None else Some([sources[0].value] + rest.value)
  }

  lemma {:induction false} AllPlacedExactly(sources: seq<Option<Location>>)
    ensures AllPlaced(sources).Some? <==> forall i :: 0 <= i < |sources| ==> sources[i].Some?
    ensures AllPlaced(sources).Some? ==>
              && |AllPlaced(sources).value| == |sources|
              && forall i :: 0 <= i < |sources| ==> AllPlaced(sources).value[i] == sources[i].value
  {
    if sources != [] {
      AllPlacedExactly(sources[1..]);
      assert forall i :: 1 <= i < |sources| ==> sources[1..][i - 1] == sources[i];
    }
  }

  /**
   * Nothing when the Copy is not waiting to be sent; a refusal when its destination or a source is
   * gone; otherwise the request for the outermost roots, the others dropped with it.
   */
  function PrepareCopyAttempt(record: CopyOperation, attemptId: string, destination: Option<Location>,
                              sources: seq<Option<Location>>): (write: Option<Write>)
  {
    var active := ActiveCopy(record);
    if active.None? || !active.value.state.Pending? || |sources| != |active.value.desired.roots| then None
    else
      var intent := active.value;
      var parent := ParentPlace(intent.desired.parent, destination);
      var places := AllPlaced(sources);
      AllPlacedExactly(sources);
      if parent.None? || places.None? then Some(Refused(record, intent))
      else
        var placed := PlacedRoots(intent.desired.roots, places.value);
        var request := CopyRequest(parent.value.owner, record.operationId, SourcesOf(OutermostPlaced(placed)),
                                   parent.value.scheme, intent.desired.parent, intent.desired.position);
        var sent := intent.(state := Submitted, attempts := intent.attempts + [Attempt(attemptId, request, None)]);
        var collapsed := CollapsedUpTo(placed, |placed|);
        Some(Write(ReplaceIn(record, intent.intentId, sent), if collapsed == [] then Untouched else Drop(collapsed)))
  }

  lemma AllPlacedAre(sources: seq<Option<Location>>)
    requires forall i :: 0 <= i < |sources| ==> sources[i].Some?
    ensures AllPlaced(sources).Some? && |AllPlaced(sources).value| == |sources|
    ensures forall i :: 0 <= i < |sources| ==> AllPlaced(sources).value[i] == sources[i].value
  {
    AllPlacedExactly(sources);
  }

  /** What is asked for one root: a copy under its new id, of what it was selected as, from where that stands. */
  ghost predicate Asks(source: CopySource, root: CopyRoot, place: Location) {
    && source.copied.copyId == root.copyId && source.copied.expected.kind == root.kind && source.copied.expected.id == root.sourceId
    && source.place == place
  }

  /** A source of the request is asked for some outermost root. */
  ghost predicate AskedFor(source: CopySource, placed: seq<Placed>, i: nat) {
    i < |placed| && Outermost(placed, i) && Asks(source, placed[i].root, placed[i].place)
  }

  /** Every source is asked for an outermost root, and each of those is asked for. */
  ghost predicate AsksForOutermost(sources: seq<CopySource>, placed: seq<Placed>) {
    && (forall k :: 0 <= k < |sources| ==> IsForOutermost(sources[k], placed))
    && forall i: nat :: i < |placed| && Outermost(placed, i) ==> IsAsked(sources, placed, i)
  }

  ghost predicate IsForOutermost(source: CopySource, placed: seq<Placed>) {
    exists i :: AskedFor(source, placed, i)
  }

  ghost predicate IsAsked(sources: seq<CopySource>, placed: seq<Placed>, i: nat) {
    exists k :: 0 <= k < |sources| && AskedFor(sources[k], placed, i)
  }

  lemma SourcesAreOutermost(placed: seq<Placed>)
    ensures AsksForOutermost(SourcesOf(OutermostPlaced(placed)), placed)
  {
    var kept := OutermostPlaced(placed);
    var sources := SourcesOf(kept);
    forall k | 0 <= k < |sources| ensures IsForOutermost(sources[k], placed) {
      KeptExactly(placed, |placed|, kept[k]);
      var i :| 0 <= i < |placed| && placed[i] == kept[k] && Outermost(placed, i);
      assert AskedFor(sources[k], placed, i);
    }
    forall i: nat | i < |placed| && Outermost(placed, i) ensures IsAsked(sources, placed, i) {
      KeptExactly(placed, |placed|, placed[i]);
      var k :| 0 <= k < |kept| && kept[k] == placed[i];
      assert AskedFor(sources[k], placed, i);
    }
  }

  /** Where a copy is to land: in a root's own area, or where its folder stands. */
  ghost predicate LandsIn(request: Request, parent: ParentRef, destination: Option<Location>)
    requires request.CopyRequest?
  {
    match parent
    case RootParent(scheme, owner) => request.scheme == scheme && request.owner == owner
    case FolderParent(_) => destination.Some? && request.scheme == destination.value.scheme && request.owner == destination.value.owner
  }

  /** A waiting Copy whose destination and sources are known is sent for its outermost roots. */
  lemma CopyIsSent(record: CopyOperation, intent: Intent, attemptId: string, destination: Option<Location>, sources: seq<Option<Location>>)
    returns (request: Request, placed: seq<Placed>)
    requires ActiveIntent(record.intents) == Some(intent) && intent.desired.Copy? && intent.state.Pending?
    requires |sources| == |intent.desired.roots| && forall i :: 0 <= i < |sources| ==> sources[i].Some?
    requires intent.desired.parent.FolderParent? ==> destination.Some?
    ensures var write := PrepareCopyAttempt(record, attemptId, destination, sources);
            && write.Some?
            && write.value.next == ReplaceIn(record, intent.intentId,
                                             intent.(state := Submitted, attempts := intent.attempts + [Attempt(attemptId, request, None)]))
    ensures request.CopyRequest? && request.operationId == record.operationId && request.parent == intent.desired.parent
            && request.position == intent.desired.position && LandsIn(request, intent.desired.parent, destination)
    ensures |placed| == |sources| && forall i :: 0 <= i < |sources| ==> placed[i] == Placed(intent.desired.roots[i], sources[i].value)
    ensures AsksForOutermost(request.sources, placed)
  {
    AllPlacedAre(sources);
    var parent := ParentPlace(intent.desired.parent, destination).value;
    placed := PlacedRoots(intent.desired.roots, AllPlaced(sources).value);
    SourcesAreOutermost(placed);
    request := CopyRequest(parent.owner, record.operationId, SourcesOf(OutermostPlaced(placed)), parent.scheme, intent.desired.parent,
                           intent.desired.position);
  }

  datatype RecordError = NotCurrent | NotAnAnswer

  function RecordCopyOutcome(record: CopyOperation, intentId: string, attemptId: string, outcome: Outcome)
      : Result<Option<Write>, RecordError> {
    var found := Find(record.intents, intentId);
    if found.None? || found.value.attempts == [] then Err(NotCurrent)
    else
      var n := |found.value.attempts| - 1;
      var attempt := found.value.attempts[n];
      if attempt.attemptId != attemptId then Err(NotCurrent)
      else if attempt.outcome.Some? then Ok(None)
      else if !found.value.state.Submitted? || !AnswersAttempt(attempt, outcome) then Err(NotAnAnswer)
      else
        var answered := found.value.(state := Received,
                                     attempts := found.value.attempts[n := attempt.(outcome := Some(outcome))]);
        Ok(Some(Write(ReplaceIn(record, intentId, answered), Untouched)))
  }

  // ------------------------------------------------------------------------------------------
  // Where an accepted answer puts the roots
  // ------------------------------------------------------------------------------------------

  predicate SentFor(sources: seq<CopySource>, root: CopyRoot) {
    exists i :: 0 <= i < |sources| && sources[i].copied.copyId == root.copyId
  }

  function EntryFor(entries: seq<CopiedEntry>, id: EntryId): (found: Option<CopiedEntry>)
    ensures found.Some? ==> found.value in entries && found.value.id == id
    ensures found.None? ==> forall i :: 0 <= i < |entries| ==> entries[i].id != id
  {
    if entries == [] then None
    else if entries[0].id == id then Some(entries[0])
    else
      var found := EntryFor(entries[1..], id);
      assert forall i :: 1 <= i < |entries| ==> entries[1..][i - 1] == entries[i];
      found
  }

  function PlaceFor(root: CopyRoot, entry: CopiedEntry, request: Request, parent: ParentRef, version: nat): RootPlace
    requires request.CopyRequest?
  {
    RootPlace(root.handle, root.kind, Location(request.scheme, Paths.Displayed(entry.path), entry.name, request.owner), parent,
              version)
  }

  /** The answer names a copy of each root it was sent for, as the kind it was. */
  predicate Names(receipt: Receipt, root: CopyRoot) {
    EntryFor(receipt.entries, root.copyId).Some? && EntryFor(receipt.entries, root.copyId).value.kind == root.kind
  }

  function PlacesUpTo(roots: seq<CopyRoot>, request: Request, parent: ParentRef, receipt: Receipt, n: nat): seq<RootPlace>
    requires request.CopyRequest? && n <= |roots|
  {
    if n == 0 then []
    else
      var root := roots[n - 1];
      PlacesUpTo(roots, request, parent, receipt, n - 1)
      + if TakesPlace(request, receipt, root) then
          [PlaceFor(root, EntryFor(receipt.entries, root.copyId).value, request, parent, receipt.observationVersion)]
        else []
  }

  predicate AllNamed(roots: seq<CopyRoot>, request: Request, receipt: Receipt, n: nat)
    requires request.CopyRequest? && n <= |roots|
  {
    forall i :: 0 <= i < n && SentFor(request.sources, roots[i]) ==> Names(receipt, roots[i])
  }

  function ReceiptPlaces(roots: seq<CopyRoot>, request: Request, parent: ParentRef, receipt: Receipt): Option<seq<RootPlace>>
    requires request.CopyRequest?
  {
    if AllNamed(roots, request, receipt, |roots|) then Some(PlacesUpTo(roots, request, parent, receipt, |roots|)) else None
  }

  method FindReceiptPlaces(roots: seq<CopyRoot>, request: Request, parent: ParentRef, receipt: Receipt)
    returns (places: Option<seq<RootPlace>>)
    requires request.CopyRequest?
    ensures places == ReceiptPlaces(roots, request, parent, receipt)
  {
    var sent := set i | 0 <= i < |request.sources| :: request.sources[i].copied.copyId;
    var found: seq<RootPlace> := [];
    for i := 0 to |roots|
      invariant AllNamed(roots, request, receipt, i)
      invariant found == PlacesUpTo(roots, request, parent, receipt, i)
    {
      var root := roots[i];
      assert root.copyId in sent <==> SentFor(request.sources, root);
      if root.copyId in sent {
        var entry := EntryFor(receipt.entries, root.copyId);
        if entry.None? || entry.value.kind != root.kind { return None; }
        found := found + [PlaceFor(root, entry.value, request, parent, receipt.observationVersion)];
      }
    }
    places := Some(found);
  }

  ghost predicate GivesPlace(places: seq<RootPlace>, handle: string) {
    exists i :: 0 <= i < |places| && places[i].handle == handle
  }

  lemma PlaceAdded(places: seq<RootPlace>, place: RootPlace, handle: string)
    ensures GivesPlace(places + [place], handle) <==> GivesPlace(places, handle) || place.handle == handle
  {
    var all := places + [place];
    assert all[|places|] == place;
    if GivesPlace(places, handle) {
      var i :| 0 <= i < |places| && places[i].handle == handle;
      assert all[i] == places[i];
    }
  }

  predicate TakesPlace(request: Request, receipt: Receipt, root: CopyRoot)
    requires request.CopyRequest?
  {
    SentFor(request.sources, root) && Names(receipt, root)
  }

  /** The roots given a place are those sent and named in the answer. */
  lemma {:induction false} PlacedExactly(roots: seq<CopyRoot>, request: Request, parent: ParentRef, receipt: Receipt, n: nat,
                                         handle: string)
    requires request.CopyRequest? && n <= |roots|
    ensures GivesPlace(PlacesUpTo(roots, request, parent, receipt, n), handle) <==>
            (exists i :: 0 <= i < n && roots[i].handle == handle && TakesPlace(request, receipt, roots[i]))
  {
    if n > 0 {
      var root := roots[n - 1];
      PlacedExactly(roots, request, parent, receipt, n - 1, handle);
      if TakesPlace(request, receipt, root) {
        PlaceAdded(PlacesUpTo(roots, request, parent, receipt, n - 1),
                   PlaceFor(root, EntryFor(receipt.entries, root.copyId).value, request, parent, receipt.observationVersion), handle);
      } else {
        assert PlacesUpTo(roots, request, parent, receipt, n) == PlacesUpTo(roots, request, parent, receipt, n - 1);
      }
    }
  }

  /**
   * Applies the answer to the roots with the operation's own settlement: a receipt that names them
   * places them, anything else drops them all.
   */
  function SettleCopy(record: CopyOperation, settledAt: int): Option<Write> {
    var active := ActiveCopy(record);
    if active.None? || !active.value.state.Received? || active.value.attempts == [] then None
    else
      var intent := active.value;
      var attempt := intent.attempts[|intent.attempts| - 1];
      if !attempt.request.CopyRequest? || attempt.outcome.None? then None
      else
        var disposition := DispositionOf(attempt.outcome.value, false);
        var next := record.(revision := record.revision + 1,
                            intents := SettleNamespaceIntent(record.intents, intent, disposition, settledAt, Uncertain));
        if !disposition.Accept? then Some(Write(next, Drop(HandlesOf(intent.desired.roots))))
        else
          match attempt.outcome.value
          case Operation(receipt) =>
            if !receipt.command.CopyCommand? then Some(Refused(record, intent))
            else
              (match ReceiptPlaces(intent.desired.roots, attempt.request, intent.desired.parent, receipt)
               case Some(places) => Some(Write(next, Place(places)))
               case None => Some(Refused(record, intent)))
          case _ => Some(Refused(record, intent))
  }

  /** A refused Copy is superseded once the writer dismisses it. */
  function ResolveRefusedCopy(record: CopyOperation): Option<CopyOperation> {
    if exists i :: 0 <= i < |record.intents| && record.intents[i].state.NeedsRepair? then
      Some(record.(revision := record.revision + 1,
                   intents := seq(|record.intents|, i requires 0 <= i < |record.intents| =>
                                    if record.intents[i].state.NeedsRepair? then record.intents[i].(state := Superseded)
                                    else record.intents[i])))
    else None
  }

  // ------------------------------------------------------------------------------------------
  // The roots' records with the operation
  // ------------------------------------------------------------------------------------------

  /** A root's record waits for the answer or stands where the answer put it; a dropped one is not there. */
  datatype RootState = Waiting | Standing(place: RootPlace)

  datatype System = System(operation: CopyOperation, roots: map<string, RootState>)

  function Applied(roots: map<string, RootState>, change: Roots): map<string, RootState> {
    match change
    case Untouched => roots
    case Admitted(handles) => roots + map handle | handle in handles :: Waiting
    case Drop(handles) => map handle | handle in roots && handle !in handles :: roots[handle]
    case Place(places) => PlaceAll(roots, places)
  }

  function PlaceAll(roots: map<string, RootState>, places: seq<RootPlace>): map<string, RootState>
    decreases |places|
  {
    if places == [] then roots else PlaceAll(roots[places[0].handle := Standing(places[0])], places[1..])
  }

  lemma {:induction false} PlaceAllExactly(roots: map<string, RootState>, places: seq<RootPlace>, handle: string)
    ensures handle in PlaceAll(roots, places) <==> handle in roots || GivesPlace(places, handle)
    ensures GivesPlace(places, handle) ==>
              && PlaceAll(roots, places)[handle].Standing?
              && PlaceAll(roots, places)[handle].place in places && PlaceAll(roots, places)[handle].place.handle == handle
    ensures !GivesPlace(places, handle) && handle in roots ==> PlaceAll(roots, places)[handle] == roots[handle]
    decreases |places|
  {
    if places != [] {
      PlaceAllExactly(roots[places[0].handle := Standing(places[0])], places[1..], handle);
      assert GivesPlace(places[1..], handle) ==> GivesPlace(places, handle) by {
        if GivesPlace(places[1..], handle) {
          var i :| 0 <= i < |places[1..]| && places[1..][i].handle == handle;
          assert places[i + 1].handle == handle;
        }
      }
      assert GivesPlace(places, handle) ==> places[0].handle == handle || GivesPlace(places[1..], handle) by {
        if GivesPlace(places, handle) {
          var i :| 0 <= i < |places| && places[i].handle == handle;
          if i > 0 { assert places[1..][i - 1].handle == handle; }
        }
      }
    }
  }

  datatype Act =
    | Prepare(attemptId: string, destination: Option<Location>, sources: seq<Option<Location>>)
    | Record(intentId: string, attemptId: string, outcome: Outcome)
    | Settle(settledAt: int)
    | GiveUp            // the gate sends a waiting Copy to repair
    | PlacingFails      // the store cannot give a root its place
    | Resolve           // the writer dismisses a refused Copy

  function After(s: System, write: Write): System {
    System(write.next, Applied(s.roots, write.roots))
  }

  ghost predicate Acts(s: System, act: Act, s': System) {
    match act
    case Prepare(attemptId, destination, sources) =>
      var write := PrepareCopyAttempt(s.operation, attemptId, destination, sources);
      write.Some? && s' == After(s, write.value)
    case Record(intentId, attemptId, outcome) =>
      var write := RecordCopyOutcome(s.operation, intentId, attemptId, outcome);
      write.Ok? && write.value.Some? && s' == After(s, write.value.value)
    case Settle(settledAt) =>
      var write := SettleCopy(s.operation, settledAt);
      write.Some? && s' == After(s, write.value)
    case GiveUp =>
      var active := ActiveCopy(s.operation);
      active.Some? && active.value.state.Pending? && s' == After(s, Refused(s.operation, active.value))
    case PlacingFails =>
      var active := ActiveCopy(s.operation);
      active.Some? && active.value.state.Received? && s' == After(s, Refused(s.operation, active.value))
    case Resolve =>
      var next := ResolveRefusedCopy(s.operation);
      next.Some? && s' == s.(operation := next.value)
  }

  /** Each root has its own record and its own copy. */
  ghost predicate OwnRecords(roots: seq<CopyRoot>) {
    forall i, k :: 0 <= i < k < |roots| ==> roots[i].handle != roots[k].handle && roots[i].copyId != roots[k].copyId
  }

  predicate WaitsAt(s: System, handle: string) {
    handle in s.roots && s.roots[handle].Waiting?
  }

  /** The one attempt of a Copy that was sent. */
  predicate SentOnce(intent: Intent) {
    |intent.attempts| == 1 && intent.attempts[0].request.CopyRequest?
  }

  predicate WasSent(intent: Intent, root: CopyRoot) {
    SentOnce(intent) && SentFor(intent.attempts[0].request.sources, root)
  }

  /** The root stands where the recorded answer names its copy. */
  predicate StandsAsAnswered(s: System, intent: Intent, root: CopyRoot)
    requires intent.desired.Copy? && SentOnce(intent)
  {
    && Answer(intent).Some? && Answer(intent).value.Operation?
    && var receipt := Answer(intent).value.receipt;
       && Names(receipt, root) && root.handle in s.roots
       && s.roots[root.handle] ==
          Standing(PlaceFor(root, EntryFor(receipt.entries, root.copyId).value, intent.attempts[0].request,
                            intent.desired.parent, receipt.observationVersion))
  }

  /** What each state of the Copy says of the record of the root at `i`. */
  ghost predicate RootFits(s: System, intent: Intent, i: nat)
    requires intent.desired.Copy? && i < |intent.desired.roots|
  {
    var root := intent.desired.roots[i];
    match intent.state
    case Pending => WaitsAt(s, root.handle)
    case Submitted => if WasSent(intent, root) then WaitsAt(s, root.handle) else root.handle !in s.roots
    case Received => if WasSent(intent, root) then WaitsAt(s, root.handle) else root.handle !in s.roots
    case Settled => if WasSent(intent, root) then StandsAsAnswered(s, intent, root) else root.handle !in s.roots
    case _ => root.handle !in s.roots
  }

  ghost predicate Sound(s: System) {
    && |s.operation.intents| == 1
    && var intent := s.operation.intents[0];
       && intent.desired.Copy? && OwnRecords(intent.desired.roots)
       && (intent.state.Pending? || intent.state.Submitted? || intent.state.Received? || intent.state.Settled?
           || intent.state.NeedsRepair? || intent.state.Superseded?)
       && (intent.state.Pending? ==> intent.attempts == [])
       && (intent.state.Submitted? || intent.state.Received? || intent.state.Settled? ==> SentOnce(intent))
       && (intent.state.Submitted? ==> intent.attempts[0].outcome.None?)
       && (intent.state.Received? || intent.state.Settled? ==> intent.attempts[0].outcome.Some?)
       && forall i :: 0 <= i < |intent.desired.roots| ==> RootFits(s, intent, i)
  }

  /** Once settled, a sent root stands where the answer names its copy: the displayed path, the name, the area asked for. */
  lemma SettledRootStandsThere(s: System, i: nat) returns (entry: CopiedEntry)
    requires Sound(s) && s.operation.intents[0].state.Settled?
    requires var intent := s.operation.intents[0]; i < |intent.desired.roots| && WasSent(intent, intent.desired.roots[i])
    ensures var intent := s.operation.intents[0];
            var root, request := intent.desired.roots[i], intent.attempts[0].request;
            && Answer(intent).Some? && Answer(intent).value.Operation?
            && var receipt := Answer(intent).value.receipt;
            && entry in receipt.entries && entry.id == root.copyId && entry.kind == root.kind
            && root.handle in s.roots && s.roots[root.handle].Standing?
            && var stands := s.roots[root.handle].place;
            && stands.handle == root.handle && stands.kind == root.kind && stands.parent == intent.desired.parent
            && stands.observationVersion == receipt.observationVersion
            && stands.location.path == Paths.Displayed(entry.path) && stands.location.name == entry.name
            && stands.location.scheme == request.scheme && stands.location.owner == request.owner
  {
    var intent := s.operation.intents[0];
    assert RootFits(s, intent, i);
    entry := EntryFor(Answer(intent).value.receipt.entries, intent.desired.roots[i].copyId).value;
  }

  lemma StartIsSound(s: System, projectId: string, operationId: string, intentId: string, admission: Admission,
                     roots: seq<CopyRoot>, parent: ParentRef, position: Option<Position>)
    requires OwnRecords(roots) && s == After(System(s.operation, map[]), PlanCopy(projectId, operationId, intentId, admission, roots, parent, position))
    ensures Sound(s)
  {
    var intent := s.operation.intents[0];
    forall i | 0 <= i < |roots| ensures RootFits(s, intent, i) {
      assert HandlesOf(roots)[i] in HandlesOf(roots);
    }
  }

  lemma ActiveIsOnly(record: CopyOperation)
    requires |record.intents| == 1
    ensures ActiveCopy(record).Some? ==> ActiveCopy(record).value == record.intents[0]
  {
    assert ActiveIntent(record.intents[..0]).None?;
  }

  lemma RefusedIsSound(s: System, intent: Intent)
    requires Sound(s) && intent == s.operation.intents[0]
    ensures Sound(After(s, Refused(s.operation, intent)))
  {
    var s' := After(s, Refused(s.operation, intent));
    var refused := intent.(state := NeedsRepair);
    assert s'.operation.intents == [refused];
    forall i | 0 <= i < |intent.desired.roots| ensures RootFits(s', refused, i) {
      assert HandlesOf(intent.desired.roots)[i] in HandlesOf(intent.desired.roots);
    }
  }

  /** The request is for exactly the roots whose records stay. */
  lemma SentOrCollapsed(roots: seq<CopyRoot>, places: seq<Location>, i: nat)
    requires |roots| == |places| && OwnRecords(roots) && i < |roots|
    ensures var placed := PlacedRoots(roots, places);
            && (SentFor(SourcesOf(OutermostPlaced(placed)), roots[i]) <==> Outermost(placed, i))
            && (roots[i].handle in CollapsedUpTo(placed, |placed|) <==> !Outermost(placed, i))
  {
    var placed := PlacedRoots(roots, places);
    var sent := OutermostPlaced(placed);
    CollapsedExactly(placed, |placed|, roots[i].handle);
    KeptExactly(placed, |placed|, placed[i]);
    if SentFor(SourcesOf(sent), roots[i]) {
      var k :| 0 <= k < |SourcesOf(sent)| && SourcesOf(sent)[k].copied.copyId == roots[i].copyId;
      KeptExactly(placed, |placed|, sent[k]);
      var j :| 0 <= j < |placed| && placed[j] == sent[k] && Outermost(placed, j);
      assert j == i;
    }
    if Outermost(placed, i) {
      var k :| 0 <= k < |sent| && sent[k] == placed[i];
      assert SourcesOf(sent)[k].copied.copyId == roots[i].copyId;
    }
  }

  lemma PreparedIsSound(s: System, act: Act, s': System)
    requires Sound(s) && act.Prepare? && Acts(s, act, s')
    ensures Sound(s')
  {
    ActiveIsOnly(s.operation);
    var intent := s.operation.intents[0];
    var parent := ParentPlace(intent.desired.parent, act.destination);
    var places := AllPlaced(act.sources);
    AllPlacedExactly(act.sources);
    if parent.None? || places.None? {
      RefusedIsSound(s, intent);
    } else {
      var placed := PlacedRoots(intent.desired.roots, places.value);
      var collapsed := CollapsedUpTo(placed, |placed|);
      var request := CopyRequest(parent.value.owner, s.operation.operationId, SourcesOf(OutermostPlaced(placed)),
                                 parent.value.scheme, intent.desired.parent, intent.desired.position);
      var sent := intent.(state := Submitted, attempts := [Attempt(act.attemptId, request, None)]);
      assert s'.operation.intents[0] == sent;
      forall i | 0 <= i < |intent.desired.roots| ensures RootFits(s', sent, i) {
        assert RootFits(s, intent, i);
        SentOrCollapsed(intent.desired.roots, places.value, i);
      }
    }
  }

  lemma FoundIsOnly(record: CopyOperation, intentId: string)
    requires |record.intents| == 1
    ensures Find(record.intents, intentId).Some? ==>
              Find(record.intents, intentId).value == record.intents[0] && record.intents[0].intentId == intentId
  {
  }

  lemma RecordedIsSound(s: System, act: Act, s': System)
    requires Sound(s) && act.Record? && Acts(s, act, s')
    ensures Sound(s')
  {
    var intent := s.operation.intents[0];
    var answered := intent.(state := Received, attempts := [intent.attempts[0].(outcome := Some(act.outcome))]);
    FoundIsOnly(s.operation, act.intentId);
    assert s'.operation.intents[0] == answered;
    forall i | 0 <= i < |intent.desired.roots| ensures RootFits(s', answered, i) { assert RootFits(s, intent, i); }
  }

  /** Settling the only intent of an operation changes it alone. */
  lemma SettledAlone(intent: Intent, disposition: Disposition, settledAt: int)
    ensures SettleNamespaceIntent([intent], intent, disposition, settledAt, Uncertain) ==
            [intent.(state := SettledState(disposition), settledAt := Some(At(settledAt)))]
  {
    var settled := intent.(state := SettledState(disposition), settledAt := Some(At(settledAt)));
    assert MarkAll([intent], intent, SettledState(disposition), settledAt) == [settled];
    assert !DeletedAfter([settled], intent);
    assert Resolved(settled, intent, false) == settled;
    assert ResolveRefusedLocationChain([settled], intent) == [settled];
  }

  lemma {:induction false} PlacesAre(roots: seq<CopyRoot>, request: Request, parent: ParentRef, receipt: Receipt, n: nat,
                                     place: RootPlace) returns (i: nat)
    requires request.CopyRequest? && n <= |roots| && place in PlacesUpTo(roots, request, parent, receipt, n)
    ensures i < n && TakesPlace(request, receipt, roots[i])
    ensures place == PlaceFor(roots[i], EntryFor(receipt.entries, roots[i].copyId).value, request, parent, receipt.observationVersion)
  {
    if place in PlacesUpTo(roots, request, parent, receipt, n - 1) {
      i := PlacesAre(roots, request, parent, receipt, n - 1, place);
    } else {
      i := n - 1;
    }
  }

  lemma PlacedIsSound(s: System, s': System, intent: Intent, settled: Intent, places: seq<RootPlace>, receipt: Receipt)
    requires Sound(s) && intent == s.operation.intents[0] && intent.state.Received? && s'.operation.intents == [settled]
    requires settled == intent.(state := Settled, settledAt := settled.settledAt) && Answer(intent) == Some(Operation(receipt))
    requires ReceiptPlaces(intent.desired.roots, intent.attempts[0].request, intent.desired.parent, receipt) == Some(places)
    requires s'.roots == PlaceAll(s.roots, places)
    ensures Sound(s')
  {
    var roots, request := intent.desired.roots, intent.attempts[0].request;
    forall i | 0 <= i < |roots| ensures RootFits(s', settled, i) {
      assert RootFits(s, intent, i);
      PlacedExactly(roots, request, intent.desired.parent, receipt, |roots|, roots[i].handle);
      PlaceAllExactly(s.roots, places, roots[i].handle);
      if GivesPlace(places, roots[i].handle) {
        var j := PlacesAre(roots, request, intent.desired.parent, receipt, |roots|, s'.roots[roots[i].handle].place);
      }
    }
  }

  lemma SettlingIsSound(s: System, act: Act, s': System)
    requires Sound(s) && act.Settle? && Acts(s, act, s')
    ensures Sound(s')
  {
    ActiveIsOnly(s.operation);
    var intent := s.operation.intents[0];
    assert s.operation.intents == [intent];
    var outcome := intent.attempts[0].outcome.value;
    var disposition := DispositionOf(outcome, false);
    SettledAlone(intent, disposition, act.settledAt);
    var settled := intent.(state := SettledState(disposition), settledAt := Some(At(act.settledAt)));
    if !disposition.Accept? {
      assert s'.operation.intents == [settled];
      forall i | 0 <= i < |intent.desired.roots| ensures RootFits(s', settled, i) {
        assert HandlesOf(intent.desired.roots)[i] in HandlesOf(intent.desired.roots);
      }
    } else if outcome.Operation? && outcome.receipt.command.CopyCommand?
              && ReceiptPlaces(intent.desired.roots, intent.attempts[0].request, intent.desired.parent, outcome.receipt).Some? {
      PlacedIsSound(s, s', intent, settled,
                    ReceiptPlaces(intent.desired.roots, intent.attempts[0].request, intent.desired.parent, outcome.receipt).value,
                    outcome.receipt);
    } else {
      RefusedIsSound(s, intent);
    }
  }

  lemma ResolvedIsSound(s: System, act: Act, s': System)
    requires Sound(s) && act.Resolve? && Acts(s, act, s')
    ensures Sound(s')
  {
    var intent := s.operation.intents[0];
    var superseded := intent.(state := Superseded);
    assert s'.operation.intents == [superseded];
    forall i | 0 <= i < |intent.desired.roots| ensures RootFits(s', superseded, i) { assert RootFits(s, intent, i); }
  }

  lemma ActKeepsSound(s: System, act: Act, s': System)
    requires Sound(s) && Acts(s, act, s')
    ensures Sound(s')
  {
    ActiveIsOnly(s.operation);
    match act
    case Prepare(_, _, _) => PreparedIsSound(s, act, s');
    case Record(_, _, _) => RecordedIsSound(s, act, s');
    case Settle(_) => SettlingIsSound(s, act, s');
    case GiveUp => RefusedIsSound(s, s.operation.intents[0]);
    case PlacingFails => RefusedIsSound(s, s.operation.intents[0]);
    case Resolve => ResolvedIsSound(s, act, s');
  }

  ghost predicate RunsAs(states: seq<System>, acts: seq<Act>) {
    && |states| == |acts| + 1 && Planned(states[0])
    && forall i :: 0 <= i < |acts| ==> ActsAt(states, acts, i)
  }

  ghost predicate ActsAt(states: seq<System>, acts: seq<Act>, i: nat)
    requires i < |acts| && |states| == |acts| + 1
  {
    Acts(states[i], acts[i], states[i + 1])
  }

  /** A new Copy, each of its roots waiting. */
  ghost predicate Planned(s: System) {
    exists projectId, operationId, intentId, admission, roots, parent, position ::
      && OwnRecords(roots)
      && s == After(System(s.operation, map[]), PlanCopy(projectId, operationId, intentId, admission, roots, parent, position))
  }

  lemma {:induction false} RunIsSound(states: seq<System>, acts: seq<Act>, i: nat)
    requires RunsAs(states, acts) && i < |states|
    ensures Sound(states[i])
    decreases i
  {
    if i == 0 {
      var s := states[0];
      var projectId, operationId, intentId, admission, roots, parent, position :|
        && OwnRecords(roots)
        && s == After(System(s.operation, map[]), PlanCopy(projectId, operationId, intentId, admission, roots, parent, position));
      StartIsSound(s, projectId, operationId, intentId, admission, roots, parent, position);
    } else {
      RunIsSound(states, acts, i - 1);
      assert ActsAt(states, acts, i - 1);
      ActKeepsSound(states[i - 1], acts[i - 1], states[i]);
    }
  }

  /**
   * No run leaves a root's record behind: once the Copy is settled each root stands where the
   * answer put it or is gone, and once it is refused every one is gone.
   */
  lemma NoRootIsOrphaned(states: seq<System>, acts: seq<Act>, i: nat, k: nat)
    requires RunsAs(states, acts) && i < |states|
    ensures Sound(states[i])
    ensures var intent := states[i].operation.intents[0];
            k < |intent.desired.roots| ==>
              && (intent.state.Settled? ==>
                    StandsAsAnswered(states[i], intent, intent.desired.roots[k]) || intent.desired.roots[k].handle !in states[i].roots)
              && (intent.state.NeedsRepair? || intent.state.Superseded? ==> intent.desired.roots[k].handle !in states[i].roots)
  {
    RunIsSound(states, acts, i);
    var intent := states[i].operation.intents[0];
    if k < |intent.desired.roots| { assert RootFits(states[i], intent, k); }
  }
}
