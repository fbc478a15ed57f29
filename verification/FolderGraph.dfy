/**
 * The whole placement graph of packages/resource-replica/src/folder-placement.ts: the choice of
 * each folder's edge, the repair, and the places and hidden flags resolved from it.
 */
module FolderGraph {
  import opened FolderPlacement
  import opened FolderRepair
  import Paths
  import opened Records
  import opened Wrappers

  datatype Node = Node(id: EntryId, canonical: Location, parent: Option<ParentRef>, ancestryOnly: bool)

  /** What placement reads of a folder's journal: its observation, its owning placement, its deletion. */
  datatype FolderRecord = FolderRecord(
    projectId: Option<string>,
    folderId: EntryId,
    canonical: Option<Location>,
    canonicalParent: Option<ParentRef>,
    desired: Option<Destination>,
    terminal: bool,
    ownsDeletion: bool)

  datatype Placement = Placement(location: Location, hidden: bool)

  /** Everything the graph is built from. */
  datatype Scene = Scene(nodes: map<EntryId, Node>, records: map<EntryId, FolderRecord>, installed: Location -> bool)

  // ------------------------------------------------------------------------------------------
  // Observed and chosen edges
  // ------------------------------------------------------------------------------------------

  function NodesById(nodes: seq<Node>): (byId: map<EntryId, Node>)
    ensures forall id :: id in byId <==> exists i :: 0 <= i < |nodes| && nodes[i].id == id
  {
    if nodes == [] then map[]
    else var last := nodes[|nodes| - 1]; NodesById(nodes[..|nodes| - 1])[last.id := last]
  }

  /** The account's own folders and this project's; a later record of an id replaces an earlier one. */
  function RecordsById(projectId: string, records: seq<FolderRecord>): map<EntryId, FolderRecord> {
    if records == [] then map[] else
      var last := records[|records| - 1];
      var rest := RecordsById(projectId, records[..|records| - 1]);
      if last.projectId.None? || last.projectId.value == projectId then rest[last.folderId := last] else rest
  }

  /** A record's observation counts only when it names the parent it was observed under. */
  function ObservedLocation(scene: Scene, id: EntryId): Location
    requires id in scene.nodes
  {
    if id in scene.records && scene.records[id].canonicalParent.Some? && scene.records[id].canonical.Some? then
      scene.records[id].canonical.value
    else scene.nodes[id].canonical
  }

  function ObservedParent(scene: Scene, id: EntryId): Option<ParentRef>
    requires id in scene.nodes
  {
    if id in scene.records && scene.records[id].canonicalParent.Some? then scene.records[id].canonicalParent
    else scene.nodes[id].parent
  }

  function CanonicalEdge(scene: Scene, id: EntryId): Edge
    requires id in scene.nodes
  {
    var location := ObservedLocation(scene, id);
    match ObservedParent(scene, id)
    case Some(FolderParent(f)) =>
      if f in scene.nodes then Edge(Destination(FolderParent(f), [], location.name, None), Observed) else AbsoluteEdge(location)
    case _ => AbsoluteEdge(location)
  }

  /** A pending destination counts only while its parent can still take it. */
  predicate Usable(scene: Scene, parent: ParentRef) {
    match parent
    case FolderParent(f) =>
      && f in scene.nodes && !scene.nodes[f].ancestryOnly
      && !(f in scene.records && scene.records[f].terminal)
    case RootParent(scheme, owner) => scene.installed(Location(scheme, "", "", owner))
  }

  function ChosenEdge(scene: Scene, id: EntryId): Edge
    requires id in scene.nodes
  {
    if id in scene.records && scene.records[id].desired.Some? && Usable(scene, scene.records[id].desired.value.parent) then
      Edge(scene.records[id].desired.value, Pending)
    else CanonicalEdge(scene, id)
  }

  function Observations(scene: Scene): map<EntryId, Location> {
    map id | id in scene.nodes :: ObservedLocation(scene, id)
  }

  function ChosenGraph(scene: Scene): Graph {
    Graph(map id | id in scene.nodes :: ChosenEdge(scene, id), map id | id in scene.nodes :: CanonicalEdge(scene, id))
  }

  lemma ChosenIsWellFormed(scene: Scene)
    ensures WellFormed(ChosenGraph(scene), Observations(scene))
  {
    var g := ChosenGraph(scene);
    forall id | ParentOf(g.edges, id).Some? ensures ParentOf(g.edges, id).value in g.edges {}
    forall id | ParentOf(g.canonical, id).Some? ensures ParentOf(g.canonical, id).value in g.canonical {}
  }

  // ------------------------------------------------------------------------------------------
  // Places from the roots down
  // ------------------------------------------------------------------------------------------

  function WithoutTrailingSlash(path: string): string {
    if |path| > 0 && path[|path| - 1] == '/' then path[..|path| - 1] else path
  }

  function LastSegment(name: string): string {
    if name == "" then "" else if name[|name| - 1] == '/' then "" else LastSegment(name[..|name| - 1]) + [name[|name| - 1]]
  }

  function DestinationLocation(destination: Destination, parent: Location): Location {
    Location(parent.scheme,
             Paths.Join([WithoutTrailingSlash(parent.path)] + destination.createFolders + [destination.name]),
             LastSegment(destination.name), parent.owner)
  }

  /** Where one folder stands, given where its parent stands. */
  function PlacementAt(scene: Scene, g: Graph, id: EntryId, parent: Option<Placement>): Placement
    requires id in g.edges && id in g.canonical && id in scene.nodes
  {
    var destination := g.edges[id].destination;
    Placement(
      if g.edges[id] == g.canonical[id] && destination.parent.RootParent? then ObservedLocation(scene, id)
      else DestinationLocation(destination,
             if parent.Some? then parent.value.location
             else if destination.parent.RootParent? then Location(destination.parent.scheme, "", "", destination.parent.owner)
             else Location("", "", "", ProjectOwner)),
      (parent.Some? && parent.value.hidden) || (id in scene.records && scene.records[id].ownsDeletion))
  }

  /** Every folder placed so far stands where its final edge puts it under where its parent stands. */
  ghost predicate PartlyPlaced(scene: Scene, g: Graph, places: map<EntryId, Placement>) {
    && g.edges.Keys == g.canonical.Keys == scene.nodes.Keys && places.Keys <= g.edges.Keys
    && forall id {:trigger PlacedAt(scene, g, places, id)} :: id in places ==> PlacedAt(scene, g, places, id)
  }

  ghost predicate PlacedAt(scene: Scene, g: Graph, places: map<EntryId, Placement>, id: EntryId)
    requires g.edges.Keys == g.canonical.Keys == scene.nodes.Keys
  {
    && id in places && id in g.edges
    && match ParentOf(g.edges, id)
       case None => places[id] == PlacementAt(scene, g, id, None)
       case Some(parent) => parent in places && places[id] == PlacementAt(scene, g, id, Some(places[parent]))
  }

  ghost predicate Placed(scene: Scene, g: Graph, places: map<EntryId, Placement>) {
    PartlyPlaced(scene, g, places) && places.Keys == g.edges.Keys
  }

  method ResolvePlaces(order: seq<EntryId>, scene: Scene, g: Graph) returns (places: map<EntryId, Placement>)
    requires g.edges.Keys == g.canonical.Keys == scene.nodes.Keys
    requires forall id :: id in g.edges <==> id in order
    requires forall id :: id in g.edges ==> Rooted(g.edges, id)
    ensures Placed(scene, g, places)
  {
    places := map[];
    for k := 0 to |order|
      invariant PartlyPlaced(scene, g, places)
      invariant forall i :: 0 <= i < k ==> order[i] in places
    {
      assert order[k] in g.edges && Rooted(g.edges, order[k]);
      var chain, next := Climb(order[k], g, places.Keys);
      places := PlaceDown(order[k], chain, next, scene, g, places);
    }
    assert places.Keys == g.edges.Keys;
  }

  /** Places a climbed chain on the way back down. */
  method PlaceDown(start: EntryId, chain: seq<EntryId>, ghost next: Option<EntryId>, scene: Scene, g: Graph,
                   places0: map<EntryId, Placement>)
    returns (places: map<EntryId, Placement>)
    requires PartlyPlaced(scene, g, places0)
    requires Climbed(g.edges, start, chain, next) && (next.Some? ==> next.value in places0)
    ensures PartlyPlaced(scene, g, places) && places0.Keys <= places.Keys && start in places
  {
    places := places0;
    for i := |chain| downto 0
      invariant PartlyPlaced(scene, g, places) && places0.Keys <= places.Keys
      invariant i < |chain| ==> chain[i] in places
    {
      places := PlaceOne(chain, i, next, start, scene, g, places);
    }
  }

  /** Climbs to a root or a folder already placed. */
  method Climb(start: EntryId, g: Graph, placed: set<EntryId>) returns (chain: seq<EntryId>, next: Option<EntryId>)
    requires start in g.edges && Rooted(g.edges, start)
    ensures Climbed(g.edges, start, chain, next)
    ensures next.Some? ==> next.value in placed
  {
    chain, next := [], Some(start);
    ghost var n: nat :| RootWithin(g.edges, start, n);
    while next.Some? && next.value !in placed
      invariant next.Some? ==> RootWithin(g.edges, next.value, n)
      invariant Climbed(g.edges, start, chain, next)
      decreases next.Some?, n
    {
      ClimbGrows(g.edges, start, chain, next.value);
      chain := chain + [next.value];
      next := ParentOf(g.edges, next.value);
      if next.Some? { n := n - 1; }
    }
  }

  ghost predicate Climbed(edges: Edges, start: EntryId, chain: seq<EntryId>, next: Option<EntryId>) {
    && (forall i :: 0 <= i < |chain| ==> chain[i] in edges)
    && (forall i :: 0 <= i < |chain| - 1 ==> LinkAt(edges, chain, i))
    && (if chain == [] then next == Some(start) else chain[0] == start && ParentOf(edges, chain[|chain| - 1]) == next)
  }

  lemma ClimbGrows(edges: Edges, start: EntryId, chain: seq<EntryId>, next: EntryId)
    requires Climbed(edges, start, chain, Some(next)) && next in edges
    ensures Climbed(edges, start, chain + [next], ParentOf(edges, next))
  {
    var longer := chain + [next];
    forall i | 0 <= i < |longer| - 1 ensures LinkAt(edges, longer, i) {
      if i < |chain| - 1 { assert LinkAt(edges, chain, i); }
    }
  }

  method PlaceOne(chain: seq<EntryId>, i: nat, ghost next: Option<EntryId>, ghost start: EntryId,
                  scene: Scene, g: Graph, places0: map<EntryId, Placement>)
    returns (places: map<EntryId, Placement>)
    requires PartlyPlaced(scene, g, places0)
    requires i < |chain| && Climbed(g.edges, start, chain, next) && (next.Some? ==> next.value in places0)
    requires i + 1 < |chain| ==> chain[i + 1] in places0
    ensures PartlyPlaced(scene, g, places) && places.Keys == places0.Keys + {chain[i]}
  {
    var id := chain[i];
    var parent := ParentOf(g.edges, id);
    if i + 1 < |chain| { assert LinkAt(g.edges, chain, i); }
    places := places0[id := PlacementAt(scene, g, id, if parent.Some? then Some(places0[parent.value]) else None)];
    if id in places0 { assert PlacedAt(scene, g, places0, id); }
    forall other | other in places ensures PlacedAt(scene, g, places, other) {
      if other in places0 { assert PlacedAt(scene, g, places0, other); }
    }
  }

  // ------------------------------------------------------------------------------------------
  // What the places mean
  // ------------------------------------------------------------------------------------------

  /** `ancestor` is `id` or is met on the way up from it, within `n` steps. */
  ghost predicate Ancestor(edges: Edges, id: EntryId, ancestor: EntryId, n: nat)
    decreases n
  {
    || id == ancestor
    || (n > 0 && ParentOf(edges, id).Some? && Ancestor(edges, ParentOf(edges, id).value, ancestor, n - 1))
  }

  ghost predicate OwnsDeletion(scene: Scene, id: EntryId) {
    id in scene.records && scene.records[id].ownsDeletion
  }

  ghost predicate UnderDeletion(scene: Scene, g: Graph, id: EntryId) {
    exists ancestor, n: nat :: Ancestor(g.edges, id, ancestor, n) && OwnsDeletion(scene, ancestor)
  }

  /** Being under a deletion is owning one, or having a parent that is under one. */
  lemma UnderDeletionStep(scene: Scene, g: Graph, id: EntryId)
    ensures UnderDeletion(scene, g, id) <==>
            || OwnsDeletion(scene, id)
            || (ParentOf(g.edges, id).Some? && UnderDeletion(scene, g, ParentOf(g.edges, id).value))
  {
    if OwnsDeletion(scene, id) { assert Ancestor(g.edges, id, id, 0); }
    if ParentOf(g.edges, id).Some? && UnderDeletion(scene, g, ParentOf(g.edges, id).value) {
      var ancestor, n: nat :| Ancestor(g.edges, ParentOf(g.edges, id).value, ancestor, n) && OwnsDeletion(scene, ancestor);
      assert Ancestor(g.edges, id, ancestor, n + 1);
    }
    if UnderDeletion(scene, g, id) && !OwnsDeletion(scene, id) {
      var ancestor, n: nat :| Ancestor(g.edges, id, ancestor, n) && OwnsDeletion(scene, ancestor);
      assert Ancestor(g.edges, ParentOf(g.edges, id).value, ancestor, n - 1);
    }
  }

  /** A folder is hidden exactly when it, or some folder above it on its final chain, owns a deletion. */
  lemma {:induction false} HiddenExactly(scene: Scene, g: Graph, places: map<EntryId, Placement>, id: EntryId, n: nat)
    requires Placed(scene, g, places) && RootWithin(g.edges, id, n)
    ensures places[id].hidden <==> UnderDeletion(scene, g, id)
    decreases n
  {
    assert PlacedAt(scene, g, places, id);
    UnderDeletionStep(scene, g, id);
    if ParentOf(g.edges, id).Some? { HiddenExactly(scene, g, places, ParentOf(g.edges, id).value, n - 1); }
  }

  /** The folder at the top of a chain. */
  ghost function Top(edges: Edges, id: EntryId, n: nat): EntryId
    requires RootWithin(edges, id, n)
    decreases n
  {
    if ParentOf(edges, id).Some? then Top(edges, ParentOf(edges, id).value, n - 1) else id
  }

  /** A folder shows in the area, and under the owner, of the folder at the top of its chain. */
  lemma {:induction false} AreaComesFromTop(scene: Scene, g: Graph, places: map<EntryId, Placement>, id: EntryId, n: nat)
    requires Placed(scene, g, places) && RootWithin(g.edges, id, n)
    ensures Top(g.edges, id, n) in places
    ensures places[id].location.scheme == places[Top(g.edges, id, n)].location.scheme
    ensures places[id].location.owner == places[Top(g.edges, id, n)].location.owner
    decreases n
  {
    assert PlacedAt(scene, g, places, id);
    if ParentOf(g.edges, id).Some? { AreaComesFromTop(scene, g, places, ParentOf(g.edges, id).value, n - 1); }
  }

  predicate ProperName(name: string) {
    name != "" && '/' !in name
  }

  /** The names along a chain, each behind a slash, from below its top down to the folder. */
  ghost function PathBelow(edges: Edges, id: EntryId, n: nat): string
    requires RootWithin(edges, id, n)
    decreases n
  {
    if ParentOf(edges, id).Some? then
      var destination := edges[id].destination;
      PathBelow(edges, ParentOf(edges, id).value, n - 1) + "/" + Paths.Join(destination.createFolders + [destination.name])
    else ""
  }

  lemma {:induction false} JoinedEnds(parts: seq<string>)
    requires parts != [] && ProperName(parts[|parts| - 1])
    ensures Paths.Join(parts) != "" && Paths.Join(parts)[|Paths.Join(parts)| - 1] != '/'
  {
    if |parts| > 1 {
      assert parts[1..][|parts[1..]| - 1] == parts[|parts| - 1];
      JoinedEnds(parts[1..]);
    } else {
      assert parts[0][|parts[0]| - 1] in parts[0];
    }
  }

  /** A path spells the folder's final chain: the top's own path, then every name on the way down. */
  lemma {:induction false} PathSpellsChain(scene: Scene, g: Graph, places: map<EntryId, Placement>, id: EntryId, n: nat)
    requires Placed(scene, g, places) && RootWithin(g.edges, id, n)
    requires forall f :: f in g.edges && ParentOf(g.edges, f).Some? ==> ProperName(g.edges[f].destination.name)
    ensures Top(g.edges, id, n) in places
    ensures var top := WithoutTrailingSlash(places[Top(g.edges, id, n)].location.path);
            ParentOf(g.edges, id).Some? ==> places[id].location.path == top + PathBelow(g.edges, id, n)
    decreases n
  {
    assert PlacedAt(scene, g, places, id);
    if ParentOf(g.edges, id).Some? {
      var parent := ParentOf(g.edges, id).value;
      PathSpellsChain(scene, g, places, parent, n - 1);
      var destination := g.edges[id].destination;
      var below := destination.createFolders + [destination.name];
      var path := WithoutTrailingSlash(places[parent].location.path);
      assert ([path] + below)[1..] == below;
      assert [path] + destination.createFolders + [destination.name] == [path] + below;
      if ParentOf(g.edges, parent).Some? { ChainHasNoEndingSlash(scene, g, places, parent); }
    }
  }

  lemma ChainHasNoEndingSlash(scene: Scene, g: Graph, places: map<EntryId, Placement>, id: EntryId)
    requires Placed(scene, g, places) && ParentOf(g.edges, id).Some? && ProperName(g.edges[id].destination.name)
    ensures id in places && WithoutTrailingSlash(places[id].location.path) == places[id].location.path
  {
    assert PlacedAt(scene, g, places, id);
    var destination := g.edges[id].destination;
    var parts := [WithoutTrailingSlash(places[ParentOf(g.edges, id).value].location.path)] + destination.createFolders + [destination.name];
    JoinedEnds(parts);
  }

  /** On a forest there is only one way to place every folder. */
  lemma {:induction false} PlaceIsUnique(scene: Scene, g: Graph, left: map<EntryId, Placement>, right: map<EntryId, Placement>,
                                         id: EntryId, n: nat)
    requires Placed(scene, g, left) && Placed(scene, g, right) && RootWithin(g.edges, id, n)
    ensures left[id] == right[id]
    decreases n
  {
    assert PlacedAt(scene, g, left, id) && PlacedAt(scene, g, right, id);
    if ParentOf(g.edges, id).Some? { PlaceIsUnique(scene, g, left, right, ParentOf(g.edges, id).value, n - 1); }
  }

  // ------------------------------------------------------------------------------------------
  // Which moves show
  // ------------------------------------------------------------------------------------------

  /** `x` is the last of the list that `fits`. */
  ghost predicate LastOf<T(!new)>(list: seq<T>, fits: T -> bool, x: T) {
    exists i :: LastAt(list, fits, x, i)
  }

  ghost predicate LastAt<T(!new)>(list: seq<T>, fits: T -> bool, x: T, i: int) {
    0 <= i < |list| && list[i] == x && fits(x) && forall k :: i < k < |list| ==> !fits(list[k])
  }

  lemma LastOfLonger<T(!new)>(list: seq<T>, last: T, fits: T -> bool, x: T)
    ensures LastOf(list + [last], fits, x) <==> if fits(last) then x == last else LastOf(list, fits, x)
  {
    var longer := list + [last];
    if fits(last) {
      assert LastAt(longer, fits, last, |list|);
    } else if LastOf(list, fits, x) {
      var i :| LastAt(list, fits, x, i);
      assert LastAt(longer, fits, x, i);
    }
    if LastOf(longer, fits, x) {
      var i :| LastAt(longer, fits, x, i);
      if i < |list| {
        assert !fits(longer[|list|]);
        assert forall k :: i < k < |list| ==> longer[k] == list[k];
        assert LastAt(list, fits, x, i);
      }
    }
  }

  /** The node read for an id is the last one listed under it. */
  lemma {:induction false} NodesByIdExactly(nodes: seq<Node>, id: EntryId, node: Node)
    ensures id in NodesById(nodes) && NodesById(nodes)[id] == node <==> LastOf(nodes, (n: Node) => n.id == id, node)
  {
    if nodes != [] {
      var n := |nodes| - 1;
      NodesByIdExactly(nodes[..n], id, node);
      LastOfLonger(nodes[..n], nodes[n], (m: Node) => m.id == id, node);
      assert nodes == nodes[..n] + [nodes[n]];
    }
  }

  /** A record of the folder that is the account's own or this project's. */
  predicate Theirs(projectId: string, record: FolderRecord, id: EntryId) {
    record.folderId == id && (record.projectId == None || record.projectId == Some(projectId))
  }

  /** The record read for a folder is the last one of it among the account's own and this project's. */
  lemma {:induction false} RecordsByIdExactly(projectId: string, records: seq<FolderRecord>, id: EntryId, record: FolderRecord)
    ensures id in RecordsById(projectId, records) && RecordsById(projectId, records)[id] == record <==>
            LastOf(records, (r: FolderRecord) => Theirs(projectId, r, id), record)
  {
    if records != [] {
      var n := |records| - 1;
      RecordsByIdExactly(projectId, records[..n], id, record);
      LastOfLonger(records[..n], records[n], (r: FolderRecord) => Theirs(projectId, r, id), record);
      assert records == records[..n] + [records[n]];
    }
  }

  /** The record of `id` asks for this place, and the place can take it. */
  ghost predicate Moves(scene: Scene, id: EntryId, destination: Destination) {
    && id in scene.records && scene.records[id].desired == Some(destination)
    && (destination.parent.FolderParent? ==>
          var f := destination.parent.folderId;
          f in scene.nodes && !scene.nodes[f].ancestryOnly && (f in scene.records ==> !scene.records[f].terminal))
    && (destination.parent.RootParent? ==>
          scene.installed(Location(destination.parent.scheme, "", "", destination.parent.owner)))
  }

  /** The folder's own record observes it, not only the catalog. */
  ghost predicate OwnObservation(scene: Scene, id: EntryId) {
    id in scene.records && scene.records[id].canonicalParent != None
  }

  ghost function SeenUnder(scene: Scene, id: EntryId): Option<ParentRef>
    requires id in scene.nodes
  {
    if OwnObservation(scene, id) then scene.records[id].canonicalParent else scene.nodes[id].parent
  }

  ghost function SeenAt(scene: Scene, id: EntryId): Location
    requires id in scene.nodes
  {
    if OwnObservation(scene, id) && scene.records[id].canonical.Some? then scene.records[id].canonical.value
    else scene.nodes[id].canonical
  }

  /** The observed place: under the observed folder while it is listed, otherwise at its path in its area. */
  ghost predicate AsSeen(scene: Scene, id: EntryId, destination: Destination)
    requires id in scene.nodes
  {
    var parent, location := SeenUnder(scene, id), SeenAt(scene, id);
    if exists f :: f in scene.nodes && parent == Some(FolderParent(f)) then
      destination == Destination(parent.value, [], location.name, None)
    else AsRooted(location, destination)
  }

  ghost predicate AsRooted(location: Location, destination: Destination) {
    && destination.parent == RootParent(location.scheme, location.owner) && destination.createFolders == []
    && destination.position == None
    && (location.path == destination.name || location.path == "/" + destination.name)
    && (destination.name != location.path || destination.name == "" || destination.name[0] != '/')
  }

  /** The folder `id` starts under: the one it may move to, else the one it was seen under. */
  ghost function StartsUnder(scene: Scene, id: EntryId): Option<EntryId>
    requires id in scene.nodes
  {
    if exists d :: Moves(scene, id, d) then
      var parent := scene.records[id].desired.value.parent;
      if parent.FolderParent? then Some(parent.folderId) else None
    else
      match SeenUnder(scene, id)
      case Some(FolderParent(f)) => if f in scene.nodes then Some(f) else None
      case _ => None
  }

  ghost predicate ReachesRoot(scene: Scene, id: EntryId, n: nat)
    decreases n
  {
    && id in scene.nodes
    && (StartsUnder(scene, id).Some? ==> n > 0 && ReachesRoot(scene, StartsUnder(scene, id).value, n - 1))
  }

  /** A smallest group of folders, each starting under another of them. */
  ghost predicate Circle(scene: Scene, s: set<EntryId>) {
    && s != {} && Circling(scene, s)
    && forall t: set<EntryId> :: t != {} && t <= s && Circling(scene, t) ==> t == s
  }

  ghost predicate Circling(scene: Scene, s: set<EntryId>) {
    s <= scene.nodes.Keys
    && forall id {:trigger StartsUnder(scene, id)} :: id in s ==> StartsUnder(scene, id).Some? && StartsUnder(scene, id).value in s
  }

  lemma ChosenStart(scene: Scene, id: EntryId)
    requires id in scene.nodes
    ensures forall d :: Moves(scene, id, d) ==> ChosenEdge(scene, id) == Edge(d, Pending)
    ensures (forall d :: !Moves(scene, id, d)) ==> ChosenEdge(scene, id) == CanonicalEdge(scene, id)
    ensures AsSeen(scene, id, CanonicalEdge(scene, id).destination)
    ensures ParentOf(ChosenGraph(scene).edges, id) == StartsUnder(scene, id)
  {
    if id in scene.records && scene.records[id].desired.Some? {
      var d := scene.records[id].desired.value;
      assert Moves(scene, id, d) <==> Usable(scene, d.parent);
    }
    var location := SeenAt(scene, id);
    if location.path != "" && location.path[0] == '/' { assert location.path == "/" + location.path[1..]; }
    assert AsRooted(location, AbsoluteEdge(location).destination);
  }

  lemma {:induction false} ReachesAsChosen(scene: Scene, id: EntryId, n: nat)
    requires ReachesRoot(scene, id, n)
    ensures RootWithin(ChosenGraph(scene).edges, id, n)
    decreases n
  {
    ChosenStart(scene, id);
    if StartsUnder(scene, id).Some? { ReachesAsChosen(scene, StartsUnder(scene, id).value, n - 1); }
  }

  /** Every folder whose start reaches a root stands where it moves to, or where it was seen. */
  ghost predicate ShowsMoves(scene: Scene, g: Graph) {
    forall id, n: nat :: ReachesRoot(scene, id, n) ==> id in g.edges && ShowsMove(scene, g, id)
  }

  ghost predicate ShowsMove(scene: Scene, g: Graph, id: EntryId)
    requires id in scene.nodes && id in g.edges
  {
    && (forall d :: Moves(scene, id, d) ==> g.edges[id].destination == d)
    && ((forall d :: !Moves(scene, id, d)) ==> AsSeen(scene, id, g.edges[id].destination))
  }

  lemma FinalShowsMoves(scene: Scene, g: Graph)
    requires RepairOf(ChosenGraph(scene), Observations(scene), g)
    ensures ShowsMoves(scene, g)
  {
    forall id, n: nat | ReachesRoot(scene, id, n) ensures id in g.edges && ShowsMove(scene, g, id) {
      ReachesAsChosen(scene, id, n);
      RepairSparesRooted(ChosenGraph(scene), Observations(scene), g, id);
      ChosenStart(scene, id);
    }
  }

  lemma CircleIsCycle(scene: Scene, s: set<EntryId>)
    requires Circle(scene, s)
    ensures Cycle(ChosenGraph(scene).edges, s)
  {
    var edges := ChosenGraph(scene).edges;
    forall t: set<EntryId> | t <= s ensures Circling(scene, t) <==> Closed(edges, t) {
      forall id | id in t ensures ParentOf(edges, id) == StartsUnder(scene, id) { ChosenStart(scene, id); }
    }
    assert Closed(edges, s);
  }

  /** The observed place of every folder in a circle; none of their moves shows. */
  ghost predicate BreaksCircles(scene: Scene, g: Graph) {
    forall s: set<EntryId>, id :: Circle(scene, s) && id in s ==>
      id in g.edges && (AsSeen(scene, id, g.edges[id].destination) || AsRooted(SeenAt(scene, id), g.edges[id].destination))
  }

  lemma FinalBreaksCircles(scene: Scene, g: Graph)
    requires RepairOf(ChosenGraph(scene), Observations(scene), g)
    ensures BreaksCircles(scene, g)
  {
    forall s: set<EntryId>, id | Circle(scene, s) && id in s
      ensures id in g.edges && (AsSeen(scene, id, g.edges[id].destination) || AsRooted(SeenAt(scene, id), g.edges[id].destination))
    {
      CircleIsCycle(scene, s);
      ChosenIsWellFormed(scene);
      CycleFallsBack(ChosenGraph(scene), Observations(scene), g, s);
      ChosenStart(scene, id);
      RootedAsSeen(SeenAt(scene, id));
    }
  }

  lemma RootedAsSeen(location: Location)
    ensures AsRooted(location, AbsoluteEdge(location).destination)
  {
    if location.path != "" && location.path[0] == '/' { assert location.path == "/" + location.path[1..]; }
  }

  /** The observed parents alone go round in no circle. */
  ghost predicate SeenIsForest(scene: Scene) {
    forall s: set<EntryId> :: s != {} && s <= scene.nodes.Keys ==>
      exists id :: id in s && !(SeenUnder(scene, id).Some? && SeenUnder(scene, id).value.FolderParent?
                                && SeenUnder(scene, id).value.folderId in s)
  }

  lemma SeenParent(scene: Scene, id: EntryId)
    requires id in scene.nodes && ParentOf(ChosenGraph(scene).canonical, id).Some?
    ensures SeenUnder(scene, id) == Some(FolderParent(ParentOf(ChosenGraph(scene).canonical, id).value))
  {
    ChosenStart(scene, id);
  }

  lemma SeenIsAcyclic(scene: Scene)
    requires SeenIsForest(scene)
    ensures Acyclic(ChosenGraph(scene).canonical)
  {
    var canonical := ChosenGraph(scene).canonical;
    forall s: set<EntryId> | s != {} ensures !Closed(canonical, s) {
      if Closed(canonical, s) {
        forall id | id in s ensures id in scene.nodes { assert ParentOf(canonical, id).Some?; }
        assert s <= scene.nodes.Keys;
        var id :| id in s && !(SeenUnder(scene, id).Some? && SeenUnder(scene, id).value.FolderParent?
                               && SeenUnder(scene, id).value.folderId in s);
        SeenParent(scene, id);
      }
    }
  }

  /** Then a folder in a circle of moves stands exactly where it was seen. */
  lemma CircleStandsAsSeen(scene: Scene, g: Graph, s: set<EntryId>, id: EntryId)
    requires RepairOf(ChosenGraph(scene), Observations(scene), g) && SeenIsForest(scene)
    requires Circle(scene, s) && id in s
    ensures id in g.edges && AsSeen(scene, id, g.edges[id].destination)
  {
    SeenIsAcyclic(scene);
    CircleIsCycle(scene, s);
    ChosenIsWellFormed(scene);
    CycleFallsBackToSeen(ChosenGraph(scene), Observations(scene), g, s);
    ChosenStart(scene, id);
  }

  // ------------------------------------------------------------------------------------------
  // The graph
  // ------------------------------------------------------------------------------------------

  /** What the graph of a scene must be: its edges repaired, its folders placed by them. */
  ghost predicate GraphOf(scene: Scene, g: Graph, places: map<EntryId, Placement>) {
    && RepairOf(ChosenGraph(scene), Observations(scene), g)
    && Placed(scene, g, places)
  }

  /**
   * The final edges form a forest, every folder reaches a root, and each stands where its final
   * edge puts it. A move that can be taken shows unless it goes round in a circle.
   */
  method BuildGraph(projectId: string, nodes: seq<Node>, records: seq<FolderRecord>, installed: Location -> bool)
    returns (g: Graph, places: map<EntryId, Placement>)
    // The source's cursor takes the empty string for "no folder", so it is never an id.
    requires forall i :: 0 <= i < |nodes| ==> nodes[i].id.text != ""
    ensures GraphOf(Scene(NodesById(nodes), RecordsById(projectId, records), installed), g, places)
    ensures Acyclic(g.edges) && forall id :: id in g.edges ==> Rooted(g.edges, id)
    ensures ShowsMoves(Scene(NodesById(nodes), RecordsById(projectId, records), installed), g)
    ensures BreaksCircles(Scene(NodesById(nodes), RecordsById(projectId, records), installed), g)
  {
    var scene := Scene(NodesById(nodes), RecordsById(projectId, records), installed);
    var order: seq<EntryId> := [];
    for k := 0 to |nodes|
      invariant forall i :: 0 <= i < k ==> nodes[i].id in order
      invariant forall i :: 0 <= i < |order| ==> order[i] in scene.nodes
    {
      order := order + [nodes[k].id];
    }
    ChosenIsWellFormed(scene);
    g := RepairCycles(order, Observations(scene), ChosenGraph(scene));
    AcyclicIsForest(g.edges);
    places := ResolvePlaces(order, scene, g);
    FinalShowsMoves(scene, g);
    FinalBreaksCircles(scene, g);
  }

  /** A folder at a root stands where it was seen, or where its move puts it under the bare root. */
  lemma TopStands(scene: Scene, g: Graph, places: map<EntryId, Placement>, id: EntryId)
    requires GraphOf(scene, g, places) && id in g.edges && g.edges[id].destination.parent.RootParent?
    ensures id in places && id in scene.nodes
    ensures !g.edges[id].origin.Pending? ==> places[id].location == SeenAt(scene, id)
    ensures g.edges[id].origin.Pending? ==>
              var d, location := g.edges[id].destination, places[id].location;
              && location.scheme == d.parent.scheme && location.owner == d.parent.owner
              && location.path == "/" + Paths.Join(d.createFolders + [d.name])
              && (ProperName(d.name) ==> location.name == d.name)
  {
    assert PlacedAt(scene, g, places, id);
    if g.edges[id].origin.Pending? {
      PendingIsMoved(scene, g, id);
      RootPlace(g.edges[id].destination);
    } else {
      ShownIsCanonical(scene, g, id);
    }
  }

  lemma ShownIsCanonical(scene: Scene, g: Graph, id: EntryId)
    requires RepairOf(ChosenGraph(scene), Observations(scene), g) && id in g.edges && !g.edges[id].origin.Pending?
    ensures id in g.canonical && g.edges[id] == g.canonical[id]
  {
    ChosenIsWellFormed(scene);
    RepairIsWellFormed(ChosenGraph(scene), Observations(scene), g);
  }

  lemma PendingIsMoved(scene: Scene, g: Graph, id: EntryId)
    requires RepairOf(ChosenGraph(scene), Observations(scene), g) && id in g.edges && g.edges[id].origin.Pending?
    ensures id in g.canonical && g.edges[id] != g.canonical[id]
  {
    ChosenIsWellFormed(scene);
    RepairIsWellFormed(ChosenGraph(scene), Observations(scene), g);
  }

  lemma RootPlace(d: Destination)
    requires d.parent.RootParent?
    ensures var location := DestinationLocation(d, Location(d.parent.scheme, "", "", d.parent.owner));
            && location.scheme == d.parent.scheme && location.owner == d.parent.owner
            && location.path == "/" + Paths.Join(d.createFolders + [d.name])
            && (ProperName(d.name) ==> location.name == d.name)
  {
    RootPath(d.createFolders + [d.name]);
    assert [""] + d.createFolders + [d.name] == [""] + (d.createFolders + [d.name]);
    if ProperName(d.name) { ProperSegment(d.name); }
  }

  lemma RootPath(parts: seq<string>)
    requires parts != []
    ensures Paths.Join([""] + parts) == "/" + Paths.Join(parts)
  {
    assert ([""] + parts)[1..] == parts;
  }

  lemma {:induction false} ProperSegment(name: string)
    requires '/' !in name
    ensures LastSegment(name) == name
  {
    if name != "" {
      var front, last := name[..|name| - 1], name[|name| - 1];
      assert name == front + [last];
      assert last in name;
      ProperSegment(front);
    }
  }

  /** A folder under another goes by the name its final edge gives it. */
  lemma ChildIsNamed(scene: Scene, g: Graph, places: map<EntryId, Placement>, id: EntryId)
    requires Placed(scene, g, places) && ParentOf(g.edges, id).Some? && ProperName(g.edges[id].destination.name)
    ensures id in places && places[id].location.name == g.edges[id].destination.name
  {
    assert PlacedAt(scene, g, places, id);
    ProperSegment(g.edges[id].destination.name);
  }

  // ------------------------------------------------------------------------------------------
  // One folder moved into another
  // ------------------------------------------------------------------------------------------

  const OUTER := EntryId("A")
  const INNER := EntryId("B")
  const TOP := RootParent("manuscript", ProjectOwner)
  const INTO := Destination(FolderParent(OUTER), [], "B", None)

  /** Two folders seen at their root; the record of the second wants it inside the first. */
  function TwoFolders(): Scene {
    Scene(map[OUTER := Node(OUTER, Location("manuscript", "/A", "A", ProjectOwner), Some(TOP), false),
              INNER := Node(INNER, Location("manuscript", "/B", "B", ProjectOwner), Some(TOP), false)],
          map[INNER := FolderRecord(None, INNER, None, None, Some(INTO), false, false)],
          (location: Location) => true)
  }

  lemma MovedFolderShowsInside(g: Graph, places: map<EntryId, Placement>)
    requires GraphOf(TwoFolders(), g, places)
    ensures INNER in g.edges && g.edges[INNER].destination == INTO && INNER in places
    ensures places[INNER] == Placement(Location("manuscript", "/A/B", "B", ProjectOwner), false)
  {
    var scene := TwoFolders();
    FinalShowsMoves(scene, g);
    assert Moves(scene, INNER, INTO);
    assert ReachesRoot(scene, OUTER, 0) && ReachesRoot(scene, INNER, 1);
    assert ShowsMove(scene, g, INNER) && ShowsMove(scene, g, OUTER);
    OuterStandsAsSeen(g, places);
    assert PlacedAt(scene, g, places, INNER);
    InnerPath();
  }

  lemma OuterStandsAsSeen(g: Graph, places: map<EntryId, Placement>)
    requires GraphOf(TwoFolders(), g, places) && OUTER in g.edges && AsSeen(TwoFolders(), OUTER, g.edges[OUTER].destination)
    ensures OUTER in places && places[OUTER] == Placement(Location("manuscript", "/A", "A", ProjectOwner), false)
  {
    assert g.edges[OUTER].destination.parent == TOP;
    ShownIsNotPending(g);
    TopStands(TwoFolders(), g, places, OUTER);
    assert PlacedAt(TwoFolders(), g, places, OUTER);
  }

  lemma ShownIsNotPending(g: Graph)
    requires RepairOf(ChosenGraph(TwoFolders()), Observations(TwoFolders()), g) && OUTER in g.edges
    ensures !g.edges[OUTER].origin.Pending?
  {
    if g.edges[OUTER].origin.Pending? { ShownMovesAreUsable(TwoFolders(), g, OUTER); }
  }

  lemma InnerPath()
    ensures Paths.Join([WithoutTrailingSlash("/A")] + [] + ["B"]) == "/A/B"
    ensures LastSegment("B") == "B"
  {
    ProperSegment("B");
    assert [WithoutTrailingSlash("/A")] + [] + ["B"] == ["/A", "B"];
    assert ["/A", "B"][1..] == ["B"];
    assert Paths.Join(["B"]) == "B";
  }

  /** The order in which folders and records are listed decides nothing. */
  lemma {:induction false} GraphIsUnique(scene: Scene, g: Graph, places: map<EntryId, Placement>,
                                         g': Graph, places': map<EntryId, Placement>)
    requires GraphOf(scene, g, places) && GraphOf(scene, g', places')
    ensures g == g' && places == places'
  {
    RepairIsUnique(ChosenGraph(scene), Observations(scene), g, g');
    FinalIsForest(scene, g);
    PlacesAreUnique(scene, g, places, places');
  }

  lemma FinalIsForest(scene: Scene, g: Graph)
    requires RepairOf(ChosenGraph(scene), Observations(scene), g)
    ensures forall id :: id in g.edges ==> Rooted(g.edges, id)
  {
    ChosenIsWellFormed(scene);
    RepairIsWellFormed(ChosenGraph(scene), Observations(scene), g);
    AcyclicIsForest(g.edges);
  }

  /**
   * A pending move shows in the final graph only while its destination can take it: a folder that is
   * known, installed for itself and not deleted for good, or a root whose area is installed.
   */
  lemma ShownMovesAreUsable(scene: Scene, g: Graph, id: EntryId)
    requires RepairOf(ChosenGraph(scene), Observations(scene), g) && id in g.edges && g.edges[id].origin.Pending?
    ensures Moves(scene, id, g.edges[id].destination)
  {
    ChosenIsWellFormed(scene);
    RepairAccountsForEdges(ChosenGraph(scene), Observations(scene), g);
    assert id in ChosenGraph(scene).edges;
  }

  lemma PlacesAreUnique(scene: Scene, g: Graph, left: map<EntryId, Placement>, right: map<EntryId, Placement>)
    requires Placed(scene, g, left) && Placed(scene, g, right)
    requires forall id :: id in g.edges ==> Rooted(g.edges, id)
    ensures left == right
  {
    forall id | id in left ensures left[id] == right[id] {
      var n: nat :| RootWithin(g.edges, id, n);
      PlaceIsUnique(scene, g, left, right, id, n);
    }
  }
}
