/**
 * Where folders stand while moves are unresolved (packages/resource-replica/src/folder-placement.ts):
 * pending parent edges laid over canonical ones, cycles repaired in place, and locations and
 * hidden flags resolved from the roots down.
 */
module FolderPlacement {
  import opened Records
  import opened Rewriting
  import opened Wrappers

  /**
   * The source compares edges by object identity. An edge carries where its object came from, so
   * that equality of edges is that identity: a pending destination is never a canonical object.
   */
  datatype Origin = Pending | Observed | Absolute
  datatype Edge = Edge(destination: Destination, origin: Origin)

  type Edges = map<EntryId, Edge>

  /** Both edge maps the repair rewrites. */
  datatype Graph = Graph(edges: Edges, canonical: Edges)

  /** The folder an edge leads to; none at a root. */
  function ParentOf(edges: Edges, id: EntryId): Option<EntryId> {
    if id in edges && edges[id].destination.parent.FolderParent? then
      Some(edges[id].destination.parent.folderId)
    else None
  }

  /** Unknown ancestry is an absolute observation. */
  function AbsoluteEdge(location: Location): Edge {
    var name := if |location.path| > 0 && location.path[0] == '/' then location.path[1..] else location.path;
    Edge(Destination(RootParent(location.scheme, location.owner), [], name, None), Absolute)
  }

  // ------------------------------------------------------------------------------------------
  // Graphs, cycles and one repair
  // ------------------------------------------------------------------------------------------

  /** Every folder edge names a known folder. */
  ghost predicate ParentsKnown(edges: Edges) {
    forall id {:trigger ParentOf(edges, id)} :: ParentOf(edges, id).Some? ==> ParentOf(edges, id).value in edges
  }

  ghost predicate WellFormed(g: Graph, locations: map<EntryId, Location>) {
    && g.edges.Keys == g.canonical.Keys == locations.Keys
    && ParentsKnown(g.edges) && ParentsKnown(g.canonical)
    && (forall id :: id in g.edges && g.edges[id] != g.canonical[id] ==> g.edges[id].origin.Pending?)
    && (forall id :: id in g.canonical ==> !g.canonical[id].origin.Pending?)
  }

  /** Following parents never leaves `s`. */
  ghost predicate Closed(edges: Edges, s: set<EntryId>) {
    forall id {:trigger ParentOf(edges, id)} :: id in s ==> ParentOf(edges, id).Some? && ParentOf(edges, id).value in s
  }

  /** A cycle is a smallest nonempty set that following parents never leaves. */
  ghost predicate Cycle(edges: Edges, s: set<EntryId>) {
    && s != {} && Closed(edges, s)
    && forall t: set<EntryId> :: t != {} && t <= s && Closed(edges, t) ==> t == s
  }

  ghost predicate Acyclic(edges: Edges) {
    forall s: set<EntryId> :: s != {} ==> !Closed(edges, s)
  }

  predicate CanonicalCycle(g: Graph, members: set<EntryId>)
    requires members <= g.edges.Keys && g.edges.Keys == g.canonical.Keys
  {
    forall id :: id in members ==> g.edges[id] == g.canonical[id]
  }

  /** Members fall back to their canonical edges; a cycle of canonical edges is rooted instead. */
  function Repair(g: Graph, locations: map<EntryId, Location>, members: set<EntryId>): Graph
    requires g.edges.Keys == g.canonical.Keys == locations.Keys && members <= g.edges.Keys
  {
    var canonical :=
      if CanonicalCycle(g, members) then
        map id | id in g.canonical :: if id in members then AbsoluteEdge(locations[id]) else g.canonical[id]
      else g.canonical;
    Graph(map id | id in g.edges :: if id in members then canonical[id] else g.edges[id], canonical)
  }

  ghost predicate Step(g: Graph, locations: map<EntryId, Location>, g': Graph) {
    && WellFormed(g, locations)
    && exists members :: Cycle(g.edges, members) && members <= g.edges.Keys && g' == Repair(g, locations, members)
  }

  ghost function Steps(locations: map<EntryId, Location>): (Graph, Graph) -> bool {
    (g: Graph, g': Graph) => Step(g, locations, g')
  }

  /** Repairs of any cycles in any order lead from `g` to `g'`, and no cycle is left. */
  ghost predicate RepairedBy(g: Graph, locations: map<EntryId, Location>, g': Graph, run: seq<Graph>) {
    && Run(Steps(locations), run) && run[0] == g && run[|run| - 1] == g'
    && Acyclic(g'.edges)
  }

  ghost predicate RepairOf(g: Graph, locations: map<EntryId, Location>, g': Graph) {
    exists run :: RepairedBy(g, locations, g', run)
  }

  lemma RepairKeepsWellFormed(g: Graph, locations: map<EntryId, Location>, members: set<EntryId>)
    requires WellFormed(g, locations) && members <= g.edges.Keys
    ensures WellFormed(Repair(g, locations, members), locations)
  {
    var g' := Repair(g, locations, members);
    forall id | ParentOf(g'.canonical, id).Some? ensures ParentOf(g'.canonical, id).value in g'.canonical {
      assert ParentOf(g'.canonical, id) == ParentOf(g.canonical, id);
    }
    forall id | ParentOf(g'.edges, id).Some? ensures ParentOf(g'.edges, id).value in g'.edges {
      assert ParentOf(g'.edges, id) == if id in members then ParentOf(g'.canonical, id) else ParentOf(g.edges, id);
    }
  }

  lemma CycleIsKnown(edges: Edges, s: set<EntryId>)
    requires Closed(edges, s)
    ensures s <= edges.Keys
  {
    forall id | id in s ensures id in edges { assert ParentOf(edges, id).Some?; }
  }

  // ------------------------------------------------------------------------------------------
  // The order of repairs does not matter
  // ------------------------------------------------------------------------------------------

  /** Every folder has one parent, so two cycles are the same or share nothing. */
  lemma CyclesAreDisjoint(edges: Edges, s: set<EntryId>, t: set<EntryId>)
    requires Cycle(edges, s) && Cycle(edges, t)
    ensures s == t || s !! t
  {
    var both := s * t;
    if both != {} {
      forall id | id in both ensures ParentOf(edges, id).Some? && ParentOf(edges, id).value in both {}
      assert both <= s && both <= t && Closed(edges, both);
      assert both == s && both == t;
    } else {
      forall id | id in s ensures id !in t { assert id !in both; }
    }
  }

  /** Repairing one cycle leaves a disjoint one as it was. */
  lemma CycleSurvives(g: Graph, locations: map<EntryId, Location>, s: set<EntryId>, t: set<EntryId>)
    requires WellFormed(g, locations) && s <= g.edges.Keys && t <= g.edges.Keys
    requires Cycle(g.edges, t) && s !! t
    ensures Cycle(Repair(g, locations, s).edges, t)
    ensures CanonicalCycle(g, t) <==> CanonicalCycle(Repair(g, locations, s), t)
  {
    var g' := Repair(g, locations, s);
    forall id | id in t ensures ParentOf(g'.edges, id) == ParentOf(g.edges, id) {}
    forall u: set<EntryId> | u != {} && u <= t && Closed(g'.edges, u) ensures u == t {
      forall id | id in u ensures ParentOf(g.edges, id).Some? && ParentOf(g.edges, id).value in u {
        assert ParentOf(g'.edges, id) == ParentOf(g.edges, id);
      }
      assert Closed(g.edges, u);
    }
  }

  lemma RepairsCommute(g: Graph, locations: map<EntryId, Location>, s: set<EntryId>, t: set<EntryId>)
    requires WellFormed(g, locations) && s <= g.edges.Keys && t <= g.edges.Keys
    requires Cycle(g.edges, s) && Cycle(g.edges, t) && s !! t
    ensures Repair(Repair(g, locations, s), locations, t) == Repair(Repair(g, locations, t), locations, s)
  {
    CycleSurvives(g, locations, s, t);
    CycleSurvives(g, locations, t, s);
    var left := Repair(Repair(g, locations, s), locations, t);
    var right := Repair(Repair(g, locations, t), locations, s);
    assert left.canonical == right.canonical;
    assert left.edges == right.edges;
  }

  /** Two different repairs of the same graph can each be followed by the other. */
  lemma RepairsMeet(g: Graph, locations: map<EntryId, Location>, a: Graph, b: Graph) returns (c: Graph)
    requires Step(g, locations, a) && Step(g, locations, b) && a != b
    ensures Step(a, locations, c) && Step(b, locations, c)
  {
    var s :| Cycle(g.edges, s) && s <= g.edges.Keys && a == Repair(g, locations, s);
    var t :| Cycle(g.edges, t) && t <= g.edges.Keys && b == Repair(g, locations, t);
    CyclesAreDisjoint(g.edges, s, t);
    RepairKeepsWellFormed(g, locations, s);
    RepairKeepsWellFormed(g, locations, t);
    CycleSurvives(g, locations, s, t);
    CycleSurvives(g, locations, t, s);
    RepairsCommute(g, locations, s, t);
    c := Repair(a, locations, t);
    assert c == Repair(b, locations, s);
  }

  lemma StepsHaveDiamond(locations: map<EntryId, Location>)
    ensures Diamond(Steps(locations))
  {
    var step := Steps(locations);
    forall g, a, b | step(g, a) && step(g, b) && a != b ensures exists c :: step(a, c) && step(b, c) {
      var c := RepairsMeet(g, locations, a, b);
      assert step(a, c);
    }
  }

  lemma AcyclicIsNormal(g: Graph, locations: map<EntryId, Location>)
    requires Acyclic(g.edges)
    ensures Normal(Steps(locations), g)
  {}

  /** Repair has one result, whatever cycles are found in whatever order. */
  lemma {:induction false} RepairIsUnique(g: Graph, locations: map<EntryId, Location>, a: Graph, b: Graph)
    requires RepairOf(g, locations, a) && RepairOf(g, locations, b)
    ensures a == b
  {
    var left :| RepairedBy(g, locations, a, left);
    var right :| RepairedBy(g, locations, b, right);
    StepsHaveDiamond(locations);
    AcyclicIsNormal(a, locations);
    AcyclicIsNormal(b, locations);
    NormalFormIsUnique(Steps(locations), left, right);
  }

  /** Edges that are already acyclic are left exactly as they were chosen. */
  lemma {:induction false} AcyclicIsUntouched(g: Graph, locations: map<EntryId, Location>, end: Graph)
    requires Acyclic(g.edges) && RepairOf(g, locations, end)
    ensures end == g
  {
    var run :| RepairedBy(g, locations, end, run);
    AcyclicIsNormal(g, locations);
    NormalRunIsDone(Steps(locations), run);
  }

  // ------------------------------------------------------------------------------------------
  // Forests
  // ------------------------------------------------------------------------------------------

  /** Following parents from `id` reaches a root in at most `n` steps. */
  ghost predicate RootWithin(edges: Edges, id: EntryId, n: nat)
    decreases n
  {
    && id in edges
    && (ParentOf(edges, id).Some? ==> n > 0 && RootWithin(edges, ParentOf(edges, id).value, n - 1))
  }

  ghost predicate Rooted(edges: Edges, id: EntryId) {
    exists n: nat :: RootWithin(edges, id, n)
  }

  lemma {:induction false} RootedIsOffCycles(edges: Edges, id: EntryId, n: nat, s: set<EntryId>)
    requires RootWithin(edges, id, n) && Closed(edges, s)
    ensures id !in s
    decreases n
  {
    if ParentOf(edges, id).Some? { RootedIsOffCycles(edges, ParentOf(edges, id).value, n - 1, s); }
  }

  /** A graph without cycles is a forest, and the other way round. */
  lemma {:induction false} AcyclicIsForest(edges: Edges)
    requires ParentsKnown(edges)
    ensures Acyclic(edges) <==> forall id :: id in edges ==> Rooted(edges, id)
  {
    var lost := set id | id in edges && !Rooted(edges, id);
    forall id | id in lost ensures ParentOf(edges, id).Some? && ParentOf(edges, id).value in lost {
      LostParent(edges, id);
    }
    assert Closed(edges, lost);
    if lost == {} {
      forall id | id in edges ensures Rooted(edges, id) { assert id !in lost; }
    } else {
      assert !Acyclic(edges);
    }
    if forall id :: id in edges ==> Rooted(edges, id) {
      forall s: set<EntryId> | s != {} ensures !Closed(edges, s) {
        if Closed(edges, s) {
          var id :| id in s;
          CycleIsKnown(edges, s);
          var n: nat :| RootWithin(edges, id, n);
          RootedIsOffCycles(edges, id, n, s);
        }
      }
    }
  }

  lemma LostParent(edges: Edges, id: EntryId)
    requires ParentsKnown(edges) && id in edges && !Rooted(edges, id)
    ensures ParentOf(edges, id).Some? && ParentOf(edges, id).value in edges && !Rooted(edges, ParentOf(edges, id).value)
  {
    assert !RootWithin(edges, id, 0);
    if Rooted(edges, ParentOf(edges, id).value) {
      var n: nat :| RootWithin(edges, ParentOf(edges, id).value, n);
      assert RootWithin(edges, id, n + 1);
    }
  }

  // ------------------------------------------------------------------------------------------
  // What a repair may change
  // ------------------------------------------------------------------------------------------

  lemma {:induction false} StepSparesRooted(g: Graph, locations: map<EntryId, Location>, g': Graph, id: EntryId, n: nat)
    requires Step(g, locations, g') && RootWithin(g.edges, id, n)
    ensures id in g'.edges && g'.edges[id] == g.edges[id] && RootWithin(g'.edges, id, n)
    decreases n
  {
    var members :| Cycle(g.edges, members) && members <= g.edges.Keys && g' == Repair(g, locations, members);
    RootedIsOffCycles(g.edges, id, n, members);
    if ParentOf(g.edges, id).Some? {
      StepSparesRooted(g, locations, g', ParentOf(g.edges, id).value, n - 1);
    }
  }

  /** A folder whose chosen chain already reaches a root keeps its chosen edge. */
  lemma {:induction false} RepairSparesRooted(g: Graph, locations: map<EntryId, Location>, end: Graph, id: EntryId)
    requires RepairOf(g, locations, end) && Rooted(g.edges, id)
    ensures id in end.edges && end.edges[id] == g.edges[id]
  {
    var run :| RepairedBy(g, locations, end, run);
    var n: nat :| RootWithin(g.edges, id, n);
    var kept := (h: Graph) => id in h.edges && h.edges[id] == g.edges[id] && RootWithin(h.edges, id, n);
    forall h, h' | kept(h) && Steps(locations)(h, h') ensures kept(h') {
      StepSparesRooted(h, locations, h', id, n);
    }
    RunKeeps(Steps(locations), run, kept);
  }

  lemma {:induction false} RepairIsWellFormed(g: Graph, locations: map<EntryId, Location>, end: Graph)
    requires WellFormed(g, locations) && RepairOf(g, locations, end)
    ensures WellFormed(end, locations)
  {
    var run :| RepairedBy(g, locations, end, run);
    var wellFormed := (h: Graph) => WellFormed(h, locations);
    forall h, h' | wellFormed(h) && Steps(locations)(h, h') ensures wellFormed(h') {
      var members :| Cycle(h.edges, members) && members <= h.edges.Keys && h' == Repair(h, locations, members);
      RepairKeepsWellFormed(h, locations, members);
    }
    RunKeeps(Steps(locations), run, wellFormed);
  }

  /** A final edge is the chosen one, the canonical one or the absolute one. */
  ghost predicate Accounted(g: Graph, locations: map<EntryId, Location>, h: Graph) {
    && h.edges.Keys == h.canonical.Keys == g.edges.Keys == g.canonical.Keys == locations.Keys
    && (forall id :: id in h.canonical ==> h.canonical[id] == g.canonical[id] || h.canonical[id] == AbsoluteEdge(locations[id]))
    && (forall id :: id in h.edges ==> h.edges[id] == g.edges[id] || h.edges[id] == h.canonical[id])
  }

  lemma {:induction false} RepairAccountsForEdges(g: Graph, locations: map<EntryId, Location>, end: Graph)
    requires WellFormed(g, locations) && RepairOf(g, locations, end)
    ensures Accounted(g, locations, end)
    ensures forall id :: id in g.edges ==>
              end.edges[id] in {g.edges[id], g.canonical[id], AbsoluteEdge(locations[id])}
  {
    var run :| RepairedBy(g, locations, end, run);
    var accounted := (h: Graph) => Accounted(g, locations, h);
    forall h, h' | accounted(h) && Steps(locations)(h, h') ensures accounted(h') {
      var members :| Cycle(h.edges, members) && members <= h.edges.Keys && h' == Repair(h, locations, members);
    }
    RunKeeps(Steps(locations), run, accounted);
  }

  /** While the canonical edges are a forest, no repair takes a folder away from its canonical parent. */
  lemma {:induction false} ForestKeepsCanonical(g: Graph, locations: map<EntryId, Location>, end: Graph)
    requires WellFormed(g, locations) && RepairOf(g, locations, end)
    requires Acyclic(g.canonical)
    ensures end.canonical == g.canonical
  {
    var run :| RepairedBy(g, locations, end, run);
    var kept := (h: Graph) => h.canonical == g.canonical;
    forall h, h' | kept(h) && Steps(locations)(h, h') ensures kept(h') {
      var members :| Cycle(h.edges, members) && members <= h.edges.Keys && h' == Repair(h, locations, members);
      if CanonicalCycle(h, members) {
        forall id | id in members ensures ParentOf(g.canonical, id).Some? && ParentOf(g.canonical, id).value in members {
          assert ParentOf(h.edges, id) == ParentOf(g.canonical, id);
        }
        assert Closed(g.canonical, members);
      }
    }
    RunKeeps(Steps(locations), run, kept);
  }

  // ------------------------------------------------------------------------------------------
  // What becomes of a cycle
  // ------------------------------------------------------------------------------------------

  /** Any cycle may be taken as the first one repaired: the result is the same. */
  lemma FirstRepair(g: Graph, locations: map<EntryId, Location>, end: Graph, s: set<EntryId>)
    requires WellFormed(g, locations) && RepairOf(g, locations, end) && Cycle(g.edges, s)
    ensures s <= g.edges.Keys && WellFormed(Repair(g, locations, s), locations) && RepairOf(Repair(g, locations, s), locations, end)
  {
    CycleIsKnown(g.edges, s);
    RepairKeepsWellFormed(g, locations, s);
    var run :| RepairedBy(g, locations, end, run);
    StepsHaveDiamond(locations);
    AcyclicIsNormal(end, locations);
    assert Step(g, locations, Repair(g, locations, s));
    var rest := AnyFirstStep(Steps(locations), run, Repair(g, locations, s));
    assert RepairedBy(Repair(g, locations, s), locations, end, rest);
  }

  /** No folder of a cycle keeps its pending edge. */
  lemma CycleFallsBack(g: Graph, locations: map<EntryId, Location>, end: Graph, s: set<EntryId>)
    requires WellFormed(g, locations) && RepairOf(g, locations, end) && Cycle(g.edges, s)
    ensures s <= g.edges.Keys && s <= end.edges.Keys
    ensures forall id :: id in s ==> end.edges[id] == g.canonical[id] || end.edges[id] == AbsoluteEdge(locations[id])
  {
    FirstRepair(g, locations, end, s);
    RepairAccountsForEdges(Repair(g, locations, s), locations, end);
  }

  /** While the canonical edges are a forest every folder of a cycle falls back to its own. */
  lemma CycleFallsBackToSeen(g: Graph, locations: map<EntryId, Location>, end: Graph, s: set<EntryId>)
    requires WellFormed(g, locations) && RepairOf(g, locations, end) && Cycle(g.edges, s) && Acyclic(g.canonical)
    ensures s <= g.edges.Keys && s <= end.edges.Keys && forall id :: id in s ==> end.edges[id] == g.canonical[id]
  {
    FirstRepair(g, locations, end, s);
    if CanonicalCycle(g, s) {
      forall id | id in s ensures ParentOf(g.canonical, id).Some? && ParentOf(g.canonical, id).value in s {
        assert ParentOf(g.edges, id) == ParentOf(g.canonical, id);
      }
      assert Closed(g.canonical, s);
    }
    ForestKeepsCanonical(Repair(g, locations, s), locations, end);
    RepairAccountsForEdges(Repair(g, locations, s), locations, end);
  }
}
