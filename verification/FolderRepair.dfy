/**
 * The loops of packages/resource-replica/src/folder-placement.ts: cycle repair along parent
 * chains, and the resolution of locations and hidden flags from the roots down.
 */
module FolderRepair {
  import opened FolderPlacement
  import opened Records
  import opened Rewriting
  import opened Wrappers

  ghost function Members<T>(s: seq<T>): set<T> {
    set x | x in s
  }

  // ------------------------------------------------------------------------------------------
  // The walk along one chain
  // ------------------------------------------------------------------------------------------

  /** Each folder of the chain is the parent of the one before it. */
  ghost predicate LinkAt(edges: Edges, chain: seq<EntryId>, i: nat) {
    i + 1 < |chain| && ParentOf(edges, chain[i]) == Some(chain[i + 1])
  }

  ghost predicate Distinct(chain: seq<EntryId>) {
    forall i, j :: 0 <= i < j < |chain| ==> chain[i] != chain[j]
  }

  /** A walk from `start` through unsettled folders that has come to `next`. */
  ghost predicate Walked(edges: Edges, done: set<EntryId>, start: EntryId, chain: seq<EntryId>, next: Option<EntryId>) {
    && Distinct(chain)
    && (forall i :: 0 <= i < |chain| ==> chain[i] in edges && chain[i] !in done)
    && (forall i :: 0 <= i < |chain| - 1 ==> LinkAt(edges, chain, i))
    && (if chain == [] then next == Some(start) else chain[0] == start && ParentOf(edges, chain[|chain| - 1]) == next)
  }

  /** Settled folders reach a root through settled folders. */
  ghost predicate Settled(edges: Edges, done: set<EntryId>) {
    && done <= edges.Keys
    && (forall id {:trigger ParentOf(edges, id)} :: id in done && ParentOf(edges, id).Some? ==> ParentOf(edges, id).value in done)
    && (forall id :: id in done ==> Rooted(edges, id))
  }

  /** What the source's `active` map holds: each folder's place in the chain. */
  ghost predicate Indexes(active: map<EntryId, nat>, chain: seq<EntryId>) {
    && (forall i :: 0 <= i < |chain| ==> chain[i] in active)
    && (forall id :: id in active ==> active[id] < |chain| && chain[active[id]] == id)
  }

  /** A closed part of a walk that came back to its own place `s` holds everything from there on. */
  lemma {:induction false} ClosedRunsOn(edges: Edges, chain: seq<EntryId>, t: set<EntryId>, i: nat, j: nat)
    requires forall i :: 0 <= i < |chain| - 1 ==> LinkAt(edges, chain, i)
    requires Closed(edges, t) && i <= j < |chain| && chain[i] in t
    ensures chain[j] in t
    decreases j - i
  {
    if i < j {
      assert LinkAt(edges, chain, i);
      assert ParentOf(edges, chain[i]).Some?;
      ClosedRunsOn(edges, chain, t, i + 1, j);
    }
  }

  lemma PlaceFrom(chain: seq<EntryId>, s: nat, id: EntryId) returns (i: nat)
    requires s <= |chain| && id in Members(chain[s..])
    ensures s <= i < |chain| && chain[i] == id
  {
    var k :| 0 <= k < |chain[s..]| && chain[s..][k] == id;
    i := s + k;
  }

  lemma PlacedFrom(chain: seq<EntryId>, s: nat, i: nat)
    requires s <= i < |chain|
    ensures chain[i] in Members(chain[s..])
  {
    assert chain[s..][i - s] == chain[i];
  }

  lemma {:induction false} ReturnIsClosed(edges: Edges, done: set<EntryId>, start: EntryId, chain: seq<EntryId>, s: nat)
    requires s < |chain| && Walked(edges, done, start, chain, Some(chain[s]))
    ensures Closed(edges, Members(chain[s..]))
  {
    var members := Members(chain[s..]);
    forall id | id in members ensures ParentOf(edges, id).Some? && ParentOf(edges, id).value in members {
      var i := PlaceFrom(chain, s, id);
      if i < |chain| - 1 {
        assert LinkAt(edges, chain, i);
        PlacedFrom(chain, s, i + 1);
      } else {
        PlacedFrom(chain, s, s);
      }
    }
  }

  lemma {:induction false} ReturnIsWhole(edges: Edges, done: set<EntryId>, start: EntryId, chain: seq<EntryId>, s: nat,
                                         t: set<EntryId>)
    requires s < |chain| && Walked(edges, done, start, chain, Some(chain[s]))
    requires t != {} && t <= Members(chain[s..]) && Closed(edges, t)
    ensures Members(chain[s..]) <= t
  {
    var id :| id in t;
    var i := PlaceFrom(chain, s, id);
    ClosedRunsOn(edges, chain, t, i, |chain| - 1);
    assert ParentOf(edges, chain[|chain| - 1]) == Some(chain[s]);
    forall other | other in Members(chain[s..]) ensures other in t {
      var j := PlaceFrom(chain, s, other);
      ClosedRunsOn(edges, chain, t, s, j);
    }
  }

  /** Coming back to a folder of the chain closes a cycle. */
  lemma {:induction false} ReturnIsCycle(edges: Edges, done: set<EntryId>, start: EntryId, chain: seq<EntryId>, s: nat)
    requires s < |chain| && Walked(edges, done, start, chain, Some(chain[s]))
    ensures Cycle(edges, Members(chain[s..]))
  {
    ReturnIsClosed(edges, done, start, chain, s);
    PlacedFrom(chain, s, s);
    forall t: set<EntryId> | t != {} && t <= Members(chain[s..]) && Closed(edges, t) ensures t == Members(chain[s..]) {
      ReturnIsWhole(edges, done, start, chain, s, t);
    }
  }

  /** A repair that touches no settled folder and nothing in front of the cycle leaves the walk standing. */
  lemma {:induction false} WalkSurvives(edges: Edges, edges': Edges, done: set<EntryId>, start: EntryId,
                                        chain: seq<EntryId>, s: nat)
    requires s < |chain| && Walked(edges, done, start, chain, Some(chain[s]))
    requires edges'.Keys == edges.Keys
    requires forall id :: id in edges && id !in Members(chain[s..]) ==> edges'[id] == edges[id]
    ensures Walked(edges', done, start, chain[..s], Some(chain[s]))
  {
    forall i | 0 <= i < s ensures edges'[chain[i]] == edges[chain[i]] {
      assert chain[i] !in Members(chain[s..]);
    }
    forall i | 0 <= i < s - 1 ensures LinkAt(edges', chain[..s], i) {
      assert LinkAt(edges, chain, i);
    }
    if s > 0 { assert LinkAt(edges, chain, s - 1); }
  }

  lemma {:induction false} SettledSurvives(edges: Edges, edges': Edges, done: set<EntryId>)
    requires Settled(edges, done) && edges'.Keys == edges.Keys
    requires forall id :: id in done ==> edges'[id] == edges[id]
    ensures Settled(edges', done)
  {
    forall id | id in done && ParentOf(edges', id).Some? ensures ParentOf(edges', id).value in done {
      assert ParentOf(edges', id) == ParentOf(edges, id);
    }
    forall id | id in done ensures Rooted(edges', id) {
      var n: nat :| RootWithin(edges, id, n);
      StillRootWithin(edges, edges', done, id, n);
    }
  }

  lemma {:induction false} StillRootWithin(edges: Edges, edges': Edges, done: set<EntryId>, id: EntryId, n: nat)
    requires Settled(edges, done) && edges'.Keys == edges.Keys && id in done
    requires forall id :: id in done ==> edges'[id] == edges[id]
    requires RootWithin(edges, id, n)
    ensures RootWithin(edges', id, n)
    decreases n
  {
    if ParentOf(edges, id).Some? { StillRootWithin(edges, edges', done, ParentOf(edges, id).value, n - 1); }
  }

  /** A walk that has come to a root or a settled folder settles its whole chain. */
  lemma {:induction false} WalkSettles(edges: Edges, done: set<EntryId>, start: EntryId, chain: seq<EntryId>,
                                       next: Option<EntryId>)
    requires Settled(edges, done) && Walked(edges, done, start, chain, next)
    requires next.Some? ==> next.value in done
    ensures Settled(edges, done + Members(chain)) && start in done + Members(chain)
  {
    var done' := done + Members(chain);
    forall id | id in done' && ParentOf(edges, id).Some? ensures ParentOf(edges, id).value in done' {
      if id !in done {
        var i :| 0 <= i < |chain| && chain[i] == id;
        if i < |chain| - 1 { assert LinkAt(edges, chain, i); }
      }
    }
    forall id | id in done' ensures Rooted(edges, id) {
      if id !in done {
        var i: nat :| i < |chain| && chain[i] == id;
        ChainRooted(edges, done, start, chain, next, i);
      }
    }
  }

  lemma {:induction false} ChainRooted(edges: Edges, done: set<EntryId>, start: EntryId, chain: seq<EntryId>,
                                       next: Option<EntryId>, i: nat)
    requires Settled(edges, done) && Walked(edges, done, start, chain, next)
    requires next.Some? ==> next.value in done
    requires i < |chain|
    ensures Rooted(edges, chain[i])
    decreases |chain| - i
  {
    if i < |chain| - 1 {
      assert LinkAt(edges, chain, i);
      ChainRooted(edges, done, start, chain, next, i + 1);
      var n: nat :| RootWithin(edges, chain[i + 1], n);
      assert RootWithin(edges, chain[i], n + 1);
    } else if next.Some? {
      var n: nat :| RootWithin(edges, next.value, n);
      assert RootWithin(edges, chain[i], n + 1);
    } else {
      assert RootWithin(edges, chain[i], 0);
    }
  }

  // ------------------------------------------------------------------------------------------
  // Why the repair ends
  // ------------------------------------------------------------------------------------------

  ghost function PendingEdges(edges: Edges): set<EntryId> {
    set id | id in edges && edges[id].origin.Pending?
  }

  ghost function FolderEdges(edges: Edges): set<EntryId> {
    set id | id in edges && ParentOf(edges, id).Some?
  }

  /** Every repair uses up a pending edge or, failing that, a canonical folder edge. */
  lemma RepairUsesUpEdges(g: Graph, locations: map<EntryId, Location>, members: set<EntryId>)
    requires WellFormed(g, locations) && Cycle(g.edges, members) && members <= g.edges.Keys
    ensures var g' := Repair(g, locations, members);
            || PendingEdges(g'.edges) < PendingEdges(g.edges)
            || (PendingEdges(g'.edges) == PendingEdges(g.edges) && FolderEdges(g'.canonical) < FolderEdges(g.canonical))
  {
    var g' := Repair(g, locations, members);
    assert PendingEdges(g'.edges) <= PendingEdges(g.edges);
    if CanonicalCycle(g, members) {
      forall id ensures id in PendingEdges(g'.edges) <==> id in PendingEdges(g.edges) {}
      forall id | id in FolderEdges(g'.canonical) ensures id in FolderEdges(g.canonical) {
        assert ParentOf(g'.canonical, id).Some?;
      }
      var id :| id in members;
      assert ParentOf(g.edges, id).Some?;
      assert id in FolderEdges(g.canonical) && id !in FolderEdges(g'.canonical);
    } else {
      var id :| id in members && g.edges[id] != g.canonical[id];
      assert id in PendingEdges(g.edges) && id !in PendingEdges(g'.edges);
    }
  }

  // ------------------------------------------------------------------------------------------
  // The repair loop
  // ------------------------------------------------------------------------------------------

  /** The repairs so far have led to `g`. */
  ghost predicate Led(locations: map<EntryId, Location>, run: seq<Graph>, g: Graph) {
    Run(Steps(locations), run) && run[|run| - 1] == g
  }

  /**
   * The walk up from one folder: it goes on until it meets a root or a settled folder, repairing
   * each cycle it closes on the way. Settled folders keep their edges.
   */
  method SettleFrom(start: EntryId, locations: map<EntryId, Location>, g0: Graph, done: set<EntryId>,
                    ghost run0: seq<Graph>)
    returns (g: Graph, done': set<EntryId>, ghost run: seq<Graph>)
    requires WellFormed(g0, locations) && start in g0.edges && Settled(g0.edges, done)
    requires Led(locations, run0, g0)
    ensures WellFormed(g, locations) && g.edges.Keys == g0.edges.Keys
    ensures Settled(g.edges, done') && done <= done' && start in done'
    ensures forall id :: id in done ==> g.edges[id] == g0.edges[id]
    ensures Led(locations, run, g) && run[0] == run0[0]
  {
    g, run := g0, run0;
    var chain: seq<EntryId> := [];
    var active: map<EntryId, nat> := map[];
    var next: Option<EntryId> := Some(start);
    while next.Some? && next.value !in done
      invariant WellFormed(g, locations) && g.edges.Keys == g0.edges.Keys
      invariant Settled(g.edges, done) && Walked(g.edges, done, start, chain, next) && Indexes(active, chain)
      invariant next.Some? ==> next.value in g.edges
      invariant forall id :: id in done ==> g.edges[id] == g0.edges[id]
      invariant Led(locations, run, g) && run[0] == run0[0]
      decreases PendingEdges(g.edges), FolderEdges(g.canonical), g.edges.Keys - Members(chain)
    {
      if next.value in active {
        var s := active[next.value];
        g, chain, active, run := RepairReturn(locations, g, done, start, chain, active, s, run);
      } else {
        WalkGrows(g.edges, done, start, chain, active, next.value);
        active := active[next.value := |chain|];
        chain := chain + [next.value];
        next := ParentOf(g.edges, next.value);
      }
    }
    WalkSettles(g.edges, done, start, chain, next);
    done' := done + set id | id in chain;
  }

  lemma WalkGrows(edges: Edges, done: set<EntryId>, start: EntryId, chain: seq<EntryId>,
                  active: map<EntryId, nat>, next: EntryId)
    requires Walked(edges, done, start, chain, Some(next)) && Indexes(active, chain)
    requires next in edges && next !in done && next !in active
    ensures Indexes(active[next := |chain|], chain + [next])
    ensures Walked(edges, done, start, chain + [next], ParentOf(edges, next))
    ensures edges.Keys - Members(chain + [next]) < edges.Keys - Members(chain)
  {
    var longer := chain + [next];
    forall i | 0 <= i < |longer| - 1 ensures LinkAt(edges, longer, i) {
      if i < |chain| - 1 { assert LinkAt(edges, chain, i); }
    }
    assert longer[|chain|] == next;
    assert next in edges.Keys - Members(chain);
  }

  /** Both edge maps once the members in `seen` have been rewritten. */
  ghost function Rewritten(g: Graph, locations: map<EntryId, Location>, canonicalCycle: bool, seen: set<EntryId>): Graph
    requires g.edges.Keys == g.canonical.Keys == locations.Keys
  {
    var canonical := map id | id in g.canonical ::
                       if canonicalCycle && id in seen then AbsoluteEdge(locations[id]) else g.canonical[id];
    Graph(map id | id in g.edges :: if id in seen then canonical[id] else g.edges[id], canonical)
  }

  lemma RewrittenGrows(g: Graph, locations: map<EntryId, Location>, canonicalCycle: bool, seen: set<EntryId>, id: EntryId)
    requires g.edges.Keys == g.canonical.Keys == locations.Keys && id in g.edges
    ensures var was := Rewritten(g, locations, canonicalCycle, seen);
            var canonical :=
              if canonicalCycle then was.canonical[id := AbsoluteEdge(locations[id])] else was.canonical;
            Rewritten(g, locations, canonicalCycle, seen + {id}) == Graph(was.edges[id := canonical[id]], canonical)
  {
    var was := Rewritten(g, locations, canonicalCycle, seen);
    var canonical := if canonicalCycle then was.canonical[id := AbsoluteEdge(locations[id])] else was.canonical;
    var now := Rewritten(g, locations, canonicalCycle, seen + {id});
    assert now.canonical == canonical;
    assert now.edges == was.edges[id := canonical[id]];
  }

  lemma RewrittenRepairs(g: Graph, locations: map<EntryId, Location>, members: set<EntryId>)
    requires g.edges.Keys == g.canonical.Keys == locations.Keys && members <= g.edges.Keys
    ensures Rewritten(g, locations, CanonicalCycle(g, members), members) == Repair(g, locations, members)
    ensures Rewritten(g, locations, CanonicalCycle(g, members), {}) == g
  {
    var all := Rewritten(g, locations, CanonicalCycle(g, members), members);
    assert all.canonical == Repair(g, locations, members).canonical;
    assert all.edges == Repair(g, locations, members).edges;
    var none := Rewritten(g, locations, CanonicalCycle(g, members), {});
    assert none.canonical == g.canonical && none.edges == g.edges;
  }

  /** Rewrites the two edge maps member by member. */
  method ApplyRepair(locations: map<EntryId, Location>, g0: Graph, members: seq<EntryId>) returns (g: Graph)
    requires g0.edges.Keys == g0.canonical.Keys == locations.Keys && Members(members) <= g0.edges.Keys
    ensures g == Repair(g0, locations, Members(members))
  {
    var canonicalCycle := forall id :: id in members ==> g0.edges[id] == g0.canonical[id];
    assert canonicalCycle == CanonicalCycle(g0, Members(members));
    g := g0;
    RewrittenRepairs(g0, locations, Members(members));
    ghost var seen: set<EntryId> := {};
    for k := 0 to |members|
      invariant seen == Members(members[..k])
      invariant g == Rewritten(g0, locations, canonicalCycle, seen)
    {
      var member := members[k];
      assert member in Members(members);
      RewrittenGrows(g0, locations, canonicalCycle, seen, member);
      var canonical := if canonicalCycle then g.canonical[member := AbsoluteEdge(locations[member])] else g.canonical;
      g := Graph(g.edges[member := canonical[member]], canonical);
      assert members[..k + 1] == members[..k] + [member];
      seen := seen + {member};
    }
    assert members[..|members|] == members;
  }

  lemma PlaceBelow(chain: seq<EntryId>, s: nat, i: nat)
    requires s <= |chain| && i < |chain| && chain[i] !in chain[s..]
    ensures i < s
  {
    forall j | s <= j < |chain| ensures chain[j] in chain[s..] { assert chain[j] == chain[s..][j - s]; }
  }

  lemma IndexesShrink(active: map<EntryId, nat>, chain: seq<EntryId>, s: nat, active': map<EntryId, nat>)
    requires Distinct(chain) && Indexes(active, chain) && s <= |chain|
    requires active' == map id | id in active && id !in chain[s..] :: active[id]
    ensures Indexes(active', chain[..s])
  {
    forall i | 0 <= i < s ensures chain[..s][i] in active' {
      assert chain[i] in active && chain[i] !in chain[s..];
    }
    forall id | id in active' ensures active'[id] < s && chain[..s][active'[id]] == id {
      PlaceBelow(chain, s, active[id]);
    }
  }

  /** What one repair does to a walk that has returned to its own `chain[s]`. */
  lemma ReturnIsRepaired(locations: map<EntryId, Location>, g: Graph, done: set<EntryId>, start: EntryId,
                         chain: seq<EntryId>, s: nat)
    requires WellFormed(g, locations) && Settled(g.edges, done)
    requires s < |chain| && Walked(g.edges, done, start, chain, Some(chain[s]))
    ensures Cycle(g.edges, Members(chain[s..])) && Members(chain[s..]) <= g.edges.Keys
    ensures var g' := Repair(g, locations, Members(chain[s..]));
            && WellFormed(g', locations) && Settled(g'.edges, done)
            && Walked(g'.edges, done, start, chain[..s], Some(chain[s]))
            && (forall id :: id in done ==> g'.edges[id] == g.edges[id])
  {
    ReturnIsCycle(g.edges, done, start, chain, s);
    CycleIsKnown(g.edges, Members(chain[s..]));
    RepairKeepsWellFormed(g, locations, Members(chain[s..]));
    var g' := Repair(g, locations, Members(chain[s..]));
    WalkSurvives(g.edges, g'.edges, done, start, chain, s);
    SettledSurvives(g.edges, g'.edges, done);
  }

  /** One repair: the members leave the chain, and the walk stands where the cycle began. */
  method RepairReturn(locations: map<EntryId, Location>, g0: Graph, ghost done: set<EntryId>, ghost start: EntryId,
                      chain0: seq<EntryId>, active0: map<EntryId, nat>, s: nat, ghost run0: seq<Graph>)
    returns (g: Graph, chain: seq<EntryId>, active: map<EntryId, nat>, ghost run: seq<Graph>)
    requires WellFormed(g0, locations) && Settled(g0.edges, done) && Indexes(active0, chain0)
    requires s < |chain0| && Walked(g0.edges, done, start, chain0, Some(chain0[s]))
    requires Led(locations, run0, g0)
    ensures Led(locations, run, g) && run[0] == run0[0]
    ensures g.edges.Keys == g0.edges.Keys
    ensures WellFormed(g, locations) && Settled(g.edges, done)
    ensures PendingEdges(g.edges) < PendingEdges(g0.edges)
         || (PendingEdges(g.edges) == PendingEdges(g0.edges) && FolderEdges(g.canonical) < FolderEdges(g0.canonical))
    ensures forall id :: id in done ==> g.edges[id] == g0.edges[id]
    ensures chain == chain0[..s] && Walked(g.edges, done, start, chain, Some(chain0[s])) && Indexes(active, chain)
  {
    var members := chain0[s..];
    ReturnIsRepaired(locations, g0, done, start, chain0, s);
    RepairUsesUpEdges(g0, locations, Members(members));
    g := ApplyRepair(locations, g0, members);
    chain, active := LeaveWalk(chain0, active0, s);
    run := RepairLeads(locations, run0, g0, Members(members), g);
  }

  lemma RepairLeads(locations: map<EntryId, Location>, run0: seq<Graph>, g0: Graph, members: set<EntryId>, g: Graph)
    returns (run: seq<Graph>)
    requires Led(locations, run0, g0) && WellFormed(g0, locations)
    requires Cycle(g0.edges, members) && members <= g0.edges.Keys && g == Repair(g0, locations, members)
    ensures Led(locations, run, g) && run[0] == run0[0]
  {
    run := RunAppend(Steps(locations), run0, g);
  }

  /** The members of a cycle leave the walk. */
  method LeaveWalk(chain0: seq<EntryId>, active0: map<EntryId, nat>, s: nat) returns (chain: seq<EntryId>, active: map<EntryId, nat>)
    requires Distinct(chain0) && Indexes(active0, chain0) && s <= |chain0|
    ensures chain == chain0[..s] && Indexes(active, chain)
  {
    var members := chain0[s..];
    chain := chain0[..s];
    active := map id | id in active0 && id !in members :: active0[id];
    IndexesShrink(active0, chain0, s, active);
  }

  /** Repairs every cycle: one walk from each folder, in the order the folders are listed. */
  method RepairCycles(order: seq<EntryId>, locations: map<EntryId, Location>, g0: Graph) returns (g: Graph)
    requires WellFormed(g0, locations) && forall id :: id in g0.edges <==> id in order
    ensures WellFormed(g, locations) && g.edges.Keys == g0.edges.Keys
    ensures RepairOf(g0, locations, g)
  {
    g := g0;
    var done: set<EntryId> := {};
    ghost var run := [g0];
    for k := 0 to |order|
      invariant WellFormed(g, locations) && g.edges.Keys == g0.edges.Keys
      invariant Settled(g.edges, done) && forall i :: 0 <= i < k ==> order[i] in done
      invariant Led(locations, run, g) && run[0] == g0
    {
      assert order[k] in g.edges;
      g, done, run := SettleFrom(order[k], locations, g, done, run);
    }
    forall id | id in g.edges ensures Rooted(g.edges, id) { assert id in done; }
    AcyclicIsForest(g.edges);
    assert RepairedBy(g0, locations, g, run);
  }
}
