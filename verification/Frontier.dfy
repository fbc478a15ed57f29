/**
 * Observation frontiers (packages/agent-edit/src/frontier.ts): when one snapshot contains
 * another, and which clocks and blocks changed visibility between two contained cuts.
 */
module Frontier {
  import opened Ranges
  import opened Sorting
  import opened Wrappers

  type Client = nat
  type BlockId = string

  /** A state vector and, for each client, its recorded deletions. */
  datatype Snapshot = Snapshot(sv: map<Client, nat>, ds: map<Client, seq<DeleteItem>>)

  function ClockOf(s: Snapshot, client: Client): nat {
    if client in s.sv then s.sv[client] else 0
  }

  function ItemsOf(s: Snapshot, client: Client): seq<DeleteItem> {
    if client in s.ds then s.ds[client] else []
  }

  ghost predicate BornAt(s: Snapshot, client: Client, k: nat) {
    k < ClockOf(s, client)
  }

  ghost predicate DeletedAt(s: Snapshot, client: Client, k: nat) {
    Deleted(ItemsOf(s, client), k)
  }

  ghost predicate Visible(s: Snapshot, client: Client, k: nat) {
    BornAt(s, client, k) && !DeletedAt(s, client, k)
  }

  // ------------------------------------------------------------------------------------------
  // Containment
  // ------------------------------------------------------------------------------------------

  ghost predicate DeletionsInside(current: Snapshot, previous: Snapshot, client: Client) {
    var inner := Merged(ItemsOf(previous, client));
    forall i :: 0 <= i < |inner| ==> Inside(inner[i], Merged(ItemsOf(current, client)))
  }

  /** What the containment test decides. */
  ghost predicate Contained(current: Snapshot, previous: Snapshot) {
    && (forall client :: ClockOf(previous, client) <= ClockOf(current, client))
    && (forall client :: DeletionsInside(current, previous, client))
  }

  ghost predicate Positive(s: Snapshot) {
    forall client :: PositiveLengths(ItemsOf(s, client))
  }

  method ContainsSnapshot(current: Snapshot, previous: Snapshot) returns (contained: bool)
    ensures contained <==> Contained(current, previous)
  {
    var clients := previous.sv.Keys;
    while clients != {}
      invariant clients <= previous.sv.Keys
      invariant forall client :: client !in clients ==> ClockOf(previous, client) <= ClockOf(current, client)
    {
      var client :| client in clients;
      var clock := previous.sv[client];
      if clock > 0 && ClockOf(current, client) < clock {
        assert ClockOf(previous, client) > ClockOf(current, client);
        return false;
      }
      clients := clients - {client};
    }
    clients := previous.ds.Keys;
    while clients != {}
      invariant clients <= previous.ds.Keys
      invariant forall client :: client !in clients ==> DeletionsInside(current, previous, client)
    {
      var client :| client in clients;
      var inner := DeleteRanges(previous.ds[client]);
      var outer := DeleteRanges(ItemsOf(current, client));
      var covered := Covered(inner, outer);
      if !covered {
        assert !DeletionsInside(current, previous, client);
        return false;
      }
      clients := clients - {client};
    }
    contained := true;
  }

  /** Every range lies inside one of the others exactly when those hold each clock, and each range's start. */
  lemma AllInside(inner: seq<Range>, outer: seq<Range>)
    requires GapSeparated(inner) && GapSeparated(outer)
    ensures (forall i :: 0 <= i < |inner| ==> Inside(inner[i], outer)) <==>
            && (forall k: nat :: Holds(inner, k) ==> Holds(outer, k))
            && (forall i :: 0 <= i < |inner| ==> Holds(outer, inner[i].from))
  {
    forall i | 0 <= i < |inner|
      ensures Inside(inner[i], outer) <==>
              Holds(outer, inner[i].from) && forall k: nat :: InRange(inner[i], k) ==> Holds(outer, k)
    {
      InsideIsCovered(inner[i], outer);
    }
    if forall k: nat :: Holds(inner, k) ==> Holds(outer, k) {
      forall i, k: nat | 0 <= i < |inner| && InRange(inner[i], k) ensures Holds(outer, k) { assert Holds(inner, k); }
    }
  }

  /** One client's deletions lie inside exactly when each deleted clock, and each range's start, is deleted. */
  lemma DeletionsInsideMeans(current: Snapshot, previous: Snapshot, client: Client)
    ensures DeletionsInside(current, previous, client) <==>
            && (forall k: nat :: DeletedAt(previous, client, k) ==> DeletedAt(current, client, k))
            && (forall i :: 0 <= i < |Merged(ItemsOf(previous, client))| ==>
                  DeletedAt(current, client, Merged(ItemsOf(previous, client))[i].from))
  {
    var inner, outer := Merged(ItemsOf(previous, client)), Merged(ItemsOf(current, client));
    MergedMeans(ItemsOf(previous, client));
    MergedMeans(ItemsOf(current, client));
    AllInside(inner, outer);
    assert forall k: nat :: DeletedAt(previous, client, k) <==> Holds(inner, k);
  }

  /**
   * Containment is holding every clock and every deletion of the earlier cut, while every
   * recorded deletion has a length.
   */
  lemma {:induction false} ContainedMeans(current: Snapshot, previous: Snapshot)
    requires Positive(previous)
    ensures Contained(current, previous) <==>
            && (forall client, k: nat :: BornAt(previous, client, k) ==> BornAt(current, client, k))
            && (forall client, k: nat :: DeletedAt(previous, client, k) ==> DeletedAt(current, client, k))
  {
    forall client ensures DeletionsInside(current, previous, client) <==> DeletesAll(current, previous, client) {
      DeletionsCompare(current, previous, client);
    }
    ClocksCompare(current, previous);
    if Contained(current, previous) {
      forall client, k: nat | DeletedAt(previous, client, k) ensures DeletedAt(current, client, k) {
        assert DeletesAll(current, previous, client);
      }
    }
    if forall client, k: nat :: DeletedAt(previous, client, k) ==> DeletedAt(current, client, k) {
      forall client ensures DeletionsInside(current, previous, client) { assert DeletesAll(current, previous, client); }
    }
  }

  ghost predicate DeletesAll(current: Snapshot, previous: Snapshot, client: Client) {
    forall k: nat :: DeletedAt(previous, client, k) ==> DeletedAt(current, client, k)
  }

  lemma DeletionsCompare(current: Snapshot, previous: Snapshot, client: Client)
    requires PositiveLengths(ItemsOf(previous, client))
    ensures DeletionsInside(current, previous, client) <==> DeletesAll(current, previous, client)
  {
    DeletionsInsideMeans(current, previous, client);
    var inner := Merged(ItemsOf(previous, client));
    MergedMeans(ItemsOf(previous, client));
    forall i | 0 <= i < |inner| ensures DeletedAt(previous, client, inner[i].from) {
      assert InRange(inner[i], inner[i].from);
      assert Holds(inner, inner[i].from);
    }
  }

  lemma ClocksCompare(current: Snapshot, previous: Snapshot)
    ensures (forall client :: ClockOf(previous, client) <= ClockOf(current, client)) <==>
            (forall client, k: nat :: BornAt(previous, client, k) ==> BornAt(current, client, k))
  {
    if forall client, k: nat :: BornAt(previous, client, k) ==> BornAt(current, client, k) {
      forall client ensures ClockOf(previous, client) <= ClockOf(current, client) {
        if ClockOf(previous, client) > 0 {
          var last := ClockOf(previous, client) - 1;
          assert BornAt(previous, client, last);
        }
      }
    }
  }

  /** Containment is transitive for every snapshot, whatever the lengths. */
  lemma {:induction false} ContainedIsTransitive(a: Snapshot, b: Snapshot, c: Snapshot)
    requires Contained(a, b) && Contained(b, c)
    ensures Contained(a, c)
  {
    forall client ensures DeletionsInside(a, c, client) {
      assert DeletionsInside(a, b, client) && DeletionsInside(b, c, client);
      var inner, middle, outer := Merged(ItemsOf(c, client)), Merged(ItemsOf(b, client)), Merged(ItemsOf(a, client));
      forall i | 0 <= i < |inner| ensures Inside(inner[i], outer) {
        assert Inside(inner[i], middle);
        var j :| 0 <= j < |middle| && middle[j].from <= inner[i].from && inner[i].to <= middle[j].to && inner[i].from < middle[j].to;
        assert Inside(middle[j], outer);
        var m :| 0 <= m < |outer| && outer[m].from <= middle[j].from && middle[j].to <= outer[m].to && middle[j].from < outer[m].to;
      }
    }
    forall client ensures ClockOf(c, client) <= ClockOf(a, client) {
      assert ClockOf(b, client) <= ClockOf(a, client);
    }
  }

  /** A snapshot contains itself exactly when no merged deletion of it is empty. */
  lemma {:induction false} ContainsItselfExactly(s: Snapshot)
    ensures Contained(s, s) <==> forall client :: NonEmpty(Merged(ItemsOf(s, client)))
  {
    forall client ensures DeletionsInside(s, s, client) <==> NonEmpty(Merged(ItemsOf(s, client))) {
      MergedMeans(ItemsOf(s, client));
      InsideItself(Merged(ItemsOf(s, client)));
    }
  }

  lemma InsideItself(ranges: seq<Range>)
    requires GapSeparated(ranges)
    ensures (forall i :: 0 <= i < |ranges| ==> Inside(ranges[i], ranges)) <==> NonEmpty(ranges)
  {
    forall i | 0 <= i < |ranges| ensures Inside(ranges[i], ranges) <==> ranges[i].from < ranges[i].to {
      InsideIsCovered(ranges[i], ranges);
      forall j | 0 <= j < |ranges| && j != i ensures !InRange(ranges[j], ranges[i].from) {}
    }
  }

  lemma OneIsMerged(item: DeleteItem)
    ensures Merged([item]) == [Range(item.clock, item.clock + item.len)]
  {
    var r := Range(item.clock, item.clock + item.len);
    assert AsRanges([item]) == [r] && [r][..0] == [];
    assert SortBy([r][..0], StartsFirst) == [] && Merge([r][..0]) == [];
  }

  lemma NoneDeleted(items: seq<DeleteItem>, at: nat, k: nat)
    requires items == [] || items == [DeleteItem(at, 0)]
    ensures !Deleted(items, k)
  {
  }

  lemma EmptyRangeIsEmpty(ranges: seq<Range>, at: nat)
    requires ranges == [Range(at, at)]
    ensures !NonEmpty(ranges)
  {
    assert ranges[0] == Range(at, at);
  }

  lemma EmptyIsNotContained(s: Snapshot, client: Client, at: nat)
    requires ItemsOf(s, client) == [DeleteItem(at, 0)]
    ensures !Contained(s, s)
  {
    OneIsMerged(DeleteItem(at, 0));
    EmptyRangeIsEmpty(Merged(ItemsOf(s, client)), at);
    ContainsItselfExactly(s);
  }

  /**
   * A deletion of length zero is enough: the snapshot does not contain itself. Yjs records none, so
   * only a snapshot made by other means holds one.
   */
  lemma EmptyDeletionIsNotContained()
    ensures var s := Snapshot(map[1 := 9], map[1 := [DeleteItem(5, 0)]]);
            !Contained(s, s) && forall client, k: nat :: !DeletedAt(s, client, k)
  {
    var s := Snapshot(map[1 := 9], map[1 := [DeleteItem(5, 0)]]);
    EmptyIsNotContained(s, 1, 5);
    forall client, k: nat ensures !DeletedAt(s, client, k) { NoneDeleted(ItemsOf(s, client), 5, k); }
  }

  // ------------------------------------------------------------------------------------------
  // What changed between two contained cuts
  // ------------------------------------------------------------------------------------------

  ghost predicate Flips(previous: Snapshot, current: Snapshot, client: Client, k: nat) {
    Visible(previous, client, k) != Visible(current, client, k)
  }

  /** The clocks of one client visible at exactly one of two contained cuts, as ascending ranges. */
  method FlippedRanges(previous: Snapshot, current: Snapshot, client: Client) returns (flipped: seq<Range>)
    requires Contained(current, previous)
    ensures Disjoint(flipped) && NonEmpty(flipped)
    ensures forall k: nat :: Holds(flipped, k) <==> Flips(previous, current, client, k)
  {
    var before, clock := ClockOf(previous, client), ClockOf(current, client);
    var deletedNow := DeleteRanges(ItemsOf(current, client));
    var deletedBefore := DeleteRanges(ItemsOf(previous, client));
    var newlyDeleted := Subtract(deletedNow, deletedBefore);
    var gone := Below(newlyDeleted, before);
    assert ClockOf(previous, client) <= ClockOf(current, client);
    var born := Subtract([Range(before, clock)], deletedNow);
    BornIsLater(born, before, clock, deletedNow);
    flipped := gone + born;
    HoldsConcat(gone, born);
    DeletionsInsideMeans(current, previous, client);
    forall k: nat ensures Holds(flipped, k) <==> Flips(previous, current, client, k) {
      SingleHolds(Range(before, clock), k);
      assert DeletedAt(previous, client, k) ==> DeletedAt(current, client, k);
    }
  }

  lemma SingleHolds(r: Range, k: nat)
    ensures Holds([r], k) <==> InRange(r, k)
  {
    if InRange(r, k) { assert InRange([r][0], k); }
  }

  lemma BornIsLater(born: seq<Range>, before: nat, clock: nat, removed: seq<Range>)
    requires NonEmpty(born)
    requires forall k: nat :: Holds(born, k) <==> Holds([Range(before, clock)], k) && !Holds(removed, k)
    ensures forall i :: 0 <= i < |born| ==> before <= born[i].from
  {
    forall i | 0 <= i < |born| ensures before <= born[i].from {
      assert InRange(born[i], born[i].from);
      assert Holds(born, born[i].from);
      SingleHolds(Range(before, clock), born[i].from);
    }
  }

  // ------------------------------------------------------------------------------------------
  // The walk over the stored structs
  // ------------------------------------------------------------------------------------------

  /** A stored struct and the top-level block it belongs to, if it is an item inside the fragment. */
  datatype Struct = Struct(clock: nat, len: nat, block: Option<BlockId>)

  datatype Visit = Visit(block: BlockId, from: nat, to: nat)

  /** A client's structs follow each other without gaps from clock 0 up to its clock. */
  ghost predicate Tiles(structs: seq<Struct>, clock: nat) {
    && (forall i :: 0 <= i < |structs| ==> structs[i].len > 0)
    && (forall i :: 0 <= i < |structs| - 1 ==> structs[i + 1].clock == structs[i].clock + structs[i].len)
    && (if structs == [] then clock == 0
        else structs[0].clock == 0 && structs[|structs| - 1].clock + structs[|structs| - 1].len == clock)
  }

  predicate Spans(s: Struct, k: nat) {
    s.clock <= k < s.clock + s.len
  }

  ghost predicate BlockAt(structs: seq<Struct>, block: BlockId, k: nat) {
    exists i :: 0 <= i < |structs| && Spans(structs[i], k) && structs[i].block == Some(block)
  }

  predicate Visits(v: Visit, block: BlockId, k: nat) {
    v.block == block && v.from <= k < v.to
  }

  ghost predicate Visited(visits: seq<Visit>, block: BlockId, k: nat) {
    exists i :: 0 <= i < |visits| && Visits(visits[i], block, k)
  }

  lemma {:induction false} TilesAscend(structs: seq<Struct>, clock: nat, i: nat, j: nat)
    requires Tiles(structs, clock) && i < j < |structs|
    ensures structs[i].clock + structs[i].len <= structs[j].clock
    decreases j - i
  {
    if i + 1 < j { TilesAscend(structs, clock, i + 1, j); }
  }

  lemma {:induction false} TilesCover(structs: seq<Struct>, clock: nat, k: nat, n: nat) returns (i: nat)
    requires Tiles(structs, clock) && n <= |structs| && k < clock
    requires n == 0 || structs[n - 1].clock + structs[n - 1].len <= k
    ensures n <= i < |structs| && Spans(structs[i], k)
    decreases |structs| - n
  {
    if n > 0 && n < |structs| { assert structs[(n - 1) + 1].clock == structs[n - 1].clock + structs[n - 1].len; }
    if Spans(structs[n], k) { i := n; } else { i := TilesCover(structs, clock, k, n + 1); }
  }

  lemma VisitedAppend(visits: seq<Visit>, v: Visit)
    ensures forall block, k: nat :: Visited(visits + [v], block, k) <==> Visited(visits, block, k) || Visits(v, block, k)
  {
    forall block, k: nat
      ensures Visited(visits + [v], block, k) <==> Visited(visits, block, k) || Visits(v, block, k)
    {
      if Visited(visits, block, k) {
        var i :| 0 <= i < |visits| && Visits(visits[i], block, k);
        assert Visits((visits + [v])[i], block, k);
      }
      if Visits(v, block, k) { assert Visits((visits + [v])[|visits|], block, k); }
    }
  }

  lemma BlockAtAppend(structs: seq<Struct>, n: nat)
    requires n < |structs|
    ensures forall block, k: nat :: BlockAt(structs[..n + 1], block, k) <==>
                                    BlockAt(structs[..n], block, k) || (Spans(structs[n], k) && structs[n].block == Some(block))
  {
    forall block, k: nat
      ensures BlockAt(structs[..n + 1], block, k) <==>
              BlockAt(structs[..n], block, k) || (Spans(structs[n], k) && structs[n].block == Some(block))
    {
      if BlockAt(structs[..n], block, k) {
        var i :| 0 <= i < n && Spans(structs[..n][i], k) && structs[..n][i].block == Some(block);
        assert structs[..n + 1][i] == structs[i];
      }
      if BlockAt(structs[..n + 1], block, k) {
        var i :| 0 <= i < n + 1 && Spans(structs[..n + 1][i], k) && structs[..n + 1][i].block == Some(block);
        if i < n { assert structs[..n][i] == structs[i]; }
      }
      assert structs[..n + 1][n] == structs[n];
    }
  }

  ghost predicate ProperVisits(visits: seq<Visit>) {
    forall i :: 0 <= i < |visits| ==> visits[i].from < visits[i].to
  }

  /** What the walk visits for one range: the part of each block's structs inside it. */
  method WalkRange(structs: seq<Struct>, ghost clock: nat, range: Range, visits0: seq<Visit>) returns (visits: seq<Visit>)
    requires Tiles(structs, clock) && range.from < range.to <= clock && ProperVisits(visits0)
    ensures ProperVisits(visits)
    ensures forall block, k: nat :: Visited(visits, block, k) <==>
              Visited(visits0, block, k) || (InRange(range, k) && BlockAt(structs, block, k))
  {
    visits := visits0;
    ghost var found := TilesCover(structs, clock, range.from, 0);
    var index: nat :| index < |structs| && Spans(structs[index], range.from);
    NothingBefore(structs, clock, index, range);
    while index < |structs| && structs[index].clock < range.to
      invariant index <= |structs| && ProperVisits(visits)
      invariant index < |structs| ==> range.from < structs[index].clock + structs[index].len
      invariant forall block, k: nat :: Visited(visits, block, k) <==>
                  Visited(visits0, block, k) || (InRange(range, k) && BlockAt(structs[..index], block, k))
    {
      var s := structs[index];
      BlockAtAppend(structs, index);
      if s.block.Some? {
        var visit := Visit(s.block.value, if range.from >= s.clock then range.from else s.clock,
                           if range.to <= s.clock + s.len then range.to else s.clock + s.len);
        VisitedAppend(visits, visit);
        visits := visits + [visit];
      }
      index := index + 1;
    }
    NothingAfter(structs, clock, index, range);
  }

  lemma NothingBefore(structs: seq<Struct>, clock: nat, index: nat, range: Range)
    requires Tiles(structs, clock) && index < |structs| && Spans(structs[index], range.from)
    ensures forall block, k: nat :: InRange(range, k) ==> !BlockAt(structs[..index], block, k)
  {
    forall block, k: nat | InRange(range, k) ensures !BlockAt(structs[..index], block, k) {
      forall i | 0 <= i < index ensures !Spans(structs[..index][i], k) {
        TilesAscend(structs, clock, i, index);
      }
    }
  }

  lemma NothingAfter(structs: seq<Struct>, clock: nat, index: nat, range: Range)
    requires Tiles(structs, clock) && index <= |structs|
    requires index < |structs| ==> range.to <= structs[index].clock
    ensures forall block, k: nat :: InRange(range, k) ==> (BlockAt(structs, block, k) <==> BlockAt(structs[..index], block, k))
  {
    forall block, k: nat | InRange(range, k)
      ensures BlockAt(structs, block, k) <==> BlockAt(structs[..index], block, k)
    {
      if BlockAt(structs[..index], block, k) {
        var i :| 0 <= i < index && Spans(structs[..index][i], k) && structs[..index][i].block == Some(block);
        assert structs[i] == structs[..index][i];
      }
      if BlockAt(structs, block, k) {
        var i :| 0 <= i < |structs| && Spans(structs[i], k) && structs[i].block == Some(block);
        if i > index { TilesAscend(structs, clock, index, i); }
        assert structs[..index][i] == structs[i];
      }
    }
  }

  type Store = map<Client, seq<Struct>>

  function StructsOf(store: Store, client: Client): seq<Struct> {
    if client in store then store[client] else []
  }

  /** The document a snapshot was just taken of: each client's structs reach its clock. */
  ghost predicate Stored(store: Store, current: Snapshot) {
    forall client :: Tiles(StructsOf(store, client), ClockOf(current, client))
  }

  /** The walk of one client visits a block's clock exactly when its visibility differs between the cuts. */
  method WalkClient(store: Store, previous: Snapshot, current: Snapshot, client: Client) returns (visits: seq<Visit>)
    requires Contained(current, previous) && Stored(store, current)
    ensures ProperVisits(visits)
    ensures forall block, k: nat :: Visited(visits, block, k) <==>
              Flips(previous, current, client, k) && BlockAt(StructsOf(store, client), block, k)
  {
    var flipped := FlippedRanges(previous, current, client);
    var structs := StructsOf(store, client);
    assert Tiles(structs, ClockOf(current, client));
    FlipsAreBorn(previous, current, client, flipped);
    visits := [];
    for i := 0 to |flipped|
      invariant ProperVisits(visits)
      invariant forall block, k: nat :: Visited(visits, block, k) <==>
                  Holds(flipped[..i], k) && BlockAt(structs, block, k)
    {
      HoldsAppend(flipped[..i], flipped[i]);
      assert flipped[..i + 1] == flipped[..i] + [flipped[i]];
      visits := WalkRange(structs, ClockOf(current, client), flipped[i], visits);
    }
    assert flipped[..|flipped|] == flipped;
  }

  lemma FlipsAreBorn(previous: Snapshot, current: Snapshot, client: Client, flipped: seq<Range>)
    requires Contained(current, previous) && NonEmpty(flipped)
    requires forall k: nat :: Holds(flipped, k) <==> Flips(previous, current, client, k)
    ensures forall i :: 0 <= i < |flipped| ==> flipped[i].to <= ClockOf(current, client)
  {
    assert ClockOf(previous, client) <= ClockOf(current, client);
    forall i | 0 <= i < |flipped| ensures flipped[i].to <= ClockOf(current, client) {
      assert InRange(flipped[i], flipped[i].to - 1);
      assert Holds(flipped, flipped[i].to - 1);
      assert Flips(previous, current, client, flipped[i].to - 1);
    }
  }

  // ------------------------------------------------------------------------------------------
  // What a result lists
  // ------------------------------------------------------------------------------------------

  /** The block has an item that one of the cuts shows and the other does not. */
  ghost predicate Differs(store: Store, previous: Snapshot, current: Snapshot, block: BlockId) {
    exists client, k: nat :: Flips(previous, current, client, k) && BlockAt(StructsOf(store, client), block, k)
  }

  method ChangedBlocks(store: Store, previous: Snapshot, current: Snapshot) returns (changed: set<BlockId>)
    requires Contained(current, previous) && Stored(store, current)
    ensures forall block :: block in changed <==> Differs(store, previous, current, block)
  {
    changed := {};
    var clients := current.sv.Keys;
    while clients != {}
      invariant clients <= current.sv.Keys
      invariant forall block :: block in changed ==> Differs(store, previous, current, block)
      invariant forall client, block, k: nat | client in current.sv && client !in clients ::
                  Flips(previous, current, client, k) && BlockAt(StructsOf(store, client), block, k) ==> block in changed
    {
      var client :| client in clients;
      var visits := WalkClient(store, previous, current, client);
      var flipped := set v | v in visits :: v.block;
      forall block | block in flipped ensures Differs(store, previous, current, block) {
        var v :| v in visits && v.block == block;
        var i :| 0 <= i < |visits| && visits[i] == v;
        assert Visits(visits[i], block, v.from);
        assert Visited(visits, block, v.from);
      }
      forall block, k: nat | Flips(previous, current, client, k) && BlockAt(StructsOf(store, client), block, k)
        ensures block in flipped
      {
        assert Visited(visits, block, k);
        var i :| 0 <= i < |visits| && Visits(visits[i], block, k);
        assert visits[i] in visits;
      }
      changed := changed + flipped;
      clients := clients - {client};
    }
    forall block | Differs(store, previous, current, block) ensures block in changed {
      var client, k: nat :| Flips(previous, current, client, k) && BlockAt(StructsOf(store, client), block, k);
      assert ClockOf(previous, client) <= ClockOf(current, client);
      assert client in current.sv;
    }
  }

  ghost function Listed(blocks: seq<BlockId>, store: Store, previous: Snapshot, current: Snapshot): seq<BlockId> {
    if blocks == [] then []
    else Listed(blocks[..|blocks| - 1], store, previous, current)
         + if Differs(store, previous, current, blocks[|blocks| - 1]) then [blocks[|blocks| - 1]] else []
  }

  /**
   * What a result lists since the frontier `prev`: the present blocks whose visible items differ,
   * in document order, and the blocks seen then and gone now. Without a comparable cut, nothing.
   */
  method FrontierDelta(store: Store, current: Snapshot, blocks: seq<BlockId>, prev: Option<Snapshot>)
    returns (changed: seq<BlockId>, removed: set<BlockId>)
    requires Stored(store, current)
    ensures prev.None? || !Contained(current, prev.value) ==> changed == [] && removed == {}
    ensures prev.Some? && Contained(current, prev.value) ==>
              && changed == Listed(blocks, store, prev.value, current)
              && forall block :: block in removed <==> Differs(store, prev.value, current, block) && block !in blocks
  {
    changed, removed := [], {};
    if prev.None? { return; }
    var previous := prev.value;
    var contained := ContainsSnapshot(current, previous);
    if !contained { return; }
    var flipped: set<BlockId> := {};
    if previous != current { flipped := ChangedBlocks(store, previous, current); }
    for i := 0 to |blocks|
      invariant changed == Listed(blocks[..i], store, previous, current)
    {
      assert blocks[..i + 1][..i] == blocks[..i];
      if blocks[i] in flipped { changed := changed + [blocks[i]]; }
    }
    assert blocks[..|blocks|] == blocks;
    removed := set block | block in flipped && block !in blocks;
  }
}
