/** The lists of each parent's children, and the one order each is shown in. */
module SiblingLists {
  import opened Collation
  import opened Records
  import opened Siblings
  import opened Sorting

  /** Which parent each listed row is under. */
  type Parents = map<EntryId, EntryId>

  function ParentMap(entries: Entries): Parents {
    map id | id in entries && entries[id].RowEntry? :: entries[id].row.parentId
  }

  ghost predicate RowsKnown(entries: Entries, parents: Parents) {
    forall id :: id in parents ==> IsRow(entries, id)
  }

  function ChildrenIn(parents: Parents, order: seq<EntryId>, parent: EntryId): seq<EntryId> {
    if order == [] then []
    else
      var n := |order| - 1;
      ChildrenIn(parents, order[..n], parent) + if order[n] in parents && parents[order[n]] == parent then [order[n]] else []
  }

  ghost predicate AreRows(entries: Entries, ids: seq<EntryId>) {
    forall i :: 0 <= i < |ids| ==> IsRow(entries, ids[i])
  }

  function RowsOf(entries: Entries, ids: seq<EntryId>): (rows: seq<Row>)
    requires AreRows(entries, ids)
    ensures |rows| == |ids| && forall i :: 0 <= i < |ids| ==> rows[i] == RowOf(entries, ids[i])
  {
    seq(|ids|, i requires 0 <= i < |ids| => RowOf(entries, ids[i]))
  }

  ghost predicate Apart(ids: seq<EntryId>) {
    forall i, k :: 0 <= i < k < |ids| ==> ids[i] != ids[k]
  }

  /** A parent's list: its own rows and no other, each once. */
  ghost predicate Holds(parents: Parents, parent: EntryId, ids: seq<EntryId>) {
    Apart(ids) && forall id :: id in ids <==> id in parents && parents[id] == parent
  }

  ghost predicate InOrder(entries: Entries, collate: (string, string) -> bool, manual: bool, ids: seq<EntryId>) {
    AreRows(entries, ids) && SortedBy(RowsOf(entries, ids), SiblingOrder(manual, collate))
  }

  /** Of two rows shown one before the other: ranks rise, or folders come first and names go as the collator has them. */
  lemma ShownBefore(entries: Entries, collate: (string, string) -> bool, manual: bool, ids: seq<EntryId>, i: nat, k: nat)
    requires InOrder(entries, collate, manual, ids) && i < k < |ids|
    ensures var a, b := RowOf(entries, ids[i]), RowOf(entries, ids[k]);
            if manual then AtMost(RankOf(a), RankOf(b))
            else (a.kind == b.kind && collate(a.name, b.name)) || (a.kind == Folder && b.kind == File)
  {
    var rows := RowsOf(entries, ids);
    assert SiblingOrder(manual, collate)(rows[i], rows[k]);
    AtMostIsTotal(RankOf(rows[i]), RankOf(rows[k]));
  }

  lemma {:induction false} ChildrenAre(parents: Parents, order: seq<EntryId>, parent: EntryId)
    requires Apart(order)
    ensures var ids := ChildrenIn(parents, order, parent);
            Apart(ids) && forall id :: id in ids <==> id in order && id in parents && parents[id] == parent
  {
    if order != [] {
      var n := |order| - 1;
      ChildrenAre(parents, order[..n], parent);
      assert order == order[..n] + [order[n]];
      assert order[n] !in order[..n];
    }
  }

  function IdsOf(rows: seq<Row>): (ids: seq<EntryId>)
    ensures |ids| == |rows| && forall i :: 0 <= i < |rows| ==> ids[i] == rows[i].entryId
  {
    seq(|rows|, i requires 0 <= i < |rows| => rows[i].entryId)
  }

  function SortedIds(entries: Entries, ids: seq<EntryId>, le: (Row, Row) -> bool): seq<EntryId>
    requires AreRows(entries, ids)
  {
    IdsOf(SortBy(RowsOf(entries, ids), le))
  }

  lemma RowsAreTheirs(entries: Entries, ids: seq<EntryId>, rows: seq<Row>)
    requires Keyed(entries) && AreRows(entries, ids) && multiset(rows) == multiset(RowsOf(entries, ids))
    ensures AreRows(entries, IdsOf(rows)) && RowsOf(entries, IdsOf(rows)) == rows
    ensures forall id :: id in IdsOf(rows) <==> id in ids
  {
    forall i | 0 <= i < |rows| ensures IsRow(entries, rows[i].entryId) && RowOf(entries, rows[i].entryId) == rows[i] && rows[i].entryId in ids {
      assert rows[i] in multiset(RowsOf(entries, ids));
      var k :| 0 <= k < |ids| && RowsOf(entries, ids)[k] == rows[i];
      assert IdOf(entries[ids[k]]) == ids[k];
    }
    forall id | id in ids ensures id in IdsOf(rows) {
      var k :| 0 <= k < |ids| && ids[k] == id;
      assert RowsOf(entries, ids)[k] in multiset(rows);
      var i :| 0 <= i < |rows| && rows[i] == RowsOf(entries, ids)[k];
      assert IdOf(entries[ids[k]]) == ids[k];
      assert IdsOf(rows)[i] == id;
    }
  }

  lemma SortingKeepsApart(entries: Entries, ids: seq<EntryId>, rows: seq<Row>)
    requires Keyed(entries) && AreRows(entries, ids) && multiset(rows) == multiset(RowsOf(entries, ids))
    requires Apart(ids)
    ensures Apart(IdsOf(rows))
  {
    var were := RowsOf(entries, ids);
    forall i, k | 0 <= i < k < |were| ensures were[i] != were[k] {
      assert IdOf(entries[ids[i]]) == ids[i] && IdOf(entries[ids[k]]) == ids[k];
    }
    DistinctOnce(were);
    forall i, k | 0 <= i < k < |rows| ensures IdsOf(rows)[i] != IdsOf(rows)[k] {
      RowsAreTheirs(entries, ids, rows);
      assert rows[i] == RowOf(entries, rows[i].entryId) && rows[k] == RowOf(entries, rows[k].entryId);
      if rows[i] == rows[k] { TwiceIsMore(rows, i, k); }
    }
  }

  lemma {:induction false} DistinctOnce(rows: seq<Row>)
    requires forall i, k :: 0 <= i < k < |rows| ==> rows[i] != rows[k]
    ensures forall row :: multiset(rows)[row] <= 1
  {
    if rows != [] {
      var n := |rows| - 1;
      DistinctOnce(rows[..n]);
      assert rows == rows[..n] + [rows[n]];
      assert rows[n] !in rows[..n];
    }
  }

  lemma TwiceIsMore(rows: seq<Row>, i: nat, k: nat)
    requires i < k < |rows| && rows[i] == rows[k]
    ensures multiset(rows)[rows[i]] >= 2
  {
    assert rows == rows[..k] + [rows[k]] + rows[k + 1..];
    assert rows[i] in rows[..k];
  }

  /** Sorting a parent's list keeps what it holds and puts it in display order. */
  lemma SortingFits(entries: Entries, parents: Parents, collate: (string, string) -> bool, manual: bool, parent: EntryId,
                    ids: seq<EntryId>)
    requires Keyed(entries) && Orders(collate) && Holds(parents, parent, ids) && AreRows(entries, ids)
    ensures var sorted := SortedIds(entries, ids, SiblingOrder(manual, collate));
            Holds(parents, parent, sorted) && InOrder(entries, collate, manual, sorted) && (ids != [] ==> sorted != [])
  {
    var le := SiblingOrder(manual, collate);
    var rows := SortBy(RowsOf(entries, ids), le);
    SiblingsAreOrdered(manual, collate);
    SortIsSorted(RowsOf(entries, ids), le);
    RowsAreTheirs(entries, ids, rows);
    SortingKeepsApart(entries, ids, rows);
    assert |rows| == |ids| by { assert |multiset(rows)| == |multiset(RowsOf(entries, ids))|; }
  }

  /** The rows grouped by parent, in the order they were read. */
  ghost predicate Groups(parents: Parents, order: seq<EntryId>, children: map<EntryId, seq<EntryId>>) {
    && (forall parent :: parent in children ==> children[parent] == ChildrenIn(parents, order, parent) && children[parent] != [])
    && forall id :: id in order && id in parents ==> parents[id] in children
  }

  lemma ChildrenGrow(parents: Parents, front: seq<EntryId>, id: EntryId, parent: EntryId)
    ensures ChildrenIn(parents, front + [id], parent) ==
            ChildrenIn(parents, front, parent) + if id in parents && parents[id] == parent then [id] else []
  {
    assert (front + [id])[..|front|] == front;
  }

  function WithRow(parent: EntryId, children: map<EntryId, seq<EntryId>>, id: EntryId): map<EntryId, seq<EntryId>> {
    children[parent := (if parent in children then children[parent] else []) + [id]]
  }

  lemma GroupsGrow(parents: Parents, front: seq<EntryId>, id: EntryId, children: map<EntryId, seq<EntryId>>)
    requires Groups(parents, front, children)
    ensures Groups(parents, front + [id], if id in parents then WithRow(parents[id], children, id) else children)
  {
    var grown := if id in parents then WithRow(parents[id], children, id) else children;
    forall parent | parent in grown ensures grown[parent] == ChildrenIn(parents, front + [id], parent) && grown[parent] != [] {
      ChildrenGrow(parents, front, id, parent);
      if parent !in children { NoChildren(parents, front, parent); }
    }
  }

  lemma {:induction false} NoChildren(parents: Parents, order: seq<EntryId>, parent: EntryId)
    requires forall id :: id in order && id in parents ==> parents[id] != parent
    ensures ChildrenIn(parents, order, parent) == []
  {
    if order != [] {
      NoChildren(parents, order[..|order| - 1], parent);
      assert order[|order| - 1] in order;
    }
  }

  lemma {:induction false} SameIdsSameBag(a: seq<EntryId>, b: seq<EntryId>)
    requires Apart(a) && Apart(b)
    requires forall id :: id in a <==> id in b
    ensures multiset(a) == multiset(b)
  {
    OnceEach(a);
    OnceEach(b);
    forall id ensures multiset(a)[id] == multiset(b)[id] {
      assert id in a <==> id in multiset(a);
      assert id in b <==> id in multiset(b);
    }
  }

  lemma {:induction false} OnceEach(ids: seq<EntryId>)
    requires Apart(ids)
    ensures forall id :: multiset(ids)[id] <= 1
  {
    if ids != [] {
      var n := |ids| - 1;
      OnceEach(ids[..n]);
      assert ids == ids[..n] + [ids[n]];
      assert ids[n] !in ids[..n];
    }
  }

  lemma {:induction false} RowCount(entries: Entries, ids: seq<EntryId>, row: Row)
    requires Keyed(entries) && AreRows(entries, ids)
    ensures multiset(RowsOf(entries, ids))[row] ==
            if IsRow(entries, row.entryId) && RowOf(entries, row.entryId) == row then multiset(ids)[row.entryId] else 0
  {
    if ids != [] {
      var n := |ids| - 1;
      RowCount(entries, ids[..n], row);
      assert ids == ids[..n] + [ids[n]];
      assert RowsOf(entries, ids) == RowsOf(entries, ids[..n]) + [RowOf(entries, ids[n])];
      assert IdOf(entries[ids[n]]) == ids[n];
    }
  }

  lemma RowsBag(entries: Entries, a: seq<EntryId>, b: seq<EntryId>)
    requires Keyed(entries) && AreRows(entries, a) && AreRows(entries, b) && multiset(a) == multiset(b)
    ensures multiset(RowsOf(entries, a)) == multiset(RowsOf(entries, b))
  {
    forall row ensures multiset(RowsOf(entries, a))[row] == multiset(RowsOf(entries, b))[row] {
      RowCount(entries, a, row);
      RowCount(entries, b, row);
    }
  }

  /** One list holds the rows of a parent in display order. */
  lemma ListIsUnique(entries: Entries, parents: Parents, collate: (string, string) -> bool, manual: bool, parent: EntryId,
                     a: seq<EntryId>, b: seq<EntryId>)
    requires Keyed(entries) && Orders(collate) && Holds(parents, parent, a) && Holds(parents, parent, b)
    requires InOrder(entries, collate, manual, a) && InOrder(entries, collate, manual, b)
    ensures a == b
  {
    var le := SiblingOrder(manual, collate);
    SameIdsSameBag(a, b);
    RowsBag(entries, a, b);
    SiblingsAreOrdered(manual, collate);
    forall i, k | 0 <= i < |a| && 0 <= k < |a| && le(RowsOf(entries, a)[i], RowsOf(entries, a)[k]) && le(RowsOf(entries, a)[k], RowsOf(entries, a)[i])
      ensures RowsOf(entries, a)[i] == RowsOf(entries, a)[k]
    {
      OrderIsTotal(manual, collate, RowsOf(entries, a)[i], RowsOf(entries, a)[k]);
      assert IdOf(entries[a[i]]) == a[i] && IdOf(entries[a[k]]) == a[k];
    }
    SortedIsUnique(RowsOf(entries, a), RowsOf(entries, b), le);
    forall i | 0 <= i < |a| ensures a[i] == b[i] {
      assert RowsOf(entries, a)[i] == RowsOf(entries, b)[i];
      assert IdOf(entries[a[i]]) == a[i] && IdOf(entries[b[i]]) == b[i];
    }
  }
}
