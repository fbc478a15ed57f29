/** The display order of one parent's children (packages/resource-replica/src/sibling-order.ts). */
module Siblings {
  import opened Collation
  import opened Records
  import opened Sorting
  import opened Wrappers

  /** A file's or folder's catalog row; `manual` is a folder's own child order. */
  datatype Row = Row(entryId: EntryId, kind: EntryKind, parentId: EntryId, name: string, rank: Option<string>, manual: bool)

  datatype Entry =
    | AuthorityEntry(id: EntryId)
    | SourceEntry(id: EntryId, scheme: string, manual: bool)
    | RowEntry(row: Row)

  type Entries = map<EntryId, Entry>

  function IdOf(entry: Entry): EntryId {
    if entry.RowEntry? then entry.row.entryId else entry.id
  }

  /** Every entry is kept under its own id. */
  ghost predicate Keyed(entries: Entries) {
    forall id :: id in entries ==> IdOf(entries[id]) == id
  }

  predicate IsRow(entries: Entries, id: EntryId) {
    id in entries && entries[id].RowEntry?
  }

  function RowOf(entries: Entries, id: EntryId): Row
    requires IsRow(entries, id)
  {
    entries[id].row
  }

  predicate IsManualParent(entries: Entries, id: EntryId) {
    id in entries && match entries[id]
                     case SourceEntry(_, _, manual) => manual
                     case RowEntry(row) => row.kind.Folder? && row.manual
                     case AuthorityEntry(_) => false
  }

  function RankOf(row: Row): string {
    if row.rank.Some? then row.rank.value else ""
  }

  predicate IdAtMost(a: Row, b: Row) {
    AtMost(a.entryId.text, b.entryId.text)
  }

  /** Folders first, then names as the collator has them, then ids. */
  predicate DefaultAtMost(collate: (string, string) -> bool, a: Row, b: Row) {
    if a.kind != b.kind then a.kind.Folder?
    else if collate(a.name, b.name) && collate(b.name, a.name) then IdAtMost(a, b)
    else collate(a.name, b.name)
  }

  predicate RankAtMost(a: Row, b: Row) {
    if RankOf(a) != RankOf(b) then AtMost(RankOf(a), RankOf(b)) else IdAtMost(a, b)
  }

  function SiblingOrder(manual: bool, collate: (string, string) -> bool): (Row, Row) -> bool {
    if manual then (a: Row, b: Row) => RankAtMost(a, b) else (a: Row, b: Row) => DefaultAtMost(collate, a, b)
  }

  lemma SiblingsAreOrdered(manual: bool, collate: (string, string) -> bool)
    requires Orders(collate)
    ensures Orders(SiblingOrder(manual, collate))
  {
    var le := SiblingOrder(manual, collate);
    forall a: Row, b: Row ensures le(a, b) || le(b, a) { OrderIsTotal(manual, collate, a, b); }
    forall a: Row, b: Row, c: Row | le(a, b) && le(b, c) ensures le(a, c) { OrderIsTransitive(manual, collate, a, b, c); }
  }

  lemma OrderIsTotal(manual: bool, collate: (string, string) -> bool, a: Row, b: Row)
    requires Orders(collate)
    ensures SiblingOrder(manual, collate)(a, b) || SiblingOrder(manual, collate)(b, a)
    ensures SiblingOrder(manual, collate)(a, b) && SiblingOrder(manual, collate)(b, a) ==> a.entryId == b.entryId
  {
    AtMostIsTotal(a.entryId.text, b.entryId.text);
    AtMostIsTotal(RankOf(a), RankOf(b));
    assert collate(a.name, b.name) || collate(b.name, a.name);
  }

  lemma OrderIsTransitive(manual: bool, collate: (string, string) -> bool, a: Row, b: Row, c: Row)
    requires Orders(collate)
    requires SiblingOrder(manual, collate)(a, b) && SiblingOrder(manual, collate)(b, c)
    ensures SiblingOrder(manual, collate)(a, c)
  {
    IdsAreTransitive(a, b, c);
    if manual {
      RanksAreTransitive(a, b, c);
    } else {
      DefaultIsTransitive(collate, a, b, c);
    }
  }

  lemma IdsAreTransitive(a: Row, b: Row, c: Row)
    ensures IdAtMost(a, b) && IdAtMost(b, c) ==> IdAtMost(a, c)
  {
    if IdAtMost(a, b) && IdAtMost(b, c) { AtMostIsTransitive(a.entryId.text, b.entryId.text, c.entryId.text); }
  }

  lemma RanksAreTransitive(a: Row, b: Row, c: Row)
    requires RankAtMost(a, b) && RankAtMost(b, c)
    ensures RankAtMost(a, c)
  {
    IdsAreTransitive(a, b, c);
    AtMostIsTotal(RankOf(a), RankOf(b));
    AtMostIsTotal(RankOf(b), RankOf(c));
    if AtMost(RankOf(a), RankOf(b)) && AtMost(RankOf(b), RankOf(c)) { AtMostIsTransitive(RankOf(a), RankOf(b), RankOf(c)); }
  }

  lemma DefaultIsTransitive(collate: (string, string) -> bool, a: Row, b: Row, c: Row)
    requires Orders(collate) && DefaultAtMost(collate, a, b) && DefaultAtMost(collate, b, c)
    ensures DefaultAtMost(collate, a, c)
  {
    IdsAreTransitive(a, b, c);
    if a.kind == b.kind == c.kind {
      assert collate(a.name, b.name) && collate(b.name, c.name);
      assert collate(a.name, c.name);
      if collate(c.name, a.name) {
        assert collate(c.name, b.name) && collate(b.name, a.name);
      }
    }
  }
}
