/** Paging over an index that any run of writes has left: the charged column is sound, the pages
    served from the index are those of a scan, and newer writes change no page. */
module TranscriptRuns {
  import opened Basics
  import opened TranscriptHistory
  import opened TranscriptWindow
  import opened TranscriptIndexModel
  import opened TranscriptIndexResults
  import opened TranscriptPaging

  // ---------------------------------------------------------------- what the writers write

  /** A journal unit is stored under the root its family names, and the newest message an entry
      needs is its source or its output. */
  predicate IsMade(e: Entry) {
    && (e.unit.Journal? ==> e.unit.family.root == e.source)
    && e.maxMessageId == if e.source < e.position then e.position else e.source
  }

  predicate AreMade(units: Units) {
    forall id | id in units :: id == IdOf(id.room, units[id].entry) && IsMade(units[id].entry)
  }

  function EntryUnits(entries: seq<Entry>): (r: seq<Unit>)
    ensures |r| == |entries|
  {
    seq(|entries|, i requires 0 <= i < |entries| => entries[i].unit)
  }

  /** The column as `transcriptHistoryTextSlotIndices` computes it for these entries. */
  predicate BatchIsComputed(batch: seq<Entry>) {
    forall k | 0 <= k < |batch| :: batch[k].charged <==> Charged(EntryUnits(batch), k)
  }

  function ConcatEntries(batches: seq<seq<Entry>>): seq<Entry> {
    if batches == [] then [] else ConcatEntries(batches[..|batches| - 1]) + batches[|batches| - 1]
  }

  /** The column was computed batch by batch, and no two batches share a root. */
  predicate IsBatched(entries: seq<Entry>, batches: seq<seq<Entry>>) {
    && ConcatEntries(batches) == entries
    && (forall i | 0 <= i < |batches| :: BatchIsComputed(batches[i]))
    && (forall i, j, x, y | 0 <= i < j < |batches| && x in batches[i] && y in batches[j] :: x.source != y.source)
  }

  ghost predicate ColumnIsComputed(entries: seq<Entry>) {
    (forall e | e in entries :: IsMade(e)) && exists batches :: IsBatched(entries, batches)
  }

  /** An install computes the column for the whole room, a repair one root at a time; a repair
      writes only what it replaces. */
  ghost predicate IsWellWritten(op: Op) {
    match op
    case DoInstall(_, _, entries) => ColumnIsComputed(entries)
    case DoReplace(r) => ColumnIsComputed(r.entries) && forall e | e in r.entries :: e.source in r.ordinary + r.roots
    case _ => true
  }

  ghost predicate AreWellWritten(ops: seq<Op>) {
    forall i | 0 <= i < |ops| :: IsWellWritten(ops[i])
  }

  // ---------------------------------------------------------------- the column

  predicate IsMarked(e: Entry) {
    e.charged && !IsText(e.unit)
  }

  predicate EntriesAgree(x: Entry, y: Entry) {
    IsMarked(x) ==>
      && !IsTextOf(y.unit, x.unit.family)
      && (IsMarked(y) && y.unit.family == x.unit.family ==> x == y)
  }

  predicate ColumnsAreSound(units: Units) {
    forall i, j | i in units && j in units && i.room == j.room :: EntriesAgree(units[i].entry, units[j].entry)
  }

  lemma {:induction false} BatchOf(batches: seq<seq<Entry>>, e: Entry) returns (i: nat)
    requires e in ConcatEntries(batches)
    ensures i < |batches| && e in batches[i]
  {
    var n := |batches| - 1;
    if e in batches[n] { i := n; } else { i := BatchOf(batches[..n], e); }
  }

  lemma LastIsOne(units: seq<Unit>, k: nat, l: nat)
    requires k < |units| && l < |units| && Charged(units, k) && Charged(units, l)
    requires !IsText(units[k]) && !IsText(units[l]) && units[k].family == units[l].family
    ensures k == l
  {
  }

  lemma BatchAgrees(batch: seq<Entry>, x: Entry, y: Entry)
    requires BatchIsComputed(batch) && x in batch && y in batch
    ensures EntriesAgree(x, y)
  {
    var units := EntryUnits(batch);
    var k :| 0 <= k < |batch| && batch[k] == x;
    var l :| 0 <= l < |batch| && batch[l] == y;
    assert units[k] == x.unit && units[l] == y.unit;
    if IsMarked(x) {
      assert Charged(units, k);
      if IsMarked(y) && y.unit.family == x.unit.family {
        LastIsOne(units, k, l);
      }
    }
  }

  lemma OtherSourcesAgree(x: Entry, y: Entry)
    requires IsMade(x) && IsMade(y) && x.source != y.source
    ensures EntriesAgree(x, y) && EntriesAgree(y, x)
  {
  }

  /** Computing the column one root at a time, each in the order of its own units, gives a column
      that is sound for the room, in whatever order its rows are then stored. */
  lemma ColumnPerRootIsSound(entries: seq<Entry>, x: Entry, y: Entry)
    requires ColumnIsComputed(entries) && x in entries && y in entries
    ensures EntriesAgree(x, y)
  {
    var batches :| IsBatched(entries, batches);
    var i := BatchOf(batches, x);
    var j := BatchOf(batches, y);
    if i == j {
      BatchAgrees(batches[i], x, y);
    } else {
      assert i < j ==> x.source != y.source;
      assert j < i ==> y.source != x.source;
      OtherSourcesAgree(x, y);
    }
  }

  // ---------------------------------------------------------------- what every run keeps

  ghost predicate IsMaintained(ix: Index) {
    AllKeyed(ix) && AreMade(ix.units) && ColumnsAreSound(ix.units)
  }

  /** Entries of sources that are not stored join the stored ones. */
  lemma JoinedColumns(kept: Units, room: string, entries: seq<Entry>, u: Units)
    requires AreMade(kept) && ColumnsAreSound(kept) && ColumnIsComputed(entries)
    requires forall id, e | id in kept && id.room == room && e in entries :: id.source != e.source
    requires forall id | id in kept :: id in u && u[id] == kept[id]
    requires forall id | id in u && id !in kept :: u[id].entry in entries && id == IdOf(room, u[id].entry)
    ensures AreMade(u) && ColumnsAreSound(u)
  {
    forall i, j | i in u && j in u && i.room == j.room ensures EntriesAgree(u[i].entry, u[j].entry) {
      var x, y := u[i].entry, u[j].entry;
      if i !in kept && j !in kept {
        ColumnPerRootIsSound(entries, x, y);
      } else if i !in kept || j !in kept {
        OtherSourcesAgree(x, y);
      }
    }
  }

  lemma RekeyedColumns(units: Units, u: Units)
    requires AreMade(units) && ColumnsAreSound(units)
    requires u.Keys == units.Keys && forall id | id in u :: u[id].entry == units[id].entry
    ensures AreMade(u) && ColumnsAreSound(u)
  {
  }

  lemma InsertColumns(kept: Units, room: string, floor: Option<int>, entries: seq<Entry>)
    requires InsertEntries(kept, room, floor, entries).Some?
    requires AreMade(kept) && ColumnsAreSound(kept) && ColumnIsComputed(entries)
    requires forall id, e | id in kept && id.room == room && e in entries :: id.source != e.source
    ensures var u := InsertEntries(kept, room, floor, entries).value; AreMade(u) && ColumnsAreSound(u)
  {
    var u := InsertEntries(kept, room, floor, entries).value;
    Inserted(kept, room, floor, entries, u);
    JoinedColumns(kept, room, entries, u);
  }

  lemma OrdinaryColumns(kept: Units, m: MessageRecord, row: Row)
    requires AreMade(kept) && ColumnsAreSound(kept) && row.entry == OrdinaryEntry(m)
    requires forall id | id in kept && id.room == m.room :: id.source != m.id
    ensures var u := kept[IdOf(m.room, row.entry) := row]; AreMade(u) && ColumnsAreSound(u)
  {
    var e := OrdinaryEntry(m);
    assert [[e]][..0] == [] && [] + [e] == [e] && ConcatEntries([[e]]) == [e];
    assert IsText(EntryUnits([e])[0]) && BatchIsComputed([e]);
    assert IsBatched([e], [[e]]);
    JoinedColumns(kept, m.room, [e], kept[IdOf(m.room, e) := row]);
  }

  lemma ReplaceColumns(ix: Index, r: Replacement)
    requires AreMade(ix.units) && ColumnsAreSound(ix.units) && IsWellWritten(DoReplace(r)) && ReplaceDirty(ix, r).Some?
    ensures AreMade(ReplaceDirty(ix, r).value.units) && ColumnsAreSound(ReplaceDirty(ix, r).value.units)
  {
    var kept := WithoutSources(ix.units, r.room, Elements(r.ordinary + r.roots));
    InsertColumns(kept, r.room, r.floor, r.entries);
    var inserted := InsertEntries(kept, r.room, r.floor, r.entries).value;
    RekeyedColumns(inserted, RekeyIfFalls(inserted, r.room, r.floor, FloorOf(ix, r.room)));
  }

  lemma StepColumns(ix: Index, op: Op)
    requires AreMade(ix.units) && ColumnsAreSound(ix.units) && IsWellWritten(op)
    ensures AreMade(Apply(ix, op).units) && ColumnsAreSound(Apply(ix, op).units)
  {
    match op
    case DoInstall(room, floor, entries) =>
      if Install(ix, room, floor, entries).Some? {
        InsertColumns(WithoutRoom(ix.units, room), room, floor, entries);
      }
    case DoReplace(r) =>
      if ReplaceDirty(ix, r).Some? { ReplaceColumns(ix, r); }
    case DoOrdinary(m) =>
      if MaintainOrdinary(ix, m).Some? && !m.kind.Ask? && !m.kind.Approval? {
        OrdinaryColumns(WithoutSources(ix.units, m.room, {m.id}), m, RowOf(OrdinaryEntry(m), FloorOf(ix, m.room)));
      }
    case _ =>
  }

  lemma StepMaintains(ix: Index, op: Op)
    requires IsMaintained(ix) && FloorFalls(ix, op) && IsWellWritten(op)
    ensures IsMaintained(Apply(ix, op))
  {
    ApplyKeepsKeys(ix, op);
    StepColumns(ix, op);
  }

  /** Keys, bounds and the charged column stay right in every run whose floors only fall and whose
      writers compute the column of what they write. */
  lemma {:induction false} RunMaintains(ix: Index, ops: seq<Op>)
    requires IsMaintained(ix) && FloorsFall(ix, ops) && AreWellWritten(ops)
    ensures IsMaintained(RunOps(ix, ops))
    decreases |ops|
  {
    if ops != [] {
      assert IsWellWritten(ops[0]);
      StepMaintains(ix, ops[0]);
      assert forall i | 0 <= i < |ops| - 1 :: ops[1..][i] == ops[i + 1];
      RunMaintains(Apply(ix, ops[0]), ops[1..]);
    }
  }

  // ---------------------------------------------------------------- pages of a maintained index

  lemma RoomAscends(order: seq<Row>, ix: Index, room: string)
    requires IsMaintained(ix) && OrdersRoom(order, ix.units, room)
    ensures Ascending(order)
  {
    assert Keyed(ix.units, room, FloorOf(ix, room));
    KeyedOrderIsStrict(order, ix.units, room, FloorOf(ix, room));
  }

  lemma RoomColumnIsSound(order: seq<Row>, ix: Index, room: string)
    requires IsMaintained(ix) && OrdersRoom(order, ix.units, room)
    ensures ColumnIsSound(order)
  {
    forall x, y | x in order && y in order ensures Agree(x, y) {
      var i :| 0 <= i < |order| && order[i] == x;
      var j :| 0 <= j < |order| && order[j] == y;
      var a, b := IdOf(room, order[i].entry), IdOf(room, order[j].entry);
      assert ix.units[a] == x && ix.units[b] == y;
      assert EntriesAgree(ix.units[a].entry, ix.units[b].entry);
    }
  }

  lemma VisibleIsDistinct(order: seq<Row>, units: Units, room: string, ceiling: int)
    requires OrdersRoom(order, units, room) && Ascending(order)
    ensures DistinctRows(Visible(order, ceiling))
  {
    var visible := Visible(order, ceiling);
    FilterAscends(order, IsVisible(ceiling));
    FilterMembers(order, IsVisible(ceiling));
    forall i, j | 0 <= i < j < |visible| ensures CursorOf(visible[i]) != CursorOf(visible[j]) {
      assert Less(visible[i].key, visible[j].key);
      assert visible[i] in order && visible[j] in order;
      var k :| 0 <= k < |order| && order[k] == visible[i];
      var l :| 0 <= l < |order| && order[l] == visible[j];
      assert IdOf(room, order[k].entry) in units && IdOf(room, order[l].entry) in units;
    }
  }

  const EMPTY := Index(map[], map[], {})

  /** Whatever was written since the index was empty: for every ceiling, cursor and limit, the page
      built from the index is the page built from a scan of the whole room; and page after page,
      a client gets the whole visible room, cut into windows. */
  lemma PagesAreThoseOfAScan(ops: seq<Op>, room: string, order: seq<Row>, ceiling: int, limit: int)
    requires FloorsFall(EMPTY, ops) && AreWellWritten(ops) && 0 < limit
    requires OrdersRoom(order, RunOps(EMPTY, ops).units, room)
    ensures forall before :: IndexedPage(order, ceiling, before, limit) == ScannedPage(order, ceiling, before, limit)
    ensures
      var all := |Visible(order, ceiling)|;
      IsPaged(order, ceiling, all) && (0 < all ==>
        && ServedWalk(order, ceiling, all, limit) == Pages(UnitsOf(Visible(order, ceiling)), limit)
        && Concat(ServedWalk(order, ceiling, all, limit)) == UnitsOf(Visible(order, ceiling)))
  {
    var ix, visible := RunOps(EMPTY, ops), Visible(order, ceiling);
    RunMaintains(EMPTY, ops);
    RoomAscends(order, ix, room);
    RoomColumnIsSound(order, ix, room);
    forall before ensures IndexedPage(order, ceiling, before, limit) == ScannedPage(order, ceiling, before, limit) {
      IndexedPageIsScannedPage(order, ceiling, before, limit);
    }
    VisibleIsDistinct(order, ix.units, room, ceiling);
    if 0 < |visible| {
      ServedPagesPartition(order, ceiling, |visible|, limit);
      assert UnitsOf(visible)[..|visible|] == UnitsOf(visible);
    }
  }

  // ---------------------------------------------------------------- writes above the ceiling

  /** The write names only messages newer than the ceiling. */
  predicate IsNewer(ix: Index, op: Op, room: string, ceiling: int) {
    match op
    case DoInstall(r, _, _) => r != room
    case DoReplace(r) =>
      r.room != room || (
        && (forall s | s in r.ordinary + r.roots :: ceiling < s)
        && (forall e | e in r.entries :: ceiling < e.maxMessageId)
        && (Falls(r.floor, FloorOf(ix, room)) ==> ceiling < r.floor.value))
    case DoOrdinary(m) => m.room != room || ceiling < m.id
    case DoFamily(r, root, _) => r != room || ceiling < root
    case DoMark(_, _) => true
  }

  predicate SeesRow(units: Units, ceiling: int, id: RowId, row: Row) {
    id in units && units[id] == row && row.entry.maxMessageId <= ceiling
  }

  lemma NewerWriteIsUnseen(ix: Index, op: Op, room: string, ceiling: int, id: RowId, row: Row)
    requires AreMade(ix.units) && IsNewer(ix, op, room, ceiling) && id.room == room
    ensures SeesRow(Apply(ix, op).units, ceiling, id, row) <==> SeesRow(ix.units, ceiling, id, row)
  {
    match op
    case DoInstall(r, floor, entries) =>
      if Install(ix, r, floor, entries).Some? {
        InsertKeeps(WithoutRoom(ix.units, r), r, floor, entries, id);
      }
    case DoReplace(r) =>
      if ReplaceDirty(ix, r).Some? {
        InsertKeeps(WithoutSources(ix.units, r.room, Elements(r.ordinary + r.roots)), r.room, r.floor, r.entries, id);
      }
    case DoOrdinary(_) =>
    case DoFamily(_, _, _) =>
    case DoMark(_, _) =>
  }

  /** What an insert does to one row: nothing, unless one of the entries is that row. */
  lemma {:induction false} InsertKeeps(units: Units, room: string, floor: Option<int>, entries: seq<Entry>, id: RowId)
    requires InsertEntries(units, room, floor, entries).Some?
    ensures
      var u := InsertEntries(units, room, floor, entries).value;
      && (id in units ==> id in u && u[id] == units[id])
      && (id in u && id !in units ==> id.room == room && exists e | e in entries :: u[id] == RowOf(e, floor))
    decreases |entries|
  {
    if entries != [] {
      InsertKeeps(units[IdOf(room, entries[0]) := RowOf(entries[0], floor)], room, floor, entries[1..], id);
    }
  }

  lemma OrderSees(order: seq<Row>, units: Units, room: string, ceiling: int, row: Row)
    requires OrdersRoom(order, units, room) && AreMade(units)
    ensures row in Visible(order, ceiling) <==> SeesRow(units, ceiling, IdOf(room, row.entry), row)
  {
    FilterMembers(order, IsVisible(ceiling));
    if row in order {
      var i :| 0 <= i < |order| && order[i] == row;
      assert units[IdOf(room, order[i].entry)] == row;
    }
  }

  /** Every write of the run names only messages newer than the ceiling. */
  predicate AreNewer(ix: Index, ops: seq<Op>, room: string, ceiling: int)
    decreases |ops|
  {
    ops == [] || (IsNewer(ix, ops[0], room, ceiling) && AreNewer(Apply(ix, ops[0]), ops[1..], room, ceiling))
  }

  lemma {:induction false} NewerRunIsUnseen(ix: Index, ops: seq<Op>, room: string, ceiling: int, id: RowId, row: Row)
    requires IsMaintained(ix) && FloorsFall(ix, ops) && AreWellWritten(ops)
    requires AreNewer(ix, ops, room, ceiling) && id.room == room
    ensures SeesRow(RunOps(ix, ops).units, ceiling, id, row) <==> SeesRow(ix.units, ceiling, id, row)
    decreases |ops|
  {
    if ops != [] {
      StepMaintains(ix, ops[0]);
      NewerWriteIsUnseen(ix, ops[0], room, ceiling, id, row);
      NewerRunIsUnseen(Apply(ix, ops[0]), ops[1..], room, ceiling, id, row);
    }
  }

  /** A run that writes only newer messages changes no page under an older ceiling, whatever the
      cursor and the limit. */
  lemma NewerWritesChangeNoPage(
      ix: Index, ops: seq<Op>, room: string, ceiling: int, was: seq<Row>, now: seq<Row>,
      before: Option<Cursor>, limit: int)
    requires IsMaintained(ix) && FloorsFall(ix, ops) && AreWellWritten(ops) && AreNewer(ix, ops, room, ceiling)
    requires OrdersRoom(was, ix.units, room) && OrdersRoom(now, RunOps(ix, ops).units, room)
    ensures SelectPage(now, ceiling, before, limit) == SelectPage(was, ceiling, before, limit)
    ensures IndexedPage(now, ceiling, before, limit) == IndexedPage(was, ceiling, before, limit)
  {
    var end := RunOps(ix, ops);
    RunMaintains(ix, ops);
    RoomAscends(was, ix, room);
    RoomAscends(now, end, room);
    forall row ensures row in Visible(was, ceiling) <==> row in Visible(now, ceiling) {
      OrderSees(was, ix.units, room, ceiling, row);
      OrderSees(now, end.units, room, ceiling, row);
      NewerRunIsUnseen(ix, ops, room, ceiling, IdOf(room, row.entry), row);
    }
    SameRowsSamePages(was, now, ceiling, before, limit);
  }

  lemma SameRowsSamePages(was: seq<Row>, now: seq<Row>, ceiling: int, before: Option<Cursor>, limit: int)
    requires Ascending(was) && Ascending(now)
    requires forall row :: row in Visible(was, ceiling) <==> row in Visible(now, ceiling)
    ensures SelectPage(now, ceiling, before, limit) == SelectPage(was, ceiling, before, limit)
    ensures IndexedPage(now, ceiling, before, limit) == IndexedPage(was, ceiling, before, limit)
  {
    FilterAscends(was, IsVisible(ceiling));
    FilterAscends(now, IsVisible(ceiling));
    OrderIsUnique(Visible(was, ceiling), Visible(now, ceiling));
  }
}
