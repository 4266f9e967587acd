/** What the index stores of the messages that are written: one charged row for every ordinary
    message and none for an ask or an approval, in the next page at once, and the latest version
    after any run of writes. */
module TranscriptMessages {
  import opened Basics
  import opened TranscriptHistory
  import opened TranscriptIndexModel
  import opened TranscriptIndexResults
  import opened TranscriptPaging
  import opened TranscriptRuns

  // ---------------------------------------------------------------- one message

  /** Asks and approvals have no place in a transcript. */
  predicate IsShown(m: MessageRecord) {
    m.kind == Run || m.kind == Other
  }

  /** The row stands for the message: text at its own place, charged, and needing nothing newer. */
  predicate StandsFor(row: Row, m: MessageRecord) {
    && row.entry.source == m.id && row.entry.ordinal == 0 && row.entry.position == m.id && row.entry.journalOrder == 0
    && row.entry.timestamp == m.timestamp && row.entry.unit == Message(m.id)
    && row.entry.charged && row.entry.maxMessageId == m.id && row.entry.spans == []
  }

  /** Of this source the room holds the message's row and no other, or nothing if it is not shown. */
  ghost predicate HoldsMessage(units: Units, m: MessageRecord) {
    && (forall id | id in units && id.room == m.room && id.source == m.id :: id.ordinal == 0 && IsShown(m))
    && (IsShown(m) ==> RowId(m.room, m.id, 0) in units && StandsFor(units[RowId(m.room, m.id, 0)], m))
  }

  predicate RoomIsCurrent(ix: Index, room: string) {
    room in ix.rooms && ix.rooms[room].complete && ix.rooms[room].version == 1
  }

  /** A message is taken exactly when its room is indexed and it is not part of a run.  Then the room
      holds its row and no other of its source, none if it is an ask or an approval; every other row
      is as it was; and it is dirty no longer. */
  lemma TakenMessageIsStored(ix: Index, m: MessageRecord)
    ensures MaintainOrdinary(ix, m).Some? <==> RoomIsCurrent(ix, m.room) && !m.hasRunParent && !(m.kind == Run && m.hasRun)
    ensures MaintainOrdinary(ix, m).Some? ==>
              var after := MaintainOrdinary(ix, m).value;
              && HoldsMessage(after.units, m) && after.rooms == ix.rooms
              && (forall id: RowId | !(id.room == m.room && id.source == m.id) ::
                    (id in after.units <==> id in ix.units) && (id in ix.units ==> after.units[id] == ix.units[id]))
              && (forall d :: d in after.dirty <==> d in ix.dirty && d != DirtyId(m.room, m.id))
  {
  }

  // ---------------------------------------------------------------- the other writes

  /** A run that is still going has no row: its family's rows are removed as it changes, and every
      other row is as it was. */
  lemma RunningFamilyIsRemoved(ix: Index, room: string, root: int, message: int)
    ensures !RoomIsCurrent(ix, room) ==> Apply(ix, DoFamily(room, root, message)) == ix
    ensures RoomIsCurrent(ix, room) ==>
              var after := Apply(ix, DoFamily(room, root, message));
              && (forall id: RowId | id.room == room && id.source == root :: id !in after.units)
              && (forall id: RowId | !(id.room == room && id.source == root) ::
                    (id in after.units <==> id in ix.units) && (id in ix.units ==> after.units[id] == ix.units[id]))
              && (forall d :: d in after.dirty <==> d in ix.dirty && d != DirtyId(room, message))
              && after.rooms == ix.rooms
  {
  }

  /** An install leaves exactly the entries given in its room, complete and clean, and nothing else
      changed; it fails exactly when two entries have one key. */
  lemma InstallStoresExactly(ix: Index, room: string, floor: Option<int>, entries: seq<Entry>)
    ensures Install(ix, room, floor, entries).Some? <==> DistinctIds(entries)
    ensures DistinctIds(entries) ==>
              var after := Apply(ix, DoInstall(room, floor, entries));
              && (forall e :: e in entries <==> IdOf(room, e) in after.units && after.units[IdOf(room, e)].entry == e)
              && (forall id: RowId | id in after.units && id.room == room :: after.units[id].entry in entries)
              && (forall id: RowId | id.room != room ::
                    (id in after.units <==> id in ix.units) && (id in ix.units ==> after.units[id] == ix.units[id]))
              && RoomIsCurrent(after, room) && after.rooms[room].floor == floor
              && (forall r | r != room :: (r in after.rooms <==> r in ix.rooms) && (r in ix.rooms ==> after.rooms[r] == ix.rooms[r]))
              && (forall d :: d in after.dirty <==> d in ix.dirty && d.room != room)
  {
    var others := WithoutRoom(ix.units, room);
    InsertSucceeds(others, room, floor, entries);
    if DistinctIds(entries) {
      var u := Apply(ix, DoInstall(room, floor, entries)).units;
      Inserted(others, room, floor, entries, u);
      forall e ensures e in entries <==> IdOf(room, e) in u && u[IdOf(room, e)].entry == e {
        if e in entries { assert Holds(u, room, floor, e); }
      }
    }
  }

  /** A repair that succeeds clears the dirty marks it names, and only those. */
  lemma RepairClearsItsMarks(ix: Index, r: Replacement)
    requires ReplaceDirty(ix, r).Some?
    ensures forall d :: d in ReplaceDirty(ix, r).value.dirty <==> d in ix.dirty && !(d.room == r.room && d.message in r.dirty)
  {
  }

  /** A change of a message marks it dirty, and does nothing else. */
  lemma ChangeMarksTheMessage(ix: Index, room: string, message: int)
    ensures var after := Apply(ix, DoMark(room, message));
            && DirtyId(room, message) in after.dirty && after.units == ix.units && after.rooms == ix.rooms
            && (forall d :: d in after.dirty <==> d in ix.dirty || d == DirtyId(room, message))
  {
  }

  // ---------------------------------------------------------------- the page that shows it

  /** The row comes last of what a reader with this ceiling sees. */
  predicate IsNewest(order: seq<Row>, ceiling: int, row: Row) {
    var visible := Visible(order, ceiling);
    visible != [] && visible[|visible| - 1] == row
  }

  /** The newest page holds the newest row, whatever the limit. */
  lemma NewestPageHoldsTheNewest(order: seq<Row>, ceiling: int, limit: int, row: Row)
    requires Ascending(order) && 1 <= limit && IsNewest(order, ceiling, row)
    ensures SelectPage(order, ceiling, None, limit).Some?
    ensures var rows := SelectPage(order, ceiling, None, limit).value.rows;
            rows != [] && rows[|rows| - 1] == row
  {
    var visible := Visible(order, ceiling);
    SelectedPage(order, ceiling, None, limit);
    FilterTakes(visible, IsBelow(None), |visible|);
    assert ChargedCount([]) == 0;
  }

  /** A page reads its own rows and at most one charged row more than its limit. */
  lemma PageReadsLittle(order: seq<Row>, ceiling: int, before: Option<Cursor>, limit: int)
    requires 0 <= limit && CursorIsValid(order, ceiling, before)
    ensures var page := SelectPage(order, ceiling, before, limit).value;
            var charged := ChargedCount(Older(order, ceiling, before));
            page.rowsRead == |page.rows| + if limit < charged then limit + 1 else charged
  {
    NewestFirstAt(Filter(Older(order, ceiling, before), HasCharge()), limit + 1);
  }

  /** A message posted after everything the room holds: none of its rows needs a message as new, and
      none is later where rows go by time. */
  predicate IsPosted(ix: Index, m: MessageRecord) {
    forall id | id in ix.units && id.room == m.room ::
      && ix.units[id].entry.position < m.id && ix.units[id].entry.source < m.id
      && (Strict(m.id, FloorOf(ix, m.room)) || ix.units[id].entry.timestamp <= m.timestamp)
  }

  lemma PostedSortsLast(e: Entry, m: MessageRecord, floor: Option<int>)
    requires e.position < m.id && e.source < m.id && (Strict(m.id, floor) || e.timestamp <= m.timestamp)
    ensures Less(KeyOf(e, floor), KeyOf(OrdinaryEntry(m), floor))
  {
  }

  lemma LastOfOrder(order: seq<Row>, ceiling: int, row: Row)
    requires Ascending(order) && row in order && row.entry.maxMessageId <= ceiling
    requires forall r | r in order && r != row :: Less(r.key, row.key)
    ensures IsNewest(order, ceiling, row)
  {
    var visible := Visible(order, ceiling);
    FilterMembers(order, IsVisible(ceiling));
    FilterAscends(order, IsVisible(ceiling));
    assert row in visible;
    var k :| 0 <= k < |visible| && visible[k] == row;
    var last := visible[|visible| - 1];
    assert last in order;
    LessIsAsymmetric(last.key, row.key);
    LastIsGreatest(visible, k);
  }

  lemma LastIsGreatest(rows: seq<Row>, k: nat)
    requires Ascending(rows) && k < |rows|
    ensures rows[k] == rows[|rows| - 1] || Less(rows[k].key, rows[|rows| - 1].key)
  {
    if k < |rows| - 1 { assert Less(rows[k].key, rows[|rows| - 1].key); }
  }

  lemma LessIsAsymmetric(x: Key, y: Key)
    ensures !(Less(x, y) && Less(y, x))
  {
  }

  /** An ordinary message posted to a maintained room is the last row of the next page its readers
      fetch. */
  lemma PostedMessageIsServed(ix: Index, m: MessageRecord, order: seq<Row>, limit: int)
    requires IsMaintained(ix) && RoomIsCurrent(ix, m.room) && IsOrdinary(m) && IsShown(m) && IsPosted(ix, m)
    requires OrdersRoom(order, Apply(ix, DoOrdinary(m)).units, m.room) && 1 <= limit
    ensures SelectPage(order, m.id, None, limit).Some?
    ensures var rows := SelectPage(order, m.id, None, limit).value.rows;
            rows != [] && StandsFor(rows[|rows| - 1], m)
  {
    var after, floor := Apply(ix, DoOrdinary(m)), FloorOf(ix, m.room);
    TakenMessageIsStored(ix, m);
    StepMaintains(ix, DoOrdinary(m));
    RoomAscends(order, after, m.room);
    var mine := RowId(m.room, m.id, 0);
    var row := after.units[mine];
    assert Keyed(after.units, m.room, FloorOf(after, m.room)) && FloorOf(after, m.room) == floor;
    assert row.entry == OrdinaryEntry(m);
    forall r | r in order && r != row ensures Less(r.key, row.key) {
      var i :| 0 <= i < |order| && order[i] == r;
      var id := IdOf(m.room, order[i].entry);
      assert after.units[id] == r && id != mine;
      assert id in ix.units && ix.units[id] == r;
      PostedSortsLast(r.entry, m, floor);
    }
    LastOfOrder(order, m.id, row);
    NewestPageHoldsTheNewest(order, m.id, limit, row);
  }

  // ---------------------------------------------------------------- over runs

  /** The write can change what the room stores of this source. */
  predicate Writes(op: Op, room: string, source: int) {
    match op
    case DoInstall(r, _, _) => r == room
    case DoReplace(r) => r.room == room && (source in r.ordinary + r.roots || exists e :: e in r.entries && e.source == source)
    case DoOrdinary(m) => m.room == room && m.id == source
    case DoFamily(r, root, _) => r == room && root == source
    case DoMark(_, _) => false
  }

  /** Both hold the same entries of this source; keys may differ. */
  ghost predicate SameEntries(u: Units, v: Units, room: string, source: int) {
    forall id: RowId | id.room == room && id.source == source ::
      (id in u <==> id in v) && (id in u && id in v ==> u[id].entry == v[id].entry)
  }

  lemma UnwrittenIsKept(ix: Index, op: Op, room: string, source: int)
    requires !Writes(op, room, source)
    ensures SameEntries(ix.units, Apply(ix, op).units, room, source)
  {
    forall id: RowId | id.room == room && id.source == source
      ensures id in ix.units <==> id in Apply(ix, op).units
      ensures id in ix.units && id in Apply(ix, op).units ==> ix.units[id].entry == Apply(ix, op).units[id].entry
    {
      match op
      case DoInstall(r, floor, entries) =>
        if Install(ix, r, floor, entries).Some? { InsertKeeps(WithoutRoom(ix.units, r), r, floor, entries, id); }
      case DoReplace(r) =>
        if ReplaceDirty(ix, r).Some? {
          if id in ix.units { ReplaceStoresExactly(ix, r, id, ix.units[id].entry); }
          if id in Apply(ix, op).units { ReplaceStoresExactly(ix, r, id, Apply(ix, op).units[id].entry); }
        }
      case _ =>
    }
  }

  predicate NoneWrites(ops: seq<Op>, room: string, source: int) {
    forall i | 0 <= i < |ops| :: !Writes(ops[i], room, source)
  }

  lemma {:induction false} UnwrittenStays(ix: Index, ops: seq<Op>, room: string, source: int)
    requires NoneWrites(ops, room, source)
    ensures SameEntries(ix.units, RunOps(ix, ops).units, room, source)
    decreases |ops|
  {
    if ops != [] {
      assert !Writes(ops[0], room, source);
      UnwrittenIsKept(ix, ops[0], room, source);
      assert forall i | 0 <= i < |ops| - 1 :: ops[1..][i] == ops[i + 1];
      UnwrittenStays(Apply(ix, ops[0]), ops[1..], room, source);
    }
  }

  /** In every run, what a room holds of a message is its last version that was taken: until
      something else writes that source, exactly its row, or nothing if it is not shown. */
  lemma LastVersionIsHeld(ix: Index, ops: seq<Op>, m: MessageRecord, later: seq<Op>)
    requires MaintainOrdinary(RunOps(ix, ops), m).Some? && NoneWrites(later, m.room, m.id)
    ensures HoldsMessage(RunOps(RunOps(ix, ops + [DoOrdinary(m)]), later).units, m)
  {
    RunsOn(ix, ops, DoOrdinary(m));
    TakenMessageIsStored(RunOps(ix, ops), m);
    UnwrittenStays(RunOps(ix, ops + [DoOrdinary(m)]), later, m.room, m.id);
  }

  lemma {:induction false} RunsOn(ix: Index, ops: seq<Op>, op: Op)
    ensures RunOps(ix, ops + [op]) == Apply(RunOps(ix, ops), op)
    decreases |ops|
  {
    if ops == [] {
      assert [] + [op] == [op] && [op][1..] == [];
    } else {
      assert (ops + [op])[0] == ops[0] && (ops + [op])[1..] == ops[1..] + [op];
      RunsOn(Apply(ix, ops[0]), ops[1..], op);
    }
  }

  // ---------------------------------------------------------------- a whole room

  /** The last version of every message. */
  function Latest(ms: seq<MessageRecord>): map<int, MessageRecord> {
    if ms == [] then map[] else Latest(ms[..|ms| - 1])[ms[|ms| - 1].id := ms[|ms| - 1]]
  }

  /** The room holds one row for every message whose last version is shown, and nothing else. */
  ghost predicate RoomHolds(units: Units, room: string, latest: map<int, MessageRecord>) {
    && (forall id | id in units && id.room == room ::
          id.ordinal == 0 && id.source in latest && IsShown(latest[id.source]) && StandsFor(units[id], latest[id.source]))
    && (forall s | s in latest && IsShown(latest[s]) :: RowId(room, s, 0) in units)
  }

  function Written(ms: seq<MessageRecord>): seq<Op> {
    if ms == [] then [] else Written(ms[..|ms| - 1]) + [DoOrdinary(ms[|ms| - 1])]
  }

  predicate AreOrdinaryIn(ms: seq<MessageRecord>, room: string) {
    forall m | m in ms :: m.room == room && IsOrdinary(m)
  }

  lemma MessageJoins(ix: Index, room: string, latest: map<int, MessageRecord>, m: MessageRecord)
    requires RoomHolds(ix.units, room, latest) && RoomIsCurrent(ix, room) && m.room == room && IsOrdinary(m)
    ensures RoomHolds(Apply(ix, DoOrdinary(m)).units, room, latest[m.id := m]) && RoomIsCurrent(Apply(ix, DoOrdinary(m)), room)
  {
    TakenMessageIsStored(ix, m);
    var after := Apply(ix, DoOrdinary(m));
    forall s | s in latest[m.id := m] && IsShown(latest[m.id := m][s]) ensures RowId(room, s, 0) in after.units {
      if s != m.id { assert RowId(room, s, 0) in ix.units; }
    }
  }

  /** After any messages written to a room that was indexed when it was empty, it holds exactly the
      last version of each that is shown. */
  lemma {:induction false} RoomHoldsTheLastVersions(ix: Index, room: string, floor: Option<int>, ms: seq<MessageRecord>)
    requires AreOrdinaryIn(ms, room)
    ensures var end := RunOps(Apply(ix, DoInstall(room, floor, [])), Written(ms));
            RoomHolds(end.units, room, Latest(ms)) && RoomIsCurrent(end, room)
  {
    var start := Apply(ix, DoInstall(room, floor, []));
    if ms != [] {
      var most, m := ms[..|ms| - 1], ms[|ms| - 1];
      assert m in ms;
      RoomHoldsTheLastVersions(ix, room, floor, most);
      RunsOn(start, Written(most), DoOrdinary(m));
      MessageJoins(RunOps(start, Written(most)), room, Latest(most), m);
    }
  }
}
