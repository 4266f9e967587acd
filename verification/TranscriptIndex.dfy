/** `TranscriptHistoryIndex`: the class over its three tables.  Every method is proved against
    the function of the same name, and a statement that throws rolls its transaction back. */
module TranscriptIndex {
  import opened Basics
  import opened TranscriptHistory
  import opened TranscriptIndexModel
  import opened TranscriptPaging

  class TranscriptHistoryIndex {
    var units: Units
    var rooms: map<string, RoomRow>
    var dirty: set<DirtyId>

    /** The key columns of a row are the ones its entry has. */
    predicate Valid()
      reads this`units
    {
      forall id | id in units :: id == IdOf(id.room, units[id].entry)
    }

    constructor ()
      ensures Valid() && View() == Index(map[], map[], {})
    {
      units, rooms, dirty := map[], map[], {};
    }

    function View(): Index
      reads this
    {
      Index(units, rooms, dirty)
    }

    method GetRoomState(room: string) returns (state: RoomState)
      ensures state == StateOf(View(), room)
    {
      if room in rooms {
        var row := rooms[room];
        state := RoomState(row.version == INDEX_VERSION && row.complete, row.floor);
      } else {
        state := RoomState(false, None);
      }
    }

    /** `ok` is false when an INSERT throws; the rows of this call inserted before it stay, as
        the transaction around it is what takes them back. */
    method InsertAll(room: string, floor: Option<int>, entries: seq<Entry>) returns (ok: bool)
      requires Valid()
      modifies this`units
      ensures Valid()
      ensures ok <==> InsertEntries(old(units), room, floor, entries).Some?
      ensures ok ==> Some(units) == InsertEntries(old(units), room, floor, entries)
    {
      ok := true;
      for i := 0 to |entries|
        invariant Valid()
        invariant InsertEntries(old(units), room, floor, entries) == InsertEntries(units, room, floor, entries[i..])
      {
        var id := IdOf(room, entries[i]);
        assert entries[i..][0] == entries[i] && entries[i..][1..] == entries[i + 1..];
        if id in units {
          return false;
        }
        units := units[id := RowOf(entries[i], floor)];
      }
    }

    method RemoveSources(room: string, sources: seq<int>)
      requires Valid()
      modifies this`units
      ensures Valid()
      ensures units == WithoutSources(old(units), room, Elements(sources))
    {
      for i := 0 to |sources|
        invariant Valid()
        invariant units == WithoutSources(old(units), room, Elements(sources[..i]))
      {
        units := map id | id in units && !(id.room == room && id.source == sources[i]) :: units[id];
        assert sources[..i + 1] == sources[..i] + [sources[i]];
      }
      assert sources[..|sources|] == sources;
    }

    method ClearDirty(room: string, messages: seq<int>)
      modifies this`dirty
      ensures dirty == CleanMessages(old(dirty), room, Elements(messages))
    {
      for i := 0 to |messages|
        invariant dirty == CleanMessages(old(dirty), room, Elements(messages[..i]))
      {
        dirty := dirty - {DirtyId(room, messages[i])};
        assert messages[..i + 1] == messages[..i] + [messages[i]];
      }
      assert messages[..|messages|] == messages;
    }

    method InstallRoom(room: string, floor: Option<int>, entries: seq<Entry>) returns (ok: bool)
      requires Valid()
      modifies this
      ensures Valid()
      ensures ok <==> Install(old(View()), room, floor, entries).Some?
      ensures View() == Apply(old(View()), DoInstall(room, floor, entries))
    {
      var before := units;
      units := map id | id in units && id.room != room :: units[id];
      ok := InsertAll(room, floor, entries);
      if !ok {
        units := before;
        return;
      }
      rooms := rooms[room := RoomRow(INDEX_VERSION, true, floor)];
      dirty := set d | d in dirty && d.room != room;
    }

    method Replace(r: Replacement) returns (ok: bool)
      requires Valid()
      modifies this
      ensures Valid()
      ensures ok <==> ReplaceDirty(old(View()), r).Some?
      ensures View() == Apply(old(View()), DoReplace(r))
    {
      var before := units;
      var state := GetRoomState(r.room);
      RemoveSources(r.room, r.ordinary + r.roots);
      ok := InsertAll(r.room, r.floor, r.entries);
      if !ok {
        units := before;
        return;
      }
      if r.floor.Some? && (state.floor.None? || r.floor.value < state.floor.value) {
        units := map id | id in units ::
          if id.room == r.room && r.floor.value <= units[id].entry.position
          then Row(units[id].entry, StrictKey(units[id].entry)) else units[id];
      }
      if r.room in rooms && rooms[r.room].version == INDEX_VERSION && rooms[r.room].complete {
        rooms := rooms[r.room := RoomRow(rooms[r.room].version, true, r.floor)];
      }
      ClearDirty(r.room, r.dirty);
    }

    method MaintainOrdinaryMessage(m: MessageRecord) returns (maintained: bool)
      requires Valid()
      modifies this
      ensures Valid()
      ensures maintained <==> MaintainOrdinary(old(View()), m).Some?
      ensures View() == Apply(old(View()), DoOrdinary(m))
    {
      var state := GetRoomState(m.room);
      if !state.complete {
        return false;
      }
      if m.hasRunParent || (m.kind.Run? && m.hasRun) {
        return false;
      }
      RemoveSources(m.room, [m.id]);
      assert Elements([m.id]) == {m.id};
      if !m.kind.Ask? && !m.kind.Approval? {
        var entry := Entry(m.id, 0, m.id, 0, m.timestamp, Message(m.id), true, m.id, []);
        assert [entry][1..] == [];
        ghost var kept := units;
        var inserted := InsertAll(m.room, state.floor, [entry]);
        assert inserted && units == kept[IdOf(m.room, entry) := RowOf(entry, state.floor)];
      }
      ClearDirty(m.room, [m.id]);
      maintained := true;
    }

    method MaintainMutableFamily(room: string, root: int, messageId: int)
      requires Valid()
      modifies this
      ensures Valid()
      ensures View() == Apply(old(View()), DoFamily(room, root, messageId))
    {
      var state := GetRoomState(room);
      if !state.complete {
        return;
      }
      RemoveSources(room, [root]);
      ClearDirty(room, [messageId]);
      assert Elements([root]) == {root} && Elements([messageId]) == {messageId};
    }

    method InsertByKey(order: seq<Row>, row: Row) returns (r: seq<Row>, k: nat)
      requires WeaklyOrdered(order)
      ensures k <= |order| && r == order[..k] + [row] + order[k..] && WeaklyOrdered(r)
    {
      k := 0;
      while k < |order| && !Less(row.key, order[k].key)
        invariant 0 <= k <= |order| && forall i | 0 <= i < k :: !Less(row.key, order[i].key)
      {
        k := k + 1;
      }
      r := order[..k] + [row] + order[k..];
    }

    /** What ORDER BY returns of a room; rows with equal keys come in no particular order. */
    method OrderedRows(room: string) returns (order: seq<Row>)
      requires Valid()
      ensures OrdersRoom(order, units, room)
    {
      order := [];
      var left := set id | id in units && id.room == room;
      ghost var ids: seq<RowId> := [];
      while left != {}
        invariant WeaklyOrdered(order) && NoRepeats(ids) && AreRowsAt(order, ids, units, room)
        invariant forall id :: id in left || id in ids <==> id in units && id.room == room
        invariant forall id | id in ids :: id !in left
        decreases |left|
      {
        var id :| id in left;
        var row, k := units[id], 0;
        ghost var was := order;
        order, k := InsertByKey(order, row);
        NoRepeatsInsert(ids, k, id);
        RowsAtInsert(was, ids, units, room, k, id);
        ids := ids[..k] + [id] + ids[k..];
        left := left - {id};
      }
      RowsOrderRoom(order, ids, units, room);
    }

    /** `selectPage`.  When the room's keys are right there is one order to read the rows in, and
        the page is the one that order gives. */
    method QueryPage(room: string, ceiling: int, before: Option<Cursor>, limit: int) returns (page: Option<Page>)
      requires Valid()
      ensures exists order | OrdersRoom(order, units, room) :: page == SelectPage(order, ceiling, before, limit)
      ensures Keyed(units, room, FloorOf(View(), room)) ==>
                forall order | OrdersRoom(order, units, room) :: page == SelectPage(order, ceiling, before, limit)
    {
      var order := OrderedRows(room);
      OneOrder(room, order);
      var visible := Filter(order, IsVisible(ceiling));
      var boundary: Option<Key> := None;
      if before.Some? {
        var found := Filter(visible, IsAt(before.value));
        if |found| == 0 {
          return None;
        }
        boundary := Some(found[0].key);
      }
      var candidates := Filter(visible, IsBelow(boundary));
      var charged := NewestFirst(Filter(candidates, HasCharge()), limit + 1);
      var preceding: Option<Key> := None;
      if 0 <= limit < |charged| {
        preceding := Some(charged[limit].key);
      }
      var rows := Filter(candidates, IsAbove(preceding));
      page := Some(Page(rows, preceding.Some?, |charged| + |rows|));
    }

    lemma OneOrder(room: string, order: seq<Row>)
      requires OrdersRoom(order, units, room)
      ensures Keyed(units, room, FloorOf(View(), room)) ==>
                forall other | OrdersRoom(other, units, room) :: other == order
    {
      if Keyed(units, room, FloorOf(View(), room)) {
        KeyedOrderIsStrict(order, units, room, FloorOf(View(), room));
        forall other | OrdersRoom(other, units, room) ensures other == order {
          KeyedOrderIsStrict(other, units, room, FloorOf(View(), room));
          forall row ensures row in other <==> row in order {
            SameMembers(room, order, other, row);
            SameMembers(room, other, order, row);
          }
          OrderIsUnique(other, order);
        }
      }
    }

    lemma SameMembers(room: string, a: seq<Row>, b: seq<Row>, row: Row)
      requires OrdersRoom(a, units, room) && OrdersRoom(b, units, room)
      ensures row in a ==> row in b
    {
      if row in a {
        var i :| 0 <= i < |a| && a[i] == row;
        assert units[IdOf(room, a[i].entry)] == row;
      }
    }
  }

  predicate NoRepeats(ids: seq<RowId>) {
    forall i, j | 0 <= i < j < |ids| :: ids[i] != ids[j]
  }

  lemma NoRepeatsInsert(ids: seq<RowId>, k: nat, id: RowId)
    requires NoRepeats(ids) && id !in ids && k <= |ids|
    ensures NoRepeats(ids[..k] + [id] + ids[k..])
    ensures forall x :: x in ids[..k] + [id] + ids[k..] <==> x in ids || x == id
  {
    var r := ids[..k] + [id] + ids[k..];
    assert ids == ids[..k] + ids[k..];
    forall i, j | 0 <= i < j < |r| ensures r[i] != r[j] {
      assert i < k ==> r[i] == ids[i];
      assert i > k ==> r[i] == ids[i - 1];
      assert j < k ==> r[j] == ids[j];
      assert j > k ==> r[j] == ids[j - 1];
    }
  }

  predicate WeaklyOrdered(order: seq<Row>) {
    forall i, j | 0 <= i < j < |order| :: !Less(order[j].key, order[i].key)
  }

  predicate AreRowsAt(order: seq<Row>, ids: seq<RowId>, units: Units, room: string) {
    && |ids| == |order|
    && forall i | 0 <= i < |ids| :: ids[i] in units && ids[i].room == room && order[i] == units[ids[i]]
  }

  lemma RowsAtInsert(order: seq<Row>, ids: seq<RowId>, units: Units, room: string, k: nat, id: RowId)
    requires AreRowsAt(order, ids, units, room) && id in units && id.room == room && k <= |ids|
    ensures AreRowsAt(order[..k] + [units[id]] + order[k..], ids[..k] + [id] + ids[k..], units, room)
  {
  }

  lemma RowsOrderRoom(order: seq<Row>, ids: seq<RowId>, units: Units, room: string)
    requires WeaklyOrdered(order) && NoRepeats(ids) && AreRowsAt(order, ids, units, room)
    requires forall id | id in units :: id == IdOf(id.room, units[id].entry)
    requires forall id | id in units && id.room == room :: id in ids
    ensures OrdersRoom(order, units, room)
  {
    assert forall i | 0 <= i < |order| :: IdOf(room, order[i].entry) == ids[i];
    forall id | id in units && id.room == room ensures units[id] in order {
      var i :| 0 <= i < |ids| && ids[i] == id;
      assert order[i] == units[id];
    }
  }
}
