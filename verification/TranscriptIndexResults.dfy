/** Incremental maintenance of the transcript index refines a rebuild. */
module TranscriptIndexResults {
  import opened Basics
  import opened TranscriptHistory
  import opened TranscriptIndexModel

  predicate DistinctIds(entries: seq<Entry>) {
    forall i, j | 0 <= i < j < |entries| :: IdOf("", entries[i]) != IdOf("", entries[j])
  }

  predicate NoneStored(units: Units, room: string, entries: seq<Entry>) {
    forall i | 0 <= i < |entries| :: IdOf(room, entries[i]) !in units
  }

  predicate Holds(units: Units, room: string, floor: Option<int>, e: Entry) {
    IdOf(room, e) in units && units[IdOf(room, e)] == RowOf(e, floor)
  }

  /** The insert succeeds exactly when no key is taken, by a stored row or by another entry. */
  lemma {:induction false} InsertSucceeds(units: Units, room: string, floor: Option<int>, entries: seq<Entry>)
    ensures InsertEntries(units, room, floor, entries).Some? <==>
              NoneStored(units, room, entries) && DistinctIds(entries)
    decreases |entries|
  {
    if entries != [] && IdOf(room, entries[0]) !in units {
      var rest := entries[1..];
      var first := units[IdOf(room, entries[0]) := RowOf(entries[0], floor)];
      InsertSucceeds(first, room, floor, rest);
      assert forall i | 0 <= i < |rest| :: rest[i] == entries[i + 1];
      assert forall i | 0 < i < |entries| :: entries[i] == rest[i - 1];
      assert DistinctIds(entries) <==> DistinctIds(rest) && forall i | 0 <= i < |rest| :: IdOf("", rest[i]) != IdOf("", entries[0]);
      forall i | 0 <= i < |rest| ensures IdOf(room, rest[i]) == IdOf(room, entries[0]) <==> IdOf("", rest[i]) == IdOf("", entries[0]) {
      }
    }
  }

  /** What a successful insert leaves: every old row, and the entries keyed by `floor`. */
  lemma {:induction false} Inserted(units: Units, room: string, floor: Option<int>, entries: seq<Entry>, u: Units)
    requires InsertEntries(units, room, floor, entries) == Some(u)
    ensures forall id | id in units :: id in u && u[id] == units[id]
    ensures forall e | e in entries :: Holds(u, room, floor, e)
    ensures forall id | id in u && id !in units :: u[id].entry in entries && id == IdOf(room, u[id].entry)
    decreases |entries|
  {
    if entries != [] {
      var first := units[IdOf(room, entries[0]) := RowOf(entries[0], floor)];
      Inserted(first, room, floor, entries[1..], u);
      forall e | e in entries ensures Holds(u, room, floor, e) {
        if e != entries[0] { assert e in entries[1..]; }
      }
    }
  }

  // ---------------------------------------------------------------- rebuilding

  /** `entries` lists the room's entries, each once. */
  ghost predicate ListsRoom(entries: seq<Entry>, units: Units, room: string) {
    && DistinctIds(entries)
    && (forall e | e in entries :: IdOf(room, e) in units && units[IdOf(room, e)].entry == e)
    && (forall id | id in units && id.room == room :: units[id].entry in entries)
  }

  /** Rebuilding a room from the entries it stores changes no row, if and only if its keys are
      the ones its floor gives. */
  lemma RebuildStoresTheSame(ix: Index, room: string, entries: seq<Entry>)
    requires ListsRoom(entries, ix.units, room)
    requires forall id | id in ix.units && id.room == room :: id == IdOf(room, ix.units[id].entry)
    ensures Install(ix, room, FloorOf(ix, room), entries).Some?
    ensures Install(ix, room, FloorOf(ix, room), entries).value.units == ix.units <==>
              Keyed(ix.units, room, FloorOf(ix, room))
  {
    var floor := FloorOf(ix, room);
    var others := WithoutRoom(ix.units, room);
    InsertSucceeds(others, room, floor, entries);
    var rebuilt := InsertEntries(others, room, floor, entries).value;
    Inserted(others, room, floor, entries, rebuilt);
    forall id ensures id in rebuilt <==> id in ix.units {
      if id in ix.units && id.room == room {
        assert Holds(rebuilt, room, floor, ix.units[id].entry);
      }
    }
    forall id | id in ix.units && id.room == room
      ensures rebuilt[id] == RowOf(ix.units[id].entry, floor)
    {
      assert Holds(rebuilt, room, floor, ix.units[id].entry);
    }
    if Keyed(ix.units, room, floor) {
      forall id | id in ix.units ensures rebuilt[id] == ix.units[id] {
        if id.room != room { assert id in others; }
      }
      assert rebuilt == ix.units;
    }
  }

  // ---------------------------------------------------------------- one operation

  lemma InstallKeys(ix: Index, room: string, floor: Option<int>, entries: seq<Entry>)
    requires AllKeyed(ix)
    ensures AllKeyed(Apply(ix, DoInstall(room, floor, entries)))
  {
    var r := Install(ix, room, floor, entries);
    if r.Some? {
      var others := WithoutRoom(ix.units, room);
      Inserted(others, room, floor, entries, r.value.units);
      forall x ensures Keyed(r.value.units, x, FloorOf(r.value, x)) {
        if x == room {
          InstalledRoom(others, room, floor, entries, r.value.units);
        } else {
          assert Keyed(ix.units, x, FloorOf(ix, x));
          assert Keyed(others, x, FloorOf(ix, x));
        }
      }
    }
  }

  lemma InstalledRoom(others: Units, room: string, floor: Option<int>, entries: seq<Entry>, u: Units)
    requires InsertEntries(others, room, floor, entries) == Some(u)
    requires Keyed(others, room, floor)
    ensures Keyed(u, room, floor)
  {
    Inserted(others, room, floor, entries, u);
    forall id | id in u && id.room == room
      ensures u[id].key == KeyOf(u[id].entry, floor) && id == IdOf(room, u[id].entry)
    {
      if id !in others { assert Holds(u, room, floor, u[id].entry); }
    }
  }

  /** The floor by which the rows that survive a replacement are keyed afterwards. */
  function SurvivorFloor(floor: Option<int>, previous: Option<int>): Option<int> {
    if Falls(floor, previous) then floor else previous
  }

  /** The floor the room row names afterwards. */
  function FloorAfter(ix: Index, r: Replacement): Option<int> {
    if StateOf(ix, r.room).complete then r.floor else FloorOf(ix, r.room)
  }

  /** No row is on different sides of the two floors. */
  predicate SameSide(positions: set<int>, f: Option<int>, g: Option<int>) {
    forall p | p in positions :: Strict(p, f) == Strict(p, g)
  }

  function Survivors(ix: Index, r: Replacement): set<int> {
    set id | id in ix.units && id.room == r.room && id.source !in Elements(r.ordinary + r.roots) ::
      ix.units[id].entry.position
  }

  function EntryPositions(entries: seq<Entry>): set<int> {
    set e | e in entries :: e.position
  }

  /** What the caller can check before the call. */
  predicate FloorMoveIsSafe(ix: Index, r: Replacement) {
    && SameSide(Survivors(ix, r), SurvivorFloor(r.floor, FloorOf(ix, r.room)), FloorAfter(ix, r))
    && SameSide(EntryPositions(r.entries), r.floor, FloorAfter(ix, r))
  }

  /** After the insert and the UPDATE, survivors are keyed by one floor and entries by another. */
  lemma ReplacedRow(ix: Index, r: Replacement, kept: Units, inserted: Units, id: RowId)
    requires kept == WithoutSources(ix.units, r.room, Elements(r.ordinary + r.roots))
    requires InsertEntries(kept, r.room, r.floor, r.entries) == Some(inserted)
    requires Keyed(ix.units, r.room, FloorOf(ix, r.room))
    requires id in inserted && id.room == r.room
    ensures id == IdOf(r.room, inserted[id].entry)
    ensures
      var u := RekeyIfFalls(inserted, r.room, r.floor, FloorOf(ix, r.room));
      && id in u && u[id].entry == inserted[id].entry
      && u[id].key == KeyOf(u[id].entry, if id in kept then SurvivorFloor(r.floor, FloorOf(ix, r.room)) else r.floor)
  {
    Inserted(kept, r.room, r.floor, r.entries, inserted);
    if id in kept {
      assert id in ix.units && inserted[id] == ix.units[id];
    } else {
      assert Holds(inserted, r.room, r.floor, inserted[id].entry);
    }
  }

  /** A replacement keeps the room's keys right exactly when no row lies between the floor it is
      keyed by and the floor the room row will name. */
  lemma ReplaceKeysTheRoom(ix: Index, r: Replacement)
    requires Keyed(ix.units, r.room, FloorOf(ix, r.room))
    requires ReplaceDirty(ix, r).Some?
    ensures FloorOf(ReplaceDirty(ix, r).value, r.room) == FloorAfter(ix, r)
    ensures Keyed(ReplaceDirty(ix, r).value.units, r.room, FloorAfter(ix, r)) <==> FloorMoveIsSafe(ix, r)
  {
    var kept := WithoutSources(ix.units, r.room, Elements(r.ordinary + r.roots));
    var inserted := InsertEntries(kept, r.room, r.floor, r.entries).value;
    if FloorMoveIsSafe(ix, r) {
      SafeMoveKeys(ix, r, kept, inserted);
    } else {
      UnsafeMoveBreaks(ix, r, kept, inserted);
    }
  }

  lemma SafeMoveKeys(ix: Index, r: Replacement, kept: Units, inserted: Units)
    requires kept == WithoutSources(ix.units, r.room, Elements(r.ordinary + r.roots))
    requires InsertEntries(kept, r.room, r.floor, r.entries) == Some(inserted)
    requires Keyed(ix.units, r.room, FloorOf(ix, r.room)) && FloorMoveIsSafe(ix, r)
    ensures Keyed(RekeyIfFalls(inserted, r.room, r.floor, FloorOf(ix, r.room)), r.room, FloorAfter(ix, r))
  {
    var u := RekeyIfFalls(inserted, r.room, r.floor, FloorOf(ix, r.room));
    Inserted(kept, r.room, r.floor, r.entries, inserted);
    forall id | id in u && id.room == r.room
      ensures u[id].key == KeyOf(u[id].entry, FloorAfter(ix, r)) && id == IdOf(r.room, u[id].entry)
    {
      assert id in inserted;
      ReplacedRow(ix, r, kept, inserted, id);
      if id in kept {
        assert ix.units[id].entry.position in Survivors(ix, r);
      } else {
        assert u[id].entry.position in EntryPositions(r.entries);
      }
    }
  }

  lemma UnsafeMoveBreaks(ix: Index, r: Replacement, kept: Units, inserted: Units)
    requires kept == WithoutSources(ix.units, r.room, Elements(r.ordinary + r.roots))
    requires InsertEntries(kept, r.room, r.floor, r.entries) == Some(inserted)
    requires Keyed(ix.units, r.room, FloorOf(ix, r.room)) && !FloorMoveIsSafe(ix, r)
    ensures !Keyed(RekeyIfFalls(inserted, r.room, r.floor, FloorOf(ix, r.room)), r.room, FloorAfter(ix, r))
  {
    Inserted(kept, r.room, r.floor, r.entries, inserted);
    InsertSucceeds(kept, r.room, r.floor, r.entries);
    var after := FloorAfter(ix, r);
    var survivors := SurvivorFloor(r.floor, FloorOf(ix, r.room));
    if !SameSide(Survivors(ix, r), survivors, after) {
      var p :| p in Survivors(ix, r) && Strict(p, survivors) != Strict(p, after);
      var id :| id in ix.units && id.room == r.room && id.source !in Elements(r.ordinary + r.roots) && ix.units[id].entry.position == p;
      ReplacedRow(ix, r, kept, inserted, id);
    } else {
      var p :| p in EntryPositions(r.entries) && Strict(p, r.floor) != Strict(p, after);
      var e :| e in r.entries && e.position == p;
      assert Holds(inserted, r.room, r.floor, e);
      ReplacedRow(ix, r, kept, inserted, IdOf(r.room, e));
    }
  }

  /** Whatever happens to the keys, the rows stored afterwards are the old ones of other sources
      and the entries given, and no others. */
  lemma ReplaceStoresExactly(ix: Index, r: Replacement, id: RowId, e: Entry)
    requires ReplaceDirty(ix, r).Some?
    ensures
      var u := ReplaceDirty(ix, r).value.units;
      var survives := !(id.room == r.room && (id.source in r.ordinary || id.source in r.roots));
      id in u && u[id].entry == e <==>
        (survives && id in ix.units && ix.units[id].entry == e) || (e in r.entries && id == IdOf(r.room, e))
  {
    var kept := WithoutSources(ix.units, r.room, Elements(r.ordinary + r.roots));
    var inserted := InsertEntries(kept, r.room, r.floor, r.entries).value;
    Inserted(kept, r.room, r.floor, r.entries, inserted);
    InsertSucceeds(kept, r.room, r.floor, r.entries);
    if e in r.entries { assert Holds(inserted, r.room, r.floor, e); }
  }

  // ---------------------------------------------------------------- whole runs

  /** The caller keeps to current rooms and a floor that never rises. */
  predicate FloorFalls(ix: Index, op: Op) {
    op.DoReplace? ==>
      && StateOf(ix, op.replacement.room).complete
      && (Falls(op.replacement.floor, FloorOf(ix, op.replacement.room))
          || op.replacement.floor == FloorOf(ix, op.replacement.room))
  }

  predicate FloorsFall(ix: Index, ops: seq<Op>)
    decreases |ops|
  {
    ops == [] || (FloorFalls(ix, ops[0]) && FloorsFall(Apply(ix, ops[0]), ops[1..]))
  }

  /** The floor a repair computes: the lowest of the old one and the roots it found. */
  function NextFloor(floor: Option<int>, candidates: seq<int>): Option<int>
    decreases |candidates|
  {
    if candidates == [] then floor
    else
      var c := candidates[0];
      NextFloor(Some(if floor.None? || c <= floor.value then c else floor.value), candidates[1..])
  }

  /** So a repair of a current room never raises the floor. */
  lemma {:induction false} RepairsLowerTheFloor(floor: Option<int>, candidates: seq<int>)
    ensures Falls(NextFloor(floor, candidates), floor) || NextFloor(floor, candidates) == floor
    ensures NextFloor(floor, candidates).Some? ==>
              forall c | c in candidates :: NextFloor(floor, candidates).value <= c
    decreases |candidates|
  {
    if candidates != [] {
      var c := candidates[0];
      var next := Some(if floor.None? || c <= floor.value then c else floor.value);
      RepairsLowerTheFloor(next, candidates[1..]);
      var low := NextFloor(floor, candidates);
      assert low == NextFloor(next, candidates[1..]) && low.Some? && low.value <= next.value <= c;
      assert forall x | x in candidates :: x == c || x in candidates[1..];
    }
  }

  lemma FallingFloorIsSafe(ix: Index, r: Replacement)
    requires FloorFalls(ix, DoReplace(r))
    ensures FloorMoveIsSafe(ix, r)
  {
  }

  lemma ReplaceKeys(ix: Index, r: Replacement)
    requires AllKeyed(ix) && FloorMoveIsSafe(ix, r)
    ensures AllKeyed(Apply(ix, DoReplace(r)))
  {
    var result := ReplaceDirty(ix, r);
    if result.Some? {
      var kept := WithoutSources(ix.units, r.room, Elements(r.ordinary + r.roots));
      var inserted := InsertEntries(kept, r.room, r.floor, r.entries).value;
      Inserted(kept, r.room, r.floor, r.entries, inserted);
      forall x ensures Keyed(result.value.units, x, FloorOf(result.value, x)) {
        assert Keyed(ix.units, x, FloorOf(ix, x));
        if x == r.room {
          ReplaceKeysTheRoom(ix, r);
        } else {
          assert FloorOf(result.value, x) == FloorOf(ix, x);
          assert Keyed(inserted, x, FloorOf(ix, x));
        }
      }
    }
  }

  lemma ApplyKeepsKeys(ix: Index, op: Op)
    requires AllKeyed(ix) && FloorFalls(ix, op)
    ensures AllKeyed(Apply(ix, op))
  {
    match op
    case DoInstall(room, floor, entries) => InstallKeys(ix, room, floor, entries);
    case DoReplace(r) =>
      FallingFloorIsSafe(ix, r);
      ReplaceKeys(ix, r);
    case DoOrdinary(m) =>
      var after := Apply(ix, op);
      forall x ensures Keyed(after.units, x, FloorOf(after, x)) {
        assert Keyed(ix.units, x, FloorOf(ix, x));
      }
    case DoFamily(_, _, _) =>
      var after := Apply(ix, op);
      forall x ensures Keyed(after.units, x, FloorOf(after, x)) {
        assert Keyed(ix.units, x, FloorOf(ix, x));
      }
    case DoMark(_, _) =>
      var after := Apply(ix, op);
      forall x ensures Keyed(after.units, x, FloorOf(after, x)) {
        assert Keyed(ix.units, x, FloorOf(ix, x));
      }
  }

  /** Any run of the index whose floors only fall stores in every room exactly the rows a rebuild
      from that room's entries would store. */
  lemma {:induction false} MaintenanceRefinesRebuild(ix: Index, ops: seq<Op>, room: string, entries: seq<Entry>)
    requires AllKeyed(ix) && FloorsFall(ix, ops)
    requires ListsRoom(entries, RunOps(ix, ops).units, room)
    ensures AllKeyed(RunOps(ix, ops))
    ensures
      var end := RunOps(ix, ops);
      var rebuilt := Install(end, room, FloorOf(end, room), entries);
      rebuilt.Some? && rebuilt.value.units == end.units
    decreases |ops|
  {
    if ops == [] {
      assert Keyed(ix.units, room, FloorOf(ix, room));
      RebuildStoresTheSame(ix, room, entries);
    } else {
      ApplyKeepsKeys(ix, ops[0]);
      MaintenanceRefinesRebuild(Apply(ix, ops[0]), ops[1..], room, entries);
    }
  }

  /** A floor that rises past a stored row leaves that row under its old key. */
  lemma RisingFloorLeavesAStaleKey() returns (ix: Index, r: Replacement)
    ensures AllKeyed(ix) && StateOf(ix, r.room).complete
    ensures ReplaceDirty(ix, r).Some? && !AllKeyed(ReplaceDirty(ix, r).value)
  {
    var e := Entry(5, 0, 5, 0, 0.0, Message(5), true, 5, []);
    ix := Index(map[IdOf("eng", e) := RowOf(e, Some(5))], map["eng" := RoomRow(INDEX_VERSION, true, Some(5))], {});
    r := Replacement("eng", Some(6), [], [], [], []);
    assert forall x :: x != "eng" ==> Keyed(ix.units, x, FloorOf(ix, x));
    assert Keyed(ix.units, "eng", FloorOf(ix, "eng"));
    assert ix.units[IdOf("eng", e)].entry.position in Survivors(ix, r);
    ReplaceKeysTheRoom(ix, r);
  }
}
