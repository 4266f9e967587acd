/** The write-maintained transcript index as values
    (`packages/switchboard/src/transcript-history-index.ts`).

    A row is stored with the key it is ordered by.  The key depends on the room's continuation
    floor, which moves, so stored keys can go stale: what the operations must keep is that
    every stored key is the one a rebuild would compute. */
module TranscriptIndexModel {
  import opened Basics
  import opened TranscriptHistory

  const INDEX_VERSION: int := 1

  datatype Span = Span(index: nat, offset: nat, length: nat)

  datatype Entry = Entry(
    source: int,
    ordinal: int,
    position: int,
    journalOrder: int,
    timestamp: real,
    unit: Unit,
    charged: bool,
    maxMessageId: int,
    spans: seq<Span>)

  /** The five order columns. */
  datatype Key = Key(group: int, a: real, b: int, c: int, d: int)

  datatype Row = Row(entry: Entry, key: Key)

  /** The primary key of the unit table. */
  datatype RowId = RowId(room: string, source: int, ordinal: int)

  datatype RoomRow = RoomRow(version: int, complete: bool, floor: Option<int>)

  datatype RoomState = RoomState(complete: bool, floor: Option<int>)

  datatype DirtyId = DirtyId(room: string, message: int)

  type Units = map<RowId, Row>

  datatype Index = Index(units: Units, rooms: map<string, RoomRow>, dirty: set<DirtyId>)

  // ---------------------------------------------------------------- keys

  predicate Strict(position: int, floor: Option<int>) {
    floor.Some? && floor.value <= position
  }

  function StrictKey(e: Entry): Key {
    Key(1, e.position as real, e.journalOrder, e.source, e.ordinal)
  }

  /** `tuple`. */
  function KeyOf(e: Entry, floor: Option<int>): Key {
    if Strict(e.position, floor) then StrictKey(e)
    else Key(0, e.timestamp, e.source, e.ordinal, 0)
  }

  function IdOf(room: string, e: Entry): RowId {
    RowId(room, e.source, e.ordinal)
  }

  function RowOf(e: Entry, floor: Option<int>): Row {
    Row(e, KeyOf(e, floor))
  }

  /** Row-value comparison, column by column. */
  predicate Less(x: Key, y: Key) {
    || x.group < y.group
    || (x.group == y.group && (
        || x.a < y.a
        || (x.a == y.a && (
            || x.b < y.b
            || (x.b == y.b && (x.c < y.c || (x.c == y.c && x.d < y.d)))))))
  }

  // ---------------------------------------------------------------- operations

  /** `roomState`. */
  function StateOf(ix: Index, room: string): RoomState {
    if room !in ix.rooms then RoomState(false, None)
    else
      var r := ix.rooms[room];
      RoomState(r.version == INDEX_VERSION && r.complete, r.floor)
  }

  function WithoutRoom(units: Units, room: string): Units {
    map id | id in units && id.room != room :: units[id]
  }

  function WithoutSources(units: Units, room: string, sources: set<int>): Units {
    map id | id in units && !(id.room == room && id.source in sources) :: units[id]
  }

  function CleanRoom(dirty: set<DirtyId>, room: string): set<DirtyId> {
    set d | d in dirty && d.room != room
  }

  function CleanMessages(dirty: set<DirtyId>, room: string, messages: set<int>): set<DirtyId> {
    set d | d in dirty && !(d.room == room && d.message in messages)
  }

  /** `insertEntries`: nothing if a primary key is taken, which makes the statement throw. */
  function InsertEntries(units: Units, room: string, floor: Option<int>, entries: seq<Entry>): Option<Units>
    decreases |entries|
  {
    if entries == [] then Some(units)
    else if IdOf(room, entries[0]) in units then None
    else InsertEntries(units[IdOf(room, entries[0]) := RowOf(entries[0], floor)], room, floor, entries[1..])
  }

  /** The UPDATE that re-keys the suffix from `floor` on. */
  function Rekey(units: Units, room: string, floor: int): Units {
    map id | id in units ::
      if id.room == room && floor <= units[id].entry.position
      then Row(units[id].entry, StrictKey(units[id].entry)) else units[id]
  }

  predicate Falls(floor: Option<int>, previous: Option<int>) {
    floor.Some? && (previous.None? || floor.value < previous.value)
  }

  function RekeyIfFalls(units: Units, room: string, floor: Option<int>, previous: Option<int>): Units {
    if Falls(floor, previous) then Rekey(units, room, floor.value) else units
  }

  /** `install`. */
  function Install(ix: Index, room: string, floor: Option<int>, entries: seq<Entry>): Option<Index> {
    var inserted := InsertEntries(WithoutRoom(ix.units, room), room, floor, entries);
    if inserted.None? then None
    else
      Some(Index(inserted.value, ix.rooms[room := RoomRow(INDEX_VERSION, true, floor)], CleanRoom(ix.dirty, room)))
  }

  /** The last UPDATE of `replaceDirty` reaches the room row only when it is current. */
  function SetFloor(ix: Index, room: string, floor: Option<int>): map<string, RoomRow> {
    if StateOf(ix, room).complete then ix.rooms[room := RoomRow(INDEX_VERSION, true, floor)] else ix.rooms
  }

  datatype Replacement = Replacement(
    room: string,
    floor: Option<int>,
    ordinary: seq<int>,
    roots: seq<int>,
    entries: seq<Entry>,
    dirty: seq<int>)

  function Elements(s: seq<int>): (r: set<int>)
    ensures forall x :: x in r <==> x in s
  {
    set x | x in s
  }

  /** `replaceDirty`. */
  function ReplaceDirty(ix: Index, r: Replacement): Option<Index> {
    var previous := StateOf(ix, r.room).floor;
    var kept := WithoutSources(ix.units, r.room, Elements(r.ordinary + r.roots));
    var inserted := InsertEntries(kept, r.room, r.floor, r.entries);
    if inserted.None? then None
    else
      Some(Index(
             RekeyIfFalls(inserted.value, r.room, r.floor, previous),
             SetFloor(ix, r.room, r.floor),
             CleanMessages(ix.dirty, r.room, Elements(r.dirty))))
  }

  datatype MessageKind = Ask | Approval | Run | Other

  datatype MessageRecord = MessageRecord(
    room: string,
    id: int,
    timestamp: real,
    kind: MessageKind,
    hasRun: bool,
    hasRunParent: bool)

  function OrdinaryEntry(m: MessageRecord): Entry {
    Entry(m.id, 0, m.id, 0, m.timestamp, Message(m.id), true, m.id, [])
  }

  predicate IsOrdinary(m: MessageRecord) {
    !m.hasRunParent && !(m.kind.Run? && m.hasRun)
  }

  /** `maintainOrdinaryMessage`: the index it leaves, if it took the message. */
  function MaintainOrdinary(ix: Index, m: MessageRecord): Option<Index> {
    var state := StateOf(ix, m.room);
    if !state.complete || !IsOrdinary(m) then None
    else
      var kept := WithoutSources(ix.units, m.room, {m.id});
      Some(Index(
             if m.kind.Ask? || m.kind.Approval? then kept
             else kept[IdOf(m.room, OrdinaryEntry(m)) := RowOf(OrdinaryEntry(m), state.floor)],
             ix.rooms,
             CleanMessages(ix.dirty, m.room, {m.id})))
  }

  /** `maintainMutableFamily`. */
  function MaintainFamily(ix: Index, room: string, root: int, message: int): Index {
    if !StateOf(ix, room).complete then ix
    else
      Index(
        WithoutSources(ix.units, room, {root}),
        ix.rooms,
        CleanMessages(ix.dirty, room, {message}))
  }

  /** The triggers on the message table. */
  function MarkDirty(ix: Index, room: string, message: int): Index {
    Index(ix.units, ix.rooms, ix.dirty + {DirtyId(room, message)})
  }

  // ---------------------------------------------------------------- the property

  function FloorOf(ix: Index, room: string): Option<int> {
    StateOf(ix, room).floor
  }

  /** Every stored key of the room is the key a rebuild at its floor would store. */
  predicate Keyed(units: Units, room: string, floor: Option<int>) {
    forall id | id in units && id.room == room ::
      units[id].key == KeyOf(units[id].entry, floor) && id == IdOf(room, units[id].entry)
  }

  ghost predicate AllKeyed(ix: Index) {
    forall room :: Keyed(ix.units, room, FloorOf(ix, room))
  }

  datatype Op =
    | DoInstall(room: string, floor: Option<int>, entries: seq<Entry>)
    | DoReplace(replacement: Replacement)
    | DoOrdinary(message: MessageRecord)
    | DoFamily(room: string, root: int, messageId: int)
    | DoMark(room: string, messageId: int)

  /** A throwing transaction leaves the index as it was. */
  function Apply(ix: Index, op: Op): Index {
    match op
    case DoInstall(room, floor, entries) =>
      var r := Install(ix, room, floor, entries);
      if r.Some? then r.value else ix
    case DoReplace(replacement) =>
      var r := ReplaceDirty(ix, replacement);
      if r.Some? then r.value else ix
    case DoOrdinary(message) =>
      var r := MaintainOrdinary(ix, message);
      if r.Some? then r.value else ix
    case DoFamily(room, root, message) => MaintainFamily(ix, room, root, message)
    case DoMark(room, message) => MarkDirty(ix, room, message)
  }

  function RunOps(ix: Index, ops: seq<Op>): Index
    decreases |ops|
  {
    if ops == [] then ix else RunOps(Apply(ix, ops[0]), ops[1..])
  }
}
