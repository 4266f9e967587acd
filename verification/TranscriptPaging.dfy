/** `selectPage` and the page built from it (`packages/switchboard/src/transcript-history-index.ts`,
    `packages/switchboard/src/transcript-history.ts`).

    A query sees a room as its rows in key order.  Under right keys that order is strict, so a
    cursor splits it in two, and the page built from the index is the page a scan of the whole
    room would build. */
module TranscriptPaging {
  import opened Basics
  import opened TranscriptHistory
  import opened TranscriptWindow
  import opened TranscriptIndexModel

  datatype Cursor = Cursor(source: int, ordinal: int)

  datatype Page = Page(rows: seq<Row>, hasMore: bool, rowsRead: nat)

  datatype UnitPage = UnitPage(units: seq<Unit>, hasMore: bool)

  // ---------------------------------------------------------------- the queries

  function Filter(rows: seq<Row>, p: Row -> bool): seq<Row> {
    if rows == [] then []
    else if p(rows[0]) then [rows[0]] + Filter(rows[1..], p)
    else Filter(rows[1..], p)
  }

  function IsVisible(ceiling: int): Row -> bool {
    (row: Row) => row.entry.maxMessageId <= ceiling
  }

  function IsBelow(key: Option<Key>): Row -> bool {
    (row: Row) => key.None? || Less(row.key, key.value)
  }

  function IsAbove(key: Option<Key>): Row -> bool {
    (row: Row) => key.None? || Less(key.value, row.key)
  }

  function HasCharge(): Row -> bool {
    (row: Row) => row.entry.charged
  }

  function IsAt(cursor: Cursor): Row -> bool {
    (row: Row) => row.entry.source == cursor.source && row.entry.ordinal == cursor.ordinal
  }

  /** ORDER BY … DESC LIMIT `limit`; a negative limit is none. */
  function NewestFirst(rows: seq<Row>, limit: int): seq<Row>
    decreases |rows|
  {
    if rows == [] || limit == 0 then []
    else [rows[|rows| - 1]] + NewestFirst(rows[..|rows| - 1], limit - 1)
  }

  function Visible(order: seq<Row>, ceiling: int): seq<Row> {
    Filter(order, IsVisible(ceiling))
  }

  predicate CursorIsValid(order: seq<Row>, ceiling: int, before: Option<Cursor>) {
    before.None? || Filter(Visible(order, ceiling), IsAt(before.value)) != []
  }

  function BoundaryKey(order: seq<Row>, ceiling: int, before: Option<Cursor>): Option<Key>
    requires CursorIsValid(order, ceiling, before)
  {
    if before.None? then None else Some(Filter(Visible(order, ceiling), IsAt(before.value))[0].key)
  }

  /** The rows a page is chosen from. */
  function Older(order: seq<Row>, ceiling: int, before: Option<Cursor>): seq<Row>
    requires CursorIsValid(order, ceiling, before)
  {
    Filter(Visible(order, ceiling), IsBelow(BoundaryKey(order, ceiling, before)))
  }

  /** `selectPage`; nothing stands for the error on a cursor that names no visible row. */
  function SelectPage(order: seq<Row>, ceiling: int, before: Option<Cursor>, limit: int): Option<Page> {
    if !CursorIsValid(order, ceiling, before) then None
    else
      var older := Older(order, ceiling, before);
      var charged := NewestFirst(Filter(older, HasCharge()), limit + 1);
      var preceding := if 0 <= limit < |charged| then Some(charged[limit].key) else None;
      var rows := Filter(older, IsAbove(preceding));
      Some(Page(rows, preceding.Some?, |charged| + |rows|))
  }

  lemma {:induction false} FilterMembers(rows: seq<Row>, p: Row -> bool)
    ensures forall x :: x in Filter(rows, p) <==> x in rows && p(x)
    ensures |Filter(rows, p)| <= |rows|
  {
    if rows != [] {
      FilterMembers(rows[1..], p);
      forall x ensures x in Filter(rows, p) <==> x in rows && p(x) {
        assert x in rows <==> x == rows[0] || x in rows[1..];
        if p(rows[0]) {
          assert x in Filter(rows, p) <==> x == rows[0] || x in Filter(rows[1..], p);
        }
      }
    }
  }

  // ---------------------------------------------------------------- order

  predicate Ascending(rows: seq<Row>) {
    forall i, j | 0 <= i < j < |rows| :: Less(rows[i].key, rows[j].key)
  }

  /** `order` is a way to list the rows of a room by key; ties may go either way. */
  ghost predicate OrdersRoom(order: seq<Row>, units: Units, room: string) {
    && (forall i, j | 0 <= i < j < |order| :: !Less(order[j].key, order[i].key))
    && (forall i | 0 <= i < |order| :: IdOf(room, order[i].entry) in units && units[IdOf(room, order[i].entry)] == order[i])
    && (forall i, j | 0 <= i < j < |order| :: IdOf(room, order[i].entry) != IdOf(room, order[j].entry))
    && (forall id | id in units && id.room == room :: units[id] in order)
  }

  /** The key order is the order of the comparator that sorts a scanned room. */
  lemma KeysOrderLikeTheComparator(x: Entry, y: Entry, floor: Option<int>)
    ensures Less(KeyOf(x, floor), KeyOf(y, floor)) <==> Precedes(x, y, floor)
    ensures IdOf("", x) != IdOf("", y) ==> Precedes(x, y, floor) || Precedes(y, x, floor)
  {
  }

  /** `compareEntries` is negative. */
  predicate Precedes(x: Entry, y: Entry, floor: Option<int>) {
    var xStrict, yStrict := Strict(x.position, floor), Strict(y.position, floor);
    if xStrict != yStrict then yStrict
    else if xStrict then
      if x.position != y.position then x.position < y.position
      else if x.journalOrder != y.journalOrder then x.journalOrder < y.journalOrder
      else if x.source != y.source then x.source < y.source
      else x.ordinal < y.ordinal
    else
      if x.timestamp != y.timestamp then x.timestamp < y.timestamp
      else if x.source != y.source then x.source < y.source
      else x.ordinal < y.ordinal
  }

  /** Right keys are distinct, so they leave no ties. */
  lemma KeyedOrderIsStrict(order: seq<Row>, units: Units, room: string, floor: Option<int>)
    requires OrdersRoom(order, units, room) && Keyed(units, room, floor)
    ensures Ascending(order)
  {
    forall i, j | 0 <= i < j < |order| ensures Less(order[i].key, order[j].key) {
      var x, y := order[i].entry, order[j].entry;
      assert units[IdOf(room, x)] == order[i] && units[IdOf(room, y)] == order[j];
      assert order[i].key == KeyOf(x, floor) && order[j].key == KeyOf(y, floor);
      assert IdOf("", x) != IdOf("", y);
      KeysOrderLikeTheComparator(x, y, floor);
      KeysOrderLikeTheComparator(y, x, floor);
    }
  }

  /** A strict order of a set of rows is the only one. */
  lemma {:induction false} OrderIsUnique(a: seq<Row>, b: seq<Row>)
    requires Ascending(a) && Ascending(b) && forall r :: r in a <==> r in b
    ensures a == b
  {
    assert |b| > 0 ==> b[0] in b;
    if a != [] {
      assert a[0] in b && b != [];
      assert b[0] in a;
      assert a[0] == b[0];
      forall r ensures r in a[1..] <==> r in b[1..] {
        if r in a[1..] {
          assert r in b;
          assert Less(a[0].key, r.key);
        }
        if r in b[1..] {
          assert r in a;
          assert Less(b[0].key, r.key);
        }
      }
      OrderIsUnique(a[1..], b[1..]);
    }
  }

  lemma {:induction false} FilterAscends(rows: seq<Row>, p: Row -> bool)
    requires Ascending(rows)
    ensures Ascending(Filter(rows, p))
  {
    if rows != [] {
      FilterAscends(rows[1..], p);
      FilterMembers(rows[1..], p);
      forall x | x in Filter(rows[1..], p) ensures Less(rows[0].key, x.key) {
        assert x in rows[1..];
      }
    }
  }

  /** Rows below a point of the order are the rows before it. */
  lemma {:induction false} FilterTakes(rows: seq<Row>, p: Row -> bool, k: nat)
    requires k <= |rows| && forall i | 0 <= i < |rows| :: p(rows[i]) <==> i < k
    ensures Filter(rows, p) == rows[..k]
  {
    if rows != [] {
      var rest := rows[1..];
      assert forall i | 0 <= i < |rest| :: rest[i] == rows[i + 1];
      if k == 0 {
        FilterTakes(rest, p, 0);
      } else {
        FilterTakes(rest, p, k - 1);
        assert rows[..k] == [rows[0]] + rest[..k - 1];
      }
    }
  }

  /** Rows above a point of the order are the rows after it. */
  lemma {:induction false} FilterDrops(rows: seq<Row>, p: Row -> bool, k: nat)
    requires k <= |rows| && forall i | 0 <= i < |rows| :: p(rows[i]) <==> k <= i
    ensures Filter(rows, p) == rows[k..]
  {
    if rows != [] {
      var rest := rows[1..];
      assert forall i | 0 <= i < |rest| :: rest[i] == rows[i + 1];
      if k == 0 {
        FilterDrops(rest, p, 0);
        assert rows == [rows[0]] + rest;
      } else {
        FilterDrops(rest, p, k - 1);
        assert rows[k..] == rest[k - 1..];
      }
    }
  }

  // ---------------------------------------------------------------- one page

  function ChargedCount(rows: seq<Row>): nat {
    |Filter(rows, HasCharge())|
  }

  /** The k-th row of a filter, and what the filter leaves after it. */
  lemma {:induction false} FilterPosition(rows: seq<Row>, p: Row -> bool, k: nat) returns (at: nat)
    requires k < |Filter(rows, p)|
    ensures at < |rows| && rows[at] == Filter(rows, p)[k] && p(rows[at])
    ensures Filter(rows[at + 1..], p) == Filter(rows, p)[k + 1..]
  {
    var rest := rows[1..];
    if p(rows[0]) && k == 0 {
      at := 0;
      assert Filter(rows, p) == [rows[0]] + Filter(rest, p);
    } else {
      var inner: nat;
      if p(rows[0]) {
        inner := FilterPosition(rest, p, k - 1);
        assert Filter(rows, p)[k + 1..] == Filter(rest, p)[k..];
      } else {
        inner := FilterPosition(rest, p, k);
      }
      at := inner + 1;
      assert rest[inner + 1..] == rows[at + 1..];
    }
  }

  lemma {:induction false} NewestFirstAt(rows: seq<Row>, limit: int)
    ensures |NewestFirst(rows, limit)| == if 0 <= limit < |rows| then limit else |rows|
    ensures forall k | 0 <= k < |NewestFirst(rows, limit)| :: NewestFirst(rows, limit)[k] == rows[|rows| - 1 - k]
    decreases |rows|
  {
    if rows != [] && limit != 0 {
      NewestFirstAt(rows[..|rows| - 1], limit - 1);
    }
  }

  /** A page is a tail of the older rows.  It holds at most `limit` charged rows, and when it is
      not all of them, exactly `limit`, with one more charged row right before it. */
  predicate IsTail(page: seq<Row>, older: seq<Row>, limit: int) {
    && |page| <= |older|
    && page == older[|older| - |page|..]
    && ChargedCount(page) <= limit
    && (|page| < |older| ==> older[|older| - |page| - 1].entry.charged && ChargedCount(page) == limit)
  }

  lemma OlderAscends(order: seq<Row>, ceiling: int, before: Option<Cursor>)
    requires Ascending(order) && CursorIsValid(order, ceiling, before)
    ensures Ascending(Visible(order, ceiling)) && Ascending(Older(order, ceiling, before))
  {
    FilterAscends(order, IsVisible(ceiling));
    FilterAscends(Visible(order, ceiling), IsBelow(BoundaryKey(order, ceiling, before)));
  }

  lemma SelectedPage(order: seq<Row>, ceiling: int, before: Option<Cursor>, limit: int)
    requires Ascending(order) && 0 <= limit && CursorIsValid(order, ceiling, before)
    ensures
      var page := SelectPage(order, ceiling, before, limit).value;
      var older := Older(order, ceiling, before);
      IsTail(page.rows, older, limit) && (page.hasMore <==> |page.rows| < |older|)
  {
    var older := Older(order, ceiling, before);
    OlderAscends(order, ceiling, before);
    var texts := Filter(older, HasCharge());
    NewestFirstAt(texts, limit + 1);
    if limit < |texts| {
      var at := FilterPosition(older, HasCharge(), |texts| - 1 - limit);
      FilterDrops(older, IsAbove(Some(older[at].key)), at + 1);
    } else {
      FilterDrops(older, IsAbove(None), 0);
    }
  }

  // ---------------------------------------------------------------- all pages

  /** The cursor a page hands out: its oldest row. */
  function CursorOf(row: Row): Cursor {
    Cursor(row.entry.source, row.entry.ordinal)
  }

  predicate DistinctRows(rows: seq<Row>) {
    forall i, j | 0 <= i < j < |rows| :: CursorOf(rows[i]) != CursorOf(rows[j])
  }

  /** A cursor on the row at `k` leaves the rows before it. */
  lemma CursorLeavesTheRest(order: seq<Row>, ceiling: int, k: nat)
    requires Ascending(order) && DistinctRows(Visible(order, ceiling)) && k < |Visible(order, ceiling)|
    ensures
      var visible := Visible(order, ceiling);
      var cursor := Some(CursorOf(visible[k]));
      CursorIsValid(order, ceiling, cursor) && Older(order, ceiling, cursor) == visible[..k]
  {
    var visible := Visible(order, ceiling);
    var cursor := CursorOf(visible[k]);
    FilterAscends(order, IsVisible(ceiling));
    var found := Filter(visible, IsAt(cursor));
    FilterMembers(visible, IsAt(cursor));
    assert visible[k] in found;
    assert found[0] in visible && CursorOf(found[0]) == cursor;
    assert found[0] == visible[k];
    FilterTakes(visible, IsBelow(Some(visible[k].key)), k);
  }

  function CursorAt(visible: seq<Row>, k: nat): Option<Cursor>
    requires k <= |visible|
  {
    if k == |visible| then None else Some(CursorOf(visible[k]))
  }

  predicate IsPaged(order: seq<Row>, ceiling: int, k: nat) {
    Ascending(order) && DistinctRows(Visible(order, ceiling)) && k <= |Visible(order, ceiling)|
  }

  lemma PageBefore(order: seq<Row>, ceiling: int, k: nat, limit: int)
    requires IsPaged(order, ceiling, k) && 0 <= limit
    ensures
      var cursor := CursorAt(Visible(order, ceiling), k);
      && CursorIsValid(order, ceiling, cursor)
      && Older(order, ceiling, cursor) == Visible(order, ceiling)[..k]
  {
    var visible := Visible(order, ceiling);
    if k == |visible| {
      FilterTakes(visible, IsBelow(None), |visible|);
    } else {
      CursorLeavesTheRest(order, ceiling, k);
    }
  }

  /** The page that follows the row at `k`. */
  function PageAt(order: seq<Row>, ceiling: int, k: nat, limit: int): (page: Page)
    requires IsPaged(order, ceiling, k) && 0 <= limit
    ensures IsTail(page.rows, Visible(order, ceiling)[..k], limit) && (page.hasMore <==> |page.rows| < k)
    ensures Some(page) == SelectPage(order, ceiling, CursorAt(Visible(order, ceiling), k), limit)
  {
    PageBefore(order, ceiling, k, limit);
    SelectedPage(order, ceiling, CursorAt(Visible(order, ceiling), k), limit);
    SelectPage(order, ceiling, CursorAt(Visible(order, ceiling), k), limit).value
  }

  /** Page after page from the rows before `k`, each cursor the oldest row of the last page;
      oldest page first. */
  function Walk(order: seq<Row>, ceiling: int, k: nat, limit: int): seq<seq<Row>>
    requires IsPaged(order, ceiling, k) && 0 < limit
    decreases k
  {
    var page := PageAt(order, ceiling, k, limit);
    if page.hasMore && page.rows != [] then Walk(order, ceiling, k - |page.rows|, limit) + [page.rows]
    else [page.rows]
  }

  function ConcatRows(pages: seq<seq<Row>>): seq<Row> {
    if pages == [] then [] else ConcatRows(pages[..|pages| - 1]) + pages[|pages| - 1]
  }

  /** Every page is within the limit, and every page but the oldest is full. */
  predicate PagesAreFull(pages: seq<seq<Row>>, limit: int) {
    forall i | 0 <= i < |pages| :: ChargedCount(pages[i]) <= limit && (i > 0 ==> ChargedCount(pages[i]) == limit)
  }

  lemma FullerByOne(older: seq<seq<Row>>, page: seq<Row>, limit: int)
    requires PagesAreFull(older, limit) && ChargedCount(page) == limit
    ensures PagesAreFull(older + [page], limit)
    ensures ConcatRows(older + [page]) == ConcatRows(older) + page
  {
    assert (older + [page])[..|older|] == older;
  }

  lemma OnePage(page: seq<Row>, limit: int)
    requires ChargedCount(page) <= limit
    ensures PagesAreFull([page], limit) && ConcatRows([page]) == page
  {
    assert [page][..0] == [];
  }

  lemma TailJoins(visible: seq<Row>, k: nat, page: seq<Row>, limit: int)
    requires k <= |visible| && IsTail(page, visible[..k], limit)
    ensures visible[..k] == visible[..k - |page|] + page
    ensures |page| < k && 0 < limit ==> page != []
  {
    assert visible[..k][..k - |page|] == visible[..k - |page|];
  }

  /** Paging by each page's oldest row returns every visible row once, in order. */
  lemma {:induction false} WalkReturnsEachRowOnce(order: seq<Row>, ceiling: int, k: nat, limit: int)
    requires IsPaged(order, ceiling, k) && 0 < limit
    ensures ConcatRows(Walk(order, ceiling, k, limit)) == Visible(order, ceiling)[..k]
    ensures PagesAreFull(Walk(order, ceiling, k, limit), limit)
    decreases k
  {
    var page := PageAt(order, ceiling, k, limit);
    TailJoins(Visible(order, ceiling), k, page.rows, limit);
    if page.hasMore {
      var rest := k - |page.rows|;
      assert IsPaged(order, ceiling, rest);
      WalkReturnsEachRowOnce(order, ceiling, rest, limit);
      FullerByOne(Walk(order, ceiling, rest, limit), page.rows, limit);
    } else {
      OnePage(page.rows, limit);
    }
  }

  // ---------------------------------------------------------------- the page that is served

  function UnitsOf(rows: seq<Row>): (r: seq<Unit>)
    ensures |r| == |rows|
  {
    seq(|rows|, i requires 0 <= i < |rows| => rows[i].entry.unit)
  }

  predicate IsMarkedEvidence(row: Row) {
    row.entry.charged && !IsText(row.entry.unit)
  }

  /** Evidence is marked for a family without text, and once a family. */
  predicate Agree(x: Row, y: Row) {
    IsMarkedEvidence(x) ==>
      && !IsTextOf(y.entry.unit, x.entry.unit.family)
      && (IsMarkedEvidence(y) && y.entry.unit.family == x.entry.unit.family ==> x == y)
  }

  /** What the charged column must be for paging.  It does not matter which evidence of a family
      is the marked one, so the order of the rows does not matter either. */
  predicate ColumnIsSound(rows: seq<Row>) {
    forall x, y | x in rows && y in rows :: Agree(x, y)
  }

  /** Leaving rows out keeps a sound column sound. */
  lemma SoundInSubsequence(rows: seq<Row>, p: Row -> bool)
    requires ColumnIsSound(rows)
    ensures ColumnIsSound(Filter(rows, p))
  {
    FilterMembers(rows, p);
  }

  /** The page built from a scan of the room: the window of everything before the cursor. */
  function ScannedPage(order: seq<Row>, ceiling: int, before: Option<Cursor>, limit: int): Option<UnitPage> {
    if !CursorIsValid(order, ceiling, before) then None
    else
      var candidates := UnitsOf(Older(order, ceiling, before));
      var selected := Window(candidates, limit);
      Some(UnitPage(selected, |selected| < |candidates|))
  }

  /** The page built from the index: the window of what `selectPage` returned. */
  function IndexedPage(order: seq<Row>, ceiling: int, before: Option<Cursor>, limit: int): Option<UnitPage> {
    var selection := SelectPage(order, ceiling, before, limit);
    if selection.None? then None
    else
      var selected := Window(UnitsOf(selection.value.rows), limit);
      Some(UnitPage(selected, selection.value.hasMore || |selected| < |selection.value.rows|))
  }

  /** With a sound column the fast page is the slow page, for every ceiling, cursor and limit. */
  lemma IndexedPageIsScannedPage(order: seq<Row>, ceiling: int, before: Option<Cursor>, limit: int)
    requires Ascending(order) && 0 < limit && ColumnIsSound(order)
    ensures IndexedPage(order, ceiling, before, limit) == ScannedPage(order, ceiling, before, limit)
  {
    if CursorIsValid(order, ceiling, before) {
      SoundInSubsequence(order, IsVisible(ceiling));
      SoundInSubsequence(Visible(order, ceiling), IsBelow(BoundaryKey(order, ceiling, before)));
      SelectedPage(order, ceiling, before, limit);
      OlderAscends(order, ceiling, before);
      var older := Older(order, ceiling, before);
      var page := SelectPage(order, ceiling, before, limit).value;
      TailHoldsTheWindow(older, page.rows, limit);
    }
  }

  lemma TailHoldsTheWindow(older: seq<Row>, page: seq<Row>, limit: int)
    requires IsTail(page, older, limit) && 0 < limit && ColumnIsSound(older) && Ascending(older)
    ensures Window(UnitsOf(page), limit) == Window(UnitsOf(older), limit)
    ensures |page| < |older| ==> |Window(UnitsOf(older), limit)| < |older|
  {
    var start := |older| - |page|;
    assert UnitsOf(page) == UnitsOf(older)[start..];
    if start > 0 {
      var all := UnitsOf(older);
      assert older[start - 1..] == [older[start - 1]] + page;
      assert ChargedCount(older[start - 1..]) == limit + 1;
      ColumnCountsAtMost(older, start - 1);
      WindowIsLongest(all, limit);
      if WindowStart(all, limit) < start {
        CountNeverFalls(all, WindowStart(all, limit), start - 1);
      }
      WindowOfSuffix(all, limit, start);
    } else {
      assert page == older;
    }
  }

  /** A window that lies inside a suffix is the window of the suffix. */
  lemma WindowOfSuffix(units: seq<Unit>, limit: int, start: nat)
    requires 0 < limit && start <= WindowStart(units, limit)
    ensures Window(units[start..], limit) == Window(units, limit)
  {
    WindowIsLongest(units, limit);
    var s := WindowStart(units, limit);
    assert s > 0 ==> limit < SlotCount(units[s - 1..]);
    WindowInside(units, limit, start, s);
  }

  lemma WindowInside(units: seq<Unit>, limit: int, start: nat, s: nat)
    requires 0 < limit && start <= s <= |units| && SlotCount(units[s..]) <= limit
    requires s > 0 ==> limit < SlotCount(units[s - 1..])
    ensures Window(units[start..], limit) == units[s..]
  {
    var suffix, k: nat := units[start..], s - start;
    assert suffix[k..] == units[s..];
    if k > 0 { assert suffix[k - 1..] == units[s - 1..]; }
    WindowIsUnique(suffix, limit, k);
  }

  /** The last evidence of a family. */
  function LastOf(units: seq<Unit>, f: Family): (k: nat)
    requires HasEvidence(units, f)
    ensures k < |units| && IsEvidenceOf(units[k], f) && forall j | k < j < |units| :: !IsEvidenceOf(units[j], f)
  {
    var n := |units| - 1;
    if IsEvidenceOf(units[n], f) then n
    else
      assert forall i | 0 <= i < |units| && IsEvidenceOf(units[i], f) :: IsEvidenceOf(units[..n][i], f);
      LastOf(units[..n], f)
  }

  /** The slot that a marked row stands for. */
  function SlotOf(units: seq<Unit>, i: nat): (k: nat)
    requires i < |units|
    ensures i <= k < |units|
  {
    if IsText(units[i]) then i
    else
      assert IsEvidenceOf(units[i], units[i].family);
      LastOf(units, units[i].family)
  }

  lemma SlotIsCharged(rows: seq<Row>, start: nat, i: nat)
    requires ColumnIsSound(rows) && start <= i < |rows| && rows[i].entry.charged
    ensures IsChargedAfterCut(UnitsOf(rows), start, SlotOf(UnitsOf(rows), i))
  {
    var units, k := UnitsOf(rows), SlotOf(UnitsOf(rows), i);
    var suffix := units[start..];
    if !IsText(units[i]) {
      var f := units[i].family;
      assert suffix[k - start] == units[k];
      forall j | 0 <= j < |suffix| ensures !IsTextOf(suffix[j], f) {
        assert Agree(rows[i], rows[start + j]);
      }
      forall j | k - start < j < |suffix| ensures !IsEvidenceOf(suffix[j], f) {
        assert suffix[j] == units[start + j];
      }
    }
  }

  lemma SlotsAreOwn(rows: seq<Row>, i: nat, j: nat)
    requires ColumnIsSound(rows) && Ascending(rows) && i < |rows| && j < |rows|
    requires rows[i].entry.charged && rows[j].entry.charged
    requires SlotOf(UnitsOf(rows), i) == SlotOf(UnitsOf(rows), j)
    ensures i == j
  {
    if !IsText(rows[i].entry.unit) && !IsText(rows[j].entry.unit) {
      assert Agree(rows[i], rows[j]);
      NoRowTwice(rows, i, j);
    }
  }

  lemma NoRowTwice(rows: seq<Row>, i: nat, j: nat)
    requires Ascending(rows) && i < |rows| && j < |rows| && rows[i] == rows[j]
    ensures i == j
  {
  }

  /** The charged rows of a tail are no more than its slots. */
  lemma ColumnCountsAtMost(rows: seq<Row>, start: nat)
    requires ColumnIsSound(rows) && Ascending(rows) && start <= |rows|
    ensures ChargedCount(rows[start..]) <= SlotCount(UnitsOf(rows)[start..])
  {
    CountAfterCut(UnitsOf(rows), start);
    MarkedCount(rows, start);
    var marked := Marked(rows, start);
    var slots := map i | i in marked :: SlotOf(UnitsOf(rows), i);
    forall i | i in marked ensures slots[i] in ChargedAfterCut(UnitsOf(rows), start) {
      SlotIsCharged(rows, start, i);
    }
    forall i, j | i in marked && j in marked && slots[i] == slots[j] ensures i == j {
      SlotsAreOwn(rows, i, j);
    }
    InjectionSize(marked, ChargedAfterCut(UnitsOf(rows), start), slots);
  }

  ghost function Marked(rows: seq<Row>, start: nat): set<nat> {
    set i: nat | start <= i < |rows| && rows[i].entry.charged
  }

  lemma {:induction false} MarkedCount(rows: seq<Row>, start: nat)
    requires start <= |rows|
    ensures |Marked(rows, start)| == ChargedCount(rows[start..])
    decreases |rows| - start
  {
    if start == |rows| {
      assert Marked(rows, start) == {};
    } else {
      MarkedCount(rows, start + 1);
      assert rows[start..][1..] == rows[start + 1..];
      assert Marked(rows, start) == Marked(rows, start + 1) + if rows[start].entry.charged then {start} else {};
    }
  }

  // ---------------------------------------------------------------- all served pages

  /** Page after page as served, each cursor the oldest unit of the last page; oldest first. */
  function ServedWalk(order: seq<Row>, ceiling: int, k: nat, limit: int): seq<seq<Unit>>
    requires IsPaged(order, ceiling, k)
    decreases k
  {
    var page := IndexedPage(order, ceiling, CursorAt(Visible(order, ceiling), k), limit);
    if page.None? then []
    else if page.value.hasMore && 0 < |page.value.units| <= k
    then ServedWalk(order, ceiling, k - |page.value.units|, limit) + [page.value.units]
    else [page.value.units]
  }

  lemma ServedPage(order: seq<Row>, ceiling: int, k: nat, limit: int)
    requires IsPaged(order, ceiling, k) && 0 < limit && ColumnIsSound(order)
    ensures
      var units := UnitsOf(Visible(order, ceiling))[..k];
      var page := IndexedPage(order, ceiling, CursorAt(Visible(order, ceiling), k), limit);
      page == Some(UnitPage(Window(units, limit), |Window(units, limit)| < k))
  {
    IndexedPageIsScannedPage(order, ceiling, CursorAt(Visible(order, ceiling), k), limit);
    PageBefore(order, ceiling, k, limit);
    assert UnitsOf(Visible(order, ceiling)[..k]) == UnitsOf(Visible(order, ceiling))[..k];
  }

  lemma {:induction false} ServedWalkIsPages(order: seq<Row>, ceiling: int, k: nat, limit: int)
    requires IsPaged(order, ceiling, k) && 0 < k && 0 < limit && ColumnIsSound(order)
    ensures ServedWalk(order, ceiling, k, limit) == Pages(UnitsOf(Visible(order, ceiling))[..k], limit)
    decreases k
  {
    var all := UnitsOf(Visible(order, ceiling));
    ServedPage(order, ceiling, k, limit);
    WindowIsLongest(all[..k], limit);
    var rest := k - |Window(all[..k], limit)|;
    assert all[..k][..rest] == all[..rest];
    if rest > 0 {
      ServedWalkIsPages(order, ceiling, rest, limit);
    } else {
      assert Pages(all[..0], limit) == [];
    }
  }

  /** The pages a client is served, cursor by cursor, cut the whole visible room into windows. */
  lemma ServedPagesPartition(order: seq<Row>, ceiling: int, k: nat, limit: int)
    requires IsPaged(order, ceiling, k) && 0 < k && 0 < limit && ColumnIsSound(order)
    ensures ServedWalk(order, ceiling, k, limit) == Pages(UnitsOf(Visible(order, ceiling))[..k], limit)
    ensures Concat(ServedWalk(order, ceiling, k, limit)) == UnitsOf(Visible(order, ceiling))[..k]
  {
    ServedWalkIsPages(order, ceiling, k, limit);
    PagesPartition(UnitsOf(Visible(order, ceiling))[..k], limit);
  }
}
