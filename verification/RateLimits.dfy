/** The two rate limiters: the window table of the push relay (`relay/src/server.ts`) and the
    pairing-code limiter of the switchboard (`packages/switchboard/src/server.ts`). */
module RateLimits {
  // ---------------------------------------------------------------- the window table

  /** One key's window; the table keeps the order in which keys came. */
  datatype Entry = Entry(key: string, count: int, resetAt: int)

  datatype Limits = Limits(maximum: int, windowMs: int, maximumEntries: int)

  datatype Table = Table(entries: seq<Entry>, nextSweep: int)

  /** The entries that are not over; the order stays. */
  function Alive(entries: seq<Entry>, now: int): seq<Entry> {
    if entries == [] then []
    else if entries[0].resetAt <= now then Alive(entries[1..], now)
    else [entries[0]] + Alive(entries[1..], now)
  }

  function Find(entries: seq<Entry>, key: string): (k: nat)
    ensures k <= |entries|
    ensures k < |entries| ==> entries[k].key == key
    ensures forall i | 0 <= i < k :: entries[i].key != key
  {
    if entries == [] || entries[0].key == key then 0 else 1 + Find(entries[1..], key)
  }

  /** The first entry among those that end earliest. */
  function Oldest(entries: seq<Entry>): (k: nat)
    requires entries != []
    ensures k < |entries|
    ensures forall i | 0 <= i < |entries| :: entries[k].resetAt <= entries[i].resetAt
    ensures forall i | 0 <= i < k :: entries[k].resetAt < entries[i].resetAt
  {
    var n := |entries| - 1;
    if n == 0 then 0
    else
      var k := Oldest(entries[..n]);
      if entries[n].resetAt < entries[k].resetAt then n else k
  }

  function Swept(l: Limits, t: Table, now: int): Table {
    if t.nextSweep <= now then Table(Alive(t.entries, now), now + l.windowMs) else t
  }

  /** An entry may be thrown out to make room, unless the one found has the empty key, which
      reads as none found. */
  function Evicted(entries: seq<Entry>): seq<Entry> {
    if entries == [] || entries[Oldest(entries)].key == "" then entries
    else entries[..Oldest(entries)] + entries[Oldest(entries) + 1..]
  }

  predicate NeedsRoom(l: Limits, t: Table, key: string, now: int) {
    var entries := Swept(l, t, now).entries;
    Find(entries, key) == |entries| && l.maximumEntries <= |entries|
  }

  /** `Map.set`: in place for a key that is there, else at the end. */
  function Put(entries: seq<Entry>, e: Entry): seq<Entry> {
    var k := Find(entries, e.key);
    if k < |entries| then entries[k := e] else entries + [e]
  }

  /** The entries left when a window for `key` is opened. */
  function Room(l: Limits, entries: seq<Entry>, key: string): seq<Entry> {
    if Find(entries, key) == |entries| && l.maximumEntries <= |entries| then Evicted(entries) else entries
  }

  function Opened(l: Limits, key: string, now: int): Entry {
    Entry(key, 1, now + l.windowMs)
  }

  function Counted(e: Entry): Entry {
    Entry(e.key, e.count + 1, e.resetAt)
  }

  /** What a call decides: nothing, or the entry to write and the entries to write it to. */
  datatype Decision = Denied | Granted(room: seq<Entry>, entry: Entry)

  function Decide(l: Limits, entries: seq<Entry>, key: string, now: int): Decision {
    var k := Find(entries, key);
    if k == |entries| || entries[k].resetAt <= now then Granted(Room(l, entries, key), Opened(l, key, now))
    else if l.maximum <= entries[k].count then Denied
    else Granted(entries, Counted(entries[k]))
  }

  /** `take`. */
  function Take(l: Limits, t: Table, key: string, now: int): (Table, bool) {
    var s := Swept(l, t, now);
    match Decide(l, s.entries, key, now)
    case Denied => (s, false)
    case Granted(room, e) => (Table(Put(room, e), s.nextSweep), true)
  }

  class WindowRateLimiter {
    const limits: Limits
    var entries: seq<Entry>
    var nextSweep: int

    constructor (limits: Limits)
      ensures this.limits == limits && View() == FRESH
    {
      this.limits := limits;
      entries, nextSweep := [], 0;
    }

    function View(): Table
      reads this
    {
      Table(entries, nextSweep)
    }

    method TakeOne(key: string, now: int) returns (allowed: bool)
      modifies this
      ensures (View(), allowed) == Take(limits, old(View()), key, now)
    {
      if now >= nextSweep {
        Sweep(now);
        nextSweep := now + limits.windowMs;
      }
      ghost var swept := Swept(limits, old(View()), now);
      assert View() == swept;
      var k := Lookup(key);
      if k == |entries| || entries[k].resetAt <= now {
        if k == |entries| && |entries| >= limits.maximumEntries {
          Evict();
        }
        assert entries == Room(limits, swept.entries, key);
        SetEntry(Entry(key, 1, now + limits.windowMs));
        return true;
      }
      if entries[k].count >= limits.maximum {
        return false;
      }
      SetEntry(entries[k].(count := entries[k].count + 1));
      allowed := true;
    }

    method SetEntry(e: Entry)
      modifies this`entries
      ensures entries == Put(old(entries), e)
    {
      var k := Lookup(e.key);
      entries := if k < |entries| then entries[k := e] else entries + [e];
    }

    method Sweep(now: int)
      modifies this`entries
      ensures entries == Alive(old(entries), now)
    {
      var i := 0;
      while i < |entries|
        invariant 0 <= i <= |entries|
        invariant Alive(old(entries), now) == entries[..i] + Alive(entries[i..], now)
        decreases |entries| - i
      {
        assert entries[i..][1..] == entries[i + 1..];
        if entries[i].resetAt <= now {
          ghost var was := entries;
          entries := entries[..i] + entries[i + 1..];
          assert entries[..i] == was[..i] && entries[i..] == was[i + 1..];
        } else {
          assert entries[..i + 1] == entries[..i] + [entries[i]];
          i := i + 1;
        }
      }
      assert entries[..i] == entries;
    }

    method Lookup(key: string) returns (k: nat)
      ensures k == Find(entries, key)
    {
      k := 0;
      while k < |entries| && entries[k].key != key
        invariant k <= |entries| && Find(entries, key) == k + Find(entries[k..], key)
      {
        assert entries[k..][1..] == entries[k + 1..];
        k := k + 1;
      }
    }

    method Evict()
      modifies this`entries
      ensures entries == Evicted(old(entries))
    {
      if |entries| == 0 {
        return;
      }
      var oldest := 0;
      for i := 1 to |entries|
        invariant oldest == Oldest(entries[..i])
      {
        assert entries[..i + 1][..i] == entries[..i];
        if entries[i].resetAt < entries[oldest].resetAt {
          oldest := i;
        }
      }
      assert entries[..|entries|] == entries;
      if entries[oldest].key != "" {
        entries := entries[..oldest] + entries[oldest + 1..];
      }
    }
  }

  // ---------------------------------------------------------------- what the table keeps

  predicate DistinctKeys(entries: seq<Entry>) {
    forall i, j | 0 <= i < j < |entries| :: entries[i].key != entries[j].key
  }

  /** An entry counts at least one grant and at most the maximum, and ends within a window of
      the last call. */
  predicate IsSoundEntry(l: Limits, e: Entry, last: int) {
    1 <= e.count <= l.maximum && e.resetAt <= last + l.windowMs
  }

  predicate IsSound(l: Limits, t: Table, last: int) {
    DistinctKeys(t.entries) && forall i | 0 <= i < |t.entries| :: IsSoundEntry(l, t.entries[i], last)
  }

  lemma {:induction false} AliveDistinct(entries: seq<Entry>, now: int)
    requires DistinctKeys(entries)
    ensures DistinctKeys(Alive(entries, now)) && |Alive(entries, now)| <= |entries|
    ensures forall e :: e in Alive(entries, now) <==> e in entries && now < e.resetAt
  {
    if entries != [] {
      var rest := entries[1..];
      assert forall i | 0 <= i < |rest| :: rest[i] == entries[i + 1];
      AliveDistinct(rest, now);
      forall e | e in Alive(rest, now) ensures e.key != entries[0].key {
        assert e in rest;
      }
    }
  }

  lemma AliveKeeps(l: Limits, entries: seq<Entry>, now: int, last: int)
    requires IsSound(l, Table(entries, 0), last)
    ensures IsSound(l, Table(Alive(entries, now), 0), last) && |Alive(entries, now)| <= |entries|
    ensures forall e :: e in Alive(entries, now) <==> e in entries && now < e.resetAt
  {
    AliveDistinct(entries, now);
    forall i | 0 <= i < |Alive(entries, now)| ensures IsSoundEntry(l, Alive(entries, now)[i], last) {
      assert Alive(entries, now)[i] in entries;
    }
  }

  lemma SweptKeeps(l: Limits, t: Table, now: int, last: int)
    requires IsSound(l, t, last)
    ensures IsSound(l, Swept(l, t, now), last) && |Swept(l, t, now).entries| <= |t.entries|
    ensures forall e | e in Swept(l, t, now).entries :: e in t.entries
    ensures forall e | e in t.entries && now < e.resetAt :: e in Swept(l, t, now).entries
  {
    AliveKeeps(l, t.entries, now, last);
  }

  lemma {:induction false} FindIs(entries: seq<Entry>, e: Entry)
    requires DistinctKeys(entries) && e in entries
    ensures Find(entries, e.key) < |entries| && entries[Find(entries, e.key)] == e
  {
    var i :| 0 <= i < |entries| && entries[i] == e;
    var k := Find(entries, e.key);
    assert k <= i && entries[k].key == entries[i].key;
  }

  lemma EvictedKeeps(entries: seq<Entry>)
    requires DistinctKeys(entries)
    ensures DistinctKeys(Evicted(entries)) && forall e | e in Evicted(entries) :: e in entries
    ensures |Evicted(entries)| == |entries| - if entries == [] || entries[Oldest(entries)].key == "" then 0 else 1
  {
  }

  lemma PutKeeps(entries: seq<Entry>, e: Entry)
    requires DistinctKeys(entries)
    ensures DistinctKeys(Put(entries, e))
    ensures forall x :: x in Put(entries, e) <==> x == e || (x in entries && x.key != e.key)
  {
    var k := Find(entries, e.key);
    var put := Put(entries, e);
    forall x ensures x in put <==> x == e || (x in entries && x.key != e.key) {
      if x in put && x != e {
        var i :| 0 <= i < |put| && put[i] == x;
        assert i != k && entries[i] == x;
      }
      if x in entries && x.key != e.key {
        var i :| 0 <= i < |entries| && entries[i] == x;
        assert put[i] == x;
      }
      if k < |entries| {
        assert put[k] == e;
      } else {
        assert put[|put| - 1] == e;
      }
    }
  }

  lemma PutSound(l: Limits, entries: seq<Entry>, e: Entry, last: int, now: int)
    requires DistinctKeys(entries) && last <= now && IsSoundEntry(l, e, now)
    requires forall x | x in entries :: IsSoundEntry(l, x, last)
    ensures IsSound(l, Table(Put(entries, e), 0), now)
  {
    PutKeeps(entries, e);
    forall i | 0 <= i < |Put(entries, e)| ensures IsSoundEntry(l, Put(entries, e)[i], now) {
      assert Put(entries, e)[i] in Put(entries, e);
    }
  }

  lemma DecisionIsSound(l: Limits, entries: seq<Entry>, key: string, now: int, last: int)
    requires IsSound(l, Table(entries, 0), last) && last <= now && 1 <= l.maximum
    ensures
      var d := Decide(l, entries, key, now);
      d.Granted? ==>
        && DistinctKeys(d.room) && (forall x | x in d.room :: x in entries)
        && d.entry.key == key && IsSoundEntry(l, d.entry, now)
  {
    var k := Find(entries, key);
    if k == |entries| || entries[k].resetAt <= now {
      EvictedKeeps(entries);
      assert IsSoundEntry(l, Opened(l, key, now), now);
    } else {
      assert IsSoundEntry(l, entries[k], last);
    }
  }

  /** Whatever keys come, the table stays sound. */
  lemma TakeKeeps(l: Limits, t: Table, key: string, now: int, last: int)
    requires IsSound(l, t, last) && last <= now && 1 <= l.maximum
    ensures IsSound(l, Take(l, t, key, now).0, now)
  {
    SweptKeeps(l, t, now, last);
    var entries := Swept(l, t, now).entries;
    DecisionIsSound(l, entries, key, now, last);
    var d := Decide(l, entries, key, now);
    if d.Granted? {
      assert forall e | e in entries :: IsSoundEntry(l, e, last);
      PutSound(l, d.room, d.entry, last, now);
    }
  }

  lemma SweptDistinct(l: Limits, t: Table, now: int)
    requires DistinctKeys(t.entries)
    ensures DistinctKeys(Swept(l, t, now).entries) && |Swept(l, t, now).entries| <= |t.entries|
    ensures forall e | e in Swept(l, t, now).entries :: e in t.entries
  {
    AliveDistinct(t.entries, now);
  }

  lemma TakeDistinct(l: Limits, t: Table, key: string, now: int)
    requires DistinctKeys(t.entries)
    ensures DistinctKeys(Take(l, t, key, now).0.entries)
  {
    SweptDistinct(l, t, now);
    var entries := Swept(l, t, now).entries;
    EvictedKeeps(entries);
    var d := Decide(l, entries, key, now);
    if d.Granted? { PutKeeps(d.room, d.entry); }
  }

  /** The call needs room, and the entry to throw out cannot be found: the table is empty, or the
      oldest entry's key is. */
  predicate Overfills(l: Limits, t: Table, key: string, now: int) {
    NeedsRoom(l, t, key, now) && Evicted(Swept(l, t, now).entries) == Swept(l, t, now).entries
  }

  /** One call keeps the table within its limit, exactly when it does not overfill it. */
  lemma SizeIsKept(l: Limits, t: Table, key: string, now: int)
    requires DistinctKeys(t.entries) && |t.entries| <= l.maximumEntries
    ensures |Take(l, t, key, now).0.entries| <= l.maximumEntries <==> !Overfills(l, t, key, now)
  {
    SweptDistinct(l, t, now);
    EvictedKeeps(Swept(l, t, now).entries);
  }

  /** A call that comes when a sweep is due leaves nothing that is over and sets the next sweep one
      window on; one that comes before leaves everything over that it does not need the room of. */
  lemma SweepDropsWhatIsOver(l: Limits, t: Table, key: string, now: int)
    requires DistinctKeys(t.entries) && 0 < l.windowMs
    ensures t.nextSweep <= now ==>
              && (forall e | e in Take(l, t, key, now).0.entries :: now < e.resetAt)
              && Take(l, t, key, now).0.nextSweep == now + l.windowMs
    ensures now < t.nextSweep ==>
              && (Find(t.entries, key) < |t.entries| || |t.entries| < l.maximumEntries ==>
                    forall e | e in t.entries && e.key != key :: e in Take(l, t, key, now).0.entries)
              && Take(l, t, key, now).0.nextSweep == t.nextSweep
  {
    AliveDistinct(t.entries, now);
    SweptDistinct(l, t, now);
    var entries := Swept(l, t, now).entries;
    EvictedKeeps(entries);
    var d := Decide(l, entries, key, now);
    if d.Granted? { PutKeeps(d.room, d.entry); }
  }

  lemma LeftOf(entries: seq<Entry>, k: nat, e: Entry)
    requires k < |entries| && (forall i | 0 <= i < |entries| && i != k :: entries[i].key != entries[k].key)
    ensures e in entries[..k] + entries[k + 1..] <==> e in entries && e != entries[k]
  {
    assert entries == entries[..k] + [entries[k]] + entries[k + 1..];
    assert forall x | x in entries[..k] :: x.key != entries[k].key;
    assert forall x | x in entries[k + 1..] :: x.key != entries[k].key;
  }

  lemma EvictedIsTheRest(entries: seq<Entry>, e: Entry)
    requires DistinctKeys(entries) && entries != [] && entries[Oldest(entries)].key != ""
    ensures e in Evicted(entries) <==> e in entries && e != entries[Oldest(entries)]
  {
    LeftOf(entries, Oldest(entries), e);
  }

  lemma FullTableTakes(l: Limits, t: Table, key: string, now: int)
    requires now < t.nextSweep && l.maximumEntries <= |t.entries| && forall e | e in t.entries :: e.key != key
    ensures Take(l, t, key, now).0.entries == Put(Evicted(t.entries), Opened(l, key, now))
  {
    assert Find(t.entries, key) == |t.entries|;
  }

  /** The table holds what it held, but for one entry, and the new one. */
  ghost predicate Replaces(before: seq<Entry>, after: seq<Entry>, out: Entry, e: Entry) {
    forall x :: x in after <==> x == e || (x in before && x != out)
  }

  /** A new key that finds the table full takes the place of an entry that ends no later than any
      other, and every other entry stays. */
  lemma TheOldestMakesRoom(l: Limits, t: Table, key: string, now: int) returns (out: Entry)
    requires DistinctKeys(t.entries) && now < t.nextSweep && t.entries != [] && l.maximumEntries <= |t.entries|
    requires forall e | e in t.entries :: e.key != key && e.key != ""
    ensures out in t.entries && forall e | e in t.entries :: out.resetAt <= e.resetAt
    ensures Replaces(t.entries, Take(l, t, key, now).0.entries, out, Entry(key, 1, now + l.windowMs))
  {
    var entries := t.entries;
    out := entries[Oldest(entries)];
    FullTableTakes(l, t, key, now);
    EvictedKeeps(entries);
    PutKeeps(Evicted(entries), Opened(l, key, now));
    forall x ensures x in Evicted(entries) <==> x in entries && x != out {
      EvictedIsTheRest(entries, x);
    }
  }

  // ---------------------------------------------------------------- runs

  datatype Call = Call(key: string, now: int)

  function After(l: Limits, t: Table, calls: seq<Call>): Table {
    if calls == [] then t
    else Take(l, After(l, t, calls[..|calls| - 1]), calls[|calls| - 1].key, calls[|calls| - 1].now).0
  }

  predicate InOrder(calls: seq<Call>) {
    forall i, j | 0 <= i < j < |calls| :: calls[i].now <= calls[j].now
  }

  predicate KeysAreNamed(calls: seq<Call>) {
    forall i | 0 <= i < |calls| :: calls[i].key != ""
  }

  const FRESH := Table([], 0)

  lemma {:induction false} AfterDistinct(l: Limits, calls: seq<Call>)
    ensures DistinctKeys(After(l, FRESH, calls).entries)
  {
    if calls != [] {
      var n := |calls| - 1;
      AfterDistinct(l, calls[..n]);
      TakeDistinct(l, After(l, FRESH, calls[..n]), calls[n].key, calls[n].now);
    }
  }

  predicate FitsAfter(l: Limits, calls: seq<Call>, k: nat)
    requires k <= |calls|
  {
    |After(l, FRESH, calls[..k]).entries| <= l.maximumEntries
  }

  predicate OverfillsAt(l: Limits, calls: seq<Call>, k: nat)
    requires k < |calls|
  {
    Overfills(l, After(l, FRESH, calls[..k]), calls[k].key, calls[k].now)
  }

  lemma FitsOneMore(l: Limits, calls: seq<Call>, k: nat)
    requires k < |calls| && FitsAfter(l, calls, k)
    ensures FitsAfter(l, calls, k + 1) <==> !OverfillsAt(l, calls, k)
  {
    assert calls[..k + 1][..k] == calls[..k];
    AfterDistinct(l, calls[..k]);
    SizeIsKept(l, After(l, FRESH, calls[..k]), calls[k].key, calls[k].now);
  }

  lemma {:induction false} FitsUnlessOverfilled(l: Limits, calls: seq<Call>, k: nat)
    requires 0 <= l.maximumEntries && k <= |calls| && forall i: nat | i < k :: !OverfillsAt(l, calls, i)
    ensures FitsAfter(l, calls, k)
  {
    if k == 0 {
      assert calls[..0] == [];
    } else {
      FitsUnlessOverfilled(l, calls, k - 1);
      FitsOneMore(l, calls, k - 1);
    }
  }

  /** In any run, with any clock: the table never outgrows its limit if and only if no call needs
      room that throwing an entry out fails to make. */
  lemma TableIsBoundedExactly(l: Limits, calls: seq<Call>)
    requires 0 <= l.maximumEntries
    ensures (forall k: nat | k <= |calls| :: FitsAfter(l, calls, k)) <==> (forall k: nat | k < |calls| :: !OverfillsAt(l, calls, k))
  {
    if forall k: nat | k <= |calls| :: FitsAfter(l, calls, k) {
      forall k: nat | k < |calls| ensures !OverfillsAt(l, calls, k) {
        assert FitsAfter(l, calls, k) && FitsAfter(l, calls, k + 1);
        FitsOneMore(l, calls, k);
      }
    }
    if forall k: nat | k < |calls| :: !OverfillsAt(l, calls, k) {
      forall k: nat | k <= |calls| ensures FitsAfter(l, calls, k) {
        FitsUnlessOverfilled(l, calls, k);
      }
    }
  }

  /** With keys that are never empty, as both callers make them, the table never outgrows its
      limit, in any run and with any clock. */
  lemma {:induction false} TableStaysBounded(l: Limits, calls: seq<Call>)
    requires KeysAreNamed(calls) && 1 <= l.maximumEntries
    ensures |After(l, FRESH, calls).entries| <= l.maximumEntries
    ensures forall e | e in After(l, FRESH, calls).entries :: e.key != ""
  {
    if calls != [] {
      var n := |calls| - 1;
      TableStaysBounded(l, calls[..n]);
      AfterDistinct(l, calls[..n]);
      NamedKeysAreKept(l, After(l, FRESH, calls[..n]), calls[n]);
      SizeIsKept(l, After(l, FRESH, calls[..n]), calls[n].key, calls[n].now);
    }
  }

  lemma NamedKeysAreKept(l: Limits, t: Table, call: Call)
    requires DistinctKeys(t.entries) && call.key != "" && 1 <= l.maximumEntries
    requires forall e | e in t.entries :: e.key != ""
    ensures forall e | e in Take(l, t, call.key, call.now).0.entries :: e.key != ""
    ensures !Overfills(l, t, call.key, call.now)
  {
    SweptDistinct(l, t, call.now);
    var entries := Swept(l, t, call.now).entries;
    EvictedKeeps(entries);
    if l.maximumEntries <= |entries| { assert entries[Oldest(entries)] in entries; }
    var d := Decide(l, entries, call.key, call.now);
    if d.Granted? { PutKeeps(d.room, d.entry); }
  }

  /** With the empty key, it does. */
  lemma EmptyKeyOutgrowsTheTable() returns (l: Limits, calls: seq<Call>)
    ensures 1 <= l.maximum && 1 <= l.maximumEntries && 0 <= l.windowMs && InOrder(calls)
    ensures l.maximumEntries < |After(l, FRESH, calls).entries|
  {
    l := Limits(1, 10, 1);
    calls := [Call("", 0), Call("a", 0)];
    assert calls[..1] == [Call("", 0)] && calls[..1][..0] == [];
    assert After(l, FRESH, []) == FRESH;
    var one := Take(l, FRESH, "", 0).0;
    assert After(l, FRESH, calls[..1]) == one;
    assert one.entries == [Entry("", 1, 10)];
    assert After(l, FRESH, calls) == Take(l, one, "a", 0).0;
  }

  // ---------------------------------------------------------------- grants in a window

  predicate HasEntry(t: Table, key: string) {
    Find(t.entries, key) < |t.entries|
  }

  function EntryOf(t: Table, key: string): Entry
    requires HasEntry(t, key)
  {
    t.entries[Find(t.entries, key)]
  }

  /** The call throws out `key` to make room for another. */
  predicate Evicts(l: Limits, t: Table, call: Call, key: string) {
    NeedsRoom(l, t, call.key, call.now)
    && HasEntry(Swept(l, t, call.now), key)
    && call.key != key
    && !HasEntry(Take(l, t, call.key, call.now).0, key)
  }

  predicate NeverEvicts(l: Limits, t: Table, calls: seq<Call>, key: string) {
    calls == [] || (
      var n := |calls| - 1;
      NeverEvicts(l, t, calls[..n], key) && !Evicts(l, After(l, t, calls[..n]), calls[n], key))
  }

  /** How often the calls grant `key`. */
  function Grants(l: Limits, t: Table, calls: seq<Call>, key: string): nat {
    if calls == [] then 0
    else
      var n := |calls| - 1;
      var granted := Take(l, After(l, t, calls[..n]), calls[n].key, calls[n].now).1;
      Grants(l, t, calls[..n], key) + if granted && calls[n].key == key then 1 else 0
  }

  /** What one call does to the window of a key it does not throw out: a grant opens a window or
      counts in the open one, and nothing else but the end of the window touches it. */
  lemma OneCall(l: Limits, t: Table, call: Call, key: string, last: int)
    requires IsSound(l, t, last) && last <= call.now && 1 <= l.maximum && !Evicts(l, t, call, key)
    ensures
      var (after, granted) := Take(l, t, call.key, call.now);
      var opens := !HasEntry(t, key) || EntryOf(t, key).resetAt <= call.now;
      && (call.key == key ==> HasEntry(after, key) && granted == (opens || EntryOf(t, key).count < l.maximum))
      && (call.key == key && opens ==> EntryOf(after, key) == Entry(key, 1, call.now + l.windowMs))
      && (call.key == key && !opens ==>
            EntryOf(after, key) == EntryOf(t, key).(count := EntryOf(t, key).count + if granted then 1 else 0))
      && (call.key != key && HasEntry(after, key) ==> HasEntry(t, key) && EntryOf(after, key) == EntryOf(t, key))
      && (call.key != key && !opens ==> HasEntry(after, key))
  {
    SweptEntry(l, t, call.now, key, last);
    var s := Swept(l, t, call.now).entries;
    EvictedKeeps(s);
    var d := Decide(l, s, call.key, call.now);
    if d.Granted? { PutEntry(s, d.room, d.entry, key); }
  }

  predicate Has(entries: seq<Entry>, key: string) {
    Find(entries, key) < |entries|
  }

  function Get(entries: seq<Entry>, key: string): Entry
    requires Has(entries, key)
  {
    entries[Find(entries, key)]
  }

  lemma SweptEntry(l: Limits, t: Table, now: int, key: string, last: int)
    requires IsSound(l, t, last)
    ensures DistinctKeys(Swept(l, t, now).entries)
    ensures Has(Swept(l, t, now).entries, key) ==>
              HasEntry(t, key) && Get(Swept(l, t, now).entries, key) == EntryOf(t, key)
    ensures HasEntry(t, key) && now < EntryOf(t, key).resetAt ==> Has(Swept(l, t, now).entries, key)
  {
    SweptKeeps(l, t, now, last);
    var s := Swept(l, t, now).entries;
    if Has(s, key) {
      assert Get(s, key) in t.entries;
      FindIs(t.entries, Get(s, key));
    }
    if HasEntry(t, key) && now < EntryOf(t, key).resetAt {
      FindIs(s, EntryOf(t, key));
    }
  }

  /** Putting an entry sets its own key and no other; keys dropped before stay dropped. */
  lemma PutEntry(entries: seq<Entry>, room: seq<Entry>, e: Entry, key: string)
    requires DistinctKeys(entries) && DistinctKeys(room) && forall x | x in room :: x in entries
    ensures e.key == key ==> Has(Put(room, e), key) && Get(Put(room, e), key) == e
    ensures e.key != key && Has(Put(room, e), key) ==>
              Has(entries, key) && Get(Put(room, e), key) == Get(entries, key)
    ensures e.key != key && room == entries && Has(entries, key) ==> Has(Put(room, e), key)
  {
    PutKeeps(room, e);
    var put := Put(room, e);
    if e.key == key {
      FindIs(put, e);
    } else {
      if Has(put, key) {
        assert Get(put, key) in entries;
        FindIs(entries, Get(put, key));
      }
      if room == entries && Has(entries, key) { FindIs(put, Get(entries, key)); }
    }
  }

  /** Inside an interval one window long, a key's grants come from the window open when the
      interval began and from at most one more. */
  lemma {:induction false} GrantsAreBounded(l: Limits, t: Table, calls: seq<Call>, key: string, start: int)
    requires IsSound(l, t, start - 1) && 1 <= l.maximum && 0 <= l.windowMs && InOrder(calls)
    requires forall i | 0 <= i < |calls| :: start <= calls[i].now < start + l.windowMs
    requires NeverEvicts(l, t, calls, key)
    ensures
      var after, grants := After(l, t, calls), Grants(l, t, calls, key);
      && IsSound(l, after, if calls == [] then start - 1 else calls[|calls| - 1].now)
      && grants <= 2 * l.maximum
      && (!HasEntry(after, key) ==> grants <= l.maximum)
      && (HasEntry(after, key) ==>
            grants <= EntryOf(after, key).count + if start + l.windowMs <= EntryOf(after, key).resetAt then l.maximum else 0)
  {
    if calls == [] {
      if HasEntry(t, key) { assert IsSoundEntry(l, EntryOf(t, key), start - 1); }
    } else {
      var n := |calls| - 1;
      GrantsAreBounded(l, t, calls[..n], key, start);
      var before, last := After(l, t, calls[..n]), if n == 0 then start - 1 else calls[n - 1].now;
      assert n > 0 ==> calls[..n][n - 1] == calls[n - 1];
      OneCall(l, before, calls[n], key, last);
      TakeKeeps(l, before, calls[n].key, calls[n].now, last);
      if HasEntry(before, key) { assert IsSoundEntry(l, EntryOf(before, key), last); }
      var after := After(l, t, calls);
      if HasEntry(after, key) { assert IsSoundEntry(l, EntryOf(after, key), calls[n].now); }
    }
  }

  lemma {:induction false} RunKeeps(l: Limits, calls: seq<Call>, last: int)
    requires InOrder(calls) && 1 <= l.maximum && (calls != [] ==> calls[|calls| - 1].now <= last)
    ensures IsSound(l, After(l, FRESH, calls), last)
  {
    if calls != [] {
      var n := |calls| - 1;
      var reached := if n == 0 then calls[n].now else calls[n - 1].now;
      assert n > 0 ==> calls[..n][n - 1] == calls[n - 1];
      RunKeeps(l, calls[..n], reached);
      TakeKeeps(l, After(l, FRESH, calls[..n]), calls[n].key, calls[n].now, reached);
      SoundLater(l, After(l, FRESH, calls), calls[n].now, last);
    }
  }

  lemma SoundLater(l: Limits, t: Table, last: int, later: int)
    requires IsSound(l, t, last) && last <= later
    ensures IsSound(l, t, later)
  {
    forall i | 0 <= i < |t.entries| ensures IsSoundEntry(l, t.entries[i], later) {
      assert IsSoundEntry(l, t.entries[i], last);
    }
  }

  /** In any interval one window long of any run, a key that is not thrown out in it is granted
      at most twice the maximum. */
  lemma TwiceTheMaximumAtMost(l: Limits, before: seq<Call>, inside: seq<Call>, key: string, start: int)
    requires 1 <= l.maximum && 0 <= l.windowMs && InOrder(before) && InOrder(inside)
    requires forall i | 0 <= i < |before| :: before[i].now < start
    requires forall i | 0 <= i < |inside| :: start <= inside[i].now < start + l.windowMs
    requires NeverEvicts(l, After(l, FRESH, before), inside, key)
    ensures Grants(l, After(l, FRESH, before), inside, key) <= 2 * l.maximum
  {
    RunKeeps(l, before, start - 1);
    GrantsAreBounded(l, After(l, FRESH, before), inside, key, start);
  }

  // ---------------------------------------------------------------- pairing codes

  const PAIRING_CODE_ATTEMPTS: nat := 5
  const PAIRING_CODE_WINDOW_MS: int := 60_000

  type Connection = nat

  function Recent(times: seq<int>, cutoff: int): (r: seq<int>) {
    if times == [] then []
    else
      Recent(times[..|times| - 1], cutoff) + if cutoff < times[|times| - 1] then [times[|times| - 1]] else []
  }

  /** The clock is read twice: for the cutoff, and for the time a granted attempt is kept with. */
  function Attempt(times: seq<int>, now: int, later: int): (seq<int>, bool) {
    var recent := Recent(times, now - PAIRING_CODE_WINDOW_MS);
    if PAIRING_CODE_ATTEMPTS <= |recent| then (recent, false) else (recent + [later], true)
  }

  class PairingCodeLimiter {
    var attempts: map<Connection, seq<int>>

    constructor ()
      ensures attempts == map[]
    {
      attempts := map[];
    }

    function TimesOf(connection: Connection): seq<int>
      reads this
    {
      if connection in attempts then attempts[connection] else []
    }

    method Allow(connection: Connection, now: int, later: int) returns (allowed: bool)
      modifies this
      ensures allowed == Attempt(old(TimesOf(connection)), now, later).1
      ensures attempts == old(attempts)[connection := Attempt(old(TimesOf(connection)), now, later).0]
    {
      var cutoff := now - PAIRING_CODE_WINDOW_MS;
      var times := if connection in attempts then attempts[connection] else [];
      var recent := [];
      for i := 0 to |times|
        invariant recent == Recent(times[..i], cutoff)
      {
        assert times[..i + 1][..i] == times[..i];
        if times[i] > cutoff {
          recent := recent + [times[i]];
        }
      }
      assert times[..|times|] == times;
      if |recent| >= PAIRING_CODE_ATTEMPTS {
        attempts := attempts[connection := recent];
        return false;
      }
      recent := recent + [later];
      attempts := attempts[connection := recent];
      allowed := true;
    }
  }

  /** One call of the limiter: its two clock readings. */
  datatype Ask = Ask(now: int, later: int)

  predicate ClockRuns(asks: seq<Ask>) {
    && (forall i | 0 <= i < |asks| :: asks[i].now <= asks[i].later)
    && (forall i, j | 0 <= i < j < |asks| :: asks[i].later <= asks[j].now)
  }

  /** What one connection has stored after some calls. */
  function Stored(asks: seq<Ask>): seq<int> {
    if asks == [] then []
    else Attempt(Stored(asks[..|asks| - 1]), asks[|asks| - 1].now, asks[|asks| - 1].later).0
  }

  predicate Allowed(asks: seq<Ask>)
    requires asks != []
  {
    Attempt(Stored(asks[..|asks| - 1]), asks[|asks| - 1].now, asks[|asks| - 1].later).1
  }

  /** The same limiter if it never forgot a granted attempt. */
  function History(asks: seq<Ask>): seq<int> {
    if asks == [] then []
    else
      var before, ask := History(asks[..|asks| - 1]), asks[|asks| - 1];
      if |Recent(before, ask.now - PAIRING_CODE_WINDOW_MS)| < PAIRING_CODE_ATTEMPTS then before + [ask.later] else before
  }

  lemma {:induction false} RecentAgain(times: seq<int>, a: int, b: int)
    requires a <= b
    ensures Recent(Recent(times, a), b) == Recent(times, b)
  {
    if times != [] {
      var n := |times| - 1;
      RecentAgain(times[..n], a, b);
      RecentMore(Recent(times[..n], a), times[n], b);
      assert Recent(times[..n], a) + [] == Recent(times[..n], a);
    }
  }

  lemma RecentMore(times: seq<int>, x: int, cutoff: int)
    ensures Recent(times + [x], cutoff) == Recent(times, cutoff) + if cutoff < x then [x] else []
  {
    assert (times + [x])[..|times|] == times;
  }

  /** Adding a time to a pruned list and to a full one that agree. */
  lemma AgreeingLists(stored: seq<int>, full: seq<int>, cut: int, cutoff: int, later: int)
    requires cut <= cutoff && Recent(stored, cutoff) == Recent(full, cutoff)
    ensures Recent(Recent(stored, cut), cutoff) == Recent(full, cutoff)
    ensures Recent(Recent(stored, cut) + [later], cutoff) == Recent(full + [later], cutoff)
  {
    RecentAgain(stored, cut, cutoff);
    RecentMore(Recent(stored, cut), later, cutoff);
    RecentMore(full, later, cutoff);
  }

  function Kept(recent: seq<int>, times: seq<int>, later: int): seq<int> {
    if PAIRING_CODE_ATTEMPTS <= |recent| then times else times + [later]
  }

  lemma AgreeingCalls(stored: seq<int>, full: seq<int>, recent: seq<int>, cut: int, cutoff: int, later: int)
    requires cut <= cutoff && recent == Recent(stored, cut) && Recent(stored, cutoff) == Recent(full, cutoff)
    ensures Recent(Kept(recent, recent, later), cutoff) == Recent(Kept(recent, full, later), cutoff)
  {
    AgreeingLists(stored, full, cut, cutoff, later);
  }

  lemma ClockRan(asks: seq<Ask>)
    requires ClockRuns(asks) && asks != []
    ensures
      var n := |asks| - 1;
      && ClockRuns(asks[..n])
      && (n > 0 ==> asks[..n][n - 1].now <= asks[n].now)
  {
    var n := |asks| - 1;
    if n > 0 {
      assert asks[n - 1].now <= asks[n - 1].later <= asks[n].now;
    }
  }

  lemma OneMoreAsk(before: seq<Ask>, ask: Ask, asks: seq<Ask>, cut: int, cutoff: int)
    requires asks == before + [ask] && cut == ask.now - PAIRING_CODE_WINDOW_MS && cut <= cutoff
    requires Recent(Stored(before), cut) == Recent(History(before), cut)
    requires Recent(Stored(before), cutoff) == Recent(History(before), cutoff)
    ensures Recent(Stored(asks), cutoff) == Recent(History(asks), cutoff)
  {
    assert asks[..|asks| - 1] == before && asks[|asks| - 1] == ask;
    var recent := Recent(Stored(before), cut);
    AgreeingCalls(Stored(before), History(before), recent, cut, cutoff, ask.later);
    assert Stored(asks) == Kept(recent, recent, ask.later);
    assert History(asks) == Kept(recent, History(before), ask.later);
  }

  /** Forgetting old attempts changes no decision. */
  lemma {:induction false} PruningChangesNothing(asks: seq<Ask>, cutoff: int)
    requires ClockRuns(asks)
    requires asks != [] ==> asks[|asks| - 1].now - PAIRING_CODE_WINDOW_MS <= cutoff
    ensures Recent(Stored(asks), cutoff) == Recent(History(asks), cutoff)
  {
    if asks != [] {
      var n := |asks| - 1;
      var cut := asks[n].now - PAIRING_CODE_WINDOW_MS;
      ClockRan(asks);
      PruningChangesNothing(asks[..n], cut);
      PruningChangesNothing(asks[..n], cutoff);
      OneMoreAsk(asks[..n], asks[n], asks, cut, cutoff);
    }
  }

  /** So every decision is the one a full history would give. */
  lemma DecidesLikeFullHistory(asks: seq<Ask>)
    requires ClockRuns(asks) && asks != []
    ensures
      var before, ask := asks[..|asks| - 1], asks[|asks| - 1];
      Allowed(asks) <==> |Recent(History(before), ask.now - PAIRING_CODE_WINDOW_MS)| < PAIRING_CODE_ATTEMPTS
  {
    var n := |asks| - 1;
    ClockRan(asks);
    PruningChangesNothing(asks[..n], asks[n].now - PAIRING_CODE_WINDOW_MS);
  }

  /** The granted attempts after `from`. */
  function GrantedAfter(asks: seq<Ask>, from: int): nat {
    |Recent(History(asks), from)|
  }

  lemma {:induction false} RecentShrinks(times: seq<int>, a: int, b: int)
    requires a <= b
    ensures |Recent(times, b)| <= |Recent(times, a)|
  {
    if times != [] { RecentShrinks(times[..|times| - 1], a, b); }
  }

  /** In no sixty seconds are more than five attempts granted: any stretch of calls whose last
      reading is less than a window after `from` holds at most five granted times after `from`. */
  lemma {:induction false} FiveInAnyMinute(asks: seq<Ask>, from: int)
    requires ClockRuns(asks)
    requires asks != [] ==> asks[|asks| - 1].later <= from + PAIRING_CODE_WINDOW_MS
    ensures GrantedAfter(asks, from) <= PAIRING_CODE_ATTEMPTS
  {
    if asks != [] {
      var n := |asks| - 1;
      var before, ask := asks[..n], asks[n];
      assert n > 0 ==> before[n - 1] == asks[n - 1];
      FiveInAnyMinute(before, from);
      RecentMore(History(before), ask.later, from);
      RecentShrinks(History(before), ask.now - PAIRING_CODE_WINDOW_MS, from);
    }
  }

  // ---------------------------------------------------------------- counted one by one

  /** The calls that were granted with a time after `from`. */
  function GrantedCalls(asks: seq<Ask>, from: int): set<nat> {
    set k: nat | k < |asks| && Allowed(asks[..k + 1]) && from < asks[k].later
  }

  lemma GrantedOneMore(asks: seq<Ask>, from: int)
    requires asks != []
    ensures var n := |asks| - 1;
            GrantedCalls(asks, from) == GrantedCalls(asks[..n], from) + if Allowed(asks) && from < asks[n].later then {n} else {}
  {
    var n := |asks| - 1;
    assert asks[..n + 1] == asks;
    forall k: nat | k < n ensures asks[..n][..k + 1] == asks[..k + 1] && asks[..n][k] == asks[k] {}
  }

  lemma {:induction false} HistoryCountsGrants(asks: seq<Ask>, from: int)
    requires ClockRuns(asks)
    ensures |GrantedCalls(asks, from)| == |Recent(History(asks), from)|
  {
    if asks == [] {
      assert GrantedCalls(asks, from) == {};
    } else {
      var n := |asks| - 1;
      ClockRan(asks);
      HistoryCountsGrants(asks[..n], from);
      DecidesLikeFullHistory(asks);
      GrantedOneMore(asks, from);
      RecentMore(History(asks[..n]), asks[n].later, from);
      assert n !in GrantedCalls(asks[..n], from);
    }
  }

  /** An attempt is granted exactly when fewer than five attempts of the sixty seconds before it were;
      and so in any sixty seconds at most five are. */
  lemma GrantedExactly(asks: seq<Ask>, from: int)
    requires ClockRuns(asks) && asks != []
    ensures var n := |asks| - 1;
            Allowed(asks) <==> |GrantedCalls(asks[..n], asks[n].now - 60_000)| < 5
    ensures asks[|asks| - 1].later <= from + 60_000 ==> |GrantedCalls(asks, from)| <= 5
  {
    var n := |asks| - 1;
    ClockRan(asks);
    DecidesLikeFullHistory(asks);
    HistoryCountsGrants(asks[..n], asks[n].now - PAIRING_CODE_WINDOW_MS);
    HistoryCountsGrants(asks, from);
    if asks[n].later <= from + PAIRING_CODE_WINDOW_MS { FiveInAnyMinute(asks, from); }
  }
}
