/** What every run of the session relay keeps. */
module SessionRelayResults {
  import opened Basics
  import opened SessionRelayModel

  // ---------------------------------------------------------------- the routing prefix

  lemma PrefixIsBigEndian(n: nat)
    ensures GetUint32(Prefix(n)) == n % TWO_32
  {
    var a, b, c := n / 0x100, n / 0x1_0000, n / 0x100_0000;
    assert n == 0x100 * a + n % 0x100;
    assert b == a / 0x100 && a == 0x100 * b + a % 0x100;
    assert c == b / 0x100 && b == 0x100 * c + b % 0x100;
    var top := c / 0x100;
    assert c == 0x100 * top + c % 0x100;
    assert n == TWO_32 * top + GetUint32(Prefix(n));
  }

  lemma PrefixOfRead(b: seq<Byte>)
    requires |b| == CONN_ID_BYTES
    ensures Prefix(GetUint32(b)) == b && GetUint32(b) < TWO_32
  {
    var n := GetUint32(b);
    var b0, b1, b2: int := b[0], b[1], b[2];
    assert n / 0x100 == b0 * 0x1_0000 + b1 * 0x100 + b2;
    assert n / 0x1_0000 == b0 * 0x100 + b1;
    assert n / 0x100_0000 == b0;
  }

  lemma ReadsThePrefix(prefix: seq<Byte>, payload: seq<Byte>)
    requires |prefix| == CONN_ID_BYTES
    ensures GetUint32(prefix + payload) == GetUint32(prefix)
  {
    var b := prefix + payload;
    assert b[0] == prefix[0] && b[1] == prefix[1] && b[2] == prefix[2] && b[3] == prefix[3];
  }

  /** The host reads back the client's own number exactly when it fits in four bytes. */
  lemma FrameRoundTrip(connId: nat, payload: seq<Byte>)
    ensures |Frame(connId, payload)| == CONN_ID_BYTES + |payload|
    ensures Frame(connId, payload)[CONN_ID_BYTES..] == payload
    ensures GetUint32(Frame(connId, payload)) == connId <==> connId < TWO_32
  {
    PrefixIsBigEndian(connId);
    ReadsThePrefix(Prefix(connId), payload);
  }

  // ---------------------------------------------------------------- the invariant

  predicate IsSoundSocket(s: Socket, r: Relay) {
    && s.id < r.nextId
    && s.generation <= r.generation
    && (IsOpenHost(s) ==> s.generation == r.generation)
    && (s.role.Host? ==> s.connId.None? && !s.retired)
    && (s.role.Client? ==> s.connId.Some? && s.connId.value < r.nextConn)
    && (s.role.Client? && !s.retired ==> s.generation == r.generation)
    && (s.retired ==> !s.ready.Open?)
  }

  predicate AreApart(s: Socket, t: Socket) {
    && s.id != t.id
    && !(IsOpenHost(s) && IsOpenHost(t))
    && (s.connId.Some? ==> s.connId != t.connId)
  }

  /** A payload joins a host and a client of one generation, unchanged but for the prefix, and
      goes to an open socket; what a host sends goes to the client its prefix names. */
  predicate IsSoundOutput(o: Output) {
    o.Forwarded? ==>
      && o.origin.generation == o.target.generation
      && o.target.ready.Open? && !o.target.retired && !o.origin.retired
      && ((o.origin.role.Client? && o.target.role.Host?
           && o.origin.connId.Some? && o.sent == Frame(o.origin.connId.value, o.message))
          || (o.origin.role.Host? && o.origin.ready.Open? && o.target.role.Client?
              && o.target.connId.Some? && o.message == Frame(o.target.connId.value, o.sent)))
  }

  predicate Apart(sockets: seq<Socket>) {
    forall i, j | 0 <= i < j < |sockets| :: AreApart(sockets[i], sockets[j])
  }

  predicate Inv(r: Relay) {
    && (forall i | 0 <= i < |r.sockets| :: IsSoundSocket(r.sockets[i], r))
    && Apart(r.sockets)
    && ActiveClients(r.sockets) <= MAX_CLIENTS
    && (forall o | o in r.outputs :: IsSoundOutput(o))
  }

  // ---------------------------------------------------------------- counting clients

  lemma {:induction false} NoActive(sockets: seq<Socket>)
    requires forall i | 0 <= i < |sockets| :: !IsActiveClient(sockets[i])
    ensures ActiveClients(sockets) == 0
  {
    if sockets != [] { NoActive(sockets[..|sockets| - 1]); }
  }

  lemma ActiveAfter(sockets: seq<Socket>, s: Socket)
    ensures ActiveClients(sockets + [s]) == ActiveClients(sockets) + if IsActiveClient(s) then 1 else 0
  {
    assert (sockets + [s])[..|sockets|] == sockets;
  }

  lemma {:induction false} ActiveAfterUpdate(sockets: seq<Socket>, k: nat, s: Socket)
    requires k < |sockets| && (IsActiveClient(s) ==> IsActiveClient(sockets[k]))
    ensures ActiveClients(sockets[k := s]) <= ActiveClients(sockets)
  {
    var n := |sockets| - 1;
    if k == n {
      assert sockets[k := s][..n] == sockets[..n];
    } else {
      ActiveAfterUpdate(sockets[..n], k, s);
      assert sockets[k := s][..n] == sockets[..n][k := s];
    }
  }

  lemma {:induction false} ActiveAfterDrop(sockets: seq<Socket>, k: nat)
    requires k < |sockets|
    ensures ActiveClients(sockets[..k] + sockets[k + 1..]) <= ActiveClients(sockets)
  {
    var n := |sockets| - 1;
    if k == n {
      assert sockets[..k] + sockets[k + 1..] == sockets[..n];
    } else {
      ActiveAfterDrop(sockets[..n], k);
      var dropped := sockets[..k] + sockets[k + 1..];
      assert dropped[..|dropped| - 1] == sockets[..n][..k] + sockets[..n][k + 1..];
      assert dropped[|dropped| - 1] == sockets[n];
    }
  }

  // ---------------------------------------------------------------- the steps

  lemma HostKeepsInv(r: Relay)
    requires Inv(r)
    ensures Inv(AcceptHost(r))
  {
    var n := AcceptHost(r);
    NoActive(AllSuperseded(r.sockets));
    ActiveAfter(AllSuperseded(r.sockets), n.sockets[|r.sockets|]);
    forall i, j | 0 <= i < j < |n.sockets| ensures AreApart(n.sockets[i], n.sockets[j]) {
      assert IsSoundSocket(r.sockets[i], r);
      if j < |r.sockets| { assert AreApart(r.sockets[i], r.sockets[j]); }
    }
    forall i | 0 <= i < |n.sockets| ensures IsSoundSocket(n.sockets[i], n) {
      if i < |r.sockets| { assert IsSoundSocket(r.sockets[i], r); }
    }
  }

  lemma ClientKeepsInv(r: Relay)
    requires Inv(r)
    ensures Inv(AcceptClient(r))
  {
    if ActiveClients(r.sockets) < MAX_CLIENTS {
      var n := AcceptClient(r);
      ActiveAfter(r.sockets, n.sockets[|r.sockets|]);
      forall i, j | 0 <= i < j < |n.sockets| ensures AreApart(n.sockets[i], n.sockets[j]) {
        assert IsSoundSocket(r.sockets[i], r);
        if j < |r.sockets| { assert AreApart(r.sockets[i], r.sockets[j]); }
      }
      forall i | 0 <= i < |n.sockets| ensures IsSoundSocket(n.sockets[i], n) {
        if i < |r.sockets| { assert IsSoundSocket(r.sockets[i], r); }
      }
    }
  }

  lemma SoundMember(r: Relay, s: Socket)
    requires Inv(r) && s in r.sockets
    ensures IsSoundSocket(s, r)
  {
    var i :| 0 <= i < |r.sockets| && r.sockets[i] == s;
  }

  /** No frame crosses a generation. */
  lemma ForwardIsSound(r: Relay, k: nat, message: seq<Byte>)
    requires Inv(r) && k < |r.sockets|
    ensures forall o | o in Receive(r, k, message).outputs :: IsSoundOutput(o)
  {
    var s := r.sockets[k];
    var host := CurrentHost(r.sockets);
    SoundMember(r, s);
    if host.Some? { SoundMember(r, host.value); }
    if s.role.Host? && CONN_ID_BYTES <= |message| {
      var target := FindTarget(r.sockets, GetUint32(message));
      if target.Some? {
        SoundMember(r, target.value);
        PrefixOfRead(message[..CONN_ID_BYTES]);
        assert GetUint32(message) == GetUint32(message[..CONN_ID_BYTES]);
        assert message == message[..CONN_ID_BYTES] + message[CONN_ID_BYTES..];
      }
    }
  }

  lemma {:induction false} TellingIsSound(outputs: seq<Output>, sockets: seq<Socket>, notice: Notice)
    requires forall o | o in outputs :: IsSoundOutput(o)
    ensures forall o | o in TellAllClients(outputs, sockets, notice) :: IsSoundOutput(o)
  {
    if sockets != [] { TellingIsSound(outputs, sockets[..|sockets| - 1], notice); }
  }

  /** Replacing one socket by itself in a later state. */
  lemma LaterStateKeeps(r: Relay, k: nat, s: Socket, outputs: seq<Output>)
    requires Inv(r) && k < |r.sockets| && (forall o | o in outputs :: IsSoundOutput(o))
    requires s == r.sockets[k] || (!s.ready.Open? && s == r.sockets[k].(ready := s.ready))
    ensures Inv(r.(sockets := r.sockets[k := s], outputs := outputs))
  {
    var n := r.(sockets := r.sockets[k := s], outputs := outputs);
    ActiveAfterUpdate(r.sockets, k, s);
    forall i | 0 <= i < |n.sockets| ensures IsSoundSocket(n.sockets[i], n) {
      assert IsSoundSocket(r.sockets[i], r);
    }
    forall i, j | 0 <= i < j < |n.sockets| ensures AreApart(n.sockets[i], n.sockets[j]) {
      assert AreApart(r.sockets[i], r.sockets[j]);
    }
  }

  lemma CloseKeepsInv(r: Relay, k: nat)
    requires Inv(r) && k < |r.sockets|
    ensures Inv(HandleClose(r, k)) && Inv(HandleError(r, k))
  {
    TellingIsSound(r.outputs, r.sockets, HostDisconnected);
    var n := HandleClose(r, k);
    assert forall o | o in n.outputs :: IsSoundOutput(o);
    LaterStateKeeps(r, k, CloseSocket(r.sockets[k]), n.outputs);
    LaterStateKeeps(r, k, CloseSocket(r.sockets[k]), r.outputs);
  }

  lemma DropKeepsInv(r: Relay, k: nat)
    requires Inv(r) && k < |r.sockets|
    ensures Inv(r.(sockets := r.sockets[..k] + r.sockets[k + 1..]))
  {
    var n := r.(sockets := r.sockets[..k] + r.sockets[k + 1..]);
    ActiveAfterDrop(r.sockets, k);
    forall i | 0 <= i < |n.sockets| ensures IsSoundSocket(n.sockets[i], n) {
      assert IsSoundSocket(r.sockets[if i < k then i else i + 1], r);
    }
    forall i, j | 0 <= i < j < |n.sockets| ensures AreApart(n.sockets[i], n.sockets[j]) {
      assert AreApart(r.sockets[if i < k then i else i + 1], r.sockets[if j < k then j else j + 1]);
    }
  }

  lemma StepKeepsInv(r: Relay, e: Event)
    requires Inv(r) && CanHappen(r, e)
    ensures Inv(Happen(r, e))
  {
    match e
    case HostArrives => HostKeepsInv(r);
    case ClientArrives => ClientKeepsInv(r);
    case Binary(k, message) => ForwardIsSound(r, k, message);
    case PeerClosed(k) => CloseKeepsInv(r, k);
    case SocketFailed(k) => CloseKeepsInv(r, k);
    case MovesOn(k, ready) => LaterStateKeeps(r, k, r.sockets[k].(ready := ready), r.outputs);
    case DropsOff(k) => DropKeepsInv(r, k);
  }

  lemma {:induction false} RunKeepsInv(r: Relay, events: seq<Event>)
    requires Inv(r) && CanRun(r, events)
    ensures Inv(RunEvents(r, events))
    decreases |events|
  {
    if events != [] {
      StepKeepsInv(r, events[0]);
      RunKeepsInv(Happen(r, events[0]), events[1..]);
    }
  }

  // ---------------------------------------------------------------- main results

  /** In every run: at most one host is open, at most sixteen clients are served, and no payload
      ever crossed a host generation. */
  lemma EveryRunIsSafe(events: seq<Event>)
    requires CanRun(NewRelay(), events)
    ensures
      var r := RunEvents(NewRelay(), events);
      && (forall i, j | 0 <= i < |r.sockets| && 0 <= j < |r.sockets| ::
            IsOpenHost(r.sockets[i]) && IsOpenHost(r.sockets[j]) ==> i == j)
      && ActiveClients(r.sockets) <= MAX_CLIENTS
      && (forall o | o in r.outputs :: IsSoundOutput(o))
  {
    RunKeepsInv(NewRelay(), events);
    var r := RunEvents(NewRelay(), events);
    forall i, j | 0 <= i < |r.sockets| && 0 <= j < |r.sockets| && IsOpenHost(r.sockets[i]) && IsOpenHost(r.sockets[j])
      ensures i == j
    {
      assert i < j ==> AreApart(r.sockets[i], r.sockets[j]);
      assert j < i ==> AreApart(r.sockets[j], r.sockets[i]);
    }
  }

  /** A reply to a frame reaches the client that sent it and no other, as long as that client is
      still served and its number fits in the prefix. */
  lemma ReplyReachesTheSender(r: Relay, host: nat, client: nat, reply: seq<Byte>)
    requires Inv(r) && host < |r.sockets| && client < |r.sockets|
    requires IsOpenHost(r.sockets[host]) && IsActiveClient(r.sockets[client])
    ensures
      var conn := r.sockets[client].connId.value;
      Receive(r, host, Frame(conn, reply)).outputs ==
        r.outputs + [Forwarded(r.sockets[host], r.sockets[client], Frame(conn, reply), reply)]
      <==> conn < TWO_32
  {
    assert IsSoundSocket(r.sockets[client], r) && IsSoundSocket(r.sockets[host], r);
    var conn := r.sockets[client].connId.value;
    FrameRoundTrip(conn, reply);
    var named := GetUint32(Frame(conn, reply));
    var found := FindTarget(r.sockets, named);
    var outputs := Receive(r, host, Frame(conn, reply)).outputs;
    if conn < TWO_32 {
      assert IsTarget(r.sockets[client], conn);
      TargetIsUnique(r, client, found.value);
    } else if found.Some? {
      assert found.value != r.sockets[client];
      assert outputs[|outputs| - 1].target == found.value;
    } else {
      assert outputs == r.outputs + [Told(r.sockets[host], UnknownConn(named))];
      assert outputs[|outputs| - 1].Told?;
    }
  }

  lemma TargetIsUnique(r: Relay, k: nat, other: Socket)
    requires Inv(r) && k < |r.sockets| && r.sockets[k].connId.Some?
    requires other in r.sockets && other.connId == r.sockets[k].connId
    ensures other == r.sockets[k]
  {
    var i :| 0 <= i < |r.sockets| && r.sockets[i] == other;
    assert i < k ==> AreApart(r.sockets[i], r.sockets[k]);
    assert k < i ==> AreApart(r.sockets[k], r.sockets[i]);
  }

  /** A client of an earlier host can no longer reach any host. */
  lemma RetiredClientsAreSilent(r: Relay, k: nat, message: seq<Byte>)
    requires Inv(r) && k < |r.sockets|
    requires r.sockets[k].role.Client? && r.sockets[k].generation < r.generation
    ensures Receive(r, k, message) == r
  {
    assert IsSoundSocket(r.sockets[k], r);
  }

  /** Clients are told that the host is gone when it closes and no other is open, and only then. */
  lemma HostLossIsAnnounced(r: Relay, k: nat, client: Socket)
    requires Inv(r) && k < |r.sockets| && r.sockets[k].role.Host?
    requires client in r.sockets && IsActiveClient(client)
    ensures |r.outputs| <= |HandleClose(r, k).outputs|
    ensures HandleClose(r, k).outputs[..|r.outputs|] == r.outputs
    ensures Told(client, HostDisconnected) in HandleClose(r, k).outputs[|r.outputs|..] <==>
              CurrentHost(HandleClose(r, k).sockets).None?
  {
    var n := HandleClose(r, k);
    ToldToAll(r.outputs, r.sockets, HostDisconnected, client);
    if AnotherHostIsOpen(r.sockets, k) {
      var i :| 0 <= i < |r.sockets| && i != k && IsOpenHost(r.sockets[i]);
      assert n.sockets[i] == r.sockets[i];
      assert r.outputs[|r.outputs|..] == [];
    } else {
      forall s | s in n.sockets ensures !IsOpenHost(s) {
        var i :| 0 <= i < |n.sockets| && n.sockets[i] == s;
      }
    }
  }

  lemma {:induction false} ToldToAll(outputs: seq<Output>, sockets: seq<Socket>, notice: Notice, client: Socket)
    ensures |outputs| <= |TellAllClients(outputs, sockets, notice)|
    ensures TellAllClients(outputs, sockets, notice)[..|outputs|] == outputs
    ensures client in sockets && client.role.Client? && client.ready.Open? ==>
              Told(client, notice) in TellAllClients(outputs, sockets, notice)[|outputs|..]
  {
    if sockets != [] {
      var n := |sockets| - 1;
      ToldToAll(outputs, sockets[..n], notice, client);
      assert sockets == sockets[..n] + [sockets[n]];
      var before, after := TellAllClients(outputs, sockets[..n], notice), TellAllClients(outputs, sockets, notice);
      assert before <= after;
      assert after[|outputs|..] == before[|outputs|..] + after[|before|..];
      if sockets[n] == client && client.role.Client? && client.ready.Open? {
        assert after[|after| - 1] == Told(client, notice);
      }
    }
  }
}
