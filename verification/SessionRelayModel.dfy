/** The blind session relay as values (`relay-worker/src/session-relay.ts`).

    A socket the runtime still lists may be open, closing or closed.  Sockets carry the host
    generation they were admitted in, which the program does not store: it is there to say what
    must never be mixed. */
module SessionRelayModel {
  import opened Basics

  const MAX_CLIENTS: nat := 16
  const CONN_ID_BYTES: nat := 4
  const TWO_32: nat := 0x1_0000_0000

  datatype Role = Host | Client

  datatype Ready = Open | Closing | Closed

  datatype Socket = Socket(id: nat, role: Role, connId: Option<nat>, retired: bool, ready: Ready, generation: nat)

  datatype Notice =
    | ClientConnected(conn: nat)
    | ClientDisconnected(conn: nat)
    | HostConnected
    | HostDisconnected
    | UnknownConn(conn: nat)

  /** What left the relay: a payload passed on, or one of its own notices. */
  datatype Output =
    | Forwarded(origin: Socket, target: Socket, message: seq<Byte>, sent: seq<Byte>)
    | Told(target: Socket, notice: Notice)

  datatype Relay = Relay(sockets: seq<Socket>, nextConn: nat, generation: nat, nextId: nat, outputs: seq<Output>)

  // ---------------------------------------------------------------- frames

  /** `setUint32`, big-endian: a larger number is cut to 32 bits. */
  function Prefix(n: nat): (r: seq<Byte>)
    ensures |r| == CONN_ID_BYTES
  {
    [n / 0x100_0000 % 256, n / 0x1_0000 % 256, n / 0x100 % 256, n % 256]
  }

  /** `getUint32`, big-endian. */
  function GetUint32(b: seq<Byte>): nat
    requires CONN_ID_BYTES <= |b|
  {
    (b[0] as int) * 0x100_0000 + (b[1] as int) * 0x1_0000 + (b[2] as int) * 0x100 + b[3] as int
  }

  function Frame(connId: nat, payload: seq<Byte>): seq<Byte> {
    Prefix(connId) + payload
  }

  // ---------------------------------------------------------------- sockets

  function CloseSocket(s: Socket): Socket {
    if s.ready.Open? then s.(ready := Closing) else s
  }

  predicate IsOpenHost(s: Socket) {
    s.role.Host? && s.ready.Open?
  }

  predicate IsActiveClient(s: Socket) {
    s.role.Client? && s.ready.Open? && !s.retired
  }

  predicate IsTarget(s: Socket, connId: nat) {
    IsActiveClient(s) && s.connId == Some(connId)
  }

  function CurrentHost(sockets: seq<Socket>): (r: Option<Socket>)
    ensures r.Some? ==> r.value in sockets && IsOpenHost(r.value)
    ensures r.None? ==> forall s | s in sockets :: !IsOpenHost(s)
  {
    if sockets == [] then None
    else if IsOpenHost(sockets[0]) then Some(sockets[0])
    else CurrentHost(sockets[1..])
  }

  function FindTarget(sockets: seq<Socket>, connId: nat): (r: Option<Socket>)
    ensures r.Some? ==> r.value in sockets && IsTarget(r.value, connId)
    ensures r.None? ==> forall s | s in sockets :: !IsTarget(s, connId)
  {
    if sockets == [] then None
    else if IsTarget(sockets[0], connId) then Some(sockets[0])
    else FindTarget(sockets[1..], connId)
  }

  function ActiveClients(sockets: seq<Socket>): nat {
    if sockets == [] then 0
    else ActiveClients(sockets[..|sockets| - 1]) + if IsActiveClient(sockets[|sockets| - 1]) then 1 else 0
  }

  /** A send on a socket that is not open throws, and is dropped. */
  function Tell(outputs: seq<Output>, target: Socket, notice: Notice): seq<Output> {
    if target.ready.Open? then outputs + [Told(target, notice)] else outputs
  }

  function TellAllClients(outputs: seq<Output>, sockets: seq<Socket>, notice: Notice): seq<Output> {
    if sockets == [] then outputs
    else
      var before := TellAllClients(outputs, sockets[..|sockets| - 1], notice);
      var last := sockets[|sockets| - 1];
      if last.role.Client? then Tell(before, last, notice) else before
  }

  // ---------------------------------------------------------------- handlers

  /** What a new host does to a socket that predates it. */
  function Superseded(s: Socket): Socket {
    CloseSocket(if s.role.Client? then s.(retired := true) else s)
  }

  function AllSuperseded(sockets: seq<Socket>): (r: seq<Socket>)
    ensures |r| == |sockets| && forall i | 0 <= i < |r| :: r[i] == Superseded(sockets[i])
  {
    seq(|sockets|, i requires 0 <= i < |sockets| => Superseded(sockets[i]))
  }

  function AcceptHost(r: Relay): Relay {
    var host := Socket(r.nextId, Host, None, false, Open, r.generation + 1);
    Relay(AllSuperseded(r.sockets) + [host], r.nextConn, r.generation + 1, r.nextId + 1, r.outputs)
  }

  /** A full relay turns the client away. */
  function AcceptClient(r: Relay): Relay {
    if MAX_CLIENTS <= ActiveClients(r.sockets) then r
    else
      var client := Socket(r.nextId, Client, Some(r.nextConn), false, Open, r.generation);
      var host := CurrentHost(r.sockets);
      var told := if host.Some? then Tell(r.outputs, host.value, ClientConnected(r.nextConn)) else r.outputs;
      Relay(
        r.sockets + [client], r.nextConn + 1, r.generation, r.nextId + 1,
        Tell(told, client, if host.Some? then HostConnected else HostDisconnected))
  }

  /** A binary message from a client. */
  function FromClient(r: Relay, client: Socket, message: seq<Byte>): seq<Output> {
    var host := CurrentHost(r.sockets);
    if host.None? then r.outputs
    else
      var conn := if client.connId.Some? then client.connId.value else 0;
      r.outputs + [Forwarded(client, host.value, message, Frame(conn, message))]
  }

  /** A binary message from a host. */
  function FromHost(r: Relay, host: Socket, message: seq<Byte>): seq<Output> {
    if !host.ready.Open? || |message| < CONN_ID_BYTES then r.outputs
    else
      var target := FindTarget(r.sockets, GetUint32(message));
      if target.None? then Tell(r.outputs, host, UnknownConn(GetUint32(message)))
      else r.outputs + [Forwarded(host, target.value, message, message[CONN_ID_BYTES..])]
  }

  /** `webSocketMessage`. */
  function Receive(r: Relay, k: nat, message: seq<Byte>): Relay
    requires k < |r.sockets|
  {
    var s := r.sockets[k];
    if s.retired then r
    else r.(outputs := if s.role.Client? then FromClient(r, s, message) else FromHost(r, s, message))
  }

  predicate AnotherHostIsOpen(sockets: seq<Socket>, k: nat) {
    exists i | 0 <= i < |sockets| :: i != k && IsOpenHost(sockets[i])
  }

  /** `webSocketClose`. */
  function HandleClose(r: Relay, k: nat): Relay
    requires k < |r.sockets|
  {
    var s := r.sockets[k];
    var host := CurrentHost(r.sockets);
    var told :=
      if s.role.Host? then
        if AnotherHostIsOpen(r.sockets, k) then r.outputs
        else TellAllClients(r.outputs, r.sockets, HostDisconnected)
      else if !s.retired && s.connId.Some? && host.Some? then
        Tell(r.outputs, host.value, ClientDisconnected(s.connId.value))
      else r.outputs;
    r.(sockets := r.sockets[k := CloseSocket(s)], outputs := told)
  }

  /** `webSocketError`. */
  function HandleError(r: Relay, k: nat): Relay
    requires k < |r.sockets|
  {
    r.(sockets := r.sockets[k := CloseSocket(r.sockets[k])])
  }

  // ---------------------------------------------------------------- runs

  /** The relay's events, and what the runtime does to a socket on its own: its state moves on,
      and a socket that is no longer open may drop off the list. */
  datatype Event =
    | HostArrives
    | ClientArrives
    | Binary(k: nat, message: seq<Byte>)
    | PeerClosed(k: nat)
    | SocketFailed(k: nat)
    | MovesOn(k: nat, ready: Ready)
    | DropsOff(k: nat)

  predicate CanHappen(r: Relay, e: Event) {
    match e
    case HostArrives => true
    case ClientArrives => true
    case MovesOn(k, ready) => k < |r.sockets| && !ready.Open?
    case DropsOff(k) => k < |r.sockets| && !r.sockets[k].ready.Open?
    case _ => e.k < |r.sockets|
  }

  function Happen(r: Relay, e: Event): Relay
    requires CanHappen(r, e)
  {
    match e
    case HostArrives => AcceptHost(r)
    case ClientArrives => AcceptClient(r)
    case Binary(k, message) => Receive(r, k, message)
    case PeerClosed(k) => HandleClose(r, k)
    case SocketFailed(k) => HandleError(r, k)
    case MovesOn(k, ready) => r.(sockets := r.sockets[k := r.sockets[k].(ready := ready)])
    case DropsOff(k) => r.(sockets := r.sockets[..k] + r.sockets[k + 1..])
  }

  predicate CanRun(r: Relay, events: seq<Event>)
    decreases |events|
  {
    events == [] || (CanHappen(r, events[0]) && CanRun(Happen(r, events[0]), events[1..]))
  }

  function RunEvents(r: Relay, events: seq<Event>): Relay
    requires CanRun(r, events)
    decreases |events|
  {
    if events == [] then r else RunEvents(Happen(r, events[0]), events[1..])
  }

  function NewRelay(): Relay {
    Relay([], 1, 0, 0, [])
  }
}
