/** What the session relay delivers: every message of a served client to the open host, every
    message of the open host to the client it names, and who is admitted, told and closed. */
module SessionRelayDelivery {
  import opened Basics
  import opened SessionRelayModel
  import opened SessionRelayResults

  predicate HasOpenHost(r: Relay) {
    exists i | 0 <= i < |r.sockets| :: IsOpenHost(r.sockets[i])
  }

  lemma PlaceOf(sockets: seq<Socket>, s: Socket) returns (i: nat)
    requires s in sockets
    ensures i < |sockets| && sockets[i] == s
  {
    i :| 0 <= i < |sockets| && sockets[i] == s;
  }

  lemma OneHostIsOpen(r: Relay, i: nat, j: nat)
    requires Inv(r) && i < |r.sockets| && j < |r.sockets| && IsOpenHost(r.sockets[i]) && IsOpenHost(r.sockets[j])
    ensures i == j
  {
    if i != j { HostsAreApart(r, if i < j then i else j, if i < j then j else i); }
  }

  lemma HostsAreApart(r: Relay, i: nat, j: nat)
    requires Inv(r) && i < j < |r.sockets|
    ensures !(IsOpenHost(r.sockets[i]) && IsOpenHost(r.sockets[j]))
  {
    assert AreApart(r.sockets[i], r.sockets[j]);
  }

  /** The open host is the one the relay finds: there is no other. */
  lemma OpenHostIsFound(r: Relay, h: nat)
    requires Inv(r) && h < |r.sockets| && IsOpenHost(r.sockets[h])
    ensures CurrentHost(r.sockets) == Some(r.sockets[h])
  {
    assert r.sockets[h] in r.sockets;
    var i := PlaceOf(r.sockets, CurrentHost(r.sockets).value);
    OneHostIsOpen(r, i, h);
  }

  lemma NoHostIsFound(r: Relay)
    requires !HasOpenHost(r)
    ensures CurrentHost(r.sockets) == None
  {
    if CurrentHost(r.sockets).Some? {
      var i := PlaceOf(r.sockets, CurrentHost(r.sockets).value);
    }
  }

  // ---------------------------------------------------------------- messages

  /** The bytes are a number in four big-endian bytes, cut to 32 bits, and the message behind it. */
  predicate IsNumbered(sent: seq<Byte>, number: nat, message: seq<Byte>) {
    && |sent| == 4 + |message| && sent[4..] == message
    && (sent[0] as int) * 0x100_0000 + (sent[1] as int) * 0x1_0000 + (sent[2] as int) * 0x100 + sent[3] as int
       == number % TWO_32
  }

  lemma FrameIsNumbered(number: nat, message: seq<Byte>)
    ensures IsNumbered(Frame(number, message), number, message)
  {
    PrefixIsBigEndian(number);
    FrameRoundTrip(number, message);
  }

  /** The event adds exactly one output, and changes nothing else. */
  predicate AddsOutput(r: Relay, r': Relay, o: Output) {
    r' == r.(outputs := r.outputs + [o])
  }

  /** In every state of the invariant, a message of a client that is not retired leaves the relay
      exactly once, for the open host, behind the client's number; with no open host nothing
      happens. */
  lemma ClientMessageReachesTheHost(r: Relay, k: nat, message: seq<Byte>)
    requires Inv(r) && k < |r.sockets| && r.sockets[k].role.Client? && !r.sockets[k].retired
    ensures r.sockets[k].connId.Some?
    ensures forall h | 0 <= h < |r.sockets| && IsOpenHost(r.sockets[h]) ::
              exists sent :: IsNumbered(sent, r.sockets[k].connId.value, message)
                             && AddsOutput(r, Happen(r, Binary(k, message)), Forwarded(r.sockets[k], r.sockets[h], message, sent))
    ensures !HasOpenHost(r) ==> Happen(r, Binary(k, message)) == r
  {
    var s := r.sockets[k];
    assert IsSoundSocket(s, r);
    forall h | 0 <= h < |r.sockets| && IsOpenHost(r.sockets[h])
      ensures exists sent :: IsNumbered(sent, s.connId.value, message)
                             && AddsOutput(r, Happen(r, Binary(k, message)), Forwarded(s, r.sockets[h], message, sent))
    {
      OpenHostIsFound(r, h);
      FrameIsNumbered(s.connId.value, message);
    }
    if !HasOpenHost(r) { NoHostIsFound(r); }
  }

  /** The number in front of a host's message. */
  function NumberOf(message: seq<Byte>): nat
    requires 4 <= |message|
  {
    (message[0] as int) * 0x100_0000 + (message[1] as int) * 0x1_0000 + (message[2] as int) * 0x100 + message[3] as int
  }

  predicate Serves(r: Relay, c: nat, number: nat) {
    c < |r.sockets| && IsActiveClient(r.sockets[c]) && r.sockets[c].connId == Some(number)
  }

  /** A message of the open host leaves the relay exactly once, without its number, for the served
      client of that number; if there is none the host is told so.  A message too short for a number
      and one of a host that is no longer open do nothing. */
  lemma HostMessageReachesTheClient(r: Relay, h: nat, message: seq<Byte>)
    requires Inv(r) && h < |r.sockets| && r.sockets[h].role.Host?
    ensures !IsOpenHost(r.sockets[h]) || |message| < 4 ==> Happen(r, Binary(h, message)) == r
    ensures IsOpenHost(r.sockets[h]) && 4 <= |message| ==>
              && (forall c: nat | c < |r.sockets| && Serves(r, c, NumberOf(message)) ::
                    AddsOutput(r, Happen(r, Binary(h, message)), Forwarded(r.sockets[h], r.sockets[c], message, message[4..])))
              && ((forall c: nat | c < |r.sockets| :: !Serves(r, c, NumberOf(message))) ==>
                    AddsOutput(r, Happen(r, Binary(h, message)), Told(r.sockets[h], UnknownConn(NumberOf(message)))))
  {
    assert IsSoundSocket(r.sockets[h], r);
    if IsOpenHost(r.sockets[h]) && 4 <= |message| {
      var found := FindTarget(r.sockets, NumberOf(message));
      forall c: nat | c < |r.sockets| && Serves(r, c, NumberOf(message))
        ensures AddsOutput(r, Happen(r, Binary(h, message)), Forwarded(r.sockets[h], r.sockets[c], message, message[4..]))
      {
        assert IsTarget(r.sockets[c], NumberOf(message));
        TargetIsUnique(r, c, found.value);
      }
      if found.Some? {
        var c :| 0 <= c < |r.sockets| && r.sockets[c] == found.value;
        assert Serves(r, c, NumberOf(message));
      }
    }
  }

  /** A client's message and the host's reply under the same four bytes: the reply reaches that
      client, if and only if its number is below 2^32. */
  lemma ExchangeRoundTrips(r: Relay, h: nat, k: nat, message: seq<Byte>, reply: seq<Byte>, sent: seq<Byte>)
    requires Inv(r) && h < |r.sockets| && IsOpenHost(r.sockets[h]) && k < |r.sockets| && IsActiveClient(r.sockets[k])
    requires AddsOutput(r, Happen(r, Binary(k, message)), Forwarded(r.sockets[k], r.sockets[h], message, sent))
    ensures 4 <= |sent|
    ensures var asked := Happen(r, Binary(k, message));
            r.sockets[k].connId.Some? &&
            (AddsOutput(asked, Happen(asked, Binary(h, sent[..4] + reply)),
                        Forwarded(r.sockets[h], r.sockets[k], sent[..4] + reply, reply))
             <==> r.sockets[k].connId.value < TWO_32)
  {
    assert IsSoundSocket(r.sockets[k], r);
    OpenHostIsFound(r, h);
    var number := r.sockets[k].connId.value;
    assert r.outputs + [Forwarded(r.sockets[k], r.sockets[h], message, sent)]
        == r.outputs + [Forwarded(r.sockets[k], r.sockets[h], message, Frame(number, message))] by {
      assert Happen(r, Binary(k, message)).outputs == r.outputs + [Forwarded(r.sockets[k], r.sockets[h], message, Frame(number, message))];
    }
    assert sent == Frame(number, message) by {
      LastIs(r.outputs, Forwarded(r.sockets[k], r.sockets[h], message, sent));
      LastIs(r.outputs, Forwarded(r.sockets[k], r.sockets[h], message, Frame(number, message)));
    }
    assert sent[..4] + reply == Frame(number, reply);
    var asked := Happen(r, Binary(k, message));
    StepKeepsInv(r, Binary(k, message));
    ReplyReachesTheSender(asked, h, k, reply);
  }

  lemma LastIs(outputs: seq<Output>, o: Output)
    ensures (outputs + [o])[|outputs + [o]| - 1] == o
  {
  }

  // ---------------------------------------------------------------- arrivals

  /** A host that arrives is the one open host; every other socket is closing or closed, and every
      client from before is retired. */
  lemma HostArrivalSupersedes(r: Relay)
    ensures var r' := Happen(r, HostArrives);
            && |r'.sockets| == |r.sockets| + 1 && r'.outputs == r.outputs && r'.nextConn == r.nextConn
            && IsOpenHost(r'.sockets[|r.sockets|])
            && (forall i | 0 <= i < |r.sockets| ::
                  && !r'.sockets[i].ready.Open? && (r.sockets[i].role.Client? ==> r'.sockets[i].retired)
                  && r'.sockets[i].id == r.sockets[i].id && r'.sockets[i].role == r.sockets[i].role
                  && r'.sockets[i].connId == r.sockets[i].connId)
  {
    var r' := Happen(r, HostArrives);
    forall i | 0 <= i < |r.sockets| ensures r'.sockets[i] == Superseded(r.sockets[i]) {}
  }

  function Served(sockets: seq<Socket>): set<nat> {
    set k: nat | k < |sockets| && IsActiveClient(sockets[k])
  }

  lemma {:induction false} ServedAreCounted(sockets: seq<Socket>)
    ensures |Served(sockets)| == ActiveClients(sockets)
  {
    if sockets == [] {
      assert Served(sockets) == {};
    } else {
      var n := |sockets| - 1;
      ServedAreCounted(sockets[..n]);
      assert Served(sockets) == Served(sockets[..n]) + if IsActiveClient(sockets[n]) then {n} else {};
    }
  }

  /** With fewer than sixteen clients served, a client that arrives is served under a number no one
      has; the open host is told of it, and the client whether there is one.  Otherwise nothing
      changes. */
  lemma ClientArrivalIsServed(r: Relay)
    requires Inv(r)
    ensures |Served(r.sockets)| >= 16 ==> Happen(r, ClientArrives) == r
    ensures |Served(r.sockets)| < 16 ==>
              var r', n := Happen(r, ClientArrives), |r.sockets|;
              && |r'.sockets| == n + 1 && r'.sockets[..n] == r.sockets && Serves(r', n, r.nextConn)
              && (forall i | 0 <= i < n :: r.sockets[i].connId != Some(r.nextConn))
              && (forall h | 0 <= h < n && IsOpenHost(r.sockets[h]) ::
                    r'.outputs == r.outputs + [Told(r.sockets[h], ClientConnected(r.nextConn)), Told(r'.sockets[n], HostConnected)])
              && (!HasOpenHost(r) ==> r'.outputs == r.outputs + [Told(r'.sockets[n], HostDisconnected)])
  {
    ServedAreCounted(r.sockets);
    if |Served(r.sockets)| < 16 {
      forall i | 0 <= i < |r.sockets| ensures r.sockets[i].connId != Some(r.nextConn) {
        assert IsSoundSocket(r.sockets[i], r);
      }
      forall h | 0 <= h < |r.sockets| && IsOpenHost(r.sockets[h])
        ensures var r' := Happen(r, ClientArrives);
                r'.outputs == r.outputs + [Told(r.sockets[h], ClientConnected(r.nextConn)), Told(r'.sockets[|r.sockets|], HostConnected)]
      {
        OpenHostIsFound(r, h);
      }
      if !HasOpenHost(r) { NoHostIsFound(r); }
    }
  }

  // ---------------------------------------------------------------- closing

  /** A close or an error leaves that socket not open and every other as it was. */
  lemma ClosingClosesOne(r: Relay, k: nat)
    requires k < |r.sockets|
    ensures forall e | e in {PeerClosed(k), SocketFailed(k)} ::
              var r' := Happen(r, e);
              && |r'.sockets| == |r.sockets| && !r'.sockets[k].ready.Open?
              && r'.sockets[k].(ready := r.sockets[k].ready) == r.sockets[k]
              && (forall i | 0 <= i < |r.sockets| && i != k :: r'.sockets[i] == r.sockets[i])
              && r'.nextConn == r.nextConn && r'.generation == r.generation
              && (e.SocketFailed? ==> r'.outputs == r.outputs)
  {
  }

  /** The open host is told once of a client that closes, if the client was not retired; without an
      open host nobody is. */
  lemma ClientLossIsAnnounced(r: Relay, k: nat)
    requires Inv(r) && k < |r.sockets| && r.sockets[k].role.Client?
    ensures r.sockets[k].connId.Some?
    ensures r.sockets[k].retired || !HasOpenHost(r) ==> Happen(r, PeerClosed(k)).outputs == r.outputs
    ensures forall h | 0 <= h < |r.sockets| && IsOpenHost(r.sockets[h]) && !r.sockets[k].retired ::
              Happen(r, PeerClosed(k)).outputs == r.outputs + [Told(r.sockets[h], ClientDisconnected(r.sockets[k].connId.value))]
  {
    assert IsSoundSocket(r.sockets[k], r);
    forall h | 0 <= h < |r.sockets| && IsOpenHost(r.sockets[h]) && !r.sockets[k].retired
      ensures Happen(r, PeerClosed(k)).outputs == r.outputs + [Told(r.sockets[h], ClientDisconnected(r.sockets[k].connId.value))]
    {
      OpenHostIsFound(r, h);
    }
    if !HasOpenHost(r) { NoHostIsFound(r); }
  }
}
