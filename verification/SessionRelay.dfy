/** `SessionRelay`: the handlers over the sockets the runtime lists, each proved against the
    function that models it.  `View` leaves out nothing the handlers use. */
module SessionRelays {
  import opened Basics
  import opened SessionRelayModel

  class SessionRelay {
    var sockets: seq<Socket>
    var nextConn: nat
    var nextId: nat
    var outputs: seq<Output>
    /** How many hosts there were; kept for the proof only, no handler decides by it. */
    var generation: nat

    constructor ()
      ensures View() == NewRelay()
    {
      sockets, nextConn, nextId, outputs, generation := [], 1, 0, [], 0;
    }

    function View(): Relay
      reads this
    {
      Relay(sockets, nextConn, generation, nextId, outputs)
    }

    /** `frame`: the prefix, then a copy of the payload. */
    static method FrameBytes(connId: nat, payload: array<Byte>) returns (out: array<Byte>)
      ensures fresh(out) && out[..] == Frame(connId, payload[..])
    {
      out := new Byte[CONN_ID_BYTES + payload.Length];
      out[0], out[1], out[2], out[3] :=
        connId / 0x100_0000 % 256, connId / 0x1_0000 % 256, connId / 0x100 % 256, connId % 256;
      for i := 0 to payload.Length
        invariant out[..CONN_ID_BYTES] == Prefix(connId)
        invariant out[CONN_ID_BYTES..CONN_ID_BYTES + i] == payload[..i]
      {
        out[CONN_ID_BYTES + i] := payload[i];
      }
      assert out[..] == out[..CONN_ID_BYTES] + out[CONN_ID_BYTES..];
    }

    /** `currentHost`. */
    method FindHost() returns (host: Option<Socket>)
      ensures host == CurrentHost(sockets)
    {
      for i := 0 to |sockets|
        invariant CurrentHost(sockets) == CurrentHost(sockets[i..])
      {
        if sockets[i].role.Host? && sockets[i].ready.Open? {
          return Some(sockets[i]);
        }
      }
      host := None;
    }

    method FindClient(connId: nat) returns (target: Option<Socket>)
      ensures target == FindTarget(sockets, connId)
    {
      for i := 0 to |sockets|
        invariant FindTarget(sockets, connId) == FindTarget(sockets[i..], connId)
      {
        var s := sockets[i];
        if s.role.Client? && s.ready.Open? && !s.retired && s.connId == Some(connId) {
          return Some(s);
        }
      }
      target := None;
    }

    method CountActive() returns (count: nat)
      ensures count == ActiveClients(sockets)
    {
      count := 0;
      for i := 0 to |sockets|
        invariant count == ActiveClients(sockets[..i])
      {
        assert sockets[..i + 1][..i] == sockets[..i];
        if sockets[i].role.Client? && sockets[i].ready.Open? && !sockets[i].retired {
          count := count + 1;
        }
      }
      assert sockets[..|sockets|] == sockets;
    }

    /** `safeSend`: what is sent on a socket that is not open is dropped. */
    method SendNotice(target: Socket, notice: Notice)
      modifies this`outputs
      ensures outputs == Tell(old(outputs), target, notice)
    {
      if target.ready.Open? {
        outputs := outputs + [Told(target, notice)];
      }
    }

    method HostArrival()
      modifies this
      ensures View() == AcceptHost(old(View()))
    {
      for i := 0 to |sockets|
        invariant |sockets| == |old(sockets)|
        invariant forall k | 0 <= k < |sockets| ::
                    sockets[k] == if k < i && old(sockets)[k].role.Client?
                                  then Superseded(old(sockets)[k]) else old(sockets)[k]
        invariant nextConn == old(nextConn) && nextId == old(nextId)
        invariant outputs == old(outputs) && generation == old(generation)
      {
        if sockets[i].role.Client? {
          sockets := sockets[i := CloseSocket(sockets[i].(retired := true))];
        }
      }
      for i := 0 to |sockets|
        invariant |sockets| == |old(sockets)|
        invariant forall k | 0 <= k < |sockets| ::
                    sockets[k] == if k < i || old(sockets)[k].role.Client?
                                  then Superseded(old(sockets)[k]) else old(sockets)[k]
        invariant nextConn == old(nextConn) && nextId == old(nextId)
        invariant outputs == old(outputs) && generation == old(generation)
      {
        if sockets[i].role.Host? {
          sockets := sockets[i := CloseSocket(sockets[i])];
        }
      }
      assert sockets == AllSuperseded(old(sockets));
      generation := generation + 1;
      Admit(Host, None);
    }

    /** `admit`. */
    method Admit(role: Role, connId: Option<nat>)
      modifies this`sockets, this`nextId
      ensures sockets == old(sockets) + [Socket(old(nextId), role, connId, false, Open, generation)]
      ensures nextId == old(nextId) + 1
    {
      sockets := sockets + [Socket(nextId, role, connId, false, Open, generation)];
      nextId := nextId + 1;
    }

    method ClientArrival() returns (accepted: bool)
      modifies this
      ensures View() == AcceptClient(old(View()))
      ensures accepted <==> ActiveClients(old(sockets)) < MAX_CLIENTS
    {
      var active := CountActive();
      if MAX_CLIENTS <= active {
        return false;
      }
      var connId := nextConn;
      nextConn := connId + 1;
      var host := FindHost();
      Admit(Client, Some(connId));
      var server := sockets[|sockets| - 1];
      if host.Some? {
        SendNotice(host.value, ClientConnected(connId));
      }
      SendNotice(server, if host.Some? then HostConnected else HostDisconnected);
      accepted := true;
    }

    method Message(k: nat, message: array<Byte>)
      requires k < |sockets|
      modifies this`outputs
      ensures View() == Receive(old(View()), k, message[..])
    {
      var s := sockets[k];
      if s.retired {
        return;
      }
      if s.role.Client? {
        var host := FindHost();
        if host.None? {
          return;
        }
        var framed := FrameBytes(if s.connId.Some? then s.connId.value else 0, message);
        outputs := outputs + [Forwarded(s, host.value, message[..], framed[..])];
        return;
      }
      if !s.ready.Open? {
        return;
      }
      if message.Length < CONN_ID_BYTES {
        return;
      }
      var connId := GetUint32(message[..]);
      var target := FindClient(connId);
      if target.None? {
        SendNotice(s, UnknownConn(connId));
        return;
      }
      outputs := outputs + [Forwarded(s, target.value, message[..], message[CONN_ID_BYTES..])];
    }

    method PeerClose(k: nat)
      requires k < |sockets|
      modifies this`outputs, this`sockets
      ensures View() == HandleClose(old(View()), k)
    {
      var s := sockets[k];
      if s.role.Host? {
        var another := false;
        for i := 0 to |sockets|
          invariant another <==> exists j | 0 <= j < i :: j != k && IsOpenHost(sockets[j])
        {
          another := another || (i != k && sockets[i].role.Host? && sockets[i].ready.Open?);
        }
        if !another {
          for i := 0 to |sockets|
            invariant sockets == old(sockets)
            invariant outputs == TellAllClients(old(outputs), sockets[..i], HostDisconnected)
          {
            assert sockets[..i + 1][..i] == sockets[..i];
            if sockets[i].role.Client? {
              SendNotice(sockets[i], HostDisconnected);
            }
          }
          assert sockets[..|sockets|] == sockets;
        }
      } else if !s.retired && s.connId.Some? {
        var host := FindHost();
        if host.Some? {
          SendNotice(host.value, ClientDisconnected(s.connId.value));
        }
      }
      sockets := sockets[k := CloseSocket(sockets[k])];
    }

    method SocketError(k: nat)
      requires k < |sockets|
      modifies this`sockets
      ensures View() == HandleError(old(View()), k)
    {
      sockets := sockets[k := CloseSocket(sockets[k])];
    }
  }
}
