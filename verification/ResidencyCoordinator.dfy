/** The classes of `packages/switchboard/src/residency.ts`.  Every handler is proved to do to
    the coordinator's state, and to send, exactly what its function in ResidencyProtocol says. */
module ResidencyCoordinators {
  import opened Basics
  import opened ResidencyProtocol

  /** The durable attempt table with its event files. */
  class ResidentAttemptJournal {
    var rows: map<Key, Attempt>

    constructor ()
      ensures rows == map[]
    {
      rows := map[];
    }

    method Get(key: Key) returns (attempt: Option<Attempt>)
      ensures attempt == if key in rows then Some(rows[key]) else None
    {
      attempt := if key in rows then Some(rows[key]) else None;
    }

    /** None when the call id comes back with different input; then nothing changes. */
    method EnsureAttempt(key: Key, request: Request) returns (attempt: Option<Attempt>)
      modifies this
      ensures attempt.None? <==> key in old(rows) && Conflicts(old(rows)[key], request)
      ensures rows == if attempt.None? then old(rows) else Ensure(old(rows), key, request)
      ensures attempt.Some? ==> key in rows && rows[key] == attempt.value
    {
      var existing := Get(key);
      if existing.Some? {
        if Conflicts(existing.value, request) { return None; }
        return existing;
      }
      rows := rows[key := Attempt(request, Accepted, 0, [], Clean, -1)];
      attempt := Get(key);
    }

    method Begin(key: Key) returns (attempt: Attempt)
      requires key in rows
      modifies this
      ensures attempt == old(rows)[key].(count := old(rows)[key].count + 1)
      ensures rows == old(rows)[key := attempt]
    {
      rows := rows[key := rows[key].(count := rows[key].count + 1)];
      attempt := rows[key];
    }

    method SetState(key: Key, state: AttemptState) returns (attempt: Attempt)
      requires key in rows
      modifies this
      ensures attempt == old(rows)[key].(state := state)
      ensures rows == old(rows)[key := attempt]
    {
      rows := rows[key := rows[key].(state := state)];
      attempt := rows[key];
    }

    method AppendEvent(key: Key, event: WireEvent) returns (index: nat)
      requires key in rows
      modifies this
      ensures index == |old(rows)[key].log|
      ensures rows == old(rows)[key := old(rows)[key].Append(event)]
    {
      index := |rows[key].log|;
      rows := rows[key := rows[key].Append(event)];
    }

    method Acknowledge(key: Key, index: int)
      modifies this
      ensures rows == if key in old(rows)
                      then old(rows)[key := old(rows)[key].(acked := Max(old(rows)[key].acked, index))]
                      else old(rows)
    {
      if key in rows {
        rows := rows[key := rows[key].(acked := Max(rows[key].acked, index))];
      }
    }
  }

  /** What a consumer of the stream meets next. */
  datatype Poll = Item(event: WireEvent) | Failure | End | NothingYet

  class RemoteEventStream {
    /** The call this stream belongs to. */
    ghost const call: RpcId
    var events: seq<WireEvent>
    var cursor: nat
    var ended: bool
    var failed: bool

    ghost predicate Valid()
      reads this
    {
      cursor <= |events| && (failed ==> ended)
    }

    constructor (ghost call: RpcId)
      ensures Valid() && this.call == call && events == [] && cursor == 0 && !ended && !failed
    {
      this.call := call;
      events, cursor, ended, failed := [], 0, false, false;
    }

    method Push(event: WireEvent)
      requires Valid()
      modifies this
      ensures Valid() && events == old(events) + [event]
      ensures cursor == old(cursor) && ended == old(ended) && failed == old(failed)
    {
      events := events + [event];
    }

    method Complete()
      requires Valid()
      modifies this
      ensures Valid() && ended && failed == old(failed) && events == old(events) && cursor == old(cursor)
    {
      ended := true;
    }

    method Fail()
      requires Valid()
      modifies this
      ensures Valid() && ended && failed && events == old(events) && cursor == old(cursor)
    {
      failed, ended := true, true;
    }

    /** One turn of the async iterator: everything pushed is handed over in order before an
        end or a failure shows. */
    method Next() returns (poll: Poll)
      requires Valid()
      modifies this
      ensures Valid() && events == old(events) && ended == old(ended) && failed == old(failed)
      ensures poll.Item? <==> old(cursor) < |events|
      ensures poll.Item? ==> events[..old(cursor)] + [poll.event] == events[..cursor]
      ensures !poll.Item? ==> cursor == old(cursor) == |events|
      ensures poll.Failure? ==> failed
      ensures poll.End? ==> ended && !failed
      ensures poll.NothingYet? ==> !ended
    {
      if cursor < |events| {
        poll := Item(events[cursor]);
        cursor := cursor + 1;
        return;
      }
      if failed { return Failure; }
      if ended { return End; }
      poll := NothingYet;
    }
  }

  class PendingRemote {
    const host: Peer
    const request: Request
    const start: nat
    const stream: RemoteEventStream
    var nextEventIndex: nat
    var buffered: map<nat, WireEvent>
    var retries: nat

    constructor (host: Peer, request: Request, start: nat)
      ensures this.host == host && this.request == request && this.start == start
      ensures fresh(stream) && stream.Valid() && !stream.ended && stream.call == request.rpc
      ensures View() == Pending(host, request, start, start, [], map[], 0)
    {
      this.host, this.request, this.start := host, request, start;
      nextEventIndex, buffered, retries := start, map[], 0;
      stream := new RemoteEventStream(request.rpc);
    }

    function View(): Pending
      reads this, stream
    {
      Pending(host, request, start, nextEventIndex, stream.events, buffered, retries)
    }
  }

  lemma AnswerOneMore(me: Peer, r: Resident, home: Peer, done: set<ReconcileRequest>, q: ReconcileRequest)
    ensures ReconcileReplies(me, r, home, done + {q}) == ReconcileReplies(me, r, home, done) + ReconcileReply(me, r, home, q)
  {
  }

  lemma UpdateThenRemove<V>(m: map<RpcId, V>, rpc: RpcId, v: V)
    ensures m[rpc := v] - {rpc} == m - {rpc}
  {
  }

  datatype DeliverResult = Refused(why: Refusal) | Streaming(stream: RemoteEventStream)

  class ResidencyCoordinator {
    const me: Peer
    const adapters: set<string>
    const maxPendingCompletionAcks: nat
    const journal: ResidentAttemptJournal
    var activeResidentAttempts: set<Key>
    var turns: map<Key, Turn>
    /** The callbacks that adapters may still hold of turns that have ended. */
    ghost var ended: set<Hook>
    var pendingHomeAttempts: map<RpcId, PendingRemote>
    var completedHomeIndexes: map<RpcId, Completion>
    /** Everything handed to the transport. */
    var sent: set<Packet>
    ghost var Repr: set<object>

    constructor (me: Peer, adapters: set<string>, maxPendingCompletionAcks: nat, journal: ResidentAttemptJournal)
      requires maxPendingCompletionAcks >= 1
      ensures Valid() && this.me == me && this.journal == journal && sent == {} && Repr == {}
      ensures View() == Node(Resident(adapters, journal.rows, {}, map[], {}), Home(maxPendingCompletionAcks, map[], map[]))
    {
      this.me, this.adapters, this.journal := me, adapters, journal;
      this.maxPendingCompletionAcks := maxPendingCompletionAcks;
      activeResidentAttempts, turns, pendingHomeAttempts, completedHomeIndexes, sent := {}, map[], map[], map[], {};
      ended, Repr := {}, {};
    }

    /** Open calls own their records and their streams, and an open call's stream is open. */
    ghost predicate Valid()
      reads this`Repr, this`pendingHomeAttempts, Repr
    {
      this !in Repr && journal !in Repr && forall rpc | rpc in pendingHomeAttempts :: ValidCall(rpc)
    }

    ghost predicate ValidCall(rpc: RpcId)
      requires rpc in pendingHomeAttempts
      reads this`Repr, this`pendingHomeAttempts, Repr
    {
      var remote := pendingHomeAttempts[rpc];
      && remote in Repr && remote.request.rpc == rpc
      && remote.stream in Repr && remote.stream.call == rpc
      && remote.stream.Valid() && !remote.stream.ended
    }

    ghost function ResidentView(): Resident
      reads this`activeResidentAttempts, this`turns, this`ended, journal
    {
      Resident(adapters, journal.rows, activeResidentAttempts, turns, ended)
    }

    ghost function HomeView(): Home
      requires Valid()
      reads this`Repr, this`pendingHomeAttempts, this`completedHomeIndexes, Repr
    {
      Home(maxPendingCompletionAcks,
           map rpc | rpc in pendingHomeAttempts :: pendingHomeAttempts[rpc].View(),
           completedHomeIndexes)
    }

    ghost function View(): Node
      requires Valid()
      reads this, journal, Repr
    {
      Node(ResidentView(), HomeView())
    }

    /** Between two states only the call `rpc` changed, came or went. */
    twostate predicate OthersKept(rpc: RpcId)
      requires old(Valid()) && Valid()
      reads this`Repr, this`pendingHomeAttempts, Repr
    {
      && (forall other | other in old(pendingHomeAttempts) && other != rpc :: other in pendingHomeAttempts)
      && (forall other | other in pendingHomeAttempts && other != rpc ::
            && other in old(pendingHomeAttempts) && ValidCall(other)
            && old(ValidCall(other)) && pendingHomeAttempts[other].View() == old(pendingHomeAttempts[other].View()))
    }

    twostate lemma OneCallChanged(rpc: RpcId)
      requires old(Valid()) && Valid() && OthersKept(rpc)
      requires rpc in pendingHomeAttempts
      ensures HomeView().pending == old(HomeView()).pending[rpc := pendingHomeAttempts[rpc].View()]
    {
    }

    twostate lemma OneCallRemoved(rpc: RpcId)
      requires old(Valid()) && Valid() && OthersKept(rpc)
      requires rpc !in pendingHomeAttempts
      ensures HomeView().pending == old(HomeView()).pending - {rpc}
    {
      assert forall other | other in HomeView().pending :: other != rpc && other in old(HomeView()).pending;
      assert forall other | other in old(HomeView()).pending && other != rpc :: other in HomeView().pending;
    }

    // -------------------------------------------------------------- the resident part

    method SendOutcome(key: Key, attempt: Attempt, kind: OutcomeKind, last: int)
      modifies this`sent
      ensures sent == old(sent) + {OutcomePacket(me, key, attempt, kind, last)}
    {
      sent := sent + {OutcomePacket(me, key, attempt, kind, last)};
    }

    method AcceptResidentDelivery(home: Peer, request: Request)
      modifies this`activeResidentAttempts, this`turns, this`sent, journal
      ensures ResidentView() == AcceptDelivery(me, old(ResidentView()), home, request).resident
      ensures sent == old(sent) + AcceptDelivery(me, old(ResidentView()), home, request).sends
    {
      var key := Key(home, request.rpc);
      var ensured := journal.EnsureAttempt(key, request);
      if ensured.None? { return; }
      var attempt := ensured.value;
      if attempt.state == Completed {
        SendOutcome(key, attempt, OutcomeCompleted, -1);
        return;
      }
      if attempt.state == Ambiguous || (attempt.state == Started && key !in activeResidentAttempts) {
        SendOutcome(key, attempt, OutcomeAmbiguous, -1);
        return;
      }
      if key in activeResidentAttempts { return; }
      if attempt.count >= 2 {
        var _ := journal.SetState(key, Ambiguous);
        SendOutcome(key, attempt, OutcomeAmbiguous, -1);
        return;
      }
      activeResidentAttempts := activeResidentAttempts + {key};
      RunResidentAttempt(key, request);
    }

    /** `runResidentAttempt` up to the point where it waits for the adapter. */
    method RunResidentAttempt(key: Key, request: Request)
      requires key in journal.rows && key in activeResidentAttempts
      modifies this`turns, this`sent, journal
      ensures ResidentView() == BeginTurn(me, old(ResidentView()), key, request).resident
      ensures sent == old(sent) + BeginTurn(me, old(ResidentView()), key, request).sends
    {
      assert activeResidentAttempts + {key} == activeResidentAttempts;
      var attempt := journal.Begin(key);
      if request.member.harness !in adapters {
        var _ := journal.SetState(key, Ambiguous);
        SendOutcome(key, attempt, OutcomeAmbiguous, -1);
        return;
      }
      turns := turns[key := Turn(attempt.count, request, false, false)];
    }

    method EmitResidentEvent(key: Key, event: WireEvent)
      requires key in journal.rows
      modifies this`sent, journal
      ensures ResidentView() == EmitEvent(me, old(ResidentView()), key, event).resident
      ensures sent == old(sent) + EmitEvent(me, old(ResidentView()), key, event).sends
    {
      var index := journal.AppendEvent(key, event);
      sent := sent + {Packet(me, key.home, RunEvent(key.rpc, index, event))};
    }

    /** The adapter calls the hook it was given; the turn may be over, and the journal may have
        moved on. */
    method OnStarted(hook: Hook)
      requires hook.key in journal.rows
      requires hook.key in turns && turns[hook.key].number == hook.number ==> turns[hook.key].request == hook.request
      modifies this`turns, this`sent, journal
      ensures ResidentView() == FireHook(me, old(ResidentView()), hook).resident
      ensures sent == old(sent) + FireHook(me, old(ResidentView()), hook).sends
    {
      if hook.key in turns && turns[hook.key].number == hook.number {
        turns := turns[hook.key := turns[hook.key].(started := true)];
      }
      var _ := journal.SetState(hook.key, Started);
      EmitResidentEvent(hook.key, RunStarted(hook.request.member.id, hook.request.trigger));
    }

    method OnEvent(key: Key, event: WireEvent)
      requires key in turns && key in journal.rows
      modifies this`turns, this`sent, journal
      ensures ResidentView() == YieldEvent(me, old(ResidentView()), key, event).resident
      ensures sent == old(sent) + YieldEvent(me, old(ResidentView()), key, event).sends
    {
      EmitResidentEvent(key, event);
      turns := turns[key := turns[key].(completed := turns[key].completed || event.RunCompleted?)];
    }

    method OnStreamEnd(key: Key)
      requires key in turns && key in journal.rows
      modifies this`turns, this`ended, this`sent, journal
      ensures ResidentView() == FinishTurn(me, old(ResidentView()), key).resident
      ensures sent == old(sent) + FinishTurn(me, old(ResidentView()), key).sends
    {
      var turn, attempt := turns[key], journal.rows[key];
      ended := ended + {HookOf(key, turns[key])};
      turns := turns - {key};
      if turn.completed {
        var _ := journal.SetState(key, Completed);
      } else if turn.started || |attempt.log| > 0 {
        var _ := journal.SetState(key, Ambiguous);
        SendOutcome(key, attempt, OutcomeAmbiguous, -1);
      } else if turn.number >= 2 {
        var _ := journal.SetState(key, Ambiguous);
        SendOutcome(key, attempt, OutcomeAmbiguous, -1);
      } else {
        var _ := journal.SetState(key, Accepted);
        SendOutcome(key, attempt, OutcomeNeverStarted, -1);
      }
    }

    method OnStreamThrow(key: Key)
      requires key in turns && key in journal.rows
      modifies this`turns, this`ended, this`sent, journal
      ensures ResidentView() == ThrowTurn(me, old(ResidentView()), key).resident
      ensures sent == old(sent) + ThrowTurn(me, old(ResidentView()), key).sends
    {
      var turn, current := turns[key], journal.rows[key];
      ended := ended + {HookOf(key, turns[key])};
      turns := turns - {key};
      if !turn.started && |current.log| == 0 && current.count < 2 {
        var _ := journal.SetState(key, Accepted);
        SendOutcome(key, current, OutcomeNeverStarted, -1);
      } else {
        var _ := journal.SetState(key, Ambiguous);
        SendOutcome(key, current, OutcomeAmbiguous, -1);
      }
    }

    method ReconcileOne(home: Peer, requested: ReconcileRequest)
      modifies this`sent
      ensures sent == old(sent) + ReconcileReply(me, ResidentView(), home, requested)
    {
      var key := Key(home, requested.rpc);
      var found := journal.Get(key);
      if found.None? {
        sent := sent + {Packet(me, home, Outcome(requested.rpc, OutcomeNeverStarted, []))};
      } else if found.value.state == Completed {
        SendOutcome(key, found.value, OutcomeCompleted, requested.lastIndex);
      } else if found.value.state == Accepted && |found.value.log| == 0 {
        SendOutcome(key, found.value, OutcomeNeverStarted, requested.lastIndex);
      } else if key !in activeResidentAttempts {
        SendOutcome(key, found.value, OutcomeAmbiguous, requested.lastIndex);
      }
    }

    method ReconcileResident(home: Peer, attempts: set<ReconcileRequest>)
      modifies this`sent
      ensures sent == old(sent) + ReconcileReplies(me, ResidentView(), home, attempts)
    {
      var todo := attempts;
      ghost var r := ResidentView();
      while todo != {}
        invariant todo <= attempts && ResidentView() == r
        invariant sent == old(sent) + ReconcileReplies(me, r, home, attempts - todo)
        decreases |todo|
      {
        var requested :| requested in todo;
        AnswerOneMore(me, r, home, attempts - todo, requested);
        assert attempts - (todo - {requested}) == (attempts - todo) + {requested};
        todo := todo - {requested};
        ReconcileOne(home, requested);
      }
      assert attempts - {} == attempts;
    }

    method HandleEventAck(home: Peer, rpc: RpcId, index: int)
      modifies this`sent, journal
      ensures ResidentView() == AcknowledgeEvent(me, old(ResidentView()), home, rpc, index).resident
      ensures sent == old(sent) + AcknowledgeEvent(me, old(ResidentView()), home, rpc, index).sends
    {
      var key := Key(home, rpc);
      journal.Acknowledge(key, index);
      var found := journal.Get(key);
      if found.Some? && found.value.state == Completed {
        var final := |found.value.log| - 1;
        if final >= 0 && index >= final {
          sent := sent + {Packet(me, home, CompletionAck(rpc, final))};
        }
      }
    }

    // -------------------------------------------------------------- the home part

    method Deliver(host: Peer, request: Request, start: nat, reachable: set<Peer>) returns (result: DeliverResult)
      requires Valid()
      modifies this`pendingHomeAttempts, this`sent, this`Repr
      ensures Valid() && fresh(Repr - old(Repr))
      ensures HomeView() == RequestTurn(me, old(HomeView()), host, request, start, reachable).home
      ensures sent == old(sent) + RequestTurn(me, old(HomeView()), host, request, start, reachable).sends
      ensures var why := DeliverRefusal(old(HomeView()), host, request.rpc, reachable);
              if why.Some? then result == Refused(why.value)
              else request.rpc in pendingHomeAttempts
                   && result == Streaming(pendingHomeAttempts[request.rpc].stream)
    {
      if host !in reachable { return Refused(Unreachable); }
      if request.rpc in pendingHomeAttempts {
        return Streaming(pendingHomeAttempts[request.rpc].stream);
      }
      var outstanding := OutstandingFor(host);
      if outstanding >= maxPendingCompletionAcks { return Refused(TooManyInFlight); }
      OpenCall(host, request, start);
      sent := sent + {Packet(me, host, Message.Deliver(request))};
      result := Streaming(pendingHomeAttempts[request.rpc].stream);
    }

    method OpenCall(host: Peer, request: Request, start: nat)
      requires Valid() && request.rpc !in pendingHomeAttempts
      modifies this`pendingHomeAttempts, this`Repr
      ensures Valid() && fresh(Repr - old(Repr))
      ensures request.rpc in pendingHomeAttempts
      ensures HomeView() == old(HomeView()).(pending :=
                old(HomeView()).pending[request.rpc := Pending(host, request, start, start, [], map[], 0)])
    {
      var remote := new PendingRemote(host, request, start);
      pendingHomeAttempts := pendingHomeAttempts[request.rpc := remote];
      Repr := Repr + {remote, remote.stream};
      assert forall rpc | rpc in pendingHomeAttempts && rpc != request.rpc :: old(ValidCall(rpc));
      OneCallChanged(request.rpc);
    }

    method OutstandingFor(host: Peer) returns (n: nat)
      requires Valid()
      ensures n == Outstanding(HomeView(), host)
    {
      var completed := set rpc | rpc in completedHomeIndexes && completedHomeIndexes[rpc].host == host;
      var pending := set rpc | rpc in pendingHomeAttempts && pendingHomeAttempts[rpc].host == host;
      assert completed == DoneAt(HomeView(), host) && pending == PendingAt(HomeView(), host);
      n := |completed| + |pending|;
    }

    method SendCompletionEventAck(rpc: RpcId, completion: Completion, reachable: set<Peer>)
      modifies this`sent
      ensures sent == old(sent) + CompletionEventAck(me, rpc, completion, reachable)
    {
      if completion.host !in reachable { return; }
      sent := sent + {Packet(me, completion.host, RunEventAck(rpc, completion.index))};
    }

    /** A negative index makes the transport throw, and the caller swallows that. */
    method SendRunEventAck(host: Peer, rpc: RpcId, index: int)
      modifies this`sent
      ensures sent == old(sent) + AckPackets(me, host, rpc, index)
    {
      if index >= 0 { sent := sent + {Packet(me, host, RunEventAck(rpc, index))}; }
    }

    /** Buffer one event and move what became contiguous into the stream. */
    static method DrainBuffer(remote: PendingRemote) returns (completed: Option<nat>)
      requires remote.stream.Valid() && !remote.stream.ended
      modifies remote, remote.stream
      ensures remote.stream.Valid() && !remote.stream.ended
      ensures (remote.View(), completed) == Drain(old(remote.View()))
    {
      completed := None;
      ghost var whole := Drain(remote.View());
      while remote.nextEventIndex in remote.buffered
        invariant remote.stream.Valid() && !remote.stream.ended
        invariant Drain(remote.View()).0 == whole.0
        invariant whole.1 == if Drain(remote.View()).1.Some? then Drain(remote.View()).1 else completed
        decreases |remote.buffered|
      {
        ghost var before := remote.View();
        var eventIndex := remote.nextEventIndex;
        var event := remote.buffered[eventIndex];
        remote.buffered := remote.buffered - {eventIndex};
        remote.nextEventIndex := remote.nextEventIndex + 1;
        remote.stream.Push(event);
        if event.RunCompleted? { completed := Some(eventIndex); }
        assert remote.View() == DrainOne(before);
      }
    }

    method AdmitNewEvent(rpc: RpcId, index: nat, event: WireEvent) returns (completed: Option<nat>)
      requires Valid() && rpc in pendingHomeAttempts
      modifies pendingHomeAttempts[rpc], pendingHomeAttempts[rpc].stream
      ensures Valid()
      ensures var p := old(HomeView()).pending[rpc];
              var (q, last) := Drain(p.(buffered := p.buffered[index := event]));
              HomeView() == old(HomeView()).(pending := old(HomeView()).pending[rpc := q]) && completed == last
      ensures HomeView().pending[rpc] == pendingHomeAttempts[rpc].View()
    {
      var remote := pendingHomeAttempts[rpc];
      assert ValidCall(rpc);
      remote.buffered := remote.buffered[index := event];
      completed := DrainBuffer(remote);
      OneCallChanged(rpc);
    }

    method FinishCall(rpc: RpcId, completion: Completion, reachable: set<Peer>)
      requires Valid() && rpc in pendingHomeAttempts
      modifies this`pendingHomeAttempts, this`completedHomeIndexes, this`sent, pendingHomeAttempts[rpc].stream
      ensures Valid()
      ensures HomeView() == old(HomeView()).(pending := old(HomeView()).pending - {rpc},
                                             done := old(HomeView()).done[rpc := completion])
      ensures sent == old(sent) + CompletionEventAck(me, rpc, completion, reachable)
      ensures var stream := old(pendingHomeAttempts[rpc].stream);
              stream.ended && !stream.failed && stream.events == old(pendingHomeAttempts[rpc].stream.events)
    {
      assert ValidCall(rpc);
      completedHomeIndexes := completedHomeIndexes[rpc := completion];
      SendCompletionEventAck(rpc, completion, reachable);
      pendingHomeAttempts[rpc].stream.Complete();
      pendingHomeAttempts := pendingHomeAttempts - {rpc};
      OneCallRemoved(rpc);
    }

    method HandleNewEvent(from: Peer, rpc: RpcId, index: nat, event: WireEvent, reachable: set<Peer>)
      requires Valid() && rpc in pendingHomeAttempts
      modifies this`pendingHomeAttempts, this`completedHomeIndexes, this`sent, Repr
      ensures Valid()
      ensures HomeView() == ResidencyProtocol.AdmitEvent(me, old(HomeView()), from, rpc, index, event, reachable).home
      ensures sent == old(sent) + ResidencyProtocol.AdmitEvent(me, old(HomeView()), from, rpc, index, event, reachable).sends
      ensures rpc !in pendingHomeAttempts ==>
                old(pendingHomeAttempts[rpc].stream).ended && !old(pendingHomeAttempts[rpc].stream).failed
    {
      assert ValidCall(rpc);
      var completed := AdmitNewEvent(rpc, index, event);
      if completed.Some? {
        UpdateThenRemove(old(HomeView()).pending, rpc, HomeView().pending[rpc]);
        FinishCall(rpc, Completion(from, completed.value), reachable);
      } else {
        SendRunEventAck(from, rpc, pendingHomeAttempts[rpc].nextEventIndex - 1);
      }
    }

    method HandleRemoteEvent(from: Peer, rpc: RpcId, index: nat, event: WireEvent, reachable: set<Peer>)
      requires Valid()
      modifies this`pendingHomeAttempts, this`completedHomeIndexes, this`sent, Repr
      ensures Valid()
      ensures HomeView() == TakeEvent(me, old(HomeView()), from, rpc, index, event, reachable).home
      ensures sent == old(sent) + TakeEvent(me, old(HomeView()), from, rpc, index, event, reachable).sends
    {
      if rpc !in pendingHomeAttempts || pendingHomeAttempts[rpc].host != from {
        if rpc in completedHomeIndexes {
          var known := completedHomeIndexes[rpc];
          if known.host == from && index <= known.index { SendCompletionEventAck(rpc, known, reachable); }
        }
        return;
      }
      if index < pendingHomeAttempts[rpc].nextEventIndex {
        SendRunEventAck(from, rpc, pendingHomeAttempts[rpc].nextEventIndex - 1);
        return;
      }
      HandleNewEvent(from, rpc, index, event, reachable);
    }

    method HandleEvents(from: Peer, rpc: RpcId, events: seq<Indexed>, reachable: set<Peer>)
      requires Valid()
      modifies this`pendingHomeAttempts, this`completedHomeIndexes, this`sent, Repr
      ensures Valid()
      ensures HomeView() == TakeEvents(me, old(HomeView()), from, rpc, events, reachable).home
      ensures sent == old(sent) + TakeEvents(me, old(HomeView()), from, rpc, events, reachable).sends
    {
      ghost var whole := TakeEvents(me, HomeView(), from, rpc, events, reachable);
      var i := 0;
      while i < |events|
        invariant 0 <= i <= |events| && Valid()
        invariant TakeEvents(me, HomeView(), from, rpc, events[i..], reachable).home == whole.home
        invariant old(sent) + whole.sends == sent + TakeEvents(me, HomeView(), from, rpc, events[i..], reachable).sends
      {
        assert events[i..][1..] == events[i + 1..];
        HandleRemoteEvent(from, rpc, events[i].index, events[i].event, reachable);
        i := i + 1;
      }
    }

    method HandleNoTurn(rpc: RpcId, kind: OutcomeKind)
      requires Valid() && rpc in pendingHomeAttempts
      modifies this`pendingHomeAttempts, this`sent, Repr
      ensures Valid()
      ensures HomeView() == RetryOrFail(me, old(HomeView()), rpc, kind).home
      ensures sent == old(sent) + RetryOrFail(me, old(HomeView()), rpc, kind).sends
      ensures rpc !in pendingHomeAttempts ==>
                old(pendingHomeAttempts[rpc].stream).ended && old(pendingHomeAttempts[rpc].stream).failed
    {
      assert ValidCall(rpc);
      if kind.OutcomeNeverStarted? && pendingHomeAttempts[rpc].retries < 1 {
        AskAgain(rpc);
      } else {
        GiveUp(rpc);
      }
    }

    method AskAgain(rpc: RpcId)
      requires Valid() && rpc in pendingHomeAttempts
      modifies this`sent, pendingHomeAttempts[rpc]
      ensures Valid()
      ensures var p := old(HomeView()).pending[rpc];
              && HomeView() == old(HomeView()).(pending := old(HomeView()).pending[rpc := p.(retries := p.retries + 1)])
              && sent == old(sent) + {Packet(me, p.host, Message.Deliver(p.request))}
    {
      assert ValidCall(rpc);
      var remote := pendingHomeAttempts[rpc];
      remote.retries := remote.retries + 1;
      sent := sent + {Packet(me, remote.host, Message.Deliver(remote.request))};
      OneCallChanged(rpc);
    }

    method GiveUp(rpc: RpcId)
      requires Valid() && rpc in pendingHomeAttempts
      modifies this`pendingHomeAttempts, pendingHomeAttempts[rpc].stream
      ensures Valid()
      ensures HomeView() == old(HomeView()).(pending := old(HomeView()).pending - {rpc})
      ensures var stream := old(pendingHomeAttempts[rpc].stream);
              stream.ended && stream.failed && stream.events == old(pendingHomeAttempts[rpc].stream.events)
    {
      assert ValidCall(rpc);
      pendingHomeAttempts[rpc].stream.Fail();
      pendingHomeAttempts := pendingHomeAttempts - {rpc};
      OneCallRemoved(rpc);
    }

    method HandleOutcome(from: Peer, rpc: RpcId, kind: OutcomeKind, events: seq<Indexed>, reachable: set<Peer>)
      requires Valid()
      modifies this`pendingHomeAttempts, this`completedHomeIndexes, this`sent, Repr
      ensures Valid()
      ensures HomeView() == TakeOutcome(me, old(HomeView()), from, rpc, kind, events, reachable).home
      ensures sent == old(sent) + TakeOutcome(me, old(HomeView()), from, rpc, kind, events, reachable).sends
    {
      if rpc !in pendingHomeAttempts || pendingHomeAttempts[rpc].host != from { return; }
      if kind.OutcomeCompleted? {
        HandleEvents(from, rpc, events, reachable);
      } else {
        HandleNoTurn(rpc, kind);
      }
    }

    method HandleCompletionAck(from: Peer, rpc: RpcId, index: int)
      requires Valid()
      modifies this`completedHomeIndexes
      ensures Valid() && HomeView() == TakeCompletionAck(old(HomeView()), from, rpc, index).home
    {
      if rpc in completedHomeIndexes {
        var completed := completedHomeIndexes[rpc];
        if completed.host == from && completed.index == index {
          completedHomeIndexes := completedHomeIndexes - {rpc};
        }
      }
    }

    /** The retry timer, or for one host its reconnect. */
    method RetryCompletionAcks(host: Option<Peer>, reachable: set<Peer>)
      requires Valid()
      modifies this`sent
      ensures sent == old(sent) + RetryAcks(me, HomeView(), host, reachable)
    {
      var todo := completedHomeIndexes.Keys;
      while todo != {}
        invariant todo <= completedHomeIndexes.Keys
        invariant sent == old(sent) +
          (set rpc, p | rpc in completedHomeIndexes && rpc !in todo
                        && (host.None? || completedHomeIndexes[rpc].host == host.value)
                        && p in CompletionEventAck(me, rpc, completedHomeIndexes[rpc], reachable) :: p)
        decreases |todo|
      {
        var rpcId :| rpcId in todo;
        todo := todo - {rpcId};
        var completion := completedHomeIndexes[rpcId];
        if host.Some? && completion.host != host.value { continue; }
        SendCompletionEventAck(rpcId, completion, reachable);
      }
    }

    method HandlePeerState(peer: Peer, connected: bool, reachable: set<Peer>)
      requires Valid()
      modifies this`sent
      ensures sent == old(sent) + if connected then ReconnectPackets(me, HomeView(), peer, reachable) else {}
    {
      if !connected { return; }
      RetryCompletionAcks(Some(peer), reachable);
      SendReconcile(peer);
    }

    method SendReconcile(peer: Peer)
      requires Valid()
      modifies this`sent
      ensures sent == old(sent) + if ReconcileRequests(HomeView(), peer) == {} then {}
                                  else {Packet(me, peer, Reconcile(ReconcileRequests(HomeView(), peer)))}
    {
      var attempts := OpenCallsAt(peer);
      if attempts != {} { sent := sent + {Packet(me, peer, Reconcile(attempts))}; }
    }

    method OpenCallsAt(peer: Peer) returns (attempts: set<ReconcileRequest>)
      requires Valid()
      ensures attempts == ReconcileRequests(HomeView(), peer)
    {
      attempts := set rpc | rpc in pendingHomeAttempts && pendingHomeAttempts[rpc].host == peer ::
          ReconcileRequest(rpc, pendingHomeAttempts[rpc].nextEventIndex - 1);
      forall rpc | rpc in pendingHomeAttempts
        ensures HomeView().pending[rpc] == pendingHomeAttempts[rpc].View() {}
    }

    method HandleResidentEnvelope(from: Peer, m: Message)
      requires Valid() && (m.Deliver? || m.Reconcile? || m.RunEventAck?)
      modifies this`activeResidentAttempts, this`turns, this`sent, journal
      ensures Valid() && HomeView() == old(HomeView())
      ensures ResidentView() == Handle(me, old(View()), from, m, {}).node.resident
      ensures sent == old(sent) + Handle(me, old(View()), from, m, {}).sends
    {
      match m
      case Deliver(request) => AcceptResidentDelivery(from, request);
      case Reconcile(attempts) => ReconcileResident(from, attempts);
      case RunEventAck(rpc, upTo) => HandleEventAck(from, rpc, upTo);
    }

    method HandleHomeEnvelope(from: Peer, m: Message, reachable: set<Peer>)
      requires Valid() && (m.Outcome? || m.RunEvent? || m.CompletionAck?)
      modifies this`pendingHomeAttempts, this`completedHomeIndexes, this`sent, Repr
      ensures Valid() && ResidentView() == old(ResidentView())
      ensures HomeView() == Handle(me, old(View()), from, m, reachable).node.home
      ensures sent == old(sent) + Handle(me, old(View()), from, m, reachable).sends
    {
      match m
      case Outcome(rpc, kind, events) => HandleOutcome(from, rpc, kind, events, reachable);
      case RunEvent(rpc, index, event) => HandleRemoteEvent(from, rpc, index, event, reachable);
      case CompletionAck(rpc, last) => HandleCompletionAck(from, rpc, last);
    }

    method HandleEnvelope(from: Peer, m: Message, reachable: set<Peer>)
      requires Valid()
      modifies this`pendingHomeAttempts, this`completedHomeIndexes, this`activeResidentAttempts, this`turns,
        this`sent, Repr, journal
      ensures Valid()
      ensures View() == Handle(me, old(View()), from, m, reachable).node
      ensures sent == old(sent) + Handle(me, old(View()), from, m, reachable).sends
    {
      if m.Deliver? || m.Reconcile? || m.RunEventAck? {
        HandleResidentEnvelope(from, m);
      } else {
        HandleHomeEnvelope(from, m, reachable);
      }
    }
  }
}
