/** The UDP handlers: what goes out on the wire is, at every moment of every run, what
    the life cycle's records of queries and replies call for. */
module UdpHandlers {
  import opened Bytes
  import opened DnsPackets
  import opened Lifecycle
  import opened LifecycleRuns
  import opened Messages
  import opened Outcomes
  import opened Relays
  import opened TimerHeaps
  import opened UdpSockets

  /** Replies go out on the socket of the client's address family. */
  function ToClients(rs: seq<Reply>, v6: bool): seq<Datagram> {
    if rs == [] then []
    else
      var r := rs[|rs| - 1];
      ToClients(rs[..|rs| - 1], v6)
      + if r.client.V6? == v6 then [Datagram(r.client.handle, Serialized(r.packet))] else []
  }

  function Broadcast(remotes: seq<nat>, data: Octets): seq<Datagram> {
    seq(|remotes|, i requires 0 <= i < |remotes| => Datagram(remotes[i], data))
  }

  /** Every query goes to every remote. */
  function ToUpstream(qs: seq<Query>, remotes: seq<nat>): seq<Datagram> {
    if qs == [] then []
    else ToUpstream(qs[..|qs| - 1], remotes) + Broadcast(remotes, Forwarded(qs[|qs| - 1]))
  }

  class UdpRelay {
    const relay: Relay
    const server4: UdpSocket
    const server6: UdpSocket
    const client4: UdpSocket
    const client6: UdpSocket
    const remotes4: seq<nat>
    const remotes6: seq<nat>

    ghost function Sockets(): set<object> {
      {server4, server6, client4, client6}
    }

    ghost predicate Apart()
      reads relay
    {
      && server4 != server6 && client4 != client6
      && server4 != client4 && server4 != client6 && server6 != client4 && server6 != client6
      && server4 !in relay.Repr && server6 !in relay.Repr && client4 !in relay.Repr && client6 !in relay.Repr
    }

    ghost predicate SocketsValid()
      reads Sockets()
    {
      server4.Valid() && server6.Valid() && client4.Valid() && client6.Valid()
    }

    ghost predicate RepliesSent(s: State)
      reads server4, server6
    {
      && server4.handed == ToClients(s.replies, false)
      && server6.handed == ToClients(s.replies, true)
    }

    ghost predicate QueriesForwarded(s: State)
      reads client4, client6
    {
      && client4.handed == ToUpstream(s.queries, remotes4)
      && client6.handed == ToUpstream(s.queries, remotes6)
    }

    ghost predicate Valid()
      reads this, relay, relay.Repr, Sockets()
    {
      && relay.Valid() && !relay.config.strict && Apart() && SocketsValid()
      && RepliesSent(relay.st) && QueriesForwarded(relay.st)
    }

    constructor (size: nat, now: int, remotes4: seq<nat>, remotes6: seq<nat>)
      requires 0 < size <= 0x1_0000
      ensures Valid() && relay.config == Config(size, false) && relay.st == Init(relay.config, now)
      ensures relay.history == [] && relay.start == now
      ensures this.remotes4 == remotes4 && this.remotes6 == remotes6
      ensures fresh(relay) && fresh(relay.Repr) && fresh(Sockets())
    {
      this.relay := new Relay(Config(size, false), now);
      this.server4 := new UdpSocket();
      this.server6 := new UdpSocket();
      this.client4 := new UdpSocket();
      this.client6 := new UdpSocket();
      this.remotes4, this.remotes6 := remotes4, remotes6;
    }

    /** Serialise under the new index, then the two loops over the remotes. */
    method Forward(packet: DnsPacket, index: nat, ghost before: seq<Query>, ghost q: Query)
      requires Apart() && SocketsValid()
      requires index < 0x1_0000 && q.index == index && q.packet == packet
      requires client4.handed == ToUpstream(before, remotes4) && client6.handed == ToUpstream(before, remotes6)
      modifies client4, client6
      ensures SocketsValid()
      ensures client4.handed == ToUpstream(before + [q], remotes4)
      ensures client6.handed == ToUpstream(before + [q], remotes6)
    {
      var data := Serialize(packet.WithId(index));
      ForwardedAs(q);
      SendAll(data, before, q);
    }

    method SendAll(data: Octets, ghost before: seq<Query>, ghost q: Query)
      requires Apart() && SocketsValid() && data == Forwarded(q)
      requires client4.handed == ToUpstream(before, remotes4) && client6.handed == ToUpstream(before, remotes6)
      modifies client4, client6
      ensures SocketsValid()
      ensures client4.handed == ToUpstream(before + [q], remotes4)
      ensures client6.handed == ToUpstream(before + [q], remotes6)
    {
      assert (before + [q])[..|before|] == before;
      Send(client4, remotes4, data);
      Send(client6, remotes6, data);
    }

    method Send(socket: UdpSocket, remotes: seq<nat>, data: Octets)
      requires socket.Valid()
      modifies socket
      ensures socket.Valid() && socket.handed == old(socket.handed) + Broadcast(remotes, data)
    {
      for i := 0 to |remotes|
        invariant socket.Valid() && socket.handed == old(socket.handed) + Broadcast(remotes[..i], data)
      {
        var taken: bool := *;
        var _ := socket.SendTo(remotes[i], data, taken);
        assert Broadcast(remotes[..i + 1], data) == Broadcast(remotes[..i], data) + [Datagram(remotes[i], data)];
      }
      assert remotes[..|remotes|] == remotes;
    }

    /** Answer on the socket of the client's family. */
    method Answer(client: Client, reply: DnsPacket, ghost before: State, ghost length: nat)
      requires relay.Valid() && Apart() && SocketsValid() && RepliesSent(before)
      requires OneMoreReply(before, relay.st, client, reply, length)
      modifies server4, server6
      ensures relay.Valid() && SocketsValid() && RepliesSent(relay.st)
    {
      var data := Serialize(reply);
      ghost var rs := relay.st.replies;
      assert rs[..|rs| - 1] == before.replies;
      Post(client, data);
    }

    method Post(client: Client, data: Octets)
      requires Apart() && SocketsValid()
      modifies server4, server6
      ensures SocketsValid()
      ensures server4.handed == old(server4.handed) + if client.V6? then [] else [Datagram(client.handle, data)]
      ensures server6.handed == old(server6.handed) + if client.V6? then [Datagram(client.handle, data)] else []
    {
      var taken: bool := *;
      if client.V6? {
        var _ := server6.SendTo(client.handle, data, taken);
      } else {
        var _ := server4.SendTo(client.handle, data, taken);
      }
    }

    /** One turn of `UdpServerRecvHandler`. */
    method HandleQuery(client: Client, data: Octets)
      requires Valid() && CompleteQuery(data) && relay.st.free != []
      modifies relay`st, relay`history, relay`Repr, relay.Repr, client4, client6
      ensures Valid() && (forall o | o in relay.Repr :: o in old(relay.Repr) || fresh(o))
      ensures relay.history == old(relay.history) + [Arrive(PacketOf(data), client, |data|)]
      ensures |relay.st.free| + 1 == |old(relay.st.free)|
    {
      var packet := Parse(data);
      Dispatch(client, packet, |data|);
    }

    method Dispatch(client: Client, packet: DnsPacket, ghost length: nat)
      requires Valid() && relay.st.free != []
      modifies relay`st, relay`history, relay`Repr, relay.Repr, client4, client6
      ensures Valid() && (forall o | o in relay.Repr :: o in old(relay.Repr) || fresh(o))
      ensures relay.history == old(relay.history) + [Arrive(packet, client, length)]
      ensures |relay.st.free| + 1 == |old(relay.st.free)|
    {
      var index := relay.AcceptQuery(packet, client, length);
      Forward(packet, index, old(relay.st.queries), Query(packet, client, length, index, relay.clock));
    }

    /** One turn of `UdpClientRecvHandler`. */
    method HandleResponse(data: Octets) returns (matched: bool)
      requires Valid() && Complete(data) && PacketOf(data).header.id < relay.config.size
      modifies relay`st, relay`history, relay`Repr, relay.Repr, server4, server6
      ensures Valid() && relay.Repr == old(relay.Repr)
      ensures relay.history == old(relay.history) + [Respond(PacketOf(data), |data|)]
      ensures matched <==> SlotsInRange(old(relay.st)) && Matches(old(relay.st), PacketOf(data))
      ensures matched ==> AnsweredBy(old(relay.st), PacketOf(data), |data|, relay.st)
      ensures matched ==> |relay.st.replies| == |old(relay.st.replies)| + 1
      ensures !matched ==> relay.st == old(relay.st)
    {
      var packet := Parse(data);
      matched := Deliver(packet, |data|);
    }

    method Deliver(packet: DnsPacket, ghost length: nat) returns (matched: bool)
      requires Valid() && packet.header.id < relay.config.size
      modifies relay`st, relay`history, relay`Repr, relay.Repr, server4, server6
      ensures Valid() && relay.Repr == old(relay.Repr)
      ensures relay.history == old(relay.history) + [Respond(packet, length)]
      ensures matched <==> SlotsInRange(old(relay.st)) && Matches(old(relay.st), packet)
      ensures matched ==> AnsweredBy(old(relay.st), packet, length, relay.st)
      ensures matched ==> |relay.st.replies| == |old(relay.st.replies)| + 1
      ensures !matched ==> relay.st == old(relay.st)
    {
      var client, reply;
      matched, client, reply := relay.AcceptResponse(packet, length);
      if matched {
        Answer(client, reply, old(relay.st), length);
      }
    }

    /** Time passes. */
    method Advance(to: int)
      requires Valid() && relay.clock <= to
      modifies relay`clock, relay`st, relay`history
      ensures Valid() && relay.clock == to && relay.history == old(relay.history) + [Tick(to)]
      ensures relay.st == old(relay.st).(now := to)
    {
      relay.Advance(to);
    }

    /** The EPOLLOUT branch of the event loop, for one of the sockets. */
    method Flush(socket: UdpSocket, n: nat)
      requires Valid() && socket in Sockets() && n <= |socket.sendQueue|
      modifies socket
      ensures Valid() && socket.sendQueue == old(socket.sendQueue)[n..]
      ensures socket.sent == old(socket.sent) + multiset(old(socket.sendQueue)[..n])
    {
      var _ := socket.Flush(n);
    }

    // ----- the handlers

    /** `UdpServerRecvHandler`, where `inbox` is what `ReceiveFrom` yields. There must be an
        index for each datagram, as there is within the capacity bound. */
    method ServerRecv(inbox: seq<(Client, Octets)>)
      requires Valid() && AllQueries(inbox)
      requires |inbox| <= |relay.st.free| || |Recent(relay.config, relay.st)| + |inbox| <= relay.config.size
      modifies relay`st, relay`history, relay`Repr, relay.Repr, client4, client6
      ensures Valid() && (forall o | o in relay.Repr :: o in old(relay.Repr) || fresh(o))
      ensures relay.history == old(relay.history) + Arrivals(inbox, |inbox|)
      ensures StoredSince(old(relay.st).queries, QueriesIn(inbox), relay.st.queries)
    {
      ghost var past, from := relay.history, relay.st;
      QueryLoop(inbox);
      InboxStored(relay.config, relay.start, past, from, inbox, relay.history, relay.st);
    }

    method QueryLoop(inbox: seq<(Client, Octets)>)
      requires Valid() && AllQueries(inbox)
      requires |inbox| <= |relay.st.free| || |Recent(relay.config, relay.st)| + |inbox| <= relay.config.size
      modifies relay`st, relay`history, relay`Repr, relay.Repr, client4, client6
      ensures Valid() && (forall o | o in relay.Repr :: o in old(relay.Repr) || fresh(o))
      ensures relay.history == old(relay.history) + Arrivals(inbox, |inbox|)
    {
      ghost var start, mine := relay.history, relay.Repr;
      if |inbox| > |relay.st.free| {
        relay.RoomFor(|inbox|);
      }
      var i := 0;
      while i < |inbox|
        invariant Valid() && (forall o | o in relay.Repr :: o in mine || fresh(o))
        invariant i <= |inbox| <= |relay.st.free| + i
        invariant relay.history == start + Arrivals(inbox, i)
      {
        QueryTurn(inbox, i, start);
        i := i + 1;
      }
    }

    method QueryTurn(inbox: seq<(Client, Octets)>, i: nat, ghost start: seq<Event>)
      requires Valid() && AllQueries(inbox) && i < |inbox| <= |relay.st.free| + i
      requires relay.history == start + Arrivals(inbox, i)
      modifies relay`st, relay`history, relay`Repr, relay.Repr, client4, client6
      ensures Valid() && (forall o | o in relay.Repr :: o in old(relay.Repr) || fresh(o))
      ensures |inbox| <= |relay.st.free| + i + 1
      ensures relay.history == start + Arrivals(inbox, i + 1)
    {
      HandleQuery(inbox[i].0, inbox[i].1);
      OneMoreQuery(start, inbox, i);
    }

    /** `UdpClientRecvHandler`: every datagram up to the first that matches no query is
        answered. That one ends it, and what `ReceiveFrom` would have yielded after it is
        left for later. */
    method ClientRecv(inbox: seq<Octets>) returns (consumed: nat)
      requires Valid() && IdsFit(relay.config.size, inbox)
      modifies relay`st, relay`history, relay`Repr, relay.Repr, server4, server6
      ensures Valid() && relay.Repr == old(relay.Repr)
      ensures ResponsesRecorded(old(relay.history), inbox, consumed, relay.history)
      ensures AnsweredUpTo(old(relay.st), PacketsOf(inbox), consumed, relay.st)
    {
      ghost var past, from, stopped := relay.history, relay.st, false;
      consumed, stopped := ResponseLoop(inbox);
      if !stopped {
        CountedWasAnswered(relay.config, relay.start, past, from, inbox, consumed, relay.history, relay.st);
      }
    }

    /** Its loop; `stopped` says that a datagram matched no query. */
    method ResponseLoop(inbox: seq<Octets>) returns (consumed: nat, ghost stopped: bool)
      requires Valid() && IdsFit(relay.config.size, inbox)
      modifies relay`st, relay`history, relay`Repr, relay.Repr, server4, server6
      ensures Valid() && relay.Repr == old(relay.Repr)
      ensures ResponsesRecorded(old(relay.history), inbox, consumed, relay.history)
      ensures if stopped then AnsweredUpTo(old(relay.st), PacketsOf(inbox), consumed, relay.st)
              else consumed == |inbox| && |relay.st.replies| == |old(relay.st.replies)| + consumed
    {
      consumed, stopped := 0, false;
      ghost var past, from := relay.history, relay.st;
      while consumed < |inbox|
        invariant Valid() && relay.Repr == old(relay.Repr)
        invariant ResponsesRecorded(past, inbox, consumed, relay.history)
        invariant |relay.st.replies| == |from.replies| + consumed
      {
        var matched := ResponseTurn(inbox, consumed, past, from);
        consumed := consumed + 1;
        if !matched {
          stopped := true;
          return;
        }
      }
    }

    method ResponseTurn(inbox: seq<Octets>, i: nat, ghost past: seq<Event>, ghost from: State)
        returns (matched: bool)
      requires Valid() && IdsFit(relay.config.size, inbox) && i < |inbox|
      requires Reached(relay.config, relay.start, past, from)
      requires ResponsesRecorded(past, inbox, i, relay.history) && |relay.st.replies| == |from.replies| + i
      modifies relay`st, relay`history, relay`Repr, relay.Repr, server4, server6
      ensures Valid() && relay.Repr == old(relay.Repr)
      ensures ResponsesRecorded(past, inbox, i + 1, relay.history)
      ensures if matched then |relay.st.replies| == |from.replies| + i + 1
              else AnsweredUpTo(from, PacketsOf(inbox), i + 1, relay.st)
    {
      CountedWasAnswered(relay.config, relay.start, past, from, inbox, i, relay.history, relay.st);
      matched := HandleResponse(inbox[i]);
      OneMoreResponse(past, inbox, i);
    }

    /** `UdpTimeoutHandler`. The header fields it leaves unset may hold anything, and
        something else each time. */
    method Timeout()
      requires Valid()
      modifies relay`st, relay`history, relay`Repr, relay.Repr, server4, server6
      ensures Valid() && relay.Repr == old(relay.Repr) && relay.clock == old(relay.clock)
      ensures SweptExactly(relay.config, old(relay.st), relay.st, relay.clock)
      ensures SweepSince(old(relay.history), relay.history, relay.clock)
    {
      var now := relay.clock;
      ghost var from, past := relay.st, relay.history;
      TimeOutAll(now);
      relay.EndSweep(now, past, from);
    }

    /** Its loop. It ends because every turn takes a timer off the heap. */
    method TimeOutAll(now: int)
      requires Valid() && now <= relay.clock
      modifies relay`st, relay`history, relay`Repr, relay.Repr, server4, server6
      ensures Valid() && relay.Repr == old(relay.Repr) && relay.clock == old(relay.clock)
      ensures TimeOutsSince(old(relay.history), relay.history, now)
      ensures SlotsInRange(relay.st) && NoneDue(relay.config, relay.st, now)
    {
      var more := true;
      while more
        invariant Valid() && relay.Repr == old(relay.Repr) && relay.clock == old(relay.clock)
        invariant TimeOutsSince(old(relay.history), relay.history, now)
        invariant !more ==> SlotsInRange(relay.st) && NoneDue(relay.config, relay.st, now)
        decreases more, |relay.timerHeap.queue|
      {
        more := SweepTurn(now, old(relay.history));
      }
    }

    /** The condition of the loop and, if it holds, the body. */
    method SweepTurn(now: int, ghost past: seq<Event>) returns (more: bool)
      requires Valid() && now <= relay.clock && TimeOutsSince(past, relay.history, now)
      modifies relay`st, relay`history, relay`Repr, relay.Repr, server4, server6
      ensures Valid() && relay.Repr == old(relay.Repr) && relay.clock == old(relay.clock)
      ensures TimeOutsSince(past, relay.history, now)
      ensures more ==> |relay.timerHeap.queue| < |old(relay.timerHeap.queue)|
      ensures !more ==> SlotsInRange(relay.st) && NoneDue(relay.config, relay.st, now)
    {
      more := relay.TimerDue(now);
      if more {
        var unset: DnsHeader := *;
        ghost var e := TimeOutOne(now, unset);
        MoreTimeOuts(past, old(relay.history), e, now);
      }
    }

    method TimeOutOne(now: int, unset: DnsHeader) returns (ghost e: seq<Event>)
      requires Valid() && now <= relay.clock
      requires exists t :: Earliest(t, relay.timerHeap.queue) && Due(relay.config, t.expire, now)
      modifies relay`st, relay`history, relay`Repr, relay.Repr, server4, server6
      ensures Valid() && relay.Repr == old(relay.Repr) && relay.clock == old(relay.clock)
      ensures |relay.timerHeap.queue| < |old(relay.timerHeap.queue)|
      ensures relay.history == old(relay.history) + e && OnlyTimeOuts(e, now)
    {
      var expired, client, reply;
      expired, client, reply, e := relay.SweepOne(now, unset);
      if expired {
        Answer(client, reply, old(relay.st), |Serialized(reply)|);
      }
    }
  }
}
