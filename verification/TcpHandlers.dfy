/** The TCP handlers. Each socket's output, taken or buffered, is at every moment of
    every run the stream of frames that the life cycle's records call for. */
module TcpHandlers {
  import opened Bytes
  import opened DnsPackets
  import opened Framing
  import opened Lifecycle
  import opened LifecycleRuns
  import opened Messages
  import opened Outcomes
  import opened Relays
  import opened TcpSockets
  import opened TimerHeaps

  /** The two characters `len / 256` and `len % 256`, and the message. */
  function Prefixed(length: nat, body: Octets): Octets {
    PutU16(length % 0x1_0000) + body
  }

  /** Everything a client's connection is owed. */
  function ReplyStream(rs: seq<Reply>, c: Client): Octets {
    if rs == [] then []
    else
      var r := rs[|rs| - 1];
      ReplyStream(rs[..|rs| - 1], c) + if r.client == c then Prefixed(r.length, Serialized(r.packet)) else []
  }

  /** Everything each upstream connection is owed. The prefix is the length of the
      incoming message, not of the outgoing one. */
  function QueryStream(qs: seq<Query>): Octets {
    if qs == [] then []
    else QueryStream(qs[..|qs| - 1]) + Prefixed(qs[|qs| - 1].length, Forwarded(qs[|qs| - 1]))
  }

  class TcpRelay {
    const relay: Relay
    /** The connections to the upstream servers. */
    const clients: seq<TcpSocket>
    /** The open connections from clients. */
    var servers: map<Client, TcpSocket>
    ghost var sockets: set<TcpSocket>

    ghost predicate Apart()
      reads this, relay
    {
      && (forall k | 0 <= k < |clients| :: clients[k] in sockets)
      && (forall c | c in servers :: servers[c] in sockets && servers[c] !in clients)
      && (forall j, k | 0 <= j < k < |clients| :: clients[j] != clients[k])
      && (forall c, d | c in servers && d in servers && c != d :: servers[c] != servers[d])
      && (forall s | s in sockets :: s !in relay.Repr)
      && this !in relay.Repr && relay !in relay.Repr
    }

    function Connection(client: Client): TcpSocket
      requires client in servers
      reads this
    {
      servers[client]
    }

    ghost predicate SocketsValid()
      reads this, sockets
    {
      forall s | s in sockets :: s.Valid() && s.Settled()
    }

    ghost predicate RepliesSent(s: State)
      reads this, sockets
    {
      forall c | c in servers && servers[c] in sockets :: servers[c].accepted == ReplyStream(s.replies, c)
    }

    ghost predicate QueriesForwarded(qs: seq<Query>)
      reads this, sockets
    {
      forall k | 0 <= k < |clients| && clients[k] in sockets :: clients[k].accepted == QueryStream(qs)
    }

    ghost predicate Valid()
      reads this, relay, relay.Repr, sockets
    {
      && relay.Valid() && relay.config.strict && Apart() && SocketsValid()
      && RepliesSent(relay.st) && QueriesForwarded(relay.st.queries)
    }

    constructor (size: nat, now: int, clients: seq<TcpSocket>)
      requires 0 < size <= 0x1_0000
      requires forall j, k | 0 <= j < k < |clients| :: clients[j] != clients[k]
      requires forall s | s in clients :: s.Valid() && s.Settled() && s.accepted == []
      ensures Valid() && relay.config == Config(size, true) && relay.st == Init(relay.config, now)
      ensures relay.history == [] && relay.start == now
      ensures this.clients == clients && servers == map[] && sockets == (set s | s in clients)
      ensures fresh(relay) && fresh(relay.Repr)
    {
      this.relay := new Relay(Config(size, true), now);
      this.clients := clients;
      this.servers := map[];
      this.sockets := set s | s in clients;
    }

    /** The loops over the upstream connections. */
    method Forward(packet: DnsPacket, index: nat, length: nat, ghost before: seq<Query>, ghost q: Query)
      requires Apart() && SocketsValid() && QueriesForwarded(before)
      requires index < 0x1_0000 && q.index == index && q.packet == packet && q.length == length
      requires RepliesSent(relay.st)
      modifies sockets`sendBuf, sockets`accepted, sockets`taken, sockets`writeInterest
      ensures SocketsValid() && QueriesForwarded(before + [q]) && RepliesSent(relay.st)
    {
      var body := Serialize(packet.WithId(index));
      ForwardedAs(q);
      PostAll(Prefixed(length, body), before, q);
    }

    method PostAll(data: Octets, ghost before: seq<Query>, ghost q: Query)
      requires Apart() && SocketsValid() && QueriesForwarded(before)
      requires data == Prefixed(q.length, Forwarded(q))
      modifies sockets`sendBuf, sockets`accepted, sockets`taken, sockets`writeInterest
      ensures SocketsValid() && QueriesForwarded(before + [q])
      ensures forall c | c in servers :: servers[c].accepted == old(servers[c].accepted)
    {
      assert (before + [q])[..|before|] == before;
      for k := 0 to |clients|
        invariant SocketsValid()
        invariant forall j | 0 <= j < |clients| ::
                    clients[j].accepted == QueryStream(if j < k then before + [q] else before)
        invariant forall c | c in servers :: servers[c].accepted == old(servers[c].accepted)
      {
        PostOne(k, data);
      }
    }

    method PostOne(k: nat, data: Octets)
      requires Apart() && SocketsValid() && k < |clients|
      modifies sockets`sendBuf, sockets`accepted, sockets`taken, sockets`writeInterest
      ensures SocketsValid()
      ensures forall j | 0 <= j < |clients| ::
                clients[j].accepted == old(clients[j].accepted) + if j == k then data else []
      ensures forall c | c in servers :: servers[c].accepted == old(servers[c].accepted)
    {
      var n: nat :| n <= |data|;
      clients[k].Post(data, n);
    }

    /** Answer on the client's connection, if it is still there. */
    method Answer(client: Client, reply: DnsPacket, length: nat, ghost before: State)
      requires relay.Valid() && Apart() && SocketsValid() && RepliesSent(before)
      requires OneMoreReply(before, relay.st, client, reply, length)
      requires QueriesForwarded(relay.st.queries)
      modifies sockets`sendBuf, sockets`accepted, sockets`taken, sockets`writeInterest
      ensures relay.Valid() && SocketsValid() && RepliesSent(relay.st) && QueriesForwarded(relay.st.queries)
    {
      var body := Serialize(reply);
      ghost var rs := relay.st.replies;
      assert rs[..|rs| - 1] == before.replies;
      PostTo(client, Prefixed(length, body));
    }

    method PostTo(client: Client, data: Octets)
      requires Apart() && SocketsValid()
      modifies sockets`sendBuf, sockets`accepted, sockets`taken, sockets`writeInterest
      ensures SocketsValid()
      ensures forall k | 0 <= k < |clients| :: clients[k].accepted == old(clients[k].accepted)
      ensures forall c | c in servers ::
                servers[c].accepted == old(servers[c].accepted) + if c == client then data else []
    {
      if client in servers {
        var n: nat :| n <= |data|;
        servers[client].Post(data, n);
      }
    }

    method Dispatch(client: Client, packet: DnsPacket, length: nat)
      requires Valid() && relay.st.free != []
      modifies relay`st, relay`history, relay`Repr, relay.Repr
      modifies sockets`sendBuf, sockets`accepted, sockets`taken, sockets`writeInterest
      ensures Valid() && (forall o | o in relay.Repr :: o in old(relay.Repr) || fresh(o))
      ensures relay.history == old(relay.history) + [Arrive(packet, client, length)]
      ensures |relay.st.free| + 1 == |old(relay.st.free)|
    {
      var index := relay.AcceptQuery(packet, client, length);
      Forward(packet, index, length, old(relay.st.queries), Query(packet, client, length, index, relay.clock));
    }

    /** One turn of the loop of `TcpServerRecvHandler`. */
    method HandleQuery(client: Client, data: Octets)
      requires Valid() && CompleteQuery(data) && relay.st.free != []
      modifies relay`st, relay`history, relay`Repr, relay.Repr
      modifies sockets`sendBuf, sockets`accepted, sockets`taken, sockets`writeInterest
      ensures Valid() && (forall o | o in relay.Repr :: o in old(relay.Repr) || fresh(o))
      ensures relay.history == old(relay.history) + [Arrive(PacketOf(data), client, |data|)]
      ensures |relay.st.free| + 1 == |old(relay.st.free)|
    {
      var packet := Parse(data);
      Dispatch(client, packet, |data|);
    }

    method Deliver(packet: DnsPacket, length: nat) returns (matched: bool)
      requires Valid() && packet.header.id < relay.config.size
      modifies relay`st, relay`history, relay`Repr, relay.Repr
      modifies sockets`sendBuf, sockets`accepted, sockets`taken, sockets`writeInterest
      ensures Valid() && relay.Repr == old(relay.Repr)
      ensures relay.history == old(relay.history) + [Respond(packet, length)]
      ensures matched <==> SlotsInRange(old(relay.st)) && Matches(old(relay.st), packet)
      ensures matched ==> AnsweredBy(old(relay.st), packet, length, relay.st)
      ensures matched ==> |relay.st.replies| == |old(relay.st.replies)| + 1
      ensures !matched ==> relay.st == old(relay.st)
    {
      var client, reply;
      matched, client, reply := relay.AcceptResponse(packet, length);
      if matched {
        Answer(client, reply, length, old(relay.st));
      }
    }

    /** One turn of the loop of `TcpClientRecvHandler`. */
    method HandleResponse(data: Octets) returns (matched: bool)
      requires Valid() && Complete(data) && PacketOf(data).header.id < relay.config.size
      modifies relay`st, relay`history, relay`Repr, relay.Repr
      modifies sockets`sendBuf, sockets`accepted, sockets`taken, sockets`writeInterest
      ensures Valid() && relay.Repr == old(relay.Repr)
      ensures relay.history == old(relay.history) + [Respond(PacketOf(data), |data|)]
      ensures matched <==> SlotsInRange(old(relay.st)) && Matches(old(relay.st), PacketOf(data))
      ensures matched ==> AnsweredBy(old(relay.st), PacketOf(data), |data|, relay.st)
      ensures matched ==> |relay.st.replies| == |old(relay.st.replies)| + 1
      ensures !matched ==> relay.st == old(relay.st)
    {
      var packet := Parse(data);
      matched := Deliver(packet, |data|);
    }

    /** Time passes. */
    method Advance(to: int)
      requires Valid() && relay.clock <= to
      modifies relay`clock, relay`st, relay`history
      ensures Valid() && relay.clock == to && relay.history == old(relay.history) + [Tick(to)]
      ensures relay.st == old(relay.st).(now := to)
    {
      relay.Advance(to);
    }

    // ----- the handlers

    /** No stream depends on what a socket has received. */
    twostate lemma ReceivingDisturbsNothing(socket: TcpSocket)
      requires old(Valid()) && socket in sockets && socket.Valid()
      requires unchanged(this, relay) && forall o | o in old(relay.Repr) :: unchanged(o)
      requires forall s | s in sockets && s != socket :: unchanged(s)
      requires unchanged(socket`sendBuf, socket`writeInterest, socket`accepted, socket`taken)
      ensures Valid()
    {
    }

    /** `Receive` on one of the sockets. */
    method ReceiveOn(socket: TcpSocket, chunk: Octets) returns (data: Octets)
      requires Valid() && socket in sockets
      modifies socket`recvBuf, socket`received, socket`delivered
      ensures Valid() && socket.Received(chunk) && data == Whole(old(socket.recvBuf) + chunk)
    {
      data := socket.Receive(chunk);
      ReceivingDisturbsNothing(socket);
    }

    /** `TcpServerRecvHandler` on the connection of `client`, `chunk` being what the
        kernel returned. There must be an index for each frame, as there is within the
        capacity bound. */
    method ServerRecv(client: Client, chunk: Octets)
      requires Valid() && client in servers
      requires var frames := From(client, Payloads(servers[client].recvBuf + chunk));
               && AllQueries(frames)
               && (|frames| <= |relay.st.free| || |Recent(relay.config, relay.st)| + |frames| <= relay.config.size)
      modifies relay`st, relay`history, relay`Repr, relay.Repr
      modifies sockets`sendBuf, sockets`accepted, sockets`taken, sockets`writeInterest
      modifies Connection(client)`recvBuf, Connection(client)`received, Connection(client)`delivered
      ensures Valid() && (forall o | o in relay.Repr :: o in old(relay.Repr) || fresh(o))
      ensures servers[client].Received(chunk)
      ensures var frames := From(client, Payloads(old(servers[client].recvBuf) + chunk));
              relay.history == old(relay.history) + Arrivals(frames, |frames|)
      ensures FramesAdded(old(relay.st).queries, client, Payloads(old(servers[client].recvBuf) + chunk),
                          relay.st.queries)
    {
      ghost var past, from := relay.history, relay.st;
      ghost var bodies := Payloads(servers[client].recvBuf + chunk);
      if |bodies| > |relay.st.free| {
        relay.RoomFor(|bodies|);
      }
      ghost var starts := WalkWhole(servers[client].recvBuf + chunk);
      var data := ReceiveOn(servers[client], chunk);
      QueryLoop(client, data, bodies, starts);
      InboxStored(relay.config, relay.start, past, from, From(client, bodies), relay.history, relay.st);
    }

    /** The loop of the handler over the frames of `data`. */
    method QueryLoop(client: Client, data: Octets, ghost bodies: seq<Octets>, ghost starts: seq<nat>)
      requires Valid() && FramesAt(data, bodies, starts)
      requires AllQueries(From(client, bodies)) && |bodies| <= |relay.st.free|
      modifies relay`st, relay`history, relay`Repr, relay.Repr
      modifies sockets`sendBuf, sockets`accepted, sockets`taken, sockets`writeInterest
      ensures Valid() && (forall o | o in relay.Repr :: o in old(relay.Repr) || fresh(o))
      ensures ArrivalsRecorded(old(relay.history), From(client, bodies), |bodies|, relay.history)
    {
      ghost var start, mine := relay.history, relay.Repr;
      var n := 0;
      ghost var k := 0;
      while n < |data|
        invariant Valid() && (forall o | o in relay.Repr :: o in mine || fresh(o))
        invariant k <= |bodies| <= |relay.st.free| + k && n == starts[k]
        invariant ArrivalsRecorded(start, From(client, bodies), k, relay.history)
      {
        n := QueryAt(client, data, n, bodies, starts, k, start);
        k := k + 1;
      }
      WalkEnds(data, bodies, starts, k);
    }

    method QueryAt(client: Client, data: Octets, n: nat, ghost bodies: seq<Octets>, ghost starts: seq<nat>,
                   ghost k: nat, ghost start: seq<Event>)
        returns (next: nat)
      requires Valid() && FramesAt(data, bodies, starts) && AllQueries(From(client, bodies))
      requires k <= |bodies| <= |relay.st.free| + k && n == starts[k] && n < |data|
      requires ArrivalsRecorded(start, From(client, bodies), k, relay.history)
      modifies relay`st, relay`history, relay`Repr, relay.Repr
      modifies sockets`sendBuf, sockets`accepted, sockets`taken, sockets`writeInterest
      ensures Valid() && (forall o | o in relay.Repr :: o in old(relay.Repr) || fresh(o))
      ensures k < |bodies| <= |relay.st.free| + k + 1 && next == starts[k + 1] && n < next <= |data|
      ensures ArrivalsRecorded(start, From(client, bodies), k + 1, relay.history)
    {
      var body;
      body, next := NextBody(data, n, bodies, starts, k);
      QueryTurn(client, body, From(client, bodies), k, start);
    }

    method QueryTurn(client: Client, body: Octets,
                     ghost frames: seq<(Client, Octets)>, ghost k: nat, ghost start: seq<Event>)
      requires Valid() && AllQueries(frames) && k < |frames| <= |relay.st.free| + k
      requires frames[k] == (client, body)
      requires ArrivalsRecorded(start, frames, k, relay.history)
      modifies relay`st, relay`history, relay`Repr, relay.Repr
      modifies sockets`sendBuf, sockets`accepted, sockets`taken, sockets`writeInterest
      ensures Valid() && (forall o | o in relay.Repr :: o in old(relay.Repr) || fresh(o))
      ensures |frames| <= |relay.st.free| + k + 1
      ensures ArrivalsRecorded(start, frames, k + 1, relay.history)
    {
      assert CompleteQuery(frames[k].1);
      HandleQuery(client, body);
      OneMoreQuery(start, frames, k);
    }

    /** `TcpClientRecvHandler`. Every frame up to the first that matches no query is
        answered. That one ends it, and the frames after it are lost: `handled` says how
        many were looked at. */
    method ClientRecv(socket: TcpSocket, chunk: Octets) returns (ghost handled: nat)
      requires Valid() && socket in clients && IdsFit(relay.config.size, Payloads(socket.recvBuf + chunk))
      modifies relay`st, relay`history, relay`Repr, relay.Repr
      modifies sockets`sendBuf, sockets`accepted, sockets`taken, sockets`writeInterest
      modifies socket`recvBuf, socket`received, socket`delivered
      ensures Valid() && relay.Repr == old(relay.Repr)
      ensures socket.Received(chunk)
      ensures ResponsesRecorded(old(relay.history), Payloads(old(socket.recvBuf) + chunk), handled, relay.history)
      ensures AnsweredUpTo(old(relay.st), PacketsOf(Payloads(old(socket.recvBuf) + chunk)), handled, relay.st)
    {
      ghost var starts := WalkWhole(socket.recvBuf + chunk);
      var data := ReceiveOn(socket, chunk);
      handled := Responding(data, Payloads(old(socket.recvBuf) + chunk), starts);
    }

    method Responding(data: Octets, ghost frames: seq<Octets>, ghost starts: seq<nat>) returns (ghost handled: nat)
      requires Valid() && FramesAt(data, frames, starts) && IdsFit(relay.config.size, frames)
      modifies relay`st, relay`history, relay`Repr, relay.Repr
      modifies sockets`sendBuf, sockets`accepted, sockets`taken, sockets`writeInterest
      ensures Valid() && relay.Repr == old(relay.Repr)
      ensures ResponsesRecorded(old(relay.history), frames, handled, relay.history)
      ensures AnsweredUpTo(old(relay.st), PacketsOf(frames), handled, relay.st)
    {
      ghost var past, from, stopped := relay.history, relay.st, false;
      handled, stopped := ResponseLoop(data, frames, starts);
      if !stopped {
        CountedWasAnswered(relay.config, relay.start, past, from, frames, handled, relay.history, relay.st);
      }
    }

    /** The loop over the frames of `data`; `stopped` says that one matched no query. */
    method ResponseLoop(data: Octets, ghost frames: seq<Octets>, ghost starts: seq<nat>)
        returns (ghost k: nat, ghost stopped: bool)
      requires Valid() && FramesAt(data, frames, starts) && IdsFit(relay.config.size, frames)
      modifies relay`st, relay`history, relay`Repr, relay.Repr
      modifies sockets`sendBuf, sockets`accepted, sockets`taken, sockets`writeInterest
      ensures Valid() && relay.Repr == old(relay.Repr)
      ensures ResponsesRecorded(old(relay.history), frames, k, relay.history)
      ensures if stopped then AnsweredUpTo(old(relay.st), PacketsOf(frames), k, relay.st)
              else k == |frames| && |relay.st.replies| == |old(relay.st.replies)| + k
    {
      ghost var past, from := relay.history, relay.st;
      var n := 0;
      k, stopped := 0, false;
      while n < |data|
        invariant Valid() && relay.Repr == old(relay.Repr)
        invariant k <= |frames| && n == starts[k]
        invariant ResponsesRecorded(past, frames, k, relay.history)
        invariant |relay.st.replies| == |from.replies| + k
      {
        var matched;
        matched, n := ResponseAt(data, n, frames, starts, k, past, from);
        k := k + 1;
        if !matched {
          stopped := true;
          return;
        }
      }
      WalkEnds(data, frames, starts, k);
    }

    method ResponseAt(data: Octets, n: nat, ghost frames: seq<Octets>, ghost starts: seq<nat>, ghost k: nat,
                      ghost past: seq<Event>, ghost from: State)
        returns (matched: bool, next: nat)
      requires Valid() && FramesAt(data, frames, starts) && IdsFit(relay.config.size, frames)
      requires k <= |frames| && n == starts[k] && n < |data| && Reached(relay.config, relay.start, past, from)
      requires ResponsesRecorded(past, frames, k, relay.history) && |relay.st.replies| == |from.replies| + k
      modifies relay`st, relay`history, relay`Repr, relay.Repr
      modifies sockets`sendBuf, sockets`accepted, sockets`taken, sockets`writeInterest
      ensures Valid() && relay.Repr == old(relay.Repr) && k < |frames| && next == starts[k + 1]
      ensures n < next <= |data| && ResponsesRecorded(past, frames, k + 1, relay.history)
      ensures if matched then |relay.st.replies| == |from.replies| + k + 1
              else AnsweredUpTo(from, PacketsOf(frames), k + 1, relay.st)
    {
      var body;
      body, next := NextBody(data, n, frames, starts, k);
      matched := ResponseTurn(body, frames, k, past, from);
    }

    method ResponseTurn(body: Octets, ghost frames: seq<Octets>, ghost k: nat,
                        ghost past: seq<Event>, ghost from: State)
        returns (matched: bool)
      requires Valid() && IdsFit(relay.config.size, frames) && k < |frames| && frames[k] == body
      requires Reached(relay.config, relay.start, past, from)
      requires ResponsesRecorded(past, frames, k, relay.history) && |relay.st.replies| == |from.replies| + k
      modifies relay`st, relay`history, relay`Repr, relay.Repr
      modifies sockets`sendBuf, sockets`accepted, sockets`taken, sockets`writeInterest
      ensures Valid() && relay.Repr == old(relay.Repr)
      ensures ResponsesRecorded(past, frames, k + 1, relay.history)
      ensures if matched then |relay.st.replies| == |from.replies| + k + 1
              else AnsweredUpTo(from, PacketsOf(frames), k + 1, relay.st)
    {
      CountedWasAnswered(relay.config, relay.start, past, from, frames, k, relay.history, relay.st);
      assert Complete(frames[k]) && PacketOf(frames[k]).header.id < relay.config.size;
      matched := HandleResponse(body);
      OneMoreResponse(past, frames, k);
    }

    /** `TcpTimeoutHandler`, with its strict comparison. */
    method Timeout()
      requires Valid()
      modifies relay`st, relay`history, relay`Repr, relay.Repr
      modifies sockets`sendBuf, sockets`accepted, sockets`taken, sockets`writeInterest
      ensures Valid() && relay.Repr == old(relay.Repr) && relay.clock == old(relay.clock)
      ensures SweptExactly(relay.config, old(relay.st), relay.st, relay.clock)
      ensures SweepSince(old(relay.history), relay.history, relay.clock)
    {
      var now := relay.clock;
      ghost var from, past := relay.st, relay.history;
      TimeOutAll(now);
      relay.EndSweep(now, past, from);
    }

    /** Its loop. It ends because every turn takes a timer off the heap. */
    method TimeOutAll(now: int)
      requires Valid() && now <= relay.clock
      modifies relay`st, relay`history, relay`Repr, relay.Repr
      modifies sockets`sendBuf, sockets`accepted, sockets`taken, sockets`writeInterest
      ensures Valid() && relay.Repr == old(relay.Repr) && relay.clock == old(relay.clock)
      ensures TimeOutsSince(old(relay.history), relay.history, now)
      ensures SlotsInRange(relay.st) && NoneDue(relay.config, relay.st, now)
    {
      var more := true;
      while more
        invariant Valid() && relay.Repr == old(relay.Repr) && relay.clock == old(relay.clock)
        invariant TimeOutsSince(old(relay.history), relay.history, now)
        invariant !more ==> SlotsInRange(relay.st) && NoneDue(relay.config, relay.st, now)
        decreases more, |relay.timerHeap.queue|
      {
        more := SweepTurn(now, old(relay.history));
      }
    }

    /** The condition of the loop and, if it holds, the body. */
    method SweepTurn(now: int, ghost past: seq<Event>) returns (more: bool)
      requires Valid() && now <= relay.clock && TimeOutsSince(past, relay.history, now)
      modifies relay`st, relay`history, relay`Repr, relay.Repr
      modifies sockets`sendBuf, sockets`accepted, sockets`taken, sockets`writeInterest
      ensures Valid() && relay.Repr == old(relay.Repr) && relay.clock == old(relay.clock)
      ensures TimeOutsSince(past, relay.history, now)
      ensures more ==> |relay.timerHeap.queue| < |old(relay.timerHeap.queue)|
      ensures !more ==> SlotsInRange(relay.st) && NoneDue(relay.config, relay.st, now)
    {
      more := relay.TimerDue(now);
      if more {
        var unset: DnsHeader := *;
        ghost var e := TimeOutOne(now, unset);
        MoreTimeOuts(past, old(relay.history), e, now);
      }
    }

    method TimeOutOne(now: int, unset: DnsHeader) returns (ghost e: seq<Event>)
      requires Valid() && now <= relay.clock
      requires exists t :: Earliest(t, relay.timerHeap.queue) && Due(relay.config, t.expire, now)
      modifies relay`st, relay`history, relay`Repr, relay.Repr
      modifies sockets`sendBuf, sockets`accepted, sockets`taken, sockets`writeInterest
      ensures Valid() && relay.Repr == old(relay.Repr) && relay.clock == old(relay.clock)
      ensures |relay.timerHeap.queue| < |old(relay.timerHeap.queue)|
      ensures relay.history == old(relay.history) + e && OnlyTimeOuts(e, now)
    {
      var expired, client, reply;
      expired, client, reply, e := relay.SweepOne(now, unset);
      if expired {
        Answer(client, reply, |Serialized(reply)|, old(relay.st));
      }
    }

    /** The EPOLLOUT branch of the event loop, for one of the sockets. */
    method Flush(socket: TcpSocket, n: nat)
      requires Valid() && socket in sockets && socket.writeInterest && n <= |socket.sendBuf|
      modifies socket`sendBuf, socket`taken, socket`writeInterest
      ensures Valid()
      ensures socket.taken == old(socket.taken) + old(socket.sendBuf)[..n] && socket.sendBuf == old(socket.sendBuf)[n..]
    {
      socket.Flush(n);
    }

    /** A client connects. Its handle is a new one: no query has come from it. */
    method Open(client: Client)
      requires Valid() && client !in servers
      requires forall q | 0 <= q < |relay.st.queries| :: relay.st.queries[q].client != client
      modifies `servers, `sockets
      ensures Valid() && client in servers && servers == old(servers)[client := servers[client]]
      ensures fresh(servers[client]) && servers[client].received == [] && sockets == old(sockets) + {servers[client]}
    {
      NewcomerOwedNothing(relay.config, relay.start, relay.history, relay.st, client);
      var socket := new TcpSocket();
      Connect(client, socket);
    }

    method Connect(client: Client, socket: TcpSocket)
      requires Valid() && client !in servers && ReplyStream(relay.st.replies, client) == []
      requires socket.Valid() && socket.Settled() && socket.accepted == []
      requires socket !in sockets && socket !in relay.Repr
      modifies `servers, `sockets
      ensures Valid() && servers == old(servers)[client := socket] && sockets == old(sockets) + {socket}
    {
      servers := servers[client := socket];
      sockets := sockets + {socket};
      assert Apart() && SocketsValid();
    }

    /** A client goes away. Replies to it are dropped from here on. */
    method Close(client: Client)
      requires Valid() && client in servers
      modifies `servers
      ensures Valid() && servers == old(servers) - {client}
    {
      servers := servers - {client};
    }
  }

  /** A client that has asked nothing is owed nothing. */
  lemma {:induction false} NothingOwed(c: Config, s: State, rs: seq<Reply>, client: Client)
    requires Inv(c, s) && rs <= s.replies
    requires forall q | 0 <= q < |s.queries| :: s.queries[q].client != client
    ensures ReplyStream(rs, client) == []
    decreases |rs|
  {
    if rs != [] {
      var k := |rs| - 1;
      assert rs[k] == s.replies[k] && FaithfulReply(c, s.queries[s.replies[k].query], s.replies[k]);
      NothingOwed(c, s, rs[..k], client);
    }
  }

  lemma NewcomerOwedNothing(c: Config, start: int, history: seq<Event>, s: State, client: Client)
    requires Reached(c, start, history, s)
    requires forall q | 0 <= q < |s.queries| :: s.queries[q].client != client
    ensures ReplyStream(s.replies, client) == []
  {
    ReachedKeeps(c, start, history, s);
    NothingOwed(c, s, s.replies, client);
  }

  /** The frame at position `n`: its body, and where the next one starts. */
  method NextBody(data: Octets, n: nat, ghost bodies: seq<Octets>, ghost starts: seq<nat>, ghost k: nat)
      returns (body: Octets, next: nat)
    requires FramesAt(data, bodies, starts) && k <= |bodies| && n == starts[k] && n < |data|
    ensures k < |bodies| && body == bodies[k] && next == starts[k + 1] && n < next <= |data|
  {
    assert FrameHere(data, bodies[k], starts[k], starts[k + 1]);
    var len := 0x100 * (data[n] as int) + data[n + 1];
    body := data[n + 2..n + 2 + len];
    next := n + 2 + len;
  }

  /** Query `k` of the new ones is frame `k`, from this client. */
  ghost predicate FramesAdded(before: seq<Query>, client: Client, bodies: seq<Octets>, after: seq<Query>) {
    AllQueries(From(client, bodies)) && StoredSince(before, QueriesIn(From(client, bodies)), after)
  }

  /** In full. */
  lemma FramesAddedMeans(before: seq<Query>, client: Client, bodies: seq<Octets>, after: seq<Query>, k: nat)
    requires FramesAdded(before, client, bodies, after) && k < |bodies|
    ensures Complete(bodies[k]) && |after| == |before| + |bodies| && before <= after
    ensures var q := after[|before| + k];
            q.client == client && q.packet == PacketOf(bodies[k]) && q.length == |bodies[k]|
  {
    var inbox := From(client, bodies);
    assert inbox[k] == (client, bodies[k]) && CompleteQuery(inbox[k].1);
    StoredSinceMeans(before, inbox, after, k);
  }

  /** Frame bodies as messages from one client. */
  function From(client: Client, ps: seq<Octets>): (inbox: seq<(Client, Octets)>)
    ensures |inbox| == |ps| && forall i | 0 <= i < |ps| :: inbox[i] == (client, ps[i])
  {
    seq(|ps|, i requires 0 <= i < |ps| => (client, ps[i]))
  }
}
