/** The life of a query, as a state machine over atomic handler steps. It has no
    timer heap: deadlines are looked up in the table of pending queries. The class
    `Relay` implements it with lazily deleted timers. */
module Lifecycle {
  import opened DnsPackets

  /** Milliseconds from acceptance to deadline. */
  const TIMEOUT := 1000

  /** `size` is the number of indices; `strict` selects the TCP sweep, which leaves a
      query alone at the very instant of its deadline. */
  datatype Config = Config(size: nat, strict: bool) {
    predicate Valid() { 0 < size <= 0x1_0000 }
  }

  /** An IPv4 or IPv6 address, or a connection accepted from one. */
  datatype Client = V4(handle: nat) | V6(handle: nat)

  /** An accepted query: the message, whom to answer, the length it arrived with, the
      index it was given and the time. */
  datatype Query = Query(packet: DnsPacket, client: Client, length: nat, index: nat, at: int) {
    function Expire(): int { at + TIMEOUT }
  }

  datatype Fate = Upstream(response: DnsPacket) | Deadline(unset: DnsHeader, reading: int)

  /** A reply sent to a client; `query` is the number of the query it answers. */
  datatype Reply = Reply(query: nat, client: Client, packet: DnsPacket, length: nat, fate: Fate)

  datatype State = State(
    free: seq<nat>,
    slots: map<nat, nat>,
    queries: seq<Query>,
    replies: seq<Reply>,
    now: int,
    swept: int)

  datatype Event =
    | Arrive(packet: DnsPacket, client: Client, length: nat)
    | Respond(packet: DnsPacket, length: nat)
    | TimeOut(index: nat, reading: int, unset: DnsHeader)
    | SweepEnds(reading: int)
    | Tick(to: int)

  function Init(c: Config, now: int): State {
    State(seq(c.size, i => i), map[], [], [], now, now)
  }

  /** Deadline reached at clock reading `reading`: `<=` for UDP, `<` for TCP. */
  predicate Due(c: Config, expire: int, reading: int) {
    if c.strict then expire < reading else expire <= reading
  }

  ghost predicate SlotsInRange(s: State) {
    forall i | i in s.slots :: s.slots[i] < |s.queries|
  }

  ghost predicate NoneDue(c: Config, s: State, reading: int)
    requires SlotsInRange(s)
  {
    forall i | i in s.slots :: !Due(c, s.queries[s.slots[i]].Expire(), reading)
  }

  /** When the step is defined. An arrival needs a free index: the program takes the
      front of its queue without looking. */
  ghost predicate Enabled(c: Config, s: State, e: Event) {
    && SlotsInRange(s)
    && match e
       case Arrive(_, _, _) => s.free != []
       case Respond(_, _) => true
       case TimeOut(i, reading, _) =>
         i in s.slots && reading <= s.now && Due(c, s.queries[s.slots[i]].Expire(), reading)
       case SweepEnds(reading) => reading <= s.now && NoneDue(c, s, reading)
       case Tick(to) => s.now <= to
  }

  /** Free the index and record the reply. */
  function Resolve(s: State, i: nat, r: Reply): State {
    s.(free := s.free + [i], slots := s.slots - {i}, replies := s.replies + [r])
  }

  function Accept(s: State, packet: DnsPacket, client: Client, length: nat): State
    requires s.free != []
  {
    s.(free := s.free[1..],
       slots := s.slots[s.free[0] := |s.queries|],
       queries := s.queries + [Query(packet, client, length, s.free[0], s.now)])
  }

  /** A response matches when the index it carries is in use by a query with the very
      same questions. */
  ghost predicate Matches(s: State, packet: DnsPacket)
    requires SlotsInRange(s)
  {
    packet.header.id in s.slots && packet.questions == s.queries[s.slots[packet.header.id]].packet.questions
  }

  function UpstreamReply(q: nat, query: Query, packet: DnsPacket, length: nat): Reply {
    Reply(q, query.client, packet.WithId(query.packet.header.id), length, Upstream(packet))
  }

  function DeadlineReply(q: nat, query: Query, unset: DnsHeader, reading: int): Reply {
    var packet := TimeoutReply(query.packet, unset);
    Reply(q, query.client, packet, |Serialized(packet)|, Deadline(unset, reading))
  }

  ghost function Apply(s: State, e: Event): State
    requires SlotsInRange(s)
  {
    match e
    case Arrive(packet, client, length) => if s.free == [] then s else Accept(s, packet, client, length)
    case Respond(packet, length) =>
      if !Matches(s, packet) then s
      else
        var q := s.slots[packet.header.id];
        Resolve(s, packet.header.id, UpstreamReply(q, s.queries[q], packet, length))
    case TimeOut(i, reading, unset) =>
      if i !in s.slots then s
      else
        var q := s.slots[i];
        Resolve(s, i, DeadlineReply(q, s.queries[q], unset, reading))
    case SweepEnds(reading) => s.(swept := if s.swept < reading then reading else s.swept)
    case Tick(to) => s.(now := to)
  }

  /** The response matches, and `s'` is the state once its client has been answered. */
  ghost predicate AnsweredBy(s: State, packet: DnsPacket, length: nat, s': State) {
    SlotsInRange(s) && Matches(s, packet) && s' == Apply(s, Respond(packet, length))
  }

  /** From state `from` on, each of the first `n` responses matched a query when its turn
      came and was relayed; `to` is the state after that. */
  ghost predicate AllAnswered(from: State, ps: seq<(DnsPacket, nat)>, n: nat, to: State)
    requires n <= |ps|
  {
    if n == 0 then to == from
    else
      var k := n - 1;
      exists mid :: AllAnswered(from, ps, k, mid) && AnsweredBy(mid, ps[k].0, ps[k].1, to)
  }

  /** All responses were answered; or those before the last that was looked at were, and
      that one matches no query and has changed nothing. */
  ghost predicate AnsweredUpTo(from: State, ps: seq<(DnsPacket, nat)>, handled: nat, to: State) {
    || (handled == |ps| && AllAnswered(from, ps, handled, to))
    || (0 < handled <= |ps| && AllAnswered(from, ps, handled - 1, to)
        && !(SlotsInRange(to) && Matches(to, ps[handled - 1].0)))
  }

  lemma OneMoreAnswered(from: State, ps: seq<(DnsPacket, nat)>, n: nat, mid: State, to: State)
    requires n < |ps| && AllAnswered(from, ps, n, mid) && AnsweredBy(mid, ps[n].0, ps[n].1, to)
    ensures AllAnswered(from, ps, n + 1, to)
  {
  }

  /** `s'` is reached from `s` by the events, every one of them enabled in its turn. */
  ghost predicate Run(c: Config, s: State, es: seq<Event>, s': State)
    decreases |es|
  {
    if es == [] then s' == s
    else Enabled(c, s, es[0]) && Run(c, Apply(s, es[0]), es[1..], s')
  }

  // ----- what every step keeps

  ghost predicate Distinct(xs: seq<nat>) {
    forall i, j | 0 <= i < j < |xs| :: xs[i] != xs[j]
  }

  /** Taking the front of a queue without duplicates. */
  lemma FrontTaken(xs: seq<nat>)
    requires Distinct(xs) && xs != []
    ensures Distinct(xs[1..]) && forall x: nat :: x in xs[1..] <==> x in xs && x != xs[0]
  {
    assert xs == [xs[0]] + xs[1..];
  }

  ghost predicate Pending(s: State, q: nat)
    requires q < |s.queries|
  {
    s.queries[q].index in s.slots && s.slots[s.queries[q].index] == q
  }

  ghost predicate Replied(s: State, q: nat) {
    exists k :: 0 <= k < |s.replies| && s.replies[k].query == q
  }

  /** Every index is in the free queue once, or in use, and not both. */
  ghost predicate IndicesPartitioned(c: Config, s: State) {
    && Distinct(s.free)
    && (forall i: nat :: i in s.free <==> i < c.size && i !in s.slots)
    && (forall i | i in s.slots :: i < c.size)
    && (forall q | 0 <= q < |s.queries| :: s.queries[q].index < c.size)
    && |s.free| + |s.slots| == c.size
  }

  /** A slot holds the query that was given its index. */
  ghost predicate SlotsHoldTheirQueries(s: State) {
    && SlotsInRange(s)
    && (forall i | i in s.slots :: s.queries[s.slots[i]].index == i)
  }

  /** A reply answers an accepted query that is no longer pending, and no query has two. */
  ghost predicate AnsweredOnce(s: State) {
    && (forall k | 0 <= k < |s.replies| :: s.replies[k].query < |s.queries|)
    && (forall k | 0 <= k < |s.replies| :: !Pending(s, s.replies[k].query))
    && (forall j, k | 0 <= j < k < |s.replies| :: s.replies[j].query != s.replies[k].query)
  }

  ghost predicate NoneLost(s: State) {
    && (forall q: nat | q < |s.queries| :: Pending(s, q) || Replied(s, q))
    && |s.queries| == |s.slots| + |s.replies|
  }

  /** The reply goes to the client that asked, under that client's identifier and with
      that client's questions. */
  ghost predicate FaithfulReply(c: Config, query: Query, r: Reply) {
    && r.client == query.client
    && r.packet.header.id == query.packet.header.id
    && r.packet.questions == query.packet.questions
    && match r.fate
       case Upstream(response) =>
         r.packet == response.WithId(query.packet.header.id) && response.header.id == query.index
       case Deadline(unset, reading) =>
         r.packet == TimeoutReply(query.packet, unset) && Due(c, query.Expire(), reading)
         && r.length == |Serialized(r.packet)|
  }

  ghost predicate RepliesFaithful(c: Config, s: State) {
    && (forall k | 0 <= k < |s.replies| :: s.replies[k].query < |s.queries|)
    && (forall k | 0 <= k < |s.replies| :: FaithfulReply(c, s.queries[s.replies[k].query], s.replies[k]))
  }

  /** Clock readings are in the past, and whatever was due at the last finished sweep
      is gone. */
  ghost predicate SweptClean(c: Config, s: State)
    requires SlotsInRange(s)
  {
    && s.swept <= s.now
    && (forall q | 0 <= q < |s.queries| :: s.queries[q].at <= s.now)
    && NoneDue(c, s, s.swept)
  }

  ghost predicate Inv(c: Config, s: State) {
    && c.Valid()
    && IndicesPartitioned(c, s)
    && SlotsHoldTheirQueries(s)
    && AnsweredOnce(s)
    && NoneLost(s)
    && RepliesFaithful(c, s)
    && SweptClean(c, s)
  }

  lemma InitKeeps(c: Config, now: int)
    requires c.Valid()
    ensures Inv(c, Init(c, now))
  {
    var s := Init(c, now);
    forall i: nat ensures i in s.free <==> i < c.size {
      if i < c.size { assert s.free[i] == i; }
    }
  }

  lemma AcceptKeepsIndices(c: Config, s: State, packet: DnsPacket, client: Client, length: nat)
    requires IndicesPartitioned(c, s) && s.free != []
    ensures IndicesPartitioned(c, Accept(s, packet, client, length))
  {
    var s', i := Accept(s, packet, client, length), s.free[0];
    assert i in s.free;
    assert s'.slots.Keys == s.slots.Keys + {i};
    FrontTaken(s.free);
  }

  lemma ResolveKeepsIndices(c: Config, s: State, i: nat, r: Reply)
    requires IndicesPartitioned(c, s) && i in s.slots
    ensures IndicesPartitioned(c, Resolve(s, i, r))
    ensures |Resolve(s, i, r).slots| == |s.slots| - 1
  {
    var s' := Resolve(s, i, r);
    assert s.slots.Keys == s'.slots.Keys + {i};
    assert i !in s.free;
  }

  lemma AcceptMoves(c: Config, s: State, packet: DnsPacket, client: Client, length: nat, q: nat)
    requires IndicesPartitioned(c, s) && SlotsHoldTheirQueries(s) && s.free != []
    requires q <= |s.queries|
    ensures var s' := Accept(s, packet, client, length);
            && (Pending(s', q) <==> q == |s.queries| || Pending(s, q))
            && (Replied(s', q) <==> Replied(s, q))
  {
    assert s.free[0] in s.free;
  }

  lemma AcceptKeepsFates(c: Config, s: State, packet: DnsPacket, client: Client, length: nat)
    requires Inv(c, s) && s.free != []
    ensures var s' := Accept(s, packet, client, length);
            SlotsHoldTheirQueries(s') && AnsweredOnce(s') && NoneLost(s')
  {
    var s' := Accept(s, packet, client, length);
    assert s.free[0] in s.free;
    assert s'.slots.Keys == s.slots.Keys + {s.free[0]};
    forall q: nat | q <= |s.queries|
      ensures Pending(s', q) <==> q == |s.queries| || Pending(s, q)
      ensures Replied(s', q) <==> Replied(s, q)
    {
      AcceptMoves(c, s, packet, client, length, q);
    }
  }

  lemma AcceptKeeps(c: Config, s: State, packet: DnsPacket, client: Client, length: nat)
    requires Inv(c, s) && s.free != []
    ensures Inv(c, Accept(s, packet, client, length))
  {
    AcceptKeepsIndices(c, s, packet, client, length);
    AcceptKeepsFates(c, s, packet, client, length);
  }

  /** Only the resolved query changes state, and it gets the one new reply. */
  lemma ResolveMoves(s: State, i: nat, r: Reply, q: nat)
    requires SlotsHoldTheirQueries(s) && i in s.slots && r.query == s.slots[i] && q < |s.queries|
    ensures Pending(Resolve(s, i, r), q) <==> Pending(s, q) && q != r.query
    ensures Replied(Resolve(s, i, r), q) <==> Replied(s, q) || q == r.query
  {
    var s' := Resolve(s, i, r);
    if Replied(s, q) {
      var k :| 0 <= k < |s.replies| && s.replies[k].query == q;
      assert s'.replies[k].query == q;
    }
    assert s'.replies[|s.replies|] == r;
  }

  lemma ResolveKeepsFates(c: Config, s: State, i: nat, r: Reply)
    requires Inv(c, s) && i in s.slots && r.query == s.slots[i]
    ensures var s' := Resolve(s, i, r); SlotsHoldTheirQueries(s') && AnsweredOnce(s') && NoneLost(s')
  {
    var s' := Resolve(s, i, r);
    ResolveKeepsIndices(c, s, i, r);
    forall q: nat | q < |s.queries| ensures Pending(s', q) || Replied(s', q) {
      ResolveMoves(s, i, r, q);
    }
    ResolveAnswersOnce(s, i, r);
  }

  lemma ResolveAnswersOnce(s: State, i: nat, r: Reply)
    requires SlotsHoldTheirQueries(s) && AnsweredOnce(s) && i in s.slots && r.query == s.slots[i]
    ensures AnsweredOnce(Resolve(s, i, r))
  {
    var s' := Resolve(s, i, r);
    assert Pending(s, r.query);
    forall k | 0 <= k < |s'.replies| ensures !Pending(s', s'.replies[k].query) {
      ResolveMoves(s, i, r, s'.replies[k].query);
    }
  }

  lemma ResolveKeeps(c: Config, s: State, i: nat, r: Reply)
    requires Inv(c, s) && i in s.slots && r.query == s.slots[i]
    requires FaithfulReply(c, s.queries[r.query], r)
    ensures Inv(c, Resolve(s, i, r))
  {
    ResolveKeepsIndices(c, s, i, r);
    ResolveKeepsFates(c, s, i, r);
    ResolveKeepsReplies(c, s, i, r);
  }

  lemma ResolveKeepsReplies(c: Config, s: State, i: nat, r: Reply)
    requires RepliesFaithful(c, s) && SlotsInRange(s) && SweptClean(c, s) && r.query < |s.queries|
    requires FaithfulReply(c, s.queries[r.query], r)
    ensures RepliesFaithful(c, Resolve(s, i, r)) && SlotsInRange(Resolve(s, i, r)) && SweptClean(c, Resolve(s, i, r))
  {
  }

  lemma StepKeeps(c: Config, s: State, e: Event)
    requires Inv(c, s) && Enabled(c, s, e)
    ensures Inv(c, Apply(s, e))
  {
    match e
    case Arrive(packet, client, length) => AcceptKeeps(c, s, packet, client, length);
    case Respond(packet, length) =>
      if Matches(s, packet) {
        var q := s.slots[packet.header.id];
        ResolveKeeps(c, s, packet.header.id, UpstreamReply(q, s.queries[q], packet, length));
      }
    case TimeOut(i, reading, unset) =>
      var q := s.slots[i];
      ResolveKeeps(c, s, i, DeadlineReply(q, s.queries[q], unset, reading));
    case SweepEnds(reading) => ClockKeeps(c, s, s.now, Apply(s, e).swept);
    case Tick(to) => ClockKeeps(c, s, to, s.swept);
  }

  lemma ClockKeeps(c: Config, s: State, now: int, swept: int)
    requires Inv(c, s) && s.now <= now && swept <= now && NoneDue(c, s, swept)
    ensures Inv(c, s.(now := now, swept := swept))
  {
    var s' := s.(now := now, swept := swept);
    forall q: nat | q < |s.queries|
      ensures Pending(s', q) <==> Pending(s, q)
      ensures Replied(s', q) <==> Replied(s, q)
    {
    }
    assert NoneLost(s');
  }

  lemma {:induction false} RunKeeps(c: Config, s: State, es: seq<Event>, s': State)
    requires Inv(c, s) && Run(c, s, es, s')
    ensures Inv(c, s')
    decreases |es|
  {
    if es != [] {
      StepKeeps(c, s, es[0]);
      RunKeeps(c, Apply(s, es[0]), es[1..], s');
    }
  }

  lemma {:induction false} RunJoin(c: Config, s: State, es: seq<Event>, t: State, fs: seq<Event>, u: State)
    requires Run(c, s, es, t) && Run(c, t, fs, u)
    ensures Run(c, s, es + fs, u)
    decreases |es|
  {
    if es == [] {
      assert es + fs == fs;
    } else {
      assert (es + fs)[0] == es[0] && (es + fs)[1..] == es[1..] + fs;
      RunJoin(c, Apply(s, es[0]), es[1..], t, fs, u);
    }
  }

  /** A run continued is a run from where it stood. */
  lemma {:induction false} RunSplit(c: Config, s: State, es: seq<Event>, t: State, fs: seq<Event>, u: State)
    requires Run(c, s, es, t) && Run(c, s, es + fs, u)
    ensures Run(c, t, fs, u)
    decreases |es|
  {
    if es == [] {
      assert es + fs == fs;
    } else {
      assert (es + fs)[0] == es[0] && (es + fs)[1..] == es[1..] + fs;
      RunSplit(c, Apply(s, es[0]), es[1..], t, fs, u);
    }
  }

  /** The state before the last step of a run. */
  lemma {:induction false} RunLast(c: Config, s: State, es: seq<Event>, e: Event, u: State) returns (t: State)
    requires Run(c, s, es + [e], u)
    ensures Run(c, s, es, t) && Enabled(c, t, e) && u == Apply(t, e)
    decreases |es|
  {
    if es == [] {
      assert ([] + [e])[1..] == [];
      t := s;
    } else {
      assert (es + [e])[0] == es[0] && (es + [e])[1..] == es[1..] + [e];
      t := RunLast(c, Apply(s, es[0]), es[1..], e, u);
    }
  }

  lemma AtMostOneReply(s: State, e: Event)
    requires SlotsInRange(s)
    ensures |s.replies| <= |Apply(s, e).replies| <= |s.replies| + 1
  {
  }

  /** No step sends more than one reply. */
  lemma {:induction false} RepliesBounded(c: Config, s: State, es: seq<Event>, t: State)
    requires Run(c, s, es, t)
    ensures |s.replies| <= |t.replies| <= |s.replies| + |es|
    decreases |es|
  {
    if es != [] {
      AtMostOneReply(s, es[0]);
      RepliesBounded(c, Apply(s, es[0]), es[1..], t);
    }
  }

  /** The first `n` responses, as steps. */
  function Responds(ps: seq<(DnsPacket, nat)>, n: nat): (es: seq<Event>)
    requires n <= |ps|
    ensures |es| == n
  {
    if n == 0 then [] else Responds(ps, n - 1) + [Respond(ps[n - 1].0, ps[n - 1].1)]
  }

  /** The first `n` queries, as steps. */
  function Arrives(qs: seq<(Client, DnsPacket, nat)>, n: nat): (es: seq<Event>)
    requires n <= |qs|
    ensures |es| == n
  {
    if n == 0 then [] else Arrives(qs, n - 1) + [Arrive(qs[n - 1].1, qs[n - 1].0, qs[n - 1].2)]
  }

  lemma ReplyMeansMatch(s: State, packet: DnsPacket, length: nat)
    requires SlotsInRange(s) && |Apply(s, Respond(packet, length)).replies| > |s.replies|
    ensures AnsweredBy(s, packet, length, Apply(s, Respond(packet, length)))
  {
  }

  /** A run on `n` responses that has sent `n` replies has answered each of them. */
  lemma {:induction false} CountedIsAnswered(c: Config, from: State, ps: seq<(DnsPacket, nat)>, n: nat, to: State)
    requires n <= |ps| && Run(c, from, Responds(ps, n), to) && |to.replies| == |from.replies| + n
    ensures AllAnswered(from, ps, n, to)
  {
    if n > 0 {
      var k := n - 1;
      var mid := RunLast(c, from, Responds(ps, k), Respond(ps[k].0, ps[k].1), to);
      RepliesBounded(c, from, Responds(ps, k), mid);
      AtMostOneReply(mid, Respond(ps[k].0, ps[k].1));
      CountedIsAnswered(c, from, ps, k, mid);
      ReplyMeansMatch(mid, ps[k].0, ps[k].1);
      OneMoreAnswered(from, ps, k, mid, to);
    }
  }

  /** The steps of a run since its start are `history`. */
  ghost predicate Reached(c: Config, start: int, history: seq<Event>, s: State) {
    c.Valid() && Run(c, Init(c, start), history, s)
  }

  lemma StepReaches(c: Config, start: int, history: seq<Event>, s: State, e: Event)
    requires Reached(c, start, history, s) && Enabled(c, s, e)
    ensures Reached(c, start, history + [e], Apply(s, e))
  {
    assert Run(c, Apply(s, e), [], Apply(s, e));
    assert [e][1..] == [];
    RunJoin(c, Init(c, start), history, s, [e], Apply(s, e));
  }

  lemma ReachedKeeps(c: Config, start: int, history: seq<Event>, s: State)
    requires Reached(c, start, history, s)
    ensures Inv(c, s)
  {
    InitKeeps(c, start);
    RunKeeps(c, Init(c, start), history, s);
  }
}
