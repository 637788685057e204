/** What the peers of the TCP relay read off their connections, over whole runs. A relayed
    message is announced with the length of the message that came in; here is exactly when
    that lets the peer read what was sent. */
module TcpRuns {
  import opened Bytes
  import opened DnsPackets
  import opened Framing
  import opened Lifecycle
  import opened LifecycleRuns
  import opened Messages
  import opened TcpHandlers
  import opened WireFormat

  // ----- messages put on a stream

  /** A message and the length it is announced with. */
  datatype Sending = Sending(length: nat, body: Octets)

  predicate TrueLength(m: Sending) { m.length % 0x1_0000 == |m.body| }

  function StreamOf(ms: seq<Sending>): Octets {
    if ms == [] then []
    else StreamOf(ms[..|ms| - 1]) + Prefixed(ms[|ms| - 1].length, ms[|ms| - 1].body)
  }

  function Bodies(ms: seq<Sending>): seq<Octets> {
    if ms == [] then [] else Bodies(ms[..|ms| - 1]) + [ms[|ms| - 1].body]
  }

  /** Announced rightly, a message is the first to be read; wrongly, it is not, whatever
      comes after it. */
  lemma FirstBody(m: Sending, tail: Octets)
    ensures var s := Prefixed(m.length, m.body) + tail;
            if TrueLength(m) then Payloads(s) == [m.body] + Payloads(tail) && Remainder(s) == Remainder(tail)
            else Payloads(s) == [] || Payloads(s)[0] != m.body
  {
    var f := Prefixed(m.length, m.body);
    if TrueLength(m) {
      FrameOf(m.body);
      OneFrame(f);
      FramingContinues(f, tail);
      assert [] + tail == tail;
    } else {
      assert (f + tail)[..2] == PutU16(m.length % 0x1_0000);
      WrongPrefix(f + tail, m.body);
    }
  }

  lemma WrongPrefix(s: Octets, body: Octets)
    requires |s| >= 2 && GetU16(s) != |body|
    ensures Payloads(s) == [] || Payloads(s)[0] != body
  {
  }

  lemma {:induction false} TrueStream(ms: seq<Sending>)
    requires forall m | m in ms :: TrueLength(m)
    ensures Payloads(StreamOf(ms)) == Bodies(ms) && Remainder(StreamOf(ms)) == []
    decreases |ms|
  {
    if ms != [] {
      var k := |ms| - 1;
      var p := Prefixed(ms[k].length, ms[k].body);
      TrueStream(ms[..k]);
      FramingContinues(StreamOf(ms[..k]), p);
      FirstBody(ms[k], []);
      assert p + [] == p && [] + p == p;
    }
  }

  /** The messages are read off the front of a stream if and only if every one of them was
      announced rightly. */
  lemma {:induction false} ReadFirstIff(ms: seq<Sending>, tail: Octets)
    ensures Bodies(ms) <= Payloads(StreamOf(ms) + tail) <==> forall m | m in ms :: TrueLength(m)
    decreases |ms|
  {
    if forall m | m in ms :: TrueLength(m) {
      TrueStreamIsRead(ms, tail);
    }
    if ms != [] && Bodies(ms) <= Payloads(StreamOf(ms) + tail) {
      var k := |ms| - 1;
      Regroup(StreamOf(ms[..k]), Prefixed(ms[k].length, ms[k].body), tail);
      ReadFirstIff(ms[..k], Prefixed(ms[k].length, ms[k].body) + tail);
      LastIsRead(ms[..k], ms[k], tail);
      assert forall m | m in ms :: m in ms[..k] || m == ms[k];
    }
  }

  lemma TrueStreamIsRead(ms: seq<Sending>, tail: Octets)
    requires forall m | m in ms :: TrueLength(m)
    ensures Bodies(ms) <= Payloads(StreamOf(ms) + tail)
  {
    TrueStream(ms);
    FramingContinues(StreamOf(ms), tail);
  }

  lemma LastIsRead(ms: seq<Sending>, m: Sending, tail: Octets)
    requires forall x | x in ms :: TrueLength(x)
    requires Bodies(ms) + [m.body] <= Payloads(StreamOf(ms) + (Prefixed(m.length, m.body) + tail))
    ensures TrueLength(m)
  {
    var rest := Prefixed(m.length, m.body) + tail;
    TrueStream(ms);
    FramingContinues(StreamOf(ms), rest);
    assert [] + rest == rest;
    FirstBody(m, tail);
    NextIs(Bodies(ms), m.body, Payloads(rest));
  }

  lemma NextIs(xs: seq<Octets>, x: Octets, ys: seq<Octets>)
    requires xs + [x] <= xs + ys
    ensures ys != [] && ys[0] == x
  {
    assert (xs + ys)[|xs|] == (xs + [x])[|xs|];
  }

  lemma StreamReadsIff(ms: seq<Sending>)
    ensures Payloads(StreamOf(ms)) == Bodies(ms) <==> forall m | m in ms :: TrueLength(m)
    ensures (forall m | m in ms :: TrueLength(m)) ==> Remainder(StreamOf(ms)) == []
  {
    assert StreamOf(ms) + [] == StreamOf(ms);
    ReadFirstIff(ms, []);
    if forall m | m in ms :: TrueLength(m) {
      TrueStream(ms);
    }
  }

  /** A two-octet prefix frames its message if and only if it is the message's length. */
  lemma PrefixIff(length: nat, body: Octets)
    requires length < 0x1_0000
    ensures Payloads(Prefixed(length, body)) == [body] && Remainder(Prefixed(length, body)) == []
            <==> length == |body|
  {
    var f := Prefixed(length, body);
    FirstBody(Sending(length, body), []);
    assert f + [] == f && Payloads([]) == [] && Remainder([]) == [];
    assert length == |body| ==> Payloads(f) == [body] && Remainder(f) == [];
  }

  // ----- the connections of the relay

  /** What was put on the connection of one client. */
  function SentTo(rs: seq<Reply>, c: Client): seq<Sending> {
    if rs == [] then []
    else
      var r := rs[|rs| - 1];
      SentTo(rs[..|rs| - 1], c) + if r.client == c then [Sending(r.length, Serialized(r.packet))] else []
  }

  function RepliesTo(rs: seq<Reply>, c: Client): seq<Octets> { Bodies(SentTo(rs, c)) }

  /** A message is put on a stream behind two octets for the announced length. */
  lemma PrefixOctets(length: nat, body: Octets)
    requires length < 0x1_0000
    ensures Prefixed(length, body) == [length / 256, length % 256] + body
  {
  }

  /** A reply adds that to the stream of the client that asked, and to no other. */
  lemma ReplyStreamGrows(rs: seq<Reply>, r: Reply, c: Client)
    requires r.length < 0x1_0000
    ensures ReplyStream([], c) == []
    ensures ReplyStream(rs + [r], c)
            == ReplyStream(rs, c)
               + if r.client == c then [r.length / 256, r.length % 256] + Serialized(r.packet) else []
  {
    assert (rs + [r])[..|rs|] == rs;
    PrefixOctets(r.length, Serialized(r.packet));
  }

  /** The place of reply `j` among those to its client. */
  function PlaceOf(rs: seq<Reply>, j: nat): nat
    requires j < |rs|
  {
    |RepliesTo(rs[..j], rs[j].client)|
  }

  lemma {:induction false} RepliesToGrow(rs: seq<Reply>, n: nat, c: Client)
    requires n <= |rs|
    ensures RepliesTo(rs[..n], c) <= RepliesTo(rs, c)
    decreases |rs|
  {
    if n < |rs| {
      var k := |rs| - 1;
      RepliesToGrow(rs[..k], n, c);
      assert rs[..k][..n] == rs[..n];
      LastReplyTo(rs, c);
    } else {
      assert rs[..n] == rs;
    }
  }

  lemma LastReplyTo(rs: seq<Reply>, c: Client)
    requires rs != []
    ensures var k := |rs| - 1;
            RepliesTo(rs, c) == RepliesTo(rs[..k], c) + if rs[k].client == c then [Serialized(rs[k].packet)] else []
  {
    var k := |rs| - 1;
    var before := SentTo(rs[..k], c);
    if rs[k].client == c {
      assert SentTo(rs, c)[..|before|] == before;
    } else {
      assert SentTo(rs, c) == before;
    }
  }

  /** Every reply is read, whole, by the client that asked, in the order of sending. */
  lemma ReplyIsRead(rs: seq<Reply>, j: nat)
    requires j < |rs|
    ensures var bodies := RepliesTo(rs, rs[j].client);
            PlaceOf(rs, j) < |bodies| && bodies[PlaceOf(rs, j)] == Serialized(rs[j].packet)
  {
    var c, first := rs[j].client, rs[..j + 1];
    RepliesToGrow(rs, j + 1, c);
    assert first[..j] == rs[..j] && first[j] == rs[j];
    LastReplyTo(first, c);
  }

  /** And a client reads nothing else. */
  lemma {:induction false} NothingElseIsRead(rs: seq<Reply>, c: Client, p: nat) returns (j: nat)
    requires p < |RepliesTo(rs, c)|
    ensures j < |rs| && rs[j].client == c && PlaceOf(rs, j) == p
    decreases |rs|
  {
    var k := |rs| - 1;
    LastReplyTo(rs, c);
    if p < |RepliesTo(rs[..k], c)| {
      j := NothingElseIsRead(rs[..k], c, p);
      assert rs[..k][..j] == rs[..j];
    } else {
      j := k;
    }
  }

  predicate TrueReply(r: Reply) { r.length % 0x1_0000 == |Serialized(r.packet)| }

  lemma {:induction false} RepliesAreSent(rs: seq<Reply>, c: Client)
    ensures ReplyStream(rs, c) == StreamOf(SentTo(rs, c))
    decreases |rs|
  {
    if rs != [] {
      var k := |rs| - 1;
      var ms := SentTo(rs[..k], c);
      RepliesAreSent(rs[..k], c);
      if rs[k].client == c {
        OneMoreSending(ms, Sending(rs[k].length, Serialized(rs[k].packet)));
      } else {
        assert ms + [] == ms && ReplyStream(rs[..k], c) + [] == ReplyStream(rs[..k], c);
      }
    }
  }

  lemma OneMoreSending(ms: seq<Sending>, m: Sending)
    ensures StreamOf(ms + [m]) == StreamOf(ms) + Prefixed(m.length, m.body)
  {
    assert (ms + [m])[..|ms|] == ms;
  }

  lemma {:induction false} SentTrueIff(rs: seq<Reply>, c: Client)
    ensures (forall m | m in SentTo(rs, c) :: TrueLength(m)) <==> forall r | r in rs && r.client == c :: TrueReply(r)
    decreases |rs|
  {
    if rs != [] {
      var k := |rs| - 1;
      SentTrueIff(rs[..k], c);
      assert rs == rs[..k] + [rs[k]];
      assert TrueReply(rs[k]) <==> TrueLength(Sending(rs[k].length, Serialized(rs[k].packet)));
    }
  }

  /** A client reads off its connection exactly the messages sent to it, in the order they
      were sent, if and only if every one was announced with its true length. */
  lemma ClientReadsItsReplies(rs: seq<Reply>, c: Client)
    ensures Payloads(ReplyStream(rs, c)) == RepliesTo(rs, c) <==> forall r | r in rs && r.client == c :: TrueReply(r)
    ensures Payloads(ReplyStream(rs, c)) == RepliesTo(rs, c) ==> Remainder(ReplyStream(rs, c)) == []
  {
    RepliesAreSent(rs, c);
    SentTrueIff(rs, c);
    StreamReadsIff(SentTo(rs, c));
  }

  /** What was put on each upstream connection. */
  function SentUp(qs: seq<Query>): seq<Sending> {
    if qs == [] then []
    else SentUp(qs[..|qs| - 1]) + [Sending(qs[|qs| - 1].length, Forwarded(qs[|qs| - 1]))]
  }

  function QueriesOf(qs: seq<Query>): seq<Octets> { Bodies(SentUp(qs)) }

  /** The k-th forwarded query is the k-th that an upstream server reads. */
  lemma {:induction false} QueryIsRead(qs: seq<Query>, k: nat)
    requires k < |qs|
    ensures |QueriesOf(qs)| == |qs| && QueriesOf(qs)[k] == Forwarded(qs[k])
    decreases |qs|
  {
    var n := |qs| - 1;
    QueriesCounted(qs);
    QueriesCounted(qs[..n]);
    LastQueryOf(qs);
    AtOrBefore(QueriesOf(qs[..n]), Forwarded(qs[n]), k);
    if k < n {
      QueryIsRead(qs[..n], k);
    }
  }

  lemma AtOrBefore(xs: seq<Octets>, x: Octets, k: nat)
    requires k <= |xs|
    ensures (xs + [x])[k] == if k < |xs| then xs[k] else x
  {
  }

  lemma {:induction false} QueriesCounted(qs: seq<Query>)
    ensures |QueriesOf(qs)| == |qs|
    decreases |qs|
  {
    if qs != [] {
      LastQueryOf(qs);
      QueriesCounted(qs[..|qs| - 1]);
    }
  }

  lemma LastQueryOf(qs: seq<Query>)
    requires qs != []
    ensures var n := |qs| - 1; QueriesOf(qs) == QueriesOf(qs[..n]) + [Forwarded(qs[n])]
  {
    var n := |qs| - 1;
    assert SentUp(qs)[..|SentUp(qs[..n])|] == SentUp(qs[..n]);
  }

  lemma QueryStreamGrows(qs: seq<Query>, q: Query)
    requires q.length < 0x1_0000
    ensures QueryStream([]) == []
    ensures QueryStream(qs + [q]) == QueryStream(qs) + ([q.length / 256, q.length % 256] + Forwarded(q))
  {
    assert (qs + [q])[..|qs|] == qs;
    PrefixOctets(q.length, Forwarded(q));
  }

  predicate TrueQuery(q: Query) { q.length % 0x1_0000 == |Forwarded(q)| }

  lemma {:induction false} QueriesAreSent(qs: seq<Query>)
    ensures QueryStream(qs) == StreamOf(SentUp(qs))
    decreases |qs|
  {
    if qs != [] {
      var k := |qs| - 1;
      QueriesAreSent(qs[..k]);
      OneMoreSending(SentUp(qs[..k]), Sending(qs[k].length, Forwarded(qs[k])));
    }
  }

  lemma {:induction false} SentUpTrueIff(qs: seq<Query>)
    ensures (forall m | m in SentUp(qs) :: TrueLength(m)) <==> forall q | q in qs :: TrueQuery(q)
    decreases |qs|
  {
    if qs != [] {
      var k := |qs| - 1;
      SentUpTrueIff(qs[..k]);
      assert qs == qs[..k] + [qs[k]];
      assert TrueQuery(qs[k]) <==> TrueLength(Sending(qs[k].length, Forwarded(qs[k])));
    }
  }

  /** And an upstream server the forwarded queries, under the same condition. */
  lemma UpstreamReadsItsQueries(qs: seq<Query>)
    ensures Payloads(QueryStream(qs)) == QueriesOf(qs) <==> forall q | q in qs :: TrueQuery(q)
    ensures Payloads(QueryStream(qs)) == QueriesOf(qs) ==> Remainder(QueryStream(qs)) == []
  {
    QueriesAreSent(qs);
    SentUpTrueIff(qs);
    StreamReadsIff(SentUp(qs));
  }

  /** A peer that has got only part of a stream, the rest being in the send buffer, reads
      the first of its messages, whole. */
  lemma PartOfStream(taken: Octets, sendBuf: Octets)
    ensures Payloads(taken) <= Payloads(taken + sendBuf)
  {
    FramingContinues(taken, sendBuf);
  }

  // ----- what is announced, over runs

  /** The packet is that of a message which filled its frame. */
  ghost predicate Arrived(packet: DnsPacket, length: nat) {
    exists m: Message :: FillsFrame(m, packet, length)
  }

  predicate FillsFrame(m: Message, packet: DnsPacket, length: nat) {
    packet == FlattenMessage(m) && length == |Encode(m)| < 0x1_0000
  }

  /** And all names of that message are clean. */
  ghost predicate ArrivedClean(packet: DnsPacket, length: nat) {
    exists m: Message :: CleanMessage(m) && FillsFrame(m, packet, length)
  }

  /** Relayed under whatever identifier, a message keeps the length it came with if and only
      if it is clean. */
  lemma RelayedLengthIff(packet: DnsPacket, length: nat, id: U16)
    requires Arrived(packet, length)
    ensures length < 0x1_0000
    ensures |Serialized(packet.WithId(id))| == length <==> ArrivedClean(packet, length)
  {
    var m: Message :| FillsFrame(m, packet, length);
    RelayedBytesIff(m, id);
    if ArrivedClean(packet, length) {
      var m': Message :| CleanMessage(m') && FillsFrame(m', packet, length);
      RelayedBytesIff(m', id);
    }
  }

  // ----- the octets that come in

  /** A frame that holds one message and nothing else. */
  predicate FillsItsFrame(data: Octets) {
    Complete(data) && Decode(data).rest == [] && |data| < 0x1_0000
  }

  /** What is asked of the messages below, in terms of their octets. */
  lemma FrameArrives(data: Octets)
    requires FillsItsFrame(data)
    ensures Arrived(PacketOf(data), |data|)
    ensures ArrivedClean(PacketOf(data), |data|) <==> CleanMessage(Decode(data).value)
  {
    var m := Decode(data).value;
    EncodeDecode(data);
    assert Encode(m) + [] == Encode(m);
    assert FillsFrame(m, PacketOf(data), |data|);
    RelayedLengthIff(PacketOf(data), |data|, 0);
    RelayedBytesIff(m, 0);
  }

  lemma TimeoutLength(packet: DnsPacket, length: nat, unset: DnsHeader)
    requires Arrived(packet, length)
    ensures |Serialized(TimeoutReply(packet, unset))| < 0x1_0000
  {
    var m: Message :| FillsFrame(m, packet, length);
    TimeoutReplyBytes(m, unset);
  }

  /** The messages that come in during a step have the property. */
  predicate Brings(e: Event, property: (DnsPacket, nat) -> bool) {
    match e
    case Arrive(packet, _, length) => property(packet, length)
    case Respond(packet, length) => property(packet, length)
    case _ => true
  }

  /** All that is pending or was relayed came in with the property. */
  ghost predicate Brought(s: State, property: (DnsPacket, nat) -> bool) {
    && (forall q | q in s.queries :: property(q.packet, q.length))
    && (forall r | r in s.replies && r.fate.Upstream? :: property(r.fate.response, r.length))
  }

  lemma {:induction false} RunBrings(c: Config, s: State, es: seq<Event>, s': State, property: (DnsPacket, nat) -> bool)
    requires Run(c, s, es, s') && Brought(s, property)
    requires forall e | e in es :: Brings(e, property)
    ensures Brought(s', property)
    decreases |es|
  {
    if es != [] {
      assert Brings(es[0], property);
      RunBrings(c, Apply(s, es[0]), es[1..], s', property);
    }
  }

  lemma AnnouncedRightly(length: nat, size: nat, clean: bool)
    requires length < 0x1_0000 && (size == length <==> clean)
    ensures length % 0x1_0000 == size <==> clean
  {
  }

  lemma QueryAnnouncedIff(q: Query, clean: bool)
    requires q.index < 0x1_0000 && Arrived(q.packet, q.length) && clean == ArrivedClean(q.packet, q.length)
    ensures TrueQuery(q) <==> clean
  {
    ForwardedAs(q);
    RelayedLengthIff(q.packet, q.length, q.index);
    AnnouncedRightly(q.length, |Forwarded(q)|, clean);
  }

  lemma RelayAnnouncedIff(q: Query, response: DnsPacket, r: Reply, clean: bool)
    requires r.packet == response.WithId(q.packet.header.id)
    requires Arrived(response, r.length) && clean == ArrivedClean(response, r.length)
    ensures TrueReply(r) <==> clean
  {
    RelayedLengthIff(response, r.length, q.packet.header.id);
    AnnouncedRightly(r.length, |Serialized(r.packet)|, clean);
  }

  /** A timeout reply always has the right prefix. */
  lemma TimeoutAnnounced(q: Query, unset: DnsHeader, r: Reply)
    requires r.packet == TimeoutReply(q.packet, unset) && r.length == |Serialized(r.packet)|
    requires Arrived(q.packet, q.length)
    ensures TrueReply(r)
  {
    TimeoutLength(q.packet, q.length, unset);
    AnnouncedRightly(r.length, |Serialized(r.packet)|, true);
  }

  lemma ReplyAnnouncedIff(c: Config, q: Query, r: Reply)
    requires FaithfulReply(c, q, r) && Arrived(q.packet, q.length)
    requires r.fate.Upstream? ==> Arrived(r.fate.response, r.length)
    ensures TrueReply(r) <==> (r.fate.Upstream? ==> ArrivedClean(r.fate.response, r.length))
  {
    match r.fate
    case Upstream(response) => RelayAnnouncedIff(q, response, r, ArrivedClean(response, r.length));
    case Deadline(unset, _) => TimeoutAnnounced(q, unset, r);
  }

  /** In a state reached on messages that fill their frames: a query, or a reply from
      upstream, is announced with its true length if and only if the message that came in
      is clean, and a timeout reply always is. */
  lemma AnnouncedIff(c: Config, s: State)
    requires Inv(c, s) && Brought(s, Arrived)
    ensures forall q | q in s.queries :: TrueQuery(q) <==> ArrivedClean(q.packet, q.length)
    ensures forall r | r in s.replies ::
              TrueReply(r) <==> (r.fate.Upstream? ==> ArrivedClean(r.fate.response, r.length))
  {
    forall q | q in s.queries ensures TrueQuery(q) <==> ArrivedClean(q.packet, q.length) {
      var k :| 0 <= k < |s.queries| && s.queries[k] == q;
      IndexFits(c, s, k);
      QueryAnnouncedIff(q, ArrivedClean(q.packet, q.length));
    }
    forall r | r in s.replies
      ensures TrueReply(r) <==> (r.fate.Upstream? ==> ArrivedClean(r.fate.response, r.length))
    {
      var q := AskedFor(c, s, r);
      ReplyAnnouncedIff(c, q, r);
    }
  }

  lemma AskedFor(c: Config, s: State, r: Reply) returns (q: Query)
    requires Inv(c, s) && r in s.replies
    ensures q in s.queries && FaithfulReply(c, q, r)
  {
    var k :| 0 <= k < |s.replies| && s.replies[k] == r;
    q := s.queries[r.query];
  }

  lemma RunOnFrames(c: Config, start: int, history: seq<Event>, s: State)
    requires Reached(c, start, history, s) && HistoryBrings(history, Arrived)
    ensures Inv(c, s) && Brought(s, Arrived)
  {
    ReachedKeeps(c, start, history, s);
    RunBrings(c, Init(c, start), history, s, Arrived);
  }

  // ----- the handlers' own events

  ghost predicate HistoryBrings(history: seq<Event>, property: (DnsPacket, nat) -> bool) {
    forall e | e in history :: Brings(e, property)
  }

  lemma HistoriesBring(past: seq<Event>, es: seq<Event>, property: (DnsPacket, nat) -> bool)
    ensures HistoryBrings(past + es, property) <==> HistoryBrings(past, property) && HistoryBrings(es, property)
  {
    if HistoryBrings(past + es, property) {
      assert forall e | e in past || e in es :: e in past + es;
    }
  }

  lemma {:induction false} ArrivesBring(qs: seq<(Client, DnsPacket, nat)>, n: nat, property: (DnsPacket, nat) -> bool)
    requires n <= |qs| && forall i | 0 <= i < |qs| :: property(qs[i].1, qs[i].2)
    ensures HistoryBrings(Arrives(qs, n), property)
  {
    if n > 0 {
      ArrivesBring(qs, n - 1, property);
    }
  }

  lemma {:induction false} RespondsBring(ps: seq<(DnsPacket, nat)>, n: nat, property: (DnsPacket, nat) -> bool)
    requires n <= |ps| && forall i | 0 <= i < |ps| :: property(ps[i].0, ps[i].1)
    ensures HistoryBrings(Responds(ps, n), property)
  {
    if n > 0 {
      RespondsBring(ps, n - 1, property);
    }
  }

  /** The arrivals that the query handler records for frames that hold a message each. */
  lemma ArrivalsBring(inbox: seq<(Client, Octets)>, n: nat)
    requires n <= |inbox| && AllQueries(inbox) && forall i | 0 <= i < |inbox| :: FillsItsFrame(inbox[i].1)
    ensures HistoryBrings(Arrivals(inbox, n), Arrived)
  {
    var qs := QueriesIn(inbox);
    forall i | 0 <= i < |qs| ensures Arrived(qs[i].1, qs[i].2) {
      FrameArrives(inbox[i].1);
    }
    ArrivesBring(qs, n, Arrived);
  }

  /** The responses that the response handler records. */
  lemma ResponsesBring(inbox: seq<Octets>, n: nat)
    requires n <= |inbox| && AllComplete(inbox) && forall i | 0 <= i < |inbox| :: FillsItsFrame(inbox[i])
    ensures HistoryBrings(Responses(inbox, n), Arrived)
  {
    var ps := PacketsOf(inbox);
    forall i | 0 <= i < |ps| ensures Arrived(ps[i].0, ps[i].1) {
      FrameArrives(inbox[i]);
    }
    RespondsBring(ps, n, Arrived);
  }

  /** A sweep brings no message in. */
  lemma SweepBrings(past: seq<Event>, history: seq<Event>, reading: int, property: (DnsPacket, nat) -> bool)
    requires SweepSince(past, history, reading) && HistoryBrings(past, property)
    ensures HistoryBrings(history, property)
  {
    var es := SweepGrows(past, history, reading);
    assert forall e | e in history :: e in past || e in es || e == SweepEnds(reading);
  }

  /** For a relay whatever has happened to it, as long as each frame held one message: what
      has been put on a client's connection reads as exactly the replies to that client if
      and only if all those from upstream were clean; what has been put on an upstream
      connection reads as exactly the forwarded queries if and only if these were. */
  lemma RelayStreamsReadIff(t: TcpRelay, client: Client, k: nat)
    requires t.Valid() && client in t.servers && k < |t.clients| && HistoryBrings(t.relay.history, Arrived)
    ensures Payloads(t.servers[client].accepted) == RepliesTo(t.relay.st.replies, client)
            <==> forall r | r in t.relay.st.replies && r.client == client && r.fate.Upstream? ::
                   ArrivedClean(r.fate.response, r.length)
    ensures Payloads(t.clients[k].accepted) == QueriesOf(t.relay.st.queries)
            <==> forall q | q in t.relay.st.queries :: ArrivedClean(q.packet, q.length)
  {
    StreamsPosted(t, client, k);
    StreamsReadIff(t.relay.config, t.relay.start, t.relay.history, t.relay.st, client);
  }

  /** For canonical messages, in octets: while all that came from upstream for it is clean,
      a client reads the response to each of its queries as its own identifier and the
      upstream octets from offset 2. */
  lemma ClientReadsResponse(t: TcpRelay, j: nat, asked: Message, m: Message)
    requires t.Valid() && HistoryBrings(t.relay.history, Arrived) && t.clients != []
    requires j < |t.relay.st.replies| && t.relay.st.replies[j].fate == Upstream(FlattenMessage(m))
    requires t.relay.st.replies[j].query < |t.relay.st.queries|
    requires t.relay.st.queries[t.relay.st.replies[j].query].packet == FlattenMessage(asked)
    requires t.relay.st.queries[t.relay.st.replies[j].query].client in t.servers && CanonicalMessage(m)
    requires forall r | r in t.relay.st.replies && r.fate.Upstream? :: ArrivedClean(r.fate.response, r.length)
    ensures var client := t.relay.st.queries[t.relay.st.replies[j].query].client;
            PutU16(asked.id) + Encode(m)[2..] in Payloads(t.servers[client].accepted)
  {
    var rs := t.relay.st.replies;
    StreamsPosted(t, t.relay.st.queries[rs[j].query].client, 0);
    ReachedKeeps(t.relay.config, t.relay.start, t.relay.history, t.relay.st);
    RepliedBytesIff(t.relay.config, t.relay.st, j, asked, m);
    RelayStreamsReadIff(t, rs[j].client, 0);
    ReplyIsRead(rs, j);
  }

  lemma StreamsPosted(t: TcpRelay, client: Client, k: nat)
    requires t.Valid() && client in t.servers && k < |t.clients|
    ensures Reached(t.relay.config, t.relay.start, t.relay.history, t.relay.st)
    ensures t.servers[client].accepted == ReplyStream(t.relay.st.replies, client)
    ensures t.clients[k].accepted == QueryStream(t.relay.st.queries)
  {
    assert t.servers[client] in t.sockets && t.clients[k] in t.sockets;
  }

  /** In every run on messages that fill their frames: a client reads exactly the replies
      sent to it if and only if all those from upstream were clean, and the upstream servers
      read exactly the forwarded queries if and only if all of these were. */
  lemma StreamsReadIff(c: Config, start: int, history: seq<Event>, s: State, client: Client)
    requires Reached(c, start, history, s) && HistoryBrings(history, Arrived)
    ensures Payloads(ReplyStream(s.replies, client)) == RepliesTo(s.replies, client)
            <==> forall r | r in s.replies && r.client == client && r.fate.Upstream? ::
                   ArrivedClean(r.fate.response, r.length)
    ensures Payloads(QueryStream(s.queries)) == QueriesOf(s.queries)
            <==> forall q | q in s.queries :: ArrivedClean(q.packet, q.length)
  {
    RunOnFrames(c, start, history, s);
    AnnouncedIff(c, s);
    ClientReadsItsReplies(s.replies, client);
    UpstreamReadsItsQueries(s.queries);
  }

  /** In every run on clean messages: all streams consist of exactly their messages, in
      order, with nothing left over. */
  lemma StreamsAreTheirMessages(c: Config, start: int, history: seq<Event>, s: State, client: Client)
    requires Reached(c, start, history, s) && HistoryBrings(history, ArrivedClean)
    ensures Payloads(ReplyStream(s.replies, client)) == RepliesTo(s.replies, client)
    ensures Payloads(QueryStream(s.queries)) == QueriesOf(s.queries)
    ensures Remainder(ReplyStream(s.replies, client)) == [] && Remainder(QueryStream(s.queries)) == []
  {
    forall e | e in history ensures Brings(e, Arrived) {
      assert Brings(e, ArrivedClean);
    }
    RunBrings(c, Init(c, start), history, s, ArrivedClean);
    StreamsReadIff(c, start, history, s, client);
    ClientReadsItsReplies(s.replies, client);
    UpstreamReadsItsQueries(s.queries);
  }
}
