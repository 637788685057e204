/** Messages as the handlers meet them: a string of octets in, a string out. */
module Messages {
  import opened Bytes
  import opened WireFormat
  import opened DnsPackets
  import opened PacketCodec
  import opened Lifecycle
  import opened NameComparison
  import opened Outcomes

  /** What the handlers can work with: a complete message. */
  predicate Complete(data: Octets) {
    Decode(data).Decoded?
  }

  /** A query must have a question: the handlers log the first one. */
  predicate CompleteQuery(data: Octets) {
    Complete(data) && Decode(data).value.questions != []
  }

  function PacketOf(data: Octets): DnsPacket
    requires Complete(data)
  {
    FlattenMessage(Decode(data).value)
  }

  method Parse(data: Octets) returns (p: DnsPacket)
    requires Complete(data)
    ensures p == PacketOf(data)
  {
    var input := new InStream(data);
    ghost var Decoded(m, after) := Decode(data);
    p := ParsePacket(input, m, after);
  }

  method Serialize(p: DnsPacket) returns (data: Octets)
    ensures data == Serialized(p)
  {
    var output := new OutStream();
    SerializePacket(p, output);
    data := output.data;
  }

  /** What is sent upstream for a query: the message under the index (a `uint16_t`). */
  function Forwarded(q: Query): Octets {
    Serialized(q.packet.WithId(q.index % 0x1_0000))
  }

  // ----- lists of messages, as steps

  ghost predicate AllQueries(inbox: seq<(Client, Octets)>) {
    forall i | 0 <= i < |inbox| :: CompleteQuery(inbox[i].1)
  }

  ghost predicate AllComplete(inbox: seq<Octets>) {
    forall i | 0 <= i < |inbox| :: Complete(inbox[i])
  }

  /** Responses a pool of this size can hold an index for; at 65536 that is all of them. */
  ghost predicate IdsFit(size: nat, inbox: seq<Octets>) {
    && AllComplete(inbox)
    && forall i | 0 <= i < |inbox| :: PacketOf(inbox[i]).header.id < size
  }

  /** What the parser makes of each of the messages, and their lengths. */
  ghost function QueriesIn(inbox: seq<(Client, Octets)>): (qs: seq<(Client, DnsPacket, nat)>)
    requires AllQueries(inbox)
    ensures |qs| == |inbox|
  {
    seq(|inbox|, i requires 0 <= i < |inbox| => (inbox[i].0, PacketOf(inbox[i].1), |inbox[i].1|))
  }

  ghost function PacketsOf(inbox: seq<Octets>): (ps: seq<(DnsPacket, nat)>)
    requires AllComplete(inbox)
    ensures |ps| == |inbox|
  {
    seq(|inbox|, i requires 0 <= i < |inbox| => (PacketOf(inbox[i]), |inbox[i]|))
  }

  /** The steps that the first `n` queries, or responses, amount to. */
  ghost function Arrivals(inbox: seq<(Client, Octets)>, n: nat): seq<Event>
    requires n <= |inbox| && AllQueries(inbox)
  {
    Arrives(QueriesIn(inbox), n)
  }

  ghost function Responses(inbox: seq<Octets>, n: nat): seq<Event>
    requires n <= |inbox| && AllComplete(inbox)
  {
    Responds(PacketsOf(inbox), n)
  }

  /** What has been recorded since `past` is the arrival of the first `n` messages. */
  ghost predicate ArrivalsRecorded(past: seq<Event>, inbox: seq<(Client, Octets)>, n: nat, history: seq<Event>) {
    n <= |inbox| && AllQueries(inbox) && history == past + Arrivals(inbox, n)
  }

  ghost predicate ResponsesRecorded(past: seq<Event>, inbox: seq<Octets>, n: nat, history: seq<Event>) {
    n <= |inbox| && AllComplete(inbox) && history == past + Responses(inbox, n)
  }

  /** Responses since `past` that have sent a reply each have all been answered. */
  lemma CountedWasAnswered(c: Config, start: int, past: seq<Event>, from: State, inbox: seq<Octets>, n: nat,
                           history: seq<Event>, to: State)
    requires Reached(c, start, past, from) && Reached(c, start, history, to)
    requires ResponsesRecorded(past, inbox, n, history) && |to.replies| == |from.replies| + n
    ensures AllAnswered(from, PacketsOf(inbox), n, to)
  {
    RunSplit(c, Init(c, start), past, from, Responses(inbox, n), to);
    CountedIsAnswered(c, from, PacketsOf(inbox), n, to);
  }

  /** The queries since `past` are the messages of the inbox. */
  lemma InboxStored(c: Config, start: int, past: seq<Event>, from: State, inbox: seq<(Client, Octets)>,
                    history: seq<Event>, to: State)
    requires Reached(c, start, past, from) && Reached(c, start, history, to)
    requires AllQueries(inbox) && history == past + Arrivals(inbox, |inbox|)
    ensures StoredSince(from.queries, QueriesIn(inbox), to.queries)
  {
    RunSplit(c, Init(c, start), past, from, Arrivals(inbox, |inbox|), to);
    ArrivalsStored(c, from, QueriesIn(inbox), |inbox|, to);
  }

  /** Query `k` of the new ones is message `k`: who sent it, what the parser makes of it, and
      its length. */
  lemma StoredSinceMeans(before: seq<Query>, inbox: seq<(Client, Octets)>, after: seq<Query>, k: nat)
    requires AllQueries(inbox) && StoredSince(before, QueriesIn(inbox), after) && k < |inbox|
    ensures |after| == |before| + |inbox| && before <= after
    ensures var q := after[|before| + k];
            q.client == inbox[k].0 && q.packet == PacketOf(inbox[k].1) && q.length == |inbox[k].1|
  {
    var p := QueriesIn(inbox)[k];
    assert p.0 == inbox[k].0 && p.1 == PacketOf(inbox[k].1) && p.2 == |inbox[k].1|;
  }

  /** One more message handled. */
  lemma OneMoreQuery(history: seq<Event>, inbox: seq<(Client, Octets)>, n: nat)
    requires n < |inbox| && AllQueries(inbox)
    ensures history + Arrivals(inbox, n) + [Arrive(PacketOf(inbox[n].1), inbox[n].0, |inbox[n].1|)]
            == history + Arrivals(inbox, n + 1)
  {
  }

  lemma OneMoreResponse(history: seq<Event>, inbox: seq<Octets>, n: nat)
    requires n < |inbox| && AllComplete(inbox)
    ensures history + Responses(inbox, n) + [Respond(PacketOf(inbox[n]), |inbox[n]|)]
            == history + Responses(inbox, n + 1)
  {
  }

  // ----- end to end

  /** In terms of the octets received, whatever they are: relayed under `id`, they keep all
      but their first two octets if and only if the message is canonical and nothing comes
      after it; and their number if and only if it is clean and nothing comes after it. */
  lemma RelayedOctetsIff(data: Octets, id: U16)
    requires Complete(data)
    ensures Serialized(PacketOf(data).WithId(id)) == PutU16(id) + data[2..]
            <==> Decode(data).rest == [] && CanonicalMessage(Decode(data).value)
    ensures |Serialized(PacketOf(data).WithId(id))| == |data|
            <==> Decode(data).rest == [] && CleanMessage(Decode(data).value)
  {
    var Decoded(m, rest) := Decode(data);
    EncodeDecode(data);
    EncodeWithId(m, id);
    RelayedBytesIff(m, id);
    var sent := Serialized(FlattenMessage(m).WithId(id));
    SameOctetsIff(sent, PutU16(id), Encode(m), rest, data);
  }

  /** No longer than `body`, `sent` is `head` and all of `body + rest` but two octets only
      if there is no `rest`. */
  lemma SameOctetsIff(sent: Octets, head: Octets, body: Octets, rest: Octets, data: Octets)
    requires data == body + rest && |body| >= 2 && |head| == 2 && |sent| <= |body|
    ensures sent == head + data[2..] <==> rest == [] && sent == head + body[2..]
    ensures |sent| == |data| <==> rest == [] && |sent| == |body|
  {
    assert rest == [] ==> data == body;
  }

  /** The forwarded query is the index followed by the client's octets from offset 2,
      exactly when the client's message is canonical. */
  lemma ForwardedBytesIff(c: Config, s: State, q: nat, m: Message)
    requires Inv(c, s) && q < |s.queries| && s.queries[q].packet == FlattenMessage(m)
    ensures Forwarded(s.queries[q]) == PutU16(s.queries[q].index) + Encode(m)[2..] <==> CanonicalMessage(m)
    ensures |Forwarded(s.queries[q])| == |Encode(m)| <==> CleanMessage(m)
  {
    IndexFits(c, s, q);
    ForwardedAs(s.queries[q]);
    RelayedBytesIff(m, s.queries[q].index);
  }

  lemma IndexFits(c: Config, s: State, q: nat)
    requires Inv(c, s) && q < |s.queries|
    ensures s.queries[q].index < 0x1_0000
  {
  }

  lemma ForwardedAs(q: Query)
    requires q.index < 0x1_0000
    ensures Forwarded(q) == Serialized(q.packet.WithId(q.index))
  {
    var id := q.index % 0x1_0000;
    assert id == q.index;
  }

  /** The reply to a matched response goes to the client recorded for the query and is
      that client's own identifier followed by the upstream octets from offset 2,
      exactly when the upstream message is canonical. */
  lemma RepliedBytesIff(c: Config, s: State, k: nat, asked: Message, m: Message)
    requires Inv(c, s) && k < |s.replies| && s.replies[k].fate == Upstream(FlattenMessage(m))
    requires s.queries[s.replies[k].query].packet == FlattenMessage(asked)
    ensures s.replies[k].client == s.queries[s.replies[k].query].client
    ensures Serialized(s.replies[k].packet) == PutU16(asked.id) + Encode(m)[2..] <==> CanonicalMessage(m)
    ensures |Serialized(s.replies[k].packet)| == |Encode(m)| <==> CleanMessage(m)
  {
    assert FaithfulReply(c, s.queries[s.replies[k].query], s.replies[k]);
    RelayedBytesIff(m, asked.id);
  }

  /** The response relayed to a client repeats the octets of the client's own questions, if
      both messages are canonical or if no name asked for is ambiguous. */
  lemma RepliedQuestionsMatch(c: Config, s: State, k: nat, asked: Message, m: Message)
    requires Inv(c, s) && k < |s.replies| && s.replies[k].fate == Upstream(FlattenMessage(m))
    requires s.queries[s.replies[k].query].packet == FlattenMessage(asked)
    requires (CanonicalMessage(m) && CanonicalMessage(asked)) || UnambiguousQuestions(asked)
    ensures EncodeQuestions(m.questions) == EncodeQuestions(asked.questions)
  {
    assert FaithfulReply(c, s.queries[s.replies[k].query], s.replies[k]);
    assert SameQuestions(m, asked);
    if UnambiguousQuestions(asked) {
      UnambiguousQuestionsMatch(m, asked);
    } else {
      assert forall q | q in m.questions + asked.questions :: CanonicalQuestion(q);
      CanonicalQuestionsMatch(m, asked);
    }
  }

  /** What a client reads when its deadline passes. */
  lemma TimedOutBytes(c: Config, s: State, k: nat, asked: Message)
    requires Inv(c, s) && k < |s.replies| && s.replies[k].fate.Deadline?
    requires s.queries[s.replies[k].query].packet == FlattenMessage(asked)
    ensures var r := Serialized(s.replies[k].packet);
            && s.replies[k].client == s.queries[s.replies[k].query].client
            && Due(c, s.queries[s.replies[k].query].Expire(), s.replies[k].fate.reading)
            && 12 <= |r| <= |Encode(asked)| && |r| == s.replies[k].length
            && r[..2] == Encode(asked)[..2]
            && GetU16(r[2..]) / 0x8000 == 1 && GetU16(r[2..]) / 0x80 % 2 == 1 && GetU16(r[2..]) % 16 == 2
            && r[6..12] == [0, 0, 0, 0, 0, 0]
            && (r[12..] == EncodeQuestions(asked.questions)
                <==> forall q | q in asked.questions :: CanonicalQuestion(q))
  {
    assert FaithfulReply(c, s.queries[s.replies[k].query], s.replies[k]);
    TimeoutReplyBytes(asked, s.replies[k].fate.unset);
  }
}
