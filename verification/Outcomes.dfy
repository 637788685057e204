/** What one step of the life cycle does, said of the queries themselves: who is pending,
    who is answered, with what. */
module Outcomes {
  import opened Bytes
  import opened DnsPackets
  import opened Lifecycle
  import opened LifecycleRuns

  /** Queries other than `q` are left as they are. */
  ghost predicate OthersStay(s: State, t: State, q: nat) {
    && s.queries <= t.queries
    && forall p: nat | p < |s.queries| && p != q :: Pending(t, p) <==> Pending(s, p)
  }

  /** A query that arrives is stored with its sender, its length and the time under the
      first free index, and is pending; nothing is sent to a client. */
  lemma ArrivalOutcome(c: Config, s: State, packet: DnsPacket, client: Client, length: nat)
    requires Inv(c, s) && s.free != []
    ensures var t := Apply(s, Arrive(packet, client, length));
            && t.queries == s.queries + [Query(packet, client, length, s.free[0], s.now)]
            && Pending(t, |s.queries|) && OthersStay(s, t, |s.queries|)
            && t.replies == s.replies && t.free == s.free[1..]
  {
    assert s.free[0] in s.free;
  }

  /** A response under the index of a pending query, with that query's questions, is
      relayed to the client that asked, under the client's own identifier and otherwise as
      it came, whatever else is in it. The index is free again, last in the queue. */
  lemma ResponseOutcome(c: Config, s: State, q: nat, packet: DnsPacket, length: nat)
    requires Inv(c, s) && q < |s.queries| && Pending(s, q)
    requires packet.header.id == s.queries[q].index && packet.questions == s.queries[q].packet.questions
    ensures var t := Apply(s, Respond(packet, length));
            && t.queries == s.queries && !Pending(t, q) && OthersStay(s, t, q)
            && t.replies == s.replies + [Reply(q, s.queries[q].client,
                                               packet.WithId(s.queries[q].packet.header.id), length, Upstream(packet))]
            && t.free == s.free + [s.queries[q].index]
  {
  }

  /** Any other response changes nothing. */
  lemma ResponseIgnored(c: Config, s: State, packet: DnsPacket, length: nat)
    requires Inv(c, s)
    requires forall q: nat | q < |s.queries| && Pending(s, q) ::
               packet.header.id != s.queries[q].index || packet.questions != s.queries[q].packet.questions
    ensures Apply(s, Respond(packet, length)) == s
  {
    if packet.header.id in s.slots {
      var q := s.slots[packet.header.id];
      assert Pending(s, q);
    }
  }

  /** Only the identifier changes in a message that is relayed. */
  lemma WithIdFields(p: DnsPacket, id: U16)
    ensures p.WithId(id) == DnsPacket(p.header.(id := id), p.questions, p.rrs)
  {
  }

  /** A pending query times out 1000 milliseconds after it was accepted: over UDP from that
      instant on, over TCP after it. */
  lemma TimesOutWhen(c: Config, s: State, q: nat, reading: int, unset: DnsHeader)
    requires Inv(c, s) && q < |s.queries| && Pending(s, q)
    ensures Enabled(c, s, TimeOut(s.queries[q].index, reading, unset))
            <==> reading <= s.now
                 && if c.strict then s.queries[q].at + 1000 < reading else s.queries[q].at + 1000 <= reading
  {
  }

  /** Then the client that asked gets one timeout reply, and the index is free again. */
  lemma TimeOutOutcome(c: Config, s: State, q: nat, reading: int, unset: DnsHeader)
    requires Inv(c, s) && q < |s.queries| && Pending(s, q)
    ensures var t, p := Apply(s, TimeOut(s.queries[q].index, reading, unset)), TimeoutReply(s.queries[q].packet, unset);
            && t.queries == s.queries && !Pending(t, q) && OthersStay(s, t, q)
            && t.replies == s.replies
                            + [Reply(q, s.queries[q].client, p, |Serialized(p)|, Deadline(unset, reading))]
            && t.free == s.free + [s.queries[q].index]
  {
  }

  /** It is a server failure under the client's identifier, with the client's questions and
      no records; fields the program does not set keep whatever was in them. */
  lemma TimeoutReplyFields(query: DnsPacket, unset: DnsHeader)
    ensures var p := TimeoutReply(query, unset);
            && p.questions == query.questions && p.rrs == []
            && p.header == DnsHeader(query.header.id, 1, unset.opcode, unset.aa, unset.tc, unset.rd, 1, unset.z, 2,
                                     unset.qdcount, 0, 0, 0)
  {
  }

  /** What the timeout handlers promise: whoever asked 1000 milliseconds ago (UDP), or
      longer ago than that (TCP), is no longer pending and has been sent a timeout reply
      since; nobody else has been sent anything. */
  lemma SweptMeans(c: Config, s: State, s': State, reading: int, q: nat)
    requires SweptExactly(c, s, s', reading) && q < |s.queries|
    ensures |s'.queries| == |s.queries| && s'.queries[q] == s.queries[q]
    ensures Pending(s', q)
            <==> Pending(s, q)
                 && if c.strict then s.queries[q].at + 1000 >= reading else s.queries[q].at + 1000 > reading
    ensures s.replies <= s'.replies
    ensures (exists k :: |s.replies| <= k < |s'.replies| && s'.replies[k].query == q)
            <==> Pending(s, q) && !Pending(s', q)
    ensures forall k | |s.replies| <= k < |s'.replies| && s'.replies[k].query == q ::
              && s'.replies[k].client == s.queries[q].client
              && s'.replies[k].fate.Deadline?
              && s'.replies[k].packet == TimeoutReply(s.queries[q].packet, s'.replies[k].fate.unset)
              && s'.replies[k].length == |Serialized(s'.replies[k].packet)|
  {
    if k :| |s.replies| <= k < |s'.replies| && s'.replies[k].query == q {
      assert DeadlineReplyTo(c, s, s'.replies[k], reading);
    }
    if Pending(s, q) && !Pending(s', q) {
      assert RepliedSince(s, s', q);
    }
    forall k | |s.replies| <= k < |s'.replies| && s'.replies[k].query == q
      ensures s'.replies[k].client == s.queries[q].client && s'.replies[k].fate.Deadline?
      ensures s'.replies[k].packet == TimeoutReply(s.queries[q].packet, s'.replies[k].fate.unset)
      ensures s'.replies[k].length == |Serialized(s'.replies[k].packet)|
    {
      assert DeadlineReplyTo(c, s, s'.replies[k], reading);
    }
  }

  /** The new queries are those that arrived, in that order, each as it came. */
  ghost predicate StoredSince(before: seq<Query>, qs: seq<(Client, DnsPacket, nat)>, after: seq<Query>) {
    && |after| == |before| + |qs| && before <= after
    && forall k | 0 <= k < |qs| ::
         var q := after[|before| + k]; q.client == qs[k].0 && q.packet == qs[k].1 && q.length == qs[k].2
  }

  lemma ArrivalsStored(c: Config, s: State, qs: seq<(Client, DnsPacket, nat)>, n: nat, t: State)
    requires n == |qs| && Run(c, s, Arrives(qs, n), t)
    ensures StoredSince(s.queries, qs, t.queries)
  {
    FirstArrivalsStored(c, s, qs, n, t);
    assert qs[..n] == qs;
  }

  lemma {:induction false} FirstArrivalsStored(c: Config, s: State, qs: seq<(Client, DnsPacket, nat)>, n: nat, t: State)
    requires n <= |qs| && Run(c, s, Arrives(qs, n), t)
    ensures StoredSince(s.queries, qs[..n], t.queries)
  {
    if n > 0 {
      var k := n - 1;
      var mid := RunLast(c, s, Arrives(qs, k), Arrive(qs[k].1, qs[k].0, qs[k].2), t);
      FirstArrivalsStored(c, s, qs, k, mid);
    }
  }
}
