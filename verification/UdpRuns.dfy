/** Which datagrams the UDP relay hands to its sockets: for every reply one, to the client
    that asked, and for every query one to each remote, in order, and no others. */
module UdpRuns {
  import opened Bytes
  import opened DnsPackets
  import opened Lifecycle
  import opened Messages
  import opened UdpHandlers
  import opened UdpSockets
  import opened WireFormat

  // ----- replies

  /** The place of reply `j` among those to its address family. */
  function PlaceOf(rs: seq<Reply>, j: nat): nat
    requires j < |rs|
  {
    |ToClients(rs[..j], rs[j].client.V6?)|
  }

  lemma {:induction false} RepliesGrow(rs: seq<Reply>, n: nat, v6: bool)
    requires n <= |rs|
    ensures ToClients(rs[..n], v6) <= ToClients(rs, v6)
    decreases |rs|
  {
    if n < |rs| {
      var k := |rs| - 1;
      RepliesGrow(rs[..k], n, v6);
      assert rs[..k][..n] == rs[..n];
    } else {
      assert rs[..n] == rs;
    }
  }

  lemma LastReply(rs: seq<Reply>, v6: bool)
    requires rs != [] && rs[|rs| - 1].client.V6? == v6
    ensures var r := rs[|rs| - 1];
            ToClients(rs, v6) == ToClients(rs[..|rs| - 1], v6) + [Datagram(r.client.handle, Serialized(r.packet))]
  {
  }

  /** Every reply is a datagram with the whole packet, for the client that asked; the
      replies to one family keep their order. */
  lemma ReplyIsDatagram(rs: seq<Reply>, j: nat)
    requires j < |rs|
    ensures var ds := ToClients(rs, rs[j].client.V6?);
            && PlaceOf(rs, j) < |ds|
            && ds[PlaceOf(rs, j)] == Datagram(rs[j].client.handle, Serialized(rs[j].packet))
  {
    var v6, first := rs[j].client.V6?, rs[..j + 1];
    RepliesGrow(rs, j + 1, v6);
    assert first[..j] == rs[..j] && first[j] == rs[j];
    LastReply(first, v6);
    StillThere(ToClients(first, v6), ToClients(rs, v6), PlaceOf(rs, j));
  }

  lemma StillThere(before: seq<Datagram>, all: seq<Datagram>, p: nat)
    requires before <= all && p < |before|
    ensures all[p] == before[p]
  {
  }

  /** And there are no other datagrams. */
  lemma {:induction false} RepliesCounted(rs: seq<Reply>)
    ensures |ToClients(rs, false)| + |ToClients(rs, true)| == |rs|
    decreases |rs|
  {
    if rs != [] {
      RepliesCounted(rs[..|rs| - 1]);
    }
  }

  /** Earlier replies come earlier. */
  lemma {:induction false} PlacesInOrder(rs: seq<Reply>, i: nat, j: nat)
    requires i < j < |rs| && rs[i].client.V6? == rs[j].client.V6?
    ensures PlaceOf(rs, i) < PlaceOf(rs, j)
  {
    ReplyIsDatagram(rs[..j], i);
    assert rs[..j][..i] == rs[..i];
  }

  // ----- queries

  lemma {:induction false} DatagramsCounted(qs: seq<Query>, remotes: seq<nat>)
    ensures |ToUpstream(qs, remotes)| == |qs| * |remotes|
    decreases |qs|
  {
    if qs != [] {
      var k := |qs| - 1;
      DatagramsCounted(qs[..k], remotes);
      OneMoreTimes(k, |remotes|);
    }
  }

  lemma OneMoreTimes(n: nat, r: nat)
    ensures (n + 1) * r == n * r + r
  {
  }

  lemma {:induction false} QueriesGrow(qs: seq<Query>, remotes: seq<nat>, n: nat)
    requires n <= |qs|
    ensures ToUpstream(qs[..n], remotes) <= ToUpstream(qs, remotes)
    decreases |qs|
  {
    if n < |qs| {
      var k := |qs| - 1;
      QueriesGrow(qs[..k], remotes, n);
      assert qs[..k][..n] == qs[..n];
    } else {
      assert qs[..n] == qs;
    }
  }

  lemma LastIsBroadcast(qs: seq<Query>, remotes: seq<nat>, i: nat)
    requires qs != [] && i < |remotes|
    ensures var before, all := ToUpstream(qs[..|qs| - 1], remotes), ToUpstream(qs, remotes);
            |all| == |before| + |remotes| && all[|before| + i] == Datagram(remotes[i], Forwarded(qs[|qs| - 1]))
  {
  }

  /** Datagram number `k * |remotes| + i` is query `k`, under its index, for remote `i`. */
  lemma QueryIsDatagrams(qs: seq<Query>, remotes: seq<nat>, k: nat, i: nat)
    requires k < |qs| && i < |remotes|
    ensures |ToUpstream(qs, remotes)| == |qs| * |remotes|
    ensures 0 <= k * |remotes| + i < |ToUpstream(qs, remotes)|
    ensures ToUpstream(qs, remotes)[k * |remotes| + i] == Datagram(remotes[i], Forwarded(qs[k]))
  {
    var first := qs[..k + 1];
    DatagramsCounted(qs, remotes);
    DatagramsCounted(qs[..k], remotes);
    QueriesGrow(qs, remotes, k + 1);
    assert first[..k] == qs[..k] && first[k] == qs[k];
    LastIsBroadcast(first, remotes, i);
    StillThere(ToUpstream(first, remotes), ToUpstream(qs, remotes), |ToUpstream(qs[..k], remotes)| + i);
  }

  /** A query is forwarded as its packet under the index it was given. */
  lemma ForwardedIs(q: Query)
    requires q.index < 0x1_0000
    ensures Forwarded(q) == Serialized(DnsPacket(q.packet.header.(id := q.index), q.packet.questions, q.packet.rrs))
  {
    ForwardedAs(q);
  }

  // ----- the relay's own sockets, in octets

  lemma Posted(u: UdpRelay)
    requires u.Valid()
    ensures Inv(u.relay.config, u.relay.st)
    ensures u.server4.handed == ToClients(u.relay.st.replies, false)
    ensures u.server6.handed == ToClients(u.relay.st.replies, true)
    ensures u.client4.handed == ToUpstream(u.relay.st.queries, u.remotes4)
    ensures u.client6.handed == ToUpstream(u.relay.st.queries, u.remotes6)
  {
    ReachedKeeps(u.relay.config, u.relay.start, u.relay.history, u.relay.st);
  }

  /** A canonical response reaches the client that asked, through the socket of its family,
      as the client's own identifier and the upstream octets from offset 2. */
  lemma ClientGetsResponse(u: UdpRelay, j: nat, asked: Message, m: Message)
    requires u.Valid() && j < |u.relay.st.replies| && u.relay.st.replies[j].fate == Upstream(FlattenMessage(m))
    requires u.relay.st.replies[j].query < |u.relay.st.queries|
    requires u.relay.st.queries[u.relay.st.replies[j].query].packet == FlattenMessage(asked)
    requires CanonicalMessage(m)
    ensures var client := u.relay.st.queries[u.relay.st.replies[j].query].client;
            Datagram(client.handle, PutU16(asked.id) + Encode(m)[2..])
            in (if client.V6? then u.server6.handed else u.server4.handed)
  {
    var rs := u.relay.st.replies;
    Posted(u);
    RepliedBytesIff(u.relay.config, u.relay.st, j, asked, m);
    ReplyIsDatagram(rs, j);
  }

  /** A canonical query reaches every remote as its index and the client's octets from
      offset 2. */
  lemma RemotesGetQuery(u: UdpRelay, k: nat, m: Message, i: nat)
    requires u.Valid() && k < |u.relay.st.queries| && u.relay.st.queries[k].packet == FlattenMessage(m)
    requires CanonicalMessage(m)
    ensures u.relay.st.queries[k].index < 0x1_0000
    ensures var d := PutU16(u.relay.st.queries[k].index) + Encode(m)[2..];
            && (i < |u.remotes4| ==> Datagram(u.remotes4[i], d) in u.client4.handed)
            && (i < |u.remotes6| ==> Datagram(u.remotes6[i], d) in u.client6.handed)
  {
    var qs := u.relay.st.queries;
    Posted(u);
    ForwardedBytesIff(u.relay.config, u.relay.st, k, m);
    RemoteGetsQuery(qs, u.remotes4, k, i);
    RemoteGetsQuery(qs, u.remotes6, k, i);
  }

  lemma RemoteGetsQuery(qs: seq<Query>, remotes: seq<nat>, k: nat, i: nat)
    requires k < |qs|
    ensures i < |remotes| ==> Datagram(remotes[i], Forwarded(qs[k])) in ToUpstream(qs, remotes)
  {
    if i < |remotes| {
      QueryIsDatagrams(qs, remotes, k, i);
    }
  }
}
