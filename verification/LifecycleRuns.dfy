/** What holds over whole runs of the query life cycle. */
module LifecycleRuns {
  import opened DnsPackets
  import opened Lifecycle

  // ----- exactly one fate

  /** How many replies of the given kind query `q` has had. */
  function Count(rs: seq<Reply>, q: nat, upstream: bool): nat {
    if rs == [] then 0
    else (if rs[0].query == q && rs[0].fate.Upstream? == upstream then 1 else 0) + Count(rs[1..], q, upstream)
  }

  /** What is counted. */
  lemma {:induction false} CountMeans(rs: seq<Reply>, q: nat, upstream: bool)
    ensures Count(rs, q, upstream) == 0
            <==> forall k | 0 <= k < |rs| :: rs[k].query != q || rs[k].fate.Upstream? != upstream
  {
    if rs != [] {
      CountMeans(rs[1..], q, upstream);
      assert forall k | 1 <= k < |rs| :: rs[k] == rs[1..][k - 1];
    }
  }

  lemma {:induction false} NoReplyNoCount(rs: seq<Reply>, q: nat)
    requires forall k | 0 <= k < |rs| :: rs[k].query != q
    ensures Count(rs, q, true) == 0 && Count(rs, q, false) == 0
  {
    if rs != [] {
      NoReplyNoCount(rs[1..], q);
    }
  }

  lemma {:induction false} OneReplyOneCount(rs: seq<Reply>, q: nat, k: nat)
    requires k < |rs| && rs[k].query == q
    requires forall i, j | 0 <= i < j < |rs| :: rs[i].query != rs[j].query
    ensures Count(rs, q, true) + Count(rs, q, false) == 1
  {
    if k == 0 {
      NoReplyNoCount(rs[1..], q);
    } else {
      assert rs[0].query != rs[k].query;
      OneReplyOneCount(rs[1..], q, k - 1);
    }
  }

  function Total(rs: seq<Reply>, upstream: bool): nat {
    if rs == [] then 0 else (if rs[0].fate.Upstream? == upstream then 1 else 0) + Total(rs[1..], upstream)
  }

  /** Each reply counts once, under its kind. */
  lemma {:induction false} TotalOfLast(rs: seq<Reply>, upstream: bool)
    requires rs != []
    ensures var n := |rs| - 1;
            Total(rs, upstream) == Total(rs[..n], upstream) + if rs[n].fate.Upstream? == upstream then 1 else 0
  {
    if |rs| > 1 {
      TotalOfLast(rs[1..], upstream);
      assert rs[1..][..|rs| - 2] == rs[..|rs| - 1][1..];
    }
  }

  lemma {:induction false} TotalsAddUp(rs: seq<Reply>)
    ensures Total(rs, true) + Total(rs, false) == |rs|
  {
    if rs != [] {
      TotalsAddUp(rs[1..]);
    }
  }

  /** In every run each accepted query is pending, or answered from upstream once, or
      answered by its deadline once, and only one of these. */
  lemma ExactlyOneFate(c: Config, start: int, es: seq<Event>, s: State, q: nat)
    requires c.Valid() && Run(c, Init(c, start), es, s) && q < |s.queries|
    ensures (if Pending(s, q) then 1 else 0) + Count(s.replies, q, true) + Count(s.replies, q, false) == 1
    ensures |s.queries| == |s.slots| + Total(s.replies, true) + Total(s.replies, false)
  {
    InitKeeps(c, start);
    RunKeeps(c, Init(c, start), es, s);
    TotalsAddUp(s.replies);
    if Pending(s, q) {
      NoReplyNoCount(s.replies, q);
    } else {
      var k :| 0 <= k < |s.replies| && s.replies[k].query == q;
      OneReplyOneCount(s.replies, q, k);
    }
  }

  /** Accepted queries and sent replies are never revised. */
  lemma {:induction false} HistoryGrows(c: Config, s: State, es: seq<Event>, s': State)
    requires Run(c, s, es, s')
    ensures s.queries <= s'.queries && s.replies <= s'.replies
    decreases |es|
  {
    if es != [] {
      HistoryGrows(c, Apply(s, es[0]), es[1..], s');
    }
  }

  /** A query that is pending either still is, under the same index, or has had a reply
      since, faithful to what was asked; a query that was answered stays answered and
      its index means somebody else. */
  lemma FatesAreFinal(c: Config, s: State, es: seq<Event>, s': State, q: nat)
    requires Inv(c, s) && Run(c, s, es, s') && q < |s.queries|
    ensures q < |s'.queries| && s'.queries[q] == s.queries[q]
    ensures Pending(s, q) && !Pending(s', q) ==>
      exists k :: |s.replies| <= k < |s'.replies| && s'.replies[k].query == q
                  && FaithfulReply(c, s.queries[q], s'.replies[k])
    ensures !Pending(s, q) ==> !Pending(s', q)
    ensures !Pending(s, q) ==> forall k | |s.replies| <= k < |s'.replies| :: s'.replies[k].query != q
  {
    RunKeeps(c, s, es, s');
    HistoryGrows(c, s, es, s');
    if !Pending(s, q) {
      AnswerStays(s, s', q);
    } else if !Pending(s', q) {
      AnswerIsNew(c, s, s', q);
    }
  }

  lemma AnswerStays(s: State, s': State, q: nat)
    requires AnsweredOnce(s') && s.replies <= s'.replies && q < |s.queries| <= |s'.queries|
    requires NoneLost(s) && !Pending(s, q)
    ensures !Pending(s', q) && forall k | |s.replies| <= k < |s'.replies| :: s'.replies[k].query != q
  {
    assert Replied(s, q);
    var k :| 0 <= k < |s.replies| && s.replies[k].query == q;
    assert s'.replies[k] == s.replies[k];
  }

  lemma AnswerIsNew(c: Config, s: State, s': State, q: nat)
    requires AnsweredOnce(s) && s.replies <= s'.replies && q < |s.queries| && s.queries <= s'.queries && Pending(s, q)
    requires NoneLost(s') && RepliesFaithful(c, s') && !Pending(s', q)
    ensures exists k :: |s.replies| <= k < |s'.replies| && s'.replies[k].query == q
                        && FaithfulReply(c, s.queries[q], s'.replies[k])
  {
    assert Replied(s', q);
    var k :| 0 <= k < |s'.replies| && s'.replies[k].query == q;
    assert forall j | 0 <= j < |s.replies| :: s'.replies[j] == s.replies[j];
    assert FaithfulReply(c, s'.queries[q], s'.replies[k]);
  }

  // ----- sweeps

  ghost predicate OnlyTimeOuts(es: seq<Event>, reading: int) {
    forall e | e in es :: e.TimeOut? && e.reading == reading
  }

  lemma TimeOutIsPrecise(c: Config, s: State, e: Event, q: nat)
    requires Inv(c, s) && Enabled(c, s, e) && e.TimeOut? && q < |s.queries|
    ensures var t := Apply(s, e);
            && t.queries == s.queries && t.swept == s.swept && t.now == s.now
            && (Pending(s, q) && !Due(c, s.queries[q].Expire(), e.reading) ==> Pending(t, q))
            && (Pending(t, q) ==> Pending(s, q))
  {
  }

  /** Timeouts at one clock reading remove due queries and no others. */
  lemma {:induction false} TimeOutsArePrecise(c: Config, s: State, es: seq<Event>, s': State, reading: int, q: nat)
    requires Inv(c, s) && Run(c, s, es, s') && OnlyTimeOuts(es, reading) && q < |s.queries|
    ensures s'.queries == s.queries && s'.swept == s.swept && s'.now == s.now
    ensures Pending(s, q) && !Due(c, s.queries[q].Expire(), reading) ==> Pending(s', q)
    ensures Pending(s', q) ==> Pending(s, q)
    decreases |es|
  {
    if es != [] {
      assert es[0] in es;
      StepKeeps(c, s, es[0]);
      TimeOutIsPrecise(c, s, es[0], q);
      TimeOutsArePrecise(c, Apply(s, es[0]), es[1..], s', reading, q);
    }
  }

  /** The reply is the timeout reply to a query that was pending and due. */
  ghost predicate DeadlineReplyTo(c: Config, s: State, r: Reply, reading: int) {
    && r.query < |s.queries| && Pending(s, r.query)
    && Due(c, s.queries[r.query].Expire(), reading)
    && r.fate.Deadline? && r == DeadlineReply(r.query, s.queries[r.query], r.fate.unset, reading)
  }

  ghost predicate DeadlineReplies(c: Config, s: State, rs: seq<Reply>, reading: int) {
    forall k | |s.replies| <= k < |rs| :: DeadlineReplyTo(c, s, rs[k], reading)
  }

  /** Exactly the queries that are due at `reading` have left the table, and what has been
      sent since is a timeout reply to each of them. */
  ghost predicate SweptExactly(c: Config, s: State, s': State, reading: int) {
    && s'.queries == s.queries && s'.swept >= reading
    && (forall q: nat | q < |s.queries| ::
         Pending(s', q) <==> Pending(s, q) && !Due(c, s.queries[q].Expire(), reading))
    && s.replies <= s'.replies && DeadlineReplies(c, s, s'.replies, reading)
    && (forall q: nat | q < |s.queries| && Pending(s, q) && Due(c, s.queries[q].Expire(), reading) ::
         RepliedSince(s, s', q))
  }

  ghost predicate RepliedSince(s: State, s': State, q: nat) {
    exists k :: |s.replies| <= k < |s'.replies| && s'.replies[k].query == q
  }

  /** A timeout adds one deadline reply, for a query that was pending and due. */
  lemma TimeOutReplies(c: Config, s: State, e: Event)
    requires Inv(c, s) && Enabled(c, s, e) && e.TimeOut?
    ensures var t := Apply(s, e);
            && |t.replies| == |s.replies| + 1 && s.replies <= t.replies
            && DeadlineReplyTo(c, s, t.replies[|s.replies|], e.reading)
  {
  }

  /** A reply that is right after one timeout was right before it. */
  lemma {:induction false} TimeOutsReply(c: Config, s: State, es: seq<Event>, s': State, reading: int)
    requires Inv(c, s) && Run(c, s, es, s') && OnlyTimeOuts(es, reading)
    ensures s.replies <= s'.replies && DeadlineReplies(c, s, s'.replies, reading)
    decreases |es|
  {
    if es != [] {
      var t := Apply(s, es[0]);
      assert es[0] in es;
      StepKeeps(c, s, es[0]);
      TimeOutReplies(c, s, es[0]);
      TimeOutsReply(c, t, es[1..], s', reading);
      forall k | |s.replies| <= k < |s'.replies| ensures DeadlineReplyTo(c, s, s'.replies[k], reading) {
        if k == |s.replies| {
          assert s'.replies[k] == t.replies[k];
        } else {
          EarlierDeadline(c, s, es[0], s'.replies[k], reading);
        }
      }
    }
  }

  lemma EarlierDeadline(c: Config, s: State, e: Event, r: Reply, reading: int)
    requires Inv(c, s) && Enabled(c, s, e) && e.TimeOut? && DeadlineReplyTo(c, Apply(s, e), r, reading)
    ensures DeadlineReplyTo(c, s, r, reading)
  {
    TimeOutIsPrecise(c, s, e, r.query);
  }

  /** A sweep is some timeouts, and then a look at a table in which nothing is due. */
  lemma SweepIsExact(c: Config, s: State, es: seq<Event>, t: State, reading: int)
    requires Inv(c, s) && Run(c, s, es, t) && OnlyTimeOuts(es, reading) && Enabled(c, t, SweepEnds(reading))
    ensures SweptExactly(c, s, Apply(t, SweepEnds(reading)), reading)
  {
    var s' := Apply(t, SweepEnds(reading));
    NoTimeOutsAddNothing(c, s, es, t, reading);
    TimeOutsReply(c, s, es, t, reading);
    forall q: nat | q < |s.queries|
      ensures Pending(s', q) <==> Pending(s, q) && !Due(c, s.queries[q].Expire(), reading)
    {
      TimeOutsArePrecise(c, s, es, t, reading, q);
    }
    forall q: nat | q < |s.queries| && Pending(s, q) && Due(c, s.queries[q].Expire(), reading)
      ensures RepliedSince(s, s', q)
    {
      SweptIsReplied(c, s, es, t, q);
    }
  }

  lemma SweptIsReplied(c: Config, s: State, es: seq<Event>, t: State, q: nat)
    requires Inv(c, s) && Run(c, s, es, t) && q < |s.queries| && Pending(s, q)
    requires q < |t.queries| && !Pending(t, q)
    ensures RepliedSince(s, t, q)
  {
    FatesAreFinal(c, s, es, t, q);
  }

  /** All that has happened since `past` is timeouts at one clock reading. */
  ghost predicate TimeOutsSince(past: seq<Event>, history: seq<Event>, reading: int) {
    past <= history && OnlyTimeOuts(history[|past|..], reading)
  }

  lemma MoreTimeOuts(past: seq<Event>, history: seq<Event>, e: seq<Event>, reading: int)
    requires TimeOutsSince(past, history, reading) && OnlyTimeOuts(e, reading)
    ensures TimeOutsSince(past, history + e, reading)
  {
    assert (history + e)[|past|..] == history[|past|..] + e;
  }

  /** And then the sweep has ended. */
  ghost predicate SweepSince(past: seq<Event>, history: seq<Event>, reading: int) {
    history != [] && history[|history| - 1] == SweepEnds(reading)
    && TimeOutsSince(past, history[..|history| - 1], reading)
  }

  lemma SweepDone(past: seq<Event>, history: seq<Event>, reading: int)
    requires TimeOutsSince(past, history, reading)
    ensures SweepSince(past, history + [SweepEnds(reading)], reading)
  {
    assert (history + [SweepEnds(reading)])[..|history|] == history;
  }

  /** What that says about the record as a whole. */
  lemma SweepGrows(past: seq<Event>, history: seq<Event>, reading: int) returns (es: seq<Event>)
    requires SweepSince(past, history, reading)
    ensures OnlyTimeOuts(es, reading) && history == past + es + [SweepEnds(reading)]
  {
    es := history[|past|..|history| - 1];
    assert history[..|history| - 1][|past|..] == es;
    assert history == history[..|history| - 1] + [SweepEnds(reading)];
  }

  /** The same for a sweep in the middle of a history. */
  lemma SweepWasExact(c: Config, start: int, past: seq<Event>, s: State, history: seq<Event>, t: State, reading: int)
    requires Reached(c, start, past, s) && Reached(c, start, history, t)
    requires TimeOutsSince(past, history, reading) && Enabled(c, t, SweepEnds(reading))
    ensures SweptExactly(c, s, Apply(t, SweepEnds(reading)), reading)
    ensures SweepSince(past, history + [SweepEnds(reading)], reading)
  {
    var es := history[|past|..];
    assert history == past + es;
    ReachedKeeps(c, start, past, s);
    RunSplit(c, Init(c, start), past, s, es, t);
    SweepIsExact(c, s, es, t, reading);
    SweepDone(past, history, reading);
  }

  lemma {:induction false} NoTimeOutsAddNothing(c: Config, s: State, es: seq<Event>, s': State, reading: int)
    requires Run(c, s, es, s') && OnlyTimeOuts(es, reading)
    ensures s'.queries == s.queries
    decreases |es|
  {
    if es != [] {
      assert es[0] in es;
      NoTimeOutsAddNothing(c, Apply(s, es[0]), es[1..], s', reading);
    }
  }

  // ----- capacity

  /** The queries not yet due at the end of the last finished sweep: for UDP, those
      accepted later than `TIMEOUT` before it. */
  function Recent(c: Config, s: State): set<nat> {
    set q: nat | q < |s.queries| && !Due(c, s.queries[q].Expire(), s.swept)
  }

  /** For UDP and for TCP, what that says about the time of acceptance. */
  lemma RecentMeans(c: Config, s: State, q: nat)
    requires q < |s.queries|
    ensures !c.strict ==> (q in Recent(c, s) <==> s.queries[q].at > s.swept - 1000)
    ensures c.strict ==> (q in Recent(c, s) <==> s.queries[q].at >= s.swept - 1000)
  {
  }

  lemma {:induction false} InjectiveInto(m: map<nat, nat>, t: set<nat>)
    requires forall i | i in m :: m[i] in t
    requires forall i, j | i in m && j in m && i != j :: m[i] != m[j]
    ensures |m| <= |t|
    decreases |m|
  {
    if m != map[] {
      var i :| i in m;
      var m' := m - {i};
      assert m.Keys == m'.Keys + {i};
      assert |m'| == |m| - 1;
      InjectiveInto(m', t - {m[i]});
    }
  }

  lemma PendingAreRecent(c: Config, s: State)
    requires Inv(c, s)
    ensures |s.slots| <= |Recent(c, s)|
  {
    InjectiveInto(s.slots, Recent(c, s));
  }

  /** The program takes the front of its index queue without asking whether there is
      one. There is exactly when fewer queries are pending than there are indices, and
      certainly when fewer than that many queries are recent: with the one arriving,
      at most `size` accepted in the window. */
  lemma FreeIndexExists(c: Config, s: State)
    requires Inv(c, s)
    ensures s.free != [] <==> |s.slots| < c.size
    ensures |Recent(c, s)| < c.size ==> s.free != []
  {
    PendingAreRecent(c, s);
  }

  /** The same for `n` arrivals between two sweeps. */
  lemma FreeIndicesExist(c: Config, s: State, n: nat)
    requires Inv(c, s)
    ensures n <= |s.free| <==> |s.slots| + n <= c.size
    ensures |Recent(c, s)| + n <= c.size ==> n <= |s.free|
  {
    PendingAreRecent(c, s);
  }

  /** Traffic that stays within the capacity: an arrival finds fewer than `size` recent
      queries; clocks, sweeps and timeouts do what they are specified to do. */
  ghost predicate WithinCapacity(c: Config, s: State, es: seq<Event>)
    requires SlotsInRange(s)
    decreases |es|
  {
    es != [] ==>
      && (if es[0].Arrive? then |Recent(c, s)| < c.size else Enabled(c, s, es[0]))
      && SlotsInRange(Apply(s, es[0]))
      && WithinCapacity(c, Apply(s, es[0]), es[1..])
  }

  /** Under such traffic the program never pops an empty queue: every step of the run is
      defined, however long it is. */
  lemma {:induction false} NeverUnderflows(c: Config, s: State, es: seq<Event>) returns (s': State)
    requires Inv(c, s) && WithinCapacity(c, s, es)
    ensures Run(c, s, es, s') && Inv(c, s')
    decreases |es|
  {
    if es == [] {
      s' := s;
    } else {
      FreeIndexExists(c, s);
      StepKeeps(c, s, es[0]);
      s' := NeverUnderflows(c, Apply(s, es[0]), es[1..]);
    }
  }

  /** The bound is tight: `size` arrivals between two sweeps use up every index, and one
      more is undefined. */
  lemma {:induction false} FillsUp(c: Config, s: State, packet: DnsPacket, client: Client, length: nat, n: nat)
      returns (s': State)
    requires Inv(c, s) && n <= |s.free|
    ensures Run(c, s, seq(n, _ => Arrive(packet, client, length)), s')
    ensures |s'.free| == |s.free| - n
    ensures n == |s.free| ==> !Enabled(c, s', Arrive(packet, client, length))
    decreases n
  {
    var e := Arrive(packet, client, length);
    if n == 0 {
      s' := s;
    } else {
      StepKeeps(c, s, e);
      s' := FillsUp(c, Apply(s, e), packet, client, length, n - 1);
      assert seq(n, _ => e)[1..] == seq(n - 1, _ => e);
    }
  }

  // ----- reuse of indices

  function Indices(qs: seq<Query>): seq<nat> {
    seq(|qs|, k requires 0 <= k < |qs| => qs[k].index)
  }

  /** Indices are handed out in the order in which they became free: those given to the
      queries of a run, followed by the queue at its end, are the queue at its start
      followed by what was freed. */
  lemma {:induction false} FirstFreedFirstUsed(c: Config, s: State, es: seq<Event>, s': State)
      returns (freed: seq<nat>)
    requires Run(c, s, es, s')
    ensures s.queries <= s'.queries
    ensures Indices(s'.queries[|s.queries|..]) + s'.free == s.free + freed
    decreases |es|
  {
    if es == [] {
      freed := [];
    } else {
      var t := Apply(s, es[0]);
      var tail := FirstFreedFirstUsed(c, t, es[1..], s');
      if es[0].Arrive? {
        freed := tail;
        var later, rest := s'.queries[|s.queries|..], s'.queries[|t.queries|..];
        assert s'.queries[|s.queries|] == t.queries[|s.queries|];
        assert later == [s'.queries[|s.queries|]] + rest;
        assert Indices(later) == [s.free[0]] + Indices(rest);
        assert [s.free[0]] + (t.free + tail) == s.free + tail;
      } else {
        assert s.free <= t.free;
        freed := t.free[|s.free|..] + tail;
        assert t.queries == s.queries;
      }
    }
  }

  /** The k-th query accepted in a run gets the k-th index of the queue at its start. */
  lemma HandedOutInOrder(c: Config, s: State, es: seq<Event>, s': State, k: nat)
    requires Run(c, s, es, s') && k < |s.free| && |s.queries| + k < |s'.queries|
    ensures s'.queries[|s.queries| + k].index == s.free[k]
  {
    var freed := FirstFreedFirstUsed(c, s, es, s');
    var later := s'.queries[|s.queries|..];
    assert (Indices(later) + s'.free)[k] == Indices(later)[k] == later[k].index;
    assert (s.free + freed)[k] == s.free[k];
  }

  lemma LastInQueue(c: Config, t: State, i: nat, es: seq<Event>, s': State)
    requires Inv(c, t) && Run(c, t, es, s') && t.free != [] && t.free[|t.free| - 1] == i
    ensures var next := |t.queries| + c.size - |t.slots| - 1;
            && (forall k | |t.queries| <= k < |s'.queries| && k < next :: s'.queries[k].index != i)
            && (next < |s'.queries| ==> s'.queries[next].index == i)
  {
    forall k | |t.queries| <= k < |s'.queries| && k < |t.queries| + |t.free|
      ensures s'.queries[k].index == t.free[k - |t.queries|]
    {
      HandedOutInOrder(c, t, es, s', k - |t.queries|);
    }
  }

  lemma FreedGoesLast(c: Config, s: State, e: Event, i: nat)
    requires Inv(c, s) && Enabled(c, s, e) && i in s.slots && i !in Apply(s, e).slots
    ensures var t := Apply(s, e); Inv(c, t) && t.queries == s.queries && t.free == s.free + [i]
  {
    StepKeeps(c, s, e);
  }

  /** An index freed while `m` slots stay occupied is handed out again by exactly the
      (size - m)-th later arrival, whatever else happens in between, and by no earlier
      one. */
  lemma ReuseDistance(c: Config, s: State, e: Event, i: nat, es: seq<Event>, s': State)
    requires Inv(c, s) && Enabled(c, s, e) && Run(c, Apply(s, e), es, s')
    requires i in s.slots && i !in Apply(s, e).slots
    ensures var next := |s.queries| + c.size - |Apply(s, e).slots| - 1;
            && (forall k | |s.queries| <= k < |s'.queries| && k < next :: s'.queries[k].index != i)
            && (next < |s'.queries| ==> s'.queries[next].index == i)
  {
    FreedGoesLast(c, s, e, i);
    LastInQueue(c, Apply(s, e), i, es, s');
  }
}
