/** The part of the handlers that UDP and TCP share: one loop iteration each of the
    query, response and timeout handlers, on the task pool and the timer heap. The
    ghost state says which step of `Lifecycle` the iteration was; `Valid` ties the
    three structures to it and to each other. */
module Relays {
  import opened DnsPackets
  import opened Lifecycle
  import opened LifecycleRuns
  import opened TaskPools
  import opened TimerHeaps

  /** The state has one reply more, and it is this one. */
  ghost predicate OneMoreReply(before: State, after: State, client: Client, packet: DnsPacket, length: nat) {
    && |after.replies| == |before.replies| + 1 && before.replies == after.replies[..|before.replies|]
    && var r := after.replies[|before.replies|];
    && r.client == client && r.packet == packet && r.length == length
  }

  lemma ReachedInRange(c: Config, start: int, history: seq<Event>, s: State)
    requires Reached(c, start, history, s)
    ensures SlotsInRange(s)
  {
    ReachedKeeps(c, start, history, s);
  }

  class Relay {
    const config: Config
    const taskPool: TaskPool
    const timerHeap: TimerHeap
    /** What `steady_clock::now` returns. */
    var clock: int

    /** The state of the life cycle, and the steps that led to it from `start`. */
    ghost var st: State
    ghost var history: seq<Event>
    ghost const start: int
    /** The pool, the heap, and every task and timer in them. */
    ghost var Repr: set<object>

    ghost predicate Owns(queue: multiset<Timer>)
      reads `Repr, Repr
    {
      && {taskPool, taskPool.pool, timerHeap} <= Repr && this !in Repr
      && (forall i | 0 <= i < taskPool.pool.Length && taskPool.pool[i] != null :: taskPool.pool[i] in Repr)
      && (forall t | t in queue :: t in Repr)
    }

    /** The slot at `i` holds the query the life cycle says, and that query's timer is
        in the heap with the query's deadline. */
    ghost predicate SlotAgrees(i: nat, queue: multiset<Timer>, slots: map<nat, nat>, queries: seq<Query>)
      requires Owns(queue) && i < taskPool.pool.Length && taskPool.pool[i] != null
      reads `Repr, Repr
    {
      var task := taskPool.pool[i];
      && i in slots && slots[i] < |queries|
      && task.number == slots[i]
      && task.queryPacket == queries[slots[i]].packet
      && task.client == queries[slots[i]].client
      && task.timer != null && task.timer in queue
      && task.timer.index == i
      && task.timer.expire == queries[slots[i]].Expire()
    }

    /** A timer is valid exactly when the slot at its index holds the task that owns
        it; one left by an earlier user of the index is not. */
    ghost predicate TimerAgrees(t: Timer, queue: multiset<Timer>)
      requires Owns(queue) && t in queue
      reads `Repr, Repr
    {
      && t.index < taskPool.pool.Length
      && (t.valid <==> taskPool.pool[t.index] != null && taskPool.pool[t.index].timer == t)
    }

    ghost predicate Agree(queue: multiset<Timer>, slots: map<nat, nat>, queries: seq<Query>)
      reads `Repr, Repr
    {
      && Owns(queue)
      && (forall i: nat :: i in slots <==> i < taskPool.pool.Length && taskPool.pool[i] != null)
      && (forall i: nat | i < taskPool.pool.Length && taskPool.pool[i] != null :: SlotAgrees(i, queue, slots, queries))
      && (forall t | t in queue :: TimerAgrees(t, queue))
    }

    /** All of `Valid` but for the heap, which stands at `queue`. */
    ghost predicate ValidWith(queue: multiset<Timer>)
      reads this, Repr
    {
      && Agree(queue, st.slots, st.queries)
      && taskPool.Valid() && taskPool.size == config.size
      && taskPool.indexQueue == st.free
      && clock == st.now
      && Reached(config, start, history, st)
    }

    ghost predicate Valid()
      reads this, Repr
    {
      timerHeap in Repr && ValidWith(timerHeap.queue)
    }

    // ----- how the agreement survives each change

    /** A task put into an empty slot, with a fresh timer for the heap. */
    twostate lemma AgreeAfterPut(new index: nat, new task: Task, new timer: Timer, queue: multiset<Timer>,
                                 new slots: map<nat, nat>, new queries: seq<Query>, new q: Query)
      requires old(Agree(queue, slots, queries)) && index < taskPool.pool.Length && old(taskPool.pool[index]) == null
      requires taskPool.pool[..] == old(taskPool.pool[..])[index := task]
      requires !old(allocated(task)) && !old(allocated(timer)) && task.timer == timer
      requires forall o: Task | o in old(Repr) :: o.timer == old(o.timer)
      requires forall o: Timer | o in old(Repr) :: o.valid == old(o.valid)
      requires Repr == old(Repr) + {task, timer}
      requires task.number == |queries| && task.queryPacket == q.packet && task.client == q.client
      requires timer.index == index && timer.expire == q.Expire() && timer.valid
      ensures Agree(queue + multiset{timer}, slots[index := |queries|], queries + [q])
    {
      var queue' := queue + multiset{timer};
      forall i: nat | i < taskPool.pool.Length && i != index ensures taskPool.pool[i] == old(taskPool.pool[i]) {
        assert taskPool.pool[..][i] == taskPool.pool[i];
      }
      assert taskPool.pool[..][index] == task;
      forall i: nat | i < taskPool.pool.Length && taskPool.pool[i] != null
        ensures SlotAgrees(i, queue', slots[index := |queries|], queries + [q])
      {
        if i != index { assert old(SlotAgrees(i, queue, slots, queries)); }
      }
      forall t | t in queue' ensures TimerAgrees(t, queue') {
        if t != timer { assert old(TimerAgrees(t, queue)); }
      }
    }

    /** A slot emptied, and the timer of its task no longer valid. */
    twostate lemma AgreeAfterDel(new index: nat, new timer: Timer, queue: multiset<Timer>,
                                 new slots: map<nat, nat>, new queries: seq<Query>)
      requires old(Agree(queue, slots, queries)) && index < taskPool.pool.Length
      requires old(taskPool.pool[index]) != null && old(taskPool.pool[index].timer) == timer
      requires taskPool.pool[..] == old(taskPool.pool[..])[index := null]
      requires Repr == old(Repr) && forall o: Task | o in Repr :: o.timer == old(o.timer)
      requires forall o: Timer | o in Repr :: o.valid == (old(o.valid) && o != timer)
      ensures Agree(queue, slots - {index}, queries)
    {
      forall i: nat | i < taskPool.pool.Length && i != index ensures taskPool.pool[i] == old(taskPool.pool[i]) {
        assert taskPool.pool[..][i] == taskPool.pool[i];
      }
      assert taskPool.pool[..][index] == null;
      assert old(SlotAgrees(index, queue, slots, queries));
      forall i: nat | i < taskPool.pool.Length && taskPool.pool[i] != null
        ensures SlotAgrees(i, queue, slots - {index}, queries)
      {
        assert old(SlotAgrees(i, queue, slots, queries));
      }
      forall t | t in queue ensures TimerAgrees(t, queue) {
        assert old(TimerAgrees(t, queue));
      }
    }

    /** A timer that is not valid can leave the heap. */
    lemma AgreeWithoutStale(t: Timer, queue: multiset<Timer>, slots: map<nat, nat>, queries: seq<Query>)
      requires t in queue && Agree(queue, slots, queries) && !t.valid
      ensures Agree(queue - multiset{t}, slots, queries)
    {
      var queue' := queue - multiset{t};
      forall i: nat | i < taskPool.pool.Length && taskPool.pool[i] != null
        ensures SlotAgrees(i, queue', slots, queries)
      {
        assert SlotAgrees(i, queue, slots, queries);
        assert TimerAgrees(taskPool.pool[i].timer, queue);
      }
      forall u | u in queue' ensures TimerAgrees(u, queue') {
        assert TimerAgrees(u, queue);
      }
    }

    /** Every pending query's timer is in the heap, so a heap without due timers means
        a table without due queries. */
    lemma NothingDue(reading: int)
      requires Agree(timerHeap.queue, st.slots, st.queries)
      requires forall t | t in timerHeap.queue :: !Due(config, t.expire, reading)
      ensures SlotsInRange(st) && NoneDue(config, st, reading)
    {
      forall i | i in st.slots
        ensures st.slots[i] < |st.queries| && !Due(config, st.queries[st.slots[i]].Expire(), reading)
      {
        assert SlotAgrees(i, timerHeap.queue, st.slots, st.queries);
        assert taskPool.pool[i].timer in timerHeap.queue;
      }
    }

    /** The capacity bound, for a relay: `n` more queries find an index each. */
    lemma RoomFor(n: nat)
      requires Valid() && |Recent(config, st)| + n <= config.size
      ensures n <= |st.free|
    {
      ReachedKeeps(config, start, history, st);
      FreeIndicesExist(config, st, n);
    }

    // ----- the handlers' loop iterations

    constructor (config: Config, now: int)
      requires config.Valid()
      ensures Valid() && fresh(Repr)
      ensures this.config == config && start == now && st == Init(config, now) && history == []
    {
      this.config := config;
      this.clock := now;
      this.taskPool := new TaskPool(config.size);
      this.timerHeap := new TimerHeap();
      this.st, this.history, this.start := Init(config, now), [], now;
      new;
      Repr := {taskPool, taskPool.pool, timerHeap};
    }

    /** One step of the life cycle. */
    ghost method Record(e: Event)
      requires Reached(config, start, history, st) && Enabled(config, st, e)
      modifies `st, `history
      ensures Reached(config, start, history, st)
      ensures st == Apply(old(st), e) && history == old(history) + [e]
    {
      StepReaches(config, start, history, st, e);
      st, history := Apply(st, e), history + [e];
    }

    /** Time passes. */
    method Advance(to: int)
      requires Valid() && clock <= to
      modifies `clock, `st, `history
      ensures Valid() && clock == to
      ensures history == old(history) + [Tick(to)] && st == old(st).(now := to)
    {
      Record(Tick(to));
      clock := to;
    }

    /** What the query handlers do before they forward (src/handler.cpp:31-34, 157-160):
        take an index, store the task, start its timer. */
    method AcceptQuery(packet: DnsPacket, client: Client, ghost length: nat) returns (index: nat)
      requires Valid() && st.free != []
      modifies `st, `history, `Repr, Repr
      ensures Valid() && (forall o | o in Repr :: o in old(Repr) || fresh(o))
      ensures index == old(st).free[0] && index < 0x1_0000
      ensures history == old(history) + [Arrive(packet, client, length)]
      ensures st.queries == old(st).queries + [Query(packet, client, length, index, clock)]
      ensures st.free == old(st).free[1..] && st.replies == old(st).replies
    {
      ghost var before := st;
      Record(Arrive(packet, client, length));
      ghost var q := Query(packet, client, length, before.free[0], clock);
      index := Store(packet, client, q, before.slots, before.queries);
    }

    /** The pool, the task, its timer and the heap; `q` is the query they are to stand for. */
    method Store(packet: DnsPacket, client: Client,
                 ghost q: Query, ghost slots: map<nat, nat>, ghost queries: seq<Query>)
        returns (index: nat)
      requires timerHeap in Repr && Agree(timerHeap.queue, slots, queries)
      requires taskPool.Valid() && taskPool.indexQueue != []
      requires q.packet == packet && q.client == client && q.index == taskPool.indexQueue[0] && q.at == clock
      modifies `Repr, Repr
      ensures timerHeap in Repr && Agree(timerHeap.queue, slots[index := |queries|], queries + [q])
      ensures forall o | o in Repr :: o in old(Repr) || fresh(o)
      ensures taskPool.Valid() && taskPool.indexQueue == old(taskPool.indexQueue)[1..]
      ensures index == q.index && index < taskPool.size
    {
      var task := new Task(packet, client, |queries|);
      index := taskPool.PutTask(task, clock);
      var timer := task.timer;
      timerHeap.Push(timer);
      Repr := Repr + {task, timer};
      AgreeAfterPut(index, task, timer, old(timerHeap.queue), slots, queries, q);
    }

    /** The response handlers up to the send: nothing happens unless the index is in
        use by a query with the same questions. */
    method AcceptResponse(packet: DnsPacket, ghost length: nat)
        returns (matched: bool, client: Client, reply: DnsPacket)
      requires Valid() && packet.header.id < config.size
      modifies `st, `history, Repr
      ensures Valid() && Repr == old(Repr)
      ensures history == old(history) + [Respond(packet, length)] && st.queries == old(st).queries
      ensures matched <==> SlotsInRange(old(st)) && Matches(old(st), packet)
      ensures matched ==> OneMoreReply(old(st), st, client, reply, length) && AnsweredBy(old(st), packet, length, st)
      ensures !matched ==> st == old(st)
    {
      matched, client, reply := false, V4(0), packet;
      var task := Matching(packet);
      ReachedInRange(config, start, history, st);
      if task != null {
        matched := true;
        client, reply := Answer(packet.header.id, task, packet, length);
      } else {
        Record(Respond(packet, length));
      }
    }

    /** The two tests of the response handlers, and the task if they hold. */
    method Matching(packet: DnsPacket) returns (task: Task?)
      requires Valid() && packet.header.id < config.size
      ensures task != null <==> SlotsInRange(st) && Matches(st, packet)
      ensures task != null ==> taskPool.pool[packet.header.id] == task
    {
      var id := packet.header.id;
      var has := taskPool.HasTask(id);
      if !has {
        return null;
      }
      ReachedInRange(config, start, history, st);
      assert SlotAgrees(id, timerHeap.queue, st.slots, st.queries);
      task := taskPool.GetTask(id);
      if packet.questions != task.queryPacket.questions {
        return null;
      }
    }

    /** A match: give the index back, restore the client's identifier. The last
        reference to the task goes, and with it its timer's validity. */
    method Answer(id: nat, task: Task, packet: DnsPacket, ghost length: nat) returns (client: Client, reply: DnsPacket)
      requires Valid() && id == packet.header.id && id < config.size && taskPool.pool[id] == task
      requires SlotsInRange(st) && Matches(st, packet)
      modifies `st, `history, Repr
      ensures Valid() && Repr == old(Repr)
      ensures history == old(history) + [Respond(packet, length)] && st.queries == old(st).queries
      ensures OneMoreReply(old(st), st, client, reply, length) && AnsweredBy(old(st), packet, length, st)
    {
      assert SlotAgrees(id, timerHeap.queue, st.slots, st.queries);
      ghost var before := st;
      Record(Respond(packet, length));
      client, reply := task.client, packet.WithId(task.queryPacket.header.id);
      Retire(id, task, timerHeap.queue, before.slots, before.queries);
    }

    /** `DelTask`, and with the last reference to the task its destructor. */
    method Retire(id: nat, task: Task,
                  ghost queue: multiset<Timer>, ghost slots: map<nat, nat>, ghost queries: seq<Query>)
      requires Agree(queue, slots, queries) && taskPool.Valid()
      requires id < taskPool.size && taskPool.pool[id] == task && task.timer != null
      modifies taskPool, taskPool.pool, task.timer
      ensures Agree(queue, slots - {id}, queries) && !task.timer.valid
      ensures taskPool.Valid() && taskPool.indexQueue == old(taskPool.indexQueue) + [id]
    {
      taskPool.DelTask(id);
      task.Destroy();
      AgreeAfterDel(id, task.timer, queue, slots, queries);
    }

    /** The loop condition of the timeout handlers. */
    method TimerDue(reading: int) returns (more: bool)
      requires Valid()
      ensures more ==> exists t :: Earliest(t, timerHeap.queue) && Due(config, t.expire, reading)
      ensures !more ==> SlotsInRange(st) && NoneDue(config, st, reading)
    {
      var empty := timerHeap.Empty();
      if empty {
        NothingDue(reading);
        return false;
      }
      var top := timerHeap.Top();
      more := Due(config, top.expire, reading);
      if !more {
        NothingDue(reading);
      }
    }

    /** The loop of the timeout handlers is over; it began when the record was `past`, in
        the state `from`. */
    ghost method EndSweep(reading: int, past: seq<Event>, from: State)
      requires Valid() && reading <= clock && SlotsInRange(st) && NoneDue(config, st, reading)
      requires Reached(config, start, past, from) && TimeOutsSince(past, history, reading)
      modifies `st, `history
      ensures Valid() && SweptExactly(config, from, st, reading) && SweepSince(past, history, reading)
      ensures st.queries == old(st).queries && st.replies == old(st).replies
    {
      ghost var swept, before := st, history;
      Record(SweepEnds(reading));
      SweepWasExact(config, start, past, from, before, swept, reading);
    }

    /** The loop body of the timeout handlers. `expired` says that a query has timed
        out; otherwise the timer was a stale one and nothing else has changed. */
    method SweepOne(reading: int, unset: DnsHeader)
        returns (expired: bool, client: Client, reply: DnsPacket, ghost e: seq<Event>)
      requires Valid() && reading <= clock
      requires exists t :: Earliest(t, timerHeap.queue) && Due(config, t.expire, reading)
      modifies `st, `history, Repr
      ensures Valid() && Repr == old(Repr) && |timerHeap.queue| < |old(timerHeap.queue)|
      ensures history == old(history) + e && OnlyTimeOuts(e, reading) && st.queries == old(st).queries
      ensures !expired ==> st == old(st)
      ensures expired ==> OneMoreReply(old(st), st, client, reply, |Serialized(reply)|)
    {
      ghost var queue := timerHeap.queue;
      var top := PopTop(reading);
      var task := Owner(top, queue);
      if task == null {
        expired, client, reply, e := false, V4(0), DnsPacket(unset, [], []), [];
        StaleIsGone(top, queue);
      } else {
        expired, e := true, [TimeOut(top.index, reading, unset)];
        client, reply := Expire(top, queue, task, reading, unset);
      }
    }

    lemma StaleIsGone(top: Timer, queue: multiset<Timer>)
      requires timerHeap in Repr && ValidWith(queue) && top in queue && !top.valid
      requires timerHeap.queue == queue - multiset{top}
      ensures Valid()
    {
      AgreeWithoutStale(top, queue, st.slots, st.queries);
    }

    /** The rest of the relay does not depend on the heap. */
    twostate lemma PoppingDisturbsNothing(queue: multiset<Timer>)
      requires old(timerHeap in Repr && ValidWith(queue))
      requires unchanged(this) && forall o | o in old(Repr) && o != timerHeap :: unchanged(o)
      ensures ValidWith(queue)
    {
    }

    /** `Pop`, leaving everything but the heap as it was. */
    method PopTop(ghost reading: int) returns (top: Timer)
      requires Valid()
      requires exists t :: Earliest(t, timerHeap.queue) && Due(config, t.expire, reading)
      modifies timerHeap
      ensures timerHeap.queue == old(timerHeap.queue) - multiset{top} && top in old(timerHeap.queue)
      ensures ValidWith(old(timerHeap.queue)) && Due(config, top.expire, reading)
    {
      top := timerHeap.Pop();
      PoppingDisturbsNothing(old(timerHeap.queue));
    }

    /** The three tests of the loop body. Between atomic steps the first one decides:
        a valid timer always finds its own task. */
    method Owner(top: Timer, ghost queue: multiset<Timer>) returns (task: Task?)
      requires ValidWith(queue) && top in queue
      ensures top.index < config.size
      ensures task != null <==> top.valid
      ensures task != null ==> taskPool.pool[top.index] == task && task.timer == top
    {
      assert TimerAgrees(top, queue);
      if !top.valid {
        return null;
      }
      var has := taskPool.HasTask(top.index);
      if !has {
        return null;
      }
      task := taskPool.GetTask(top.index);
      if top != task.timer {
        return null;
      }
    }

    /** A query has timed out: its timer is off the heap already. */
    method Expire(top: Timer, ghost queue: multiset<Timer>, task: Task, reading: int, unset: DnsHeader)
        returns (client: Client, reply: DnsPacket)
      requires timerHeap in Repr && ValidWith(queue) && reading <= clock
      requires top in queue && timerHeap.queue == queue - multiset{top}
      requires top.index < config.size && taskPool.pool[top.index] == task && task.timer == top
      requires Due(config, top.expire, reading)
      modifies `st, `history, Repr
      ensures Valid() && Repr == old(Repr) && timerHeap.queue == old(timerHeap.queue)
      ensures history == old(history) + [TimeOut(top.index, reading, unset)] && st.queries == old(st).queries
      ensures OneMoreReply(old(st), st, client, reply, |Serialized(reply)|)
    {
      ghost var before := st;
      assert SlotAgrees(top.index, queue, st.slots, st.queries);
      ReachedInRange(config, start, history, st);
      Record(TimeOut(top.index, reading, unset));
      client, reply := task.client, TimeoutReply(task.queryPacket, unset);
      Retire(top.index, task, queue, before.slots, before.queries);
      AgreeWithoutStale(top, queue, st.slots, st.queries);
    }
  }
}
