/** `ThreadPool`: workers on one condition variable. A step is one critical section, one
    notification, one wake-up or the end of one task. */
module ThreadPools {
  import opened Sums

  /** A task is known by its place in the order of enqueueing. */
  datatype Worker = Sleeping | Checking | Running(task: nat) | Exited

  /** `toNotify` counts the callers of `enqueue` between their unlock and their
      `notify_one`; `toWake` is the destructor between its unlock and its `notify_all`.
      The last three fields are the record: how many tasks were accepted, and which were
      started and finished, in what order. */
  datatype Pool = Pool(
    workers: seq<Worker>,
    tasks: seq<nat>,
    stop: bool,
    toNotify: nat,
    toWake: bool,
    accepted: nat,
    started: seq<nat>,
    done: seq<nat>)

  datatype Step =
    | Enqueue
    | NotifyOne(worker: nat)
    | Stop
    | NotifyAll
    | Wake(worker: nat)
    | Check(worker: nat)
    | Finish(worker: nat)

  function Fresh(threads: nat): Pool {
    Pool(seq(threads, _ => Checking), [], false, 0, false, 0, [], [])
  }

  predicate Asleep(s: Pool, w: nat) { w < |s.workers| && s.workers[w].Sleeping? }

  /** `NotifyOne` names the sleeper that wakes, any number if none sleeps. `Wake` is a
      wake-up without cause. */
  ghost predicate Allowed(s: Pool, e: Step) {
    match e
    case Enqueue => true
    case NotifyOne(w) => s.toNotify > 0 && (Asleep(s, w) || forall v: nat :: !Asleep(s, v))
    case Stop => !s.stop
    case NotifyAll => s.toWake
    case Wake(w) => Asleep(s, w)
    case Check(w) => w < |s.workers| && s.workers[w].Checking?
    case Finish(w) => w < |s.workers| && s.workers[w].Running?
  }

  function Put(s: Pool, w: nat, p: Worker): Pool
    requires w < |s.workers|
  {
    s.(workers := s.workers[w := p])
  }

  function Woken(ws: seq<Worker>): seq<Worker> {
    seq(|ws|, i requires 0 <= i < |ws| => if ws[i].Sleeping? then Checking else ws[i])
  }

  ghost function After(s: Pool, e: Step): Pool
    requires Allowed(s, e)
  {
    match e
    case Enqueue =>
      if s.stop then s
      else s.(tasks := s.tasks + [s.accepted], accepted := s.accepted + 1, toNotify := s.toNotify + 1)
    case NotifyOne(w) =>
      var s' := s.(toNotify := s.toNotify - 1);
      if Asleep(s, w) then Put(s', w, Checking) else s'
    case Stop => s.(stop := true, toWake := true)
    case NotifyAll => s.(toWake := false, workers := Woken(s.workers))
    case Wake(w) => Put(s, w, Checking)
    case Check(w) =>
      if !s.stop && s.tasks == [] then Put(s, w, Sleeping)
      else if s.tasks == [] then Put(s, w, Exited)
      else Put(s, w, Running(s.tasks[0])).(tasks := s.tasks[1..], started := s.started + [s.tasks[0]])
    case Finish(w) => Put(s, w, Checking).(done := s.done + [s.workers[w].task])
  }

  ghost predicate Leads(s: Pool, es: seq<Step>, s': Pool)
    decreases |es|
  {
    if es == [] then s' == s else Allowed(s, es[0]) && Leads(After(s, es[0]), es[1..], s')
  }

  // ----- what every step keeps

  function Checks(p: Worker): nat { if p.Checking? then 1 else 0 }

  /** While a worker sleeps, every queued task has a notification on its way or a worker
      about to look at the queue. */
  ghost predicate NoLostWakeup(s: Pool) {
    (exists w: nat :: Asleep(s, w)) ==> |s.tasks| <= s.toNotify + Sum(s.workers, Checks)
  }

  /** After the stop nobody sleeps once `notify_all` has been called. */
  ghost predicate StopWakes(s: Pool) {
    && (s.toWake ==> s.stop)
    && (s.stop && !s.toWake ==> forall w: nat :: !Asleep(s, w))
  }

  /** Tasks start in the order in which they were accepted; those not started are queued. */
  ghost predicate FirstInFirstOut(s: Pool) {
    && |s.started| + |s.tasks| == s.accepted
    && (forall k | 0 <= k < |s.started| :: s.started[k] == k)
    && (forall k | 0 <= k < |s.tasks| :: s.tasks[k] == |s.started| + k)
  }

  function Runs(x: nat): Worker -> nat { p => if p == Running(x) then 1 else 0 }

  /** A started task is finished once, or runs on one worker; no other task does either. */
  ghost predicate RunsOnce(s: Pool) {
    forall x: nat :: multiset(s.done)[x] + Sum(s.workers, Runs(x)) == if x < |s.started| then 1 else 0
  }

  ghost predicate ExitsLate(s: Pool) {
    forall w | 0 <= w < |s.workers| && s.workers[w].Exited? :: s.stop && s.tasks == []
  }

  ghost predicate Sound(s: Pool) {
    NoLostWakeup(s) && StopWakes(s) && FirstInFirstOut(s) && RunsOnce(s) && ExitsLate(s)
  }

  lemma FreshIsSound(threads: nat)
    ensures Sound(Fresh(threads))
  {
    forall x: nat ensures Sum(Fresh(threads).workers, Runs(x)) == 0 {
      SumNone(Fresh(threads).workers, Runs(x));
    }
  }

  lemma StepKeepsWakeups(s: Pool, e: Step)
    requires NoLostWakeup(s) && Allowed(s, e)
    ensures NoLostWakeup(After(s, e))
  {
    var s' := After(s, e);
    if w: nat :| Asleep(s', w) {
      match e {
        case NotifyAll =>
        case Enqueue => assert Asleep(s, w);
        case Stop => assert Asleep(s, w);
        case NotifyOne(v) =>
          assert Asleep(s, w);
          SumUpdated(s.workers, Checks, v, Checking);
        case Wake(v) =>
          assert Asleep(s, w);
          SumUpdated(s.workers, Checks, v, Checking);
        case Check(v) =>
          if s.tasks != [] || s.stop { assert Asleep(s, w); }
          SumUpdated(s.workers, Checks, v, s'.workers[v]);
        case Finish(v) =>
          assert Asleep(s, w);
          SumUpdated(s.workers, Checks, v, Checking);
      }
    }
  }

  lemma StepKeepsStop(s: Pool, e: Step)
    requires StopWakes(s) && ExitsLate(s) && Allowed(s, e)
    ensures StopWakes(After(s, e)) && ExitsLate(After(s, e))
  {
    var s' := After(s, e);
    forall w: nat | Asleep(s', w) && !(e.Check? && e.worker == w) ensures Asleep(s, w) {
    }
  }

  lemma StepKeepsOrder(s: Pool, e: Step)
    requires FirstInFirstOut(s) && Allowed(s, e)
    ensures FirstInFirstOut(After(s, e))
  {
  }

  lemma {:induction false} WakingRunsNothing(ws: seq<Worker>, x: nat)
    ensures Sum(Woken(ws), Runs(x)) == Sum(ws, Runs(x))
    decreases |ws|
  {
    if ws != [] {
      var k := |ws| - 1;
      assert Woken(ws)[..k] == Woken(ws[..k]);
      WakingRunsNothing(ws[..k], x);
    }
  }

  lemma StepKeepsRuns(s: Pool, e: Step)
    requires FirstInFirstOut(s) && RunsOnce(s) && Allowed(s, e)
    ensures RunsOnce(After(s, e))
  {
    var s' := After(s, e);
    forall x: nat
      ensures multiset(s'.done)[x] + Sum(s'.workers, Runs(x)) == if x < |s'.started| then 1 else 0
    {
      RunStep(s, e, x);
    }
  }

  lemma RunStep(s: Pool, e: Step, x: nat)
    requires FirstInFirstOut(s) && Allowed(s, e)
    requires multiset(s.done)[x] + Sum(s.workers, Runs(x)) == if x < |s.started| then 1 else 0
    ensures var s' := After(s, e);
            multiset(s'.done)[x] + Sum(s'.workers, Runs(x)) == if x < |s'.started| then 1 else 0
  {
    var s' := After(s, e);
    match e
    case Enqueue =>
    case Stop =>
    case NotifyAll => WakingRunsNothing(s.workers, x);
    case NotifyOne(w) => if Asleep(s, w) { SumUpdated(s.workers, Runs(x), w, Checking); }
    case Wake(w) => SumUpdated(s.workers, Runs(x), w, Checking);
    case Check(w) => SumUpdated(s.workers, Runs(x), w, s'.workers[w]);
    case Finish(w) => SumUpdated(s.workers, Runs(x), w, Checking);
  }

  lemma StepKeepsSound(s: Pool, e: Step)
    requires Sound(s) && Allowed(s, e)
    ensures Sound(After(s, e))
  {
    StepKeepsWakeups(s, e);
    StepKeepsStop(s, e);
    StepKeepsOrder(s, e);
    StepKeepsRuns(s, e);
  }

  lemma {:induction false} StepsKeepSound(s: Pool, es: seq<Step>, s': Pool)
    requires Sound(s) && Leads(s, es, s')
    ensures Sound(s') && |s'.workers| == |s.workers|
    decreases |es|
  {
    if es != [] {
      StepKeepsSound(s, es[0]);
      StepsKeepSound(After(s, es[0]), es[1..], s');
    }
  }

  /** However the workers and the callers interleave from the constructor on. */
  lemma EveryInterleaving(threads: nat, es: seq<Step>, s: Pool)
    requires Leads(Fresh(threads), es, s)
    ensures NoLostWakeup(s) && StopWakes(s) && FirstInFirstOut(s) && RunsOnce(s) && ExitsLate(s)
    ensures |s.workers| == threads
  {
    FreshIsSound(threads);
    StepsKeepSound(Fresh(threads), es, s);
  }

  lemma {:induction false} OneMoreStep(s: Pool, es: seq<Step>, t: Pool, e: Step)
    requires Leads(s, es, t) && Allowed(t, e)
    ensures Leads(s, es + [e], After(t, e))
    decreases |es|
  {
    if es == [] {
      assert Leads(After(t, e), [e][1..], After(t, e));
    } else {
      assert (es + [e])[0] == es[0] && (es + [e])[1..] == es[1..] + [e];
      OneMoreStep(After(s, es[0]), es[1..], t, e);
    }
  }

  /** Nothing but the state of a worker, or of a caller, holds it up: anyone may try to
      enqueue, a notification can always be sent, and each worker has its next step. */
  lemma NobodyIsHeldUp(s: Pool, w: nat)
    ensures Allowed(s, Enqueue)
    ensures s.toNotify > 0 ==> exists v: nat :: Allowed(s, NotifyOne(v))
    ensures !s.stop ==> Allowed(s, Stop)
    ensures s.toWake ==> Allowed(s, NotifyAll)
    ensures w < |s.workers| && s.workers[w].Sleeping? ==> Allowed(s, Wake(w))
    ensures w < |s.workers| && s.workers[w].Checking? ==> Allowed(s, Check(w))
    ensures w < |s.workers| && s.workers[w].Running? ==> Allowed(s, Finish(w))
  {
    if s.toNotify > 0 {
      if v: nat :| Asleep(s, v) {
        assert Allowed(s, NotifyOne(v));
      } else {
        assert Allowed(s, NotifyOne(0));
      }
    }
  }

  /** Where tasks are queued and every notification has been sent, a worker is awake;
      and if any sleeps, there is one about to look for each queued task. */
  lemma QueuedTaskHasWorker(s: Pool)
    requires Sound(s) && s.tasks != [] && s.toNotify == 0 && s.workers != []
    ensures exists w: nat :: w < |s.workers| && (s.workers[w].Checking? || s.workers[w].Running?)
    ensures (exists w: nat :: Asleep(s, w)) ==> |s.tasks| <= Sum(s.workers, Checks)
  {
    if (exists w: nat :: Asleep(s, w)) && forall p | p in s.workers :: !p.Checking? {
      SumNone(s.workers, Checks);
    }
    if forall p | p in s.workers :: !p.Checking? {
      assert !Asleep(s, 0) && !s.workers[0].Exited?;
      assert s.workers[0] in s.workers;
    } else {
      var p :| p in s.workers && p.Checking?;
    }
  }

  // ----- the destructor

  function Effort(p: Worker): nat {
    match p
    case Sleeping => 2
    case Checking => 1
    case Running(_) => 2
    case Exited => 0
  }

  /** A bound on the steps that are left once the pool is stopped. */
  function Remaining(s: Pool): nat {
    2 * |s.tasks| + Sum(s.workers, Effort) + s.toNotify + if s.toWake then 1 else 0
  }

  lemma {:induction false} WakingHelps(ws: seq<Worker>)
    ensures Sum(Woken(ws), Effort) <= Sum(ws, Effort)
    decreases |ws|
  {
    if ws != [] {
      var k := |ws| - 1;
      assert Woken(ws)[..k] == Woken(ws[..k]);
      WakingHelps(ws[..k]);
    }
  }

  /** Each step but a refused `enqueue` brings the end nearer. */
  lemma StepDescends(s: Pool, e: Step)
    requires s.stop && Allowed(s, e)
    ensures After(s, e).stop && After(s, e).accepted == s.accepted
    ensures if e.Enqueue? then After(s, e) == s else Remaining(After(s, e)) < Remaining(s)
  {
    match e
    case Enqueue =>
    case NotifyAll => WakingHelps(s.workers);
    case NotifyOne(w) => if Asleep(s, w) { SumUpdated(s.workers, Effort, w, Checking); }
    case Wake(w) => SumUpdated(s.workers, Effort, w, Checking);
    case Check(w) => SumUpdated(s.workers, Effort, w, After(s, e).workers[w]);
    case Finish(w) => SumUpdated(s.workers, Effort, w, Checking);
  }

  function Enqueues(es: seq<Step>): nat {
    if es == [] then 0 else (if es[0].Enqueue? then 1 else 0) + Enqueues(es[1..])
  }

  /** After the stop no task is added, and the number of steps is bounded. */
  lemma {:induction false} DrainingEnds(s: Pool, es: seq<Step>, s': Pool)
    requires s.stop && Leads(s, es, s')
    ensures s'.stop && s'.accepted == s.accepted
    ensures |es| <= Enqueues(es) + Remaining(s) - Remaining(s')
    decreases |es|
  {
    if es != [] {
      StepDescends(s, es[0]);
      DrainingEnds(After(s, es[0]), es[1..], s');
    }
  }

  /** What the destructor's `join`s wait for. */
  predicate AllExited(s: Pool) {
    forall w | 0 <= w < |s.workers| :: s.workers[w].Exited?
  }

  /** While a worker of a stopped pool has not exited there is a step other than a refused
      `enqueue`, and none needs a wake-up without cause. */
  lemma DrainingGoesOn(s: Pool)
    requires Sound(s) && s.stop && !AllExited(s)
    ensures exists e: Step :: Allowed(s, e) && !e.Enqueue? && !e.Wake?
  {
    var w: nat :| w < |s.workers| && !s.workers[w].Exited?;
    if Asleep(s, w) {
      assert Allowed(s, NotifyAll);
    } else {
      assert Allowed(s, Check(w)) || Allowed(s, Finish(w));
    }
  }

  /** When all are joined, every task ever accepted has been run, once, and all were
      started in order. */
  lemma AllTasksRun(s: Pool)
    requires Sound(s) && AllExited(s) && s.workers != []
    ensures s.stop && s.tasks == [] && s.started == seq(s.accepted, k => k)
    ensures forall x: nat :: multiset(s.done)[x] == if x < s.accepted then 1 else 0
  {
    assert s.workers[0].Exited?;
    forall x: nat ensures multiset(s.done)[x] == if x < s.accepted then 1 else 0 {
      SumNone(s.workers, Runs(x));
    }
  }

  class ThreadPool {
    var workers: seq<Worker>
    var tasks: seq<nat>
    var stop: bool
    var toNotify: nat
    var toWake: bool
    var accepted: nat
    ghost var started: seq<nat>
    ghost var done: seq<nat>
    ghost const threads: nat
    ghost var history: seq<Step>

    ghost function State(): Pool
      reads this
    {
      Pool(workers, tasks, stop, toNotify, toWake, accepted, started, done)
    }

    /** Everything since the constructor has been a run of the workers and callers. */
    ghost predicate Valid()
      reads this
    {
      Leads(Fresh(threads), history, State()) && Sound(State())
    }

    constructor (threads: nat)
      ensures Valid() && this.threads == threads && history == [] && State() == Fresh(threads)
    {
      workers := seq(threads, _ => Checking);
      tasks, stop, toNotify, toWake, accepted := [], false, 0, false, 0;
      started, done, history := [], [], [];
      this.threads := threads;
      new;
      FreshIsSound(threads);
    }

    ghost method Record(e: Step, s: Pool)
      requires Leads(Fresh(threads), history, s) && Sound(s) && Allowed(s, e) && State() == After(s, e)
      modifies `history
      ensures Valid() && history == old(history) + [e]
    {
      OneMoreStep(Fresh(threads), history, s, e);
      StepKeepsSound(s, e);
      history := history + [e];
    }

    /** The locked part of `enqueue`. A stopped pool refuses the task. */
    method Enqueue() returns (task: nat, ok: bool)
      requires Valid()
      modifies this
      ensures Valid() && history == old(history) + [Step.Enqueue]
      ensures ok == !old(stop)
      ensures if ok then tasks == old(tasks) + [task] && task == old(accepted) && toNotify == old(toNotify) + 1
              else State() == old(State())
      ensures workers == old(workers) && stop == old(stop)
    {
      ghost var s := State();
      task, ok := accepted, !stop;
      if ok {
        tasks := tasks + [task];
        accepted := accepted + 1;
        toNotify := toNotify + 1;
      }
      Record(Step.Enqueue, s);
    }

    /** Its `notify_one`; `w` is the sleeper the system picks. */
    method NotifyOne(w: nat)
      requires Valid() && Allowed(State(), Step.NotifyOne(w))
      modifies this
      ensures Valid() && history == old(history) + [Step.NotifyOne(w)]
      ensures tasks == old(tasks) && toNotify + 1 == old(toNotify)
      ensures workers == if Asleep(old(State()), w) then old(workers)[w := Checking] else old(workers)
    {
      ghost var s := State();
      toNotify := toNotify - 1;
      if w < |workers| && workers[w].Sleeping? {
        workers := workers[w := Checking];
      }
      Record(Step.NotifyOne(w), s);
    }

    method Wake(w: nat)
      requires Valid() && Asleep(State(), w)
      modifies this
      ensures Valid() && history == old(history) + [Step.Wake(w)]
      ensures workers == old(workers)[w := Checking] && tasks == old(tasks)
    {
      ghost var s := State();
      workers := workers[w := Checking];
      Record(Step.Wake(w), s);
    }

    /** A worker's critical section: the condition of `wait`, and what follows if it holds.
        It goes to sleep only if there is nothing to do, and leaves only when the pool
        is stopped and empty. */
    method Check(w: nat)
      requires Valid() && w < |workers| && workers[w].Checking?
      modifies this
      ensures Valid() && history == old(history) + [Step.Check(w)] && |workers| == |old(workers)|
      ensures workers == old(workers)[w := workers[w]] && stop == old(stop) && toNotify == old(toNotify)
      ensures old(tasks) == [] ==> tasks == [] && started == old(started)
      ensures old(tasks) != [] ==> started == old(started) + [old(tasks)[0]]
      ensures workers[w].Sleeping? <==> !old(stop) && old(tasks) == []
      ensures workers[w].Exited? <==> old(stop) && old(tasks) == []
      ensures workers[w].Running? <==> old(tasks) != []
      ensures workers[w].Running? ==> old(tasks) == [workers[w].task] + tasks
    {
      ghost var s := State();
      if !(stop || tasks != []) {
        workers := workers[w := Sleeping];
      } else if stop && tasks == [] {
        workers := workers[w := Exited];
      } else {
        workers := workers[w := Running(tasks[0])];
        started := started + [tasks[0]];
        tasks := tasks[1..];
        assert old(tasks) == [old(tasks)[0]] + tasks;
      }
      Record(Step.Check(w), s);
    }

    /** The task has run, or thrown. */
    method Finish(w: nat)
      requires Valid() && w < |workers| && workers[w].Running?
      modifies this
      ensures Valid() && history == old(history) + [Step.Finish(w)] && tasks == old(tasks)
      ensures done == old(done) + [old(workers[w]).task] && workers == old(workers)[w := Checking]
    {
      ghost var s := State();
      done := done + [workers[w].task];
      workers := workers[w := Checking];
      Record(Step.Finish(w), s);
    }

    /** The destructor's locked part. */
    method Stop()
      requires Valid() && !stop
      modifies this
      ensures Valid() && stop && history == old(history) + [Step.Stop] && tasks == old(tasks)
      ensures workers == old(workers) && toWake
    {
      ghost var s := State();
      stop := true;
      toWake := true;
      Record(Step.Stop, s);
    }

    /** Its `notify_all`. */
    method NotifyAll()
      requires Valid() && toWake
      modifies this
      ensures Valid() && history == old(history) + [Step.NotifyAll] && tasks == old(tasks)
      ensures |workers| == |old(workers)| && !toWake
      ensures forall w | 0 <= w < |workers| ::
                workers[w] == if old(workers[w]).Sleeping? then Checking else old(workers[w])
    {
      ghost var s := State();
      toWake := false;
      workers := Woken(workers);
      Record(Step.NotifyAll, s);
    }

    /** Its loop of `join`s, once they have all come back. */
    method Joined() returns (all: bool)
      requires Valid() && workers != []
      ensures all <==> AllExited(State())
      ensures all ==> stop && tasks == [] && forall x: nat :: x < accepted ==> multiset(done)[x] == 1
    {
      all := true;
      for w := 0 to |workers|
        invariant all <==> forall v | 0 <= v < w :: workers[v].Exited?
      {
        all := all && workers[w].Exited?;
      }
      if all {
        AllTasksRun(State());
      }
    }
  }
}
