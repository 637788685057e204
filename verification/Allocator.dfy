/** `TaskPool` under interleaving: any number of threads, one lock acquisition or one
    critical section a step. */
module Allocators {
  import opened Lifecycle
  import opened Sums

  datatype Lock = Lock(writers: set<nat>, readers: set<nat>) {
    /** `unique_lock` */
    predicate OpenToWriter() { writers == {} && readers == {} }
    /** `shared_lock` */
    predicate OpenToReader() { writers == {} }
    function Write(t: nat): Lock { this.(writers := writers + {t}) }
    function Read(t: nat): Lock { this.(readers := readers + {t}) }
    function Release(t: nat): Lock { Lock(writers - {t}, readers - {t}) }
  }

  /** Where a thread stands. `At` waits for a lock and `In` holds it; a deletion that
      waits for the queue keeps the pool. Tasks are known by number. */
  datatype Phase =
    | Idle
    | PutAtQueue(task: nat) | PutInQueue(task: nat)
    | PutAtPool(task: nat, index: nat) | PutInPool(task: nat, index: nat)
    | DelAtPool(index: nat) | DelInPool(index: nat)
    | DelAtQueue(index: nat) | DelInQueue(index: nat)
    | ReadAtPool(index: nat) | ReadInPool(index: nat)
    | FullAtQueue | FullInQueue

  /** What happens to an index. */
  datatype Deed = Take(index: nat) | Install(index: nat, task: nat) | Remove(index: nat, task: nat) | Give(index: nat)

  datatype Pool = Pool(
    size: nat,
    free: seq<nat>,
    slots: map<nat, nat>,
    queueLock: Lock,
    poolLock: Lock,
    threads: seq<Phase>,
    log: seq<Deed>)

  datatype Step = Call(thread: nat, phase: Phase) | Move(thread: nat)

  /** The order in which the constructor queues the indices. */
  function AllIndices(size: nat): seq<nat> { seq(size, i => i) }

  function Fresh(size: nat, threads: nat): Pool {
    Pool(size, AllIndices(size), map[], Lock({}, {}), Lock({}, {}), seq(threads, _ => Idle), [])
  }

  /** The first phase of a call of `PutTask`, `DelTask`, `GetTask` or `HasTask`, or
      `IsFull`. */
  predicate Opening(size: nat, p: Phase) {
    match p
    case PutAtQueue(_) => true
    case DelAtPool(i) => i < size
    case ReadAtPool(i) => i < size
    case FullAtQueue => true
    case _ => false
  }

  predicate CanMove(s: Pool, t: nat)
    requires t < |s.threads|
  {
    match s.threads[t]
    case Idle => false
    case PutAtQueue(_) => s.queueLock.OpenToWriter()
    case PutInQueue(_) => s.free != []
    case PutAtPool(_, _) => s.poolLock.OpenToWriter()
    case PutInPool(_, _) => true
    case DelAtPool(_) => s.poolLock.OpenToWriter()
    case DelInPool(_) => true
    case DelAtQueue(_) => s.queueLock.OpenToWriter()
    case DelInQueue(_) => true
    case ReadAtPool(_) => s.poolLock.OpenToReader()
    case ReadInPool(_) => true
    case FullAtQueue => s.queueLock.OpenToReader()
    case FullInQueue => true
  }

  function At(s: Pool, t: nat, p: Phase): Pool
    requires t < |s.threads|
  {
    s.(threads := s.threads[t := p])
  }

  function Moved(s: Pool, t: nat): Pool
    requires t < |s.threads| && CanMove(s, t)
  {
    match s.threads[t]
    case PutAtQueue(x) => At(s, t, PutInQueue(x)).(queueLock := s.queueLock.Write(t))
    case PutInQueue(x) =>
      At(s, t, PutAtPool(x, s.free[0])).(
        free := s.free[1..], queueLock := s.queueLock.Release(t), log := s.log + [Take(s.free[0])])
    case PutAtPool(x, i) => At(s, t, PutInPool(x, i)).(poolLock := s.poolLock.Write(t))
    case PutInPool(x, i) =>
      At(s, t, Idle).(
        slots := s.slots[i := x], poolLock := s.poolLock.Release(t), log := s.log + [Install(i, x)])
    case DelAtPool(i) => At(s, t, DelInPool(i)).(poolLock := s.poolLock.Write(t))
    case DelInPool(i) =>
      if i in s.slots
      then At(s, t, DelAtQueue(i)).(slots := s.slots - {i}, log := s.log + [Remove(i, s.slots[i])])
      else At(s, t, Idle).(poolLock := s.poolLock.Release(t))
    case DelAtQueue(i) => At(s, t, DelInQueue(i)).(queueLock := s.queueLock.Write(t))
    case DelInQueue(i) =>
      At(s, t, Idle).(
        free := s.free + [i], log := s.log + [Give(i)],
        queueLock := s.queueLock.Release(t), poolLock := s.poolLock.Release(t))
    case ReadAtPool(i) => At(s, t, ReadInPool(i)).(poolLock := s.poolLock.Read(t))
    case ReadInPool(_) => At(s, t, Idle).(poolLock := s.poolLock.Release(t))
    case FullAtQueue => At(s, t, FullInQueue).(queueLock := s.queueLock.Read(t))
    case FullInQueue => At(s, t, Idle).(queueLock := s.queueLock.Release(t))
  }

  predicate Allowed(s: Pool, e: Step) {
    && e.thread < |s.threads|
    && match e
       case Call(t, p) => s.threads[t] == Idle && Opening(s.size, p)
       case Move(t) => CanMove(s, t)
  }

  function After(s: Pool, e: Step): Pool
    requires Allowed(s, e)
  {
    match e
    case Call(t, p) => At(s, t, p)
    case Move(t) => Moved(s, t)
  }

  predicate Leads(s: Pool, es: seq<Step>, s': Pool)
    decreases |es|
  {
    if es == [] then s' == s else Allowed(s, es[0]) && Leads(After(s, es[0]), es[1..], s')
  }

  // ----- locks

  predicate WritesQueue(p: Phase) { p.PutInQueue? || p.DelInQueue? }

  predicate WritesPool(p: Phase) { p.PutInPool? || p.DelInPool? || p.DelAtQueue? || p.DelInQueue? }

  /** A lock is held by exactly the threads that are inside its critical sections, and
      by one alone if one of them writes. */
  ghost predicate Guards(l: Lock, threads: seq<Phase>, writes: Phase -> bool, looks: Phase -> bool) {
    && (forall t: nat :: t in l.writers <==> t < |threads| && writes(threads[t]))
    && (forall t: nat :: t in l.readers <==> t < |threads| && looks(threads[t]))
    && (forall t, u | t in l.writers && u in l.writers :: t == u)
    && (l.writers != {} ==> l.readers == {})
  }

  ghost predicate QueueGuarded(s: Pool) {
    Guards(s.queueLock, s.threads, p => WritesQueue(p), (p: Phase) => p.FullInQueue?)
  }

  ghost predicate PoolGuarded(s: Pool) {
    Guards(s.poolLock, s.threads, p => WritesPool(p), (p: Phase) => p.ReadInPool?)
  }

  // ----- the life of an index

  datatype Stage = Free | Taken | Live(task: nat) | Leaving | Broken

  /** The one order in which things may happen to an index. */
  function Onward(g: Stage, d: Deed): Stage {
    match (g, d)
    case (Free, Take(_)) => Taken
    case (Taken, Install(_, x)) => Live(x)
    case (Live(x), Remove(_, y)) => if x == y then Leaving else Broken
    case (Leaving, Give(_)) => Free
    case _ => Broken
  }

  function StageOf(log: seq<Deed>, i: nat): Stage {
    if log == [] then Free
    else
      var g, d := StageOf(log[..|log| - 1], i), log[|log| - 1];
      if d.index == i then Onward(g, d) else g
  }

  predicate Brings(p: Phase, i: nat) { (p.PutAtPool? || p.PutInPool?) && p.index == i }

  predicate TakesAway(p: Phase, i: nat) { (p.DelAtQueue? || p.DelInQueue?) && p.index == i }

  predicate Carries(p: Phase, i: nat) { Brings(p, i) || TakesAway(p, i) }

  ghost predicate NobodyCarries(s: Pool, i: nat) {
    forall t | 0 <= t < |s.threads| :: !Carries(s.threads[t], i)
  }

  ghost predicate CarriedOnlyBy(s: Pool, i: nat, t: nat) {
    t < |s.threads| && forall u | 0 <= u < |s.threads| :: Carries(s.threads[u], i) <==> u == t
  }

  /** What has happened to the index says where it is: in the queue, in use, or on its
      way between the two in the hands of one thread. */
  ghost predicate InItsPlace(s: Pool, i: nat) {
    match StageOf(s.log, i)
    case Free => i in s.free && i !in s.slots && NobodyCarries(s, i)
    case Taken => i !in s.free && i !in s.slots && exists t: nat :: CarriedOnlyBy(s, i, t) && Brings(s.threads[t], i)
    case Live(x) => i !in s.free && i in s.slots && s.slots[i] == x && NobodyCarries(s, i)
    case Leaving =>
      i !in s.free && i !in s.slots && exists t: nat :: CarriedOnlyBy(s, i, t) && TakesAway(s.threads[t], i)
    case Broken => false
  }

  ghost predicate InRange(s: Pool) {
    && (forall i | i in s.free :: i < s.size)
    && (forall i | i in s.slots :: i < s.size)
    && (forall t, i: nat | 0 <= t < |s.threads| && Carries(s.threads[t], i) :: i < s.size)
  }

  ghost predicate Partitioned(s: Pool) {
    && Distinct(s.free) && InRange(s)
    && forall i: nat | i < s.size :: InItsPlace(s, i)
  }

  /** An index that neither the queue, the table nor thread `t` gains or loses. */
  lemma Undisturbed(s: Pool, s': Pool, t: nat, i: nat)
    requires t < |s.threads| == |s'.threads| && s'.threads == s.threads[t := s'.threads[t]]
    requires InItsPlace(s, i) && StageOf(s'.log, i) == StageOf(s.log, i)
    requires i in s'.free <==> i in s.free
    requires i in s'.slots <==> i in s.slots
    requires i in s.slots ==> s'.slots[i] == s.slots[i]
    requires Brings(s'.threads[t], i) <==> Brings(s.threads[t], i)
    requires TakesAway(s'.threads[t], i) <==> TakesAway(s.threads[t], i)
    ensures InItsPlace(s', i)
  {
    assert forall u | 0 <= u < |s.threads| ::
        (Brings(s'.threads[u], i) <==> Brings(s.threads[u], i)) &&
        (TakesAway(s'.threads[u], i) <==> TakesAway(s.threads[u], i));
    if StageOf(s.log, i).Taken? {
      var u: nat :| CarriedOnlyBy(s, i, u) && Brings(s.threads[u], i);
      assert CarriedOnlyBy(s', i, u);
    } else if StageOf(s.log, i).Leaving? {
      var u: nat :| CarriedOnlyBy(s, i, u) && TakesAway(s.threads[u], i);
      assert CarriedOnlyBy(s', i, u);
    }
  }

  lemma LogGrows(log: seq<Deed>, d: Deed, i: nat)
    ensures StageOf(log + [d], i) == if d.index == i then Onward(StageOf(log, i), d) else StageOf(log, i)
  {
    assert (log + [d])[..|log|] == log;
  }

  /** The thread that carries an index knows how it came by it. */
  lemma Carrier(s: Pool, t: nat, i: nat)
    requires Partitioned(s) && t < |s.threads| && Carries(s.threads[t], i)
    ensures i < s.size && CarriedOnlyBy(s, i, t)
    ensures StageOf(s.log, i) == if Brings(s.threads[t], i) then Taken else Leaving
  {
    assert InItsPlace(s, i);
  }

  lemma TakeKeeps(s: Pool, t: nat)
    requires Partitioned(s) && t < |s.threads| && s.threads[t].PutInQueue? && s.free != []
    ensures Partitioned(Moved(s, t))
  {
    var s', j := Moved(s, t), s.free[0];
    assert j in s.free && InItsPlace(s, j);
    FrontTaken(s.free);
    forall i: nat | i < s.size ensures InItsPlace(s', i) {
      LogGrows(s.log, Take(j), i);
      if i == j {
        assert CarriedOnlyBy(s', i, t) && Brings(s'.threads[t], i);
      } else {
        assert InItsPlace(s, i);
        Undisturbed(s, s', t, i);
      }
    }
    assert forall i | i in s'.free :: i in s.free;
  }

  lemma InstallKeeps(s: Pool, t: nat)
    requires Partitioned(s) && t < |s.threads| && s.threads[t].PutInPool?
    ensures Partitioned(Moved(s, t))
  {
    var s', x, j := Moved(s, t), s.threads[t].task, s.threads[t].index;
    Carrier(s, t, j);
    forall i: nat | i < s.size ensures InItsPlace(s', i) {
      LogGrows(s.log, Install(j, x), i);
      assert InItsPlace(s, i);
      if i != j {
        Undisturbed(s, s', t, i);
      }
    }
  }

  lemma RemoveKeeps(s: Pool, t: nat)
    requires Partitioned(s) && t < |s.threads| && s.threads[t].DelInPool? && s.threads[t].index in s.slots
    ensures Partitioned(Moved(s, t))
  {
    var s', j := Moved(s, t), s.threads[t].index;
    assert InItsPlace(s, j);
    forall i: nat | i < s.size ensures InItsPlace(s', i) {
      LogGrows(s.log, Remove(j, s.slots[j]), i);
      if i == j {
        assert CarriedOnlyBy(s', i, t) && TakesAway(s'.threads[t], i);
      } else {
        assert InItsPlace(s, i);
        Undisturbed(s, s', t, i);
      }
    }
  }

  lemma GiveKeeps(s: Pool, t: nat)
    requires Partitioned(s) && t < |s.threads| && s.threads[t].DelInQueue?
    ensures Partitioned(Moved(s, t))
  {
    var s', j := Moved(s, t), s.threads[t].index;
    Carrier(s, t, j);
    forall i: nat | i < s.size ensures InItsPlace(s', i) {
      LogGrows(s.log, Give(j), i);
      assert InItsPlace(s, i);
      if i != j {
        Undisturbed(s, s', t, i);
      }
    }
    assert InItsPlace(s, j);
  }

  /** The other steps only take and drop locks. */
  lemma OtherwiseStands(s: Pool, e: Step)
    requires Allowed(s, e) && After(s, e).log == s.log
    ensures var s', t := After(s, e), e.thread;
            && s'.size == s.size && s'.free == s.free && s'.slots == s.slots
            && s'.threads == s.threads[t := s'.threads[t]]
            && forall i: nat :: (Brings(s'.threads[t], i) <==> Brings(s.threads[t], i))
                             && (TakesAway(s'.threads[t], i) <==> TakesAway(s.threads[t], i))
  {
  }

  lemma OtherwiseKeeps(s: Pool, s': Pool, t: nat)
    requires Partitioned(s) && t < |s.threads| == |s'.threads| && s'.threads == s.threads[t := s'.threads[t]]
    requires s'.size == s.size && s'.free == s.free && s'.slots == s.slots && s'.log == s.log
    requires forall i: nat :: (Brings(s'.threads[t], i) <==> Brings(s.threads[t], i))
                           && (TakesAway(s'.threads[t], i) <==> TakesAway(s.threads[t], i))
    ensures Partitioned(s')
  {
    forall i: nat | i < s.size ensures InItsPlace(s', i) {
      assert InItsPlace(s, i);
      Undisturbed(s, s', t, i);
    }
    forall u, i: nat | 0 <= u < |s'.threads| && Carries(s'.threads[u], i) ensures i < s.size {
      assert Carries(s.threads[u], i);
    }
  }

  /** Every step of every thread keeps the indices partitioned. */
  lemma StepKeepsPartition(s: Pool, e: Step)
    requires Partitioned(s) && Allowed(s, e)
    ensures Partitioned(After(s, e))
  {
    if After(s, e).log == s.log {
      OtherwiseStands(s, e);
      OtherwiseKeeps(s, After(s, e), e.thread);
    } else {
      match s.threads[e.thread]
      case PutInQueue(_) => TakeKeeps(s, e.thread);
      case PutInPool(_, _) => InstallKeeps(s, e.thread);
      case DelInPool(_) => RemoveKeeps(s, e.thread);
      case DelInQueue(_) => GiveKeeps(s, e.thread);
    }
  }

  /** Thread `t` has gone on, and now writes or reads under the lock, or neither. */
  ghost predicate LockStep(l: Lock, l': Lock, t: nat, writes: bool, looks: bool) {
    && (forall u: nat :: u in l'.writers <==> if u == t then writes else u in l.writers)
    && (forall u: nat :: u in l'.readers <==> if u == t then looks else u in l.readers)
    && (writes ==> !looks && (t in l.writers || l.OpenToWriter()))
    && (looks ==> t in l.readers || l.OpenToReader())
  }

  lemma LockOperations(l: Lock, t: nat)
    ensures l.OpenToWriter() ==> LockStep(l, l.Write(t), t, true, false)
    ensures l.OpenToReader() ==> LockStep(l, l.Read(t), t, false, true)
    ensures LockStep(l, l.Release(t), t, false, false)
    ensures !(t in l.writers && t in l.readers) ==> LockStep(l, l, t, t in l.writers, t in l.readers)
  {
  }

  lemma OneThreadMoves(l: Lock, l': Lock, threads: seq<Phase>, t: nat, p: Phase,
                       writes: Phase -> bool, looks: Phase -> bool)
    requires Guards(l, threads, writes, looks) && t < |threads| && LockStep(l, l', t, writes(p), looks(p))
    ensures Guards(l', threads[t := p], writes, looks)
  {
  }

  lemma StepKeepsQueueLock(s: Pool, e: Step)
    requires QueueGuarded(s) && Allowed(s, e)
    ensures QueueGuarded(After(s, e))
  {
    var s', t := After(s, e), e.thread;
    QueueLockMoves(s, e);
    OneThreadMoves(s.queueLock, s'.queueLock, s.threads, t, s'.threads[t],
                   p => WritesQueue(p), (p: Phase) => p.FullInQueue?);
  }

  lemma QueueLockMoves(s: Pool, e: Step)
    requires QueueGuarded(s) && Allowed(s, e)
    ensures var s', t := After(s, e), e.thread;
            LockStep(s.queueLock, s'.queueLock, t, WritesQueue(s'.threads[t]), s'.threads[t].FullInQueue?)
  {
    assert e.thread in s.queueLock.writers <==> WritesQueue(s.threads[e.thread]);
    assert e.thread in s.queueLock.readers <==> s.threads[e.thread].FullInQueue?;
    LockOperations(s.queueLock, e.thread);
  }

  lemma StepKeepsPoolLock(s: Pool, e: Step)
    requires PoolGuarded(s) && Allowed(s, e)
    ensures PoolGuarded(After(s, e))
  {
    var s', t := After(s, e), e.thread;
    PoolLockMoves(s, e);
    OneThreadMoves(s.poolLock, s'.poolLock, s.threads, t, s'.threads[t],
                   p => WritesPool(p), (p: Phase) => p.ReadInPool?);
  }

  lemma PoolLockMoves(s: Pool, e: Step)
    requires PoolGuarded(s) && Allowed(s, e)
    ensures var s', t := After(s, e), e.thread;
            LockStep(s.poolLock, s'.poolLock, t, WritesPool(s'.threads[t]), s'.threads[t].ReadInPool?)
  {
    assert e.thread in s.poolLock.writers <==> WritesPool(s.threads[e.thread]);
    assert e.thread in s.poolLock.readers <==> s.threads[e.thread].ReadInPool?;
    LockOperations(s.poolLock, e.thread);
  }

  // ----- counting

  function InHand(p: Phase): nat { if p.PutAtPool? || p.PutInPool? || p.DelAtQueue? || p.DelInQueue? then 1 else 0 }

  function Waits(p: Phase): nat { if p.PutAtQueue? || p.PutInQueue? then 1 else 0 }

  /** No index is lost and none is made. */
  ghost predicate AllCounted(s: Pool) {
    |s.free| + |s.slots| + Sum(s.threads, InHand) == s.size
  }

  lemma InstallCounts(s: Pool, t: nat)
    requires Partitioned(s) && t < |s.threads| && s.threads[t].PutInPool?
    ensures |Moved(s, t).slots| == |s.slots| + 1
  {
    var s', i := Moved(s, t), s.threads[t].index;
    Carrier(s, t, i);
    assert InItsPlace(s, i) && s'.slots.Keys == s.slots.Keys + {i};
  }

  lemma RemoveCounts(s: Pool, t: nat)
    requires t < |s.threads| && s.threads[t].DelInPool? && s.threads[t].index in s.slots
    ensures |Moved(s, t).slots| == |s.slots| - 1
  {
    var s', i := Moved(s, t), s.threads[t].index;
    assert s.slots.Keys == s'.slots.Keys + {i};
  }

  lemma StepKeepsCount(s: Pool, e: Step)
    requires Partitioned(s) && AllCounted(s) && Allowed(s, e)
    ensures AllCounted(After(s, e))
  {
    var s', t := After(s, e), e.thread;
    SumUpdated(s.threads, InHand, t, s'.threads[t]);
    if e.Move? && s.threads[t].PutInPool? {
      InstallCounts(s, t);
    } else if e.Move? && s.threads[t].DelInPool? && s.threads[t].index in s.slots {
      RemoveCounts(s, t);
    }
  }

  // ----- order

  /** The indices taken from the queue, and all that were ever in it. */
  function HandedOut(log: seq<Deed>): seq<nat> {
    if log == [] then []
    else
      var d := log[|log| - 1];
      HandedOut(log[..|log| - 1]) + if d.Take? then [d.index] else []
  }

  function Queued(size: nat, log: seq<Deed>): seq<nat> {
    if log == [] then AllIndices(size)
    else
      var d := log[|log| - 1];
      Queued(size, log[..|log| - 1]) + if d.Give? then [d.index] else []
  }

  /** Indices leave the queue in the order in which they entered it. */
  ghost predicate FirstInFirstOut(size: nat, log: seq<Deed>, free: seq<nat>) {
    var n, q := |HandedOut(log)|, Queued(size, log);
    n <= |q| && HandedOut(log) == q[..n] && free == q[n..]
  }

  /** One deed, and what it does to the queue. */
  predicate QueueAfter(d: Deed, free: seq<nat>, free': seq<nat>) {
    match d
    case Take(i) => free != [] && i == free[0] && free' == free[1..]
    case Give(i) => free' == free + [i]
    case _ => free' == free
  }

  /** What a step does to the history and the queue: nothing, or one deed. */
  ghost predicate OneDeed(log: seq<Deed>, log': seq<Deed>, free: seq<nat>, free': seq<nat>) {
    || (log' == log && free' == free)
    || (|log'| == |log| + 1 && log'[..|log|] == log && QueueAfter(log'[|log|], free, free'))
  }

  lemma StepIsDeed(s: Pool, e: Step)
    requires Allowed(s, e)
    ensures OneDeed(s.log, After(s, e).log, s.free, After(s, e).free)
  {
  }

  lemma DeedKeepsOrder(size: nat, log: seq<Deed>, log': seq<Deed>, free: seq<nat>, free': seq<nat>)
    requires FirstInFirstOut(size, log, free) && OneDeed(log, log', free, free')
    ensures FirstInFirstOut(size, log', free')
  {
  }

  lemma StepKeepsOrder(s: Pool, e: Step)
    requires FirstInFirstOut(s.size, s.log, s.free) && Allowed(s, e)
    ensures var s' := After(s, e); FirstInFirstOut(s'.size, s'.log, s'.free)
  {
    StepIsDeed(s, e);
    DeedKeepsOrder(s.size, s.log, After(s, e).log, s.free, After(s, e).free);
  }

  // ----- every interleaving

  ghost predicate Sound(s: Pool) {
    Partitioned(s) && QueueGuarded(s) && PoolGuarded(s) && AllCounted(s) && FirstInFirstOut(s.size, s.log, s.free)
  }

  lemma FreshIsSound(size: nat, n: nat)
    ensures Sound(Fresh(size, n))
    ensures var s := Fresh(size, n);
            && |s.free| == size && (forall i | 0 <= i < size :: s.free[i] == i)
            && s.slots == map[] && |s.threads| == n && forall p | p in s.threads :: p == Idle
  {
    var s := Fresh(size, n);
    SumNone(s.threads, InHand);
    forall i: nat | i < size ensures InItsPlace(s, i) {
      assert s.free[i] == i;
    }
  }

  lemma StepKeepsSound(s: Pool, e: Step)
    requires Sound(s) && Allowed(s, e)
    ensures Sound(After(s, e))
  {
    StepKeepsPartition(s, e);
    StepKeepsQueueLock(s, e);
    StepKeepsPoolLock(s, e);
    StepKeepsCount(s, e);
    StepKeepsOrder(s, e);
  }

  lemma {:induction false} StepsKeepSound(s: Pool, es: seq<Step>, s': Pool)
    requires Sound(s) && Leads(s, es, s')
    ensures Sound(s') && s'.size == s.size
    decreases |es|
  {
    if es != [] {
      StepKeepsSound(s, es[0]);
      StepsKeepSound(After(s, es[0]), es[1..], s');
    }
  }

  /** However `n` threads interleave from the constructor on. */
  lemma EveryInterleaving(size: nat, n: nat, es: seq<Step>, s: Pool)
    requires Leads(Fresh(size, n), es, s)
    ensures Partitioned(s) && QueueGuarded(s) && PoolGuarded(s) && AllCounted(s)
    ensures FirstInFirstOut(size, s.log, s.free)
  {
    FreshIsSound(size, n);
    StepsKeepSound(Fresh(size, n), es, s);
  }

  /** What a step does to the queue and the table, wherever the other threads are. */
  lemma StepEffects(s: Pool, t: nat)
    requires t < |s.threads| && CanMove(s, t)
    ensures var s', p := Moved(s, t), s.threads[t];
            && (p.PutInQueue? ==> s.free == [s.free[0]] + s'.free && s'.slots == s.slots
                                  && s'.threads[t] == PutAtPool(p.task, s.free[0]))
            && (p.PutInPool? ==> s'.slots == s.slots[p.index := p.task] && s'.free == s.free && s'.threads[t] == Idle)
            && (p.DelInPool? && p.index in s.slots ==>
                  s'.slots == s.slots - {p.index} && s'.free == s.free && s'.threads[t] == DelAtQueue(p.index))
            && (p.DelInPool? && p.index !in s.slots ==>
                  s'.slots == s.slots && s'.free == s.free && s'.threads[t] == Idle)
            && (p.DelInQueue? ==> s'.free == s.free + [p.index] && s'.slots == s.slots && s'.threads[t] == Idle)
            && (!p.PutInQueue? && !p.PutInPool? && !p.DelInPool? && !p.DelInQueue? ==>
                  s'.slots == s.slots && s'.free == s.free)
  {
  }

  ghost predicate NobodyInside(s: Pool) {
    s.queueLock == Lock({}, {}) && s.poolLock == Lock({}, {})
  }

  /** `PutTask` with nobody in its way: the front index leaves the queue, and the task is in
      its slot. */
  lemma PutAlone(s: Pool, t: nat, x: nat)
    requires NobodyInside(s) && t < |s.threads| && s.threads[t] == Idle && s.free != []
    ensures Leads(s, [Call(t, PutAtQueue(x)), Move(t), Move(t), Move(t), Move(t)],
                  s.(free := s.free[1..], slots := s.slots[s.free[0] := x],
                     log := s.log + [Take(s.free[0])] + [Install(s.free[0], x)]))
  {
    var s1 := After(s, Call(t, PutAtQueue(x)));
    var s2 := After(s1, Move(t));
    var s3 := After(s2, Move(t));
    var s4 := After(s3, Move(t));
    var s5 := After(s4, Move(t));
    assert s3.queueLock == Lock({}, {}) && s5.poolLock == Lock({}, {});
    assert s5.threads == s.threads;
    FiveSteps(s, s1, s2, s3, s4, s5, Call(t, PutAtQueue(x)), Move(t), Move(t), Move(t), Move(t));
  }

  /** `DelTask` with nobody in its way: an occupied slot is emptied and its index goes to
      the back of the queue; an empty one stays as it is. */
  lemma DelAlone(s: Pool, t: nat, i: nat)
    requires NobodyInside(s) && t < |s.threads| && s.threads[t] == Idle && i < s.size
    ensures i in s.slots ==>
              Leads(s, [Call(t, DelAtPool(i)), Move(t), Move(t), Move(t), Move(t)],
                    s.(free := s.free + [i], slots := s.slots - {i},
                       log := s.log + [Remove(i, s.slots[i])] + [Give(i)]))
    ensures i !in s.slots ==> Leads(s, [Call(t, DelAtPool(i)), Move(t), Move(t)], s)
  {
    var s1 := After(s, Call(t, DelAtPool(i)));
    var s2 := After(s1, Move(t));
    var s3 := After(s2, Move(t));
    if i in s.slots {
      var s4 := After(s3, Move(t));
      var s5 := After(s4, Move(t));
      assert s5.queueLock == Lock({}, {}) && s5.poolLock == Lock({}, {});
      assert s5.threads == s.threads;
      FiveSteps(s, s1, s2, s3, s4, s5, Call(t, DelAtPool(i)), Move(t), Move(t), Move(t), Move(t));
    } else {
      assert s3.poolLock == Lock({}, {}) && s3.threads == s.threads;
      ThreeSteps(s, s1, s2, s3, Call(t, DelAtPool(i)), Move(t), Move(t));
    }
  }

  /** `GetTask`, `HasTask` and `IsFull` leave everything as it was. */
  lemma LookAlone(s: Pool, t: nat, p: Phase)
    requires NobodyInside(s) && t < |s.threads| && s.threads[t] == Idle
    requires (p.ReadAtPool? && p.index < s.size) || p.FullAtQueue?
    ensures Leads(s, [Call(t, p), Move(t), Move(t)], s)
  {
    var s1 := After(s, Call(t, p));
    var s2 := After(s1, Move(t));
    var s3 := After(s2, Move(t));
    assert s3.queueLock == Lock({}, {}) && s3.poolLock == Lock({}, {}) && s3.threads == s.threads;
    ThreeSteps(s, s1, s2, s3, Call(t, p), Move(t), Move(t));
  }

  lemma ThreeSteps(s: Pool, s1: Pool, s2: Pool, s3: Pool, a: Step, b: Step, c: Step)
    requires Allowed(s, a) && After(s, a) == s1 && Allowed(s1, b) && After(s1, b) == s2
    requires Allowed(s2, c) && After(s2, c) == s3
    ensures Leads(s, [a, b, c], s3)
  {
    assert [a, b, c][1..] == [b, c] && [b, c][1..] == [c] && [c][1..] == [];
    assert Leads(s2, [c], s3);
    assert Leads(s1, [b, c], s3);
  }

  lemma FiveSteps(s: Pool, s1: Pool, s2: Pool, s3: Pool, s4: Pool, s5: Pool,
                  a: Step, b: Step, c: Step, d: Step, e: Step)
    requires Allowed(s, a) && After(s, a) == s1 && Allowed(s1, b) && After(s1, b) == s2
    requires Allowed(s2, c) && After(s2, c) == s3 && Allowed(s3, d) && After(s3, d) == s4
    requires Allowed(s4, e) && After(s4, e) == s5
    ensures Leads(s, [a, b, c, d, e], s5)
  {
    ThreeSteps(s2, s3, s4, s5, c, d, e);
    assert [a, b, c, d, e][1..] == [b, c, d, e] && [b, c, d, e][1..] == [c, d, e];
    assert Leads(s1, [b, c, d, e], s5);
  }

  /** Who is inside a critical section keeps out whom the locks should. */
  lemma SectionsExclude(s: Pool, t: nat, u: nat)
    requires QueueGuarded(s) && PoolGuarded(s) && t < |s.threads| && u < |s.threads| && t != u
    ensures s.threads[t].PutInQueue? || s.threads[t].DelInQueue? ==>
              !s.threads[u].PutInQueue? && !s.threads[u].DelInQueue? && !s.threads[u].FullInQueue?
    ensures s.threads[t].PutInPool? || s.threads[t].DelInPool? || s.threads[t].DelAtQueue? || s.threads[t].DelInQueue?
            ==> !s.threads[u].PutInPool? && !s.threads[u].DelInPool? && !s.threads[u].DelAtQueue?
                && !s.threads[u].DelInQueue? && !s.threads[u].ReadInPool?
  {
    assert t in s.queueLock.writers <==> WritesQueue(s.threads[t]);
    assert u in s.queueLock.writers <==> WritesQueue(s.threads[u]);
    assert t in s.poolLock.writers <==> WritesPool(s.threads[t]);
    assert u in s.poolLock.writers <==> WritesPool(s.threads[u]);
  }

  /** And nobody else: a waiting thread moves as soon as those it must not meet are out, and
      readers share. */
  lemma SectionsAdmit(s: Pool, t: nat)
    requires QueueGuarded(s) && PoolGuarded(s) && t < |s.threads|
    ensures s.threads[t].PutAtQueue? || s.threads[t].DelAtQueue? ==>
              (CanMove(s, t) <==> forall p | p in s.threads :: !p.PutInQueue? && !p.DelInQueue? && !p.FullInQueue?)
    ensures s.threads[t].FullAtQueue? ==>
              (CanMove(s, t) <==> forall p | p in s.threads :: !p.PutInQueue? && !p.DelInQueue?)
    ensures s.threads[t].PutAtPool? || s.threads[t].DelAtPool? ==>
              (CanMove(s, t) <==> forall p | p in s.threads :: !WritesPool(p) && !p.ReadInPool?)
    ensures s.threads[t].ReadAtPool? ==> (CanMove(s, t) <==> forall p | p in s.threads :: !WritesPool(p))
  {
    LockOpen(s.queueLock, s.threads, p => WritesQueue(p), (p: Phase) => p.FullInQueue?);
    LockOpen(s.poolLock, s.threads, p => WritesPool(p), (p: Phase) => p.ReadInPool?);
  }

  /** While a thread reads a slot the table does not change under it. */
  lemma ReaderSeesOneTable(s: Pool, t: nat, e: Step)
    requires PoolGuarded(s) && t < |s.threads| && s.threads[t].ReadInPool? && Allowed(s, e)
    ensures After(s, e).slots == s.slots
  {
    assert t in s.poolLock.readers;
    assert e.thread in s.poolLock.writers <==> WritesPool(s.threads[e.thread]);
  }

  lemma LockOpen(l: Lock, threads: seq<Phase>, writes: Phase -> bool, looks: Phase -> bool)
    requires Guards(l, threads, writes, looks)
    ensures l.OpenToWriter() <==> forall p | p in threads :: !writes(p) && !looks(p)
    ensures l.OpenToReader() <==> forall p | p in threads :: !writes(p)
  {
    if t :| t in l.writers { assert threads[t] in threads; }
    if t :| t in l.readers { assert threads[t] in threads; }
  }

  /** The assignment in `PutTask` finds the slot empty, and nobody else holds its index. */
  lemma InstallOverwritesNothing(s: Pool, t: nat)
    requires Sound(s) && t < |s.threads| && s.threads[t].PutInPool?
    ensures var i := s.threads[t].index; i !in s.slots && i !in s.free && CarriedOnlyBy(s, i, t)
  {
    Carrier(s, t, s.threads[t].index);
    assert InItsPlace(s, s.threads[t].index);
  }

  /** When no call is in progress, the pool is as one caller at a time would leave it. */
  lemma QuietMeansExact(s: Pool)
    requires Sound(s) && forall t | 0 <= t < |s.threads| :: s.threads[t] == Idle
    ensures Distinct(s.free) && forall i: nat :: i in s.free <==> i < s.size && i !in s.slots
  {
    forall i: nat | i < s.size ensures i in s.free <==> i !in s.slots {
      assert InItsPlace(s, i);
    }
  }

  /** The tasks that were stored under an index, and those that were removed from it. */
  function Stored(log: seq<Deed>, i: nat): seq<nat> {
    if log == [] then []
    else
      var d := log[|log| - 1];
      Stored(log[..|log| - 1], i) + if d.Install? && d.index == i then [d.task] else []
  }

  function Cleared(log: seq<Deed>, i: nat): seq<nat> {
    if log == [] then []
    else
      var d := log[|log| - 1];
      Cleared(log[..|log| - 1], i) + if d.Remove? && d.index == i then [d.task] else []
  }

  /** However deletions race, every task is removed once, in the order of storing; only
      the one in the slot is outstanding. */
  lemma {:induction false} RemovedOnce(log: seq<Deed>, i: nat)
    requires !StageOf(log, i).Broken?
    ensures Stored(log, i) == Cleared(log, i) + if StageOf(log, i).Live? then [StageOf(log, i).task] else []
    decreases |log|
  {
    if log != [] {
      RemovedOnce(log[..|log| - 1], i);
    }
  }

  // ----- an index for every caller

  /** The indices that calls of `PutTask` have claimed, or soon will. */
  function Demand(s: Pool): nat {
    Sum(s.threads, Waits) + |s.slots| + Sum(s.threads, InHand)
  }

  /** A run in which `PutTask` is called only when not all indices are claimed. */
  predicate LeadsWithRoom(s: Pool, es: seq<Step>, s': Pool)
    decreases |es|
  {
    if es == [] then s' == s
    else
      && Allowed(s, es[0])
      && (es[0].Call? && es[0].phase.PutAtQueue? ==> Demand(s) < s.size)
      && LeadsWithRoom(After(s, es[0]), es[1..], s')
  }

  lemma OneIndexPerWaiter(s: Pool, e: Step)
    requires Allowed(s, e)
    ensures var s' := After(s, e);
            |s'.free| + Waits(s.threads[e.thread]) + (if e.Call? && e.phase.PutAtQueue? then 1 else 0)
            >= |s.free| + Waits(s'.threads[e.thread])
  {
  }

  lemma StepKeepsRoom(s: Pool, e: Step)
    requires Sound(s) && Allowed(s, e) && Demand(s) <= s.size
    requires e.Call? && e.phase.PutAtQueue? ==> Demand(s) < s.size
    ensures Demand(After(s, e)) <= s.size == After(s, e).size
  {
    var s', t := After(s, e), e.thread;
    StepKeepsCount(s, e);
    SumUpdated(s.threads, Waits, t, s'.threads[t]);
    OneIndexPerWaiter(s, e);
    assert s'.size == s.size && |s'.threads| == |s.threads|;
  }

  /** In such a run no call of `PutTask` meets an empty queue. */
  lemma {:induction false} FrontExists(s: Pool, es: seq<Step>, s': Pool)
    requires Sound(s) && Demand(s) <= s.size && LeadsWithRoom(s, es, s')
    ensures Sound(s') && Demand(s') <= s'.size
    ensures forall t | 0 <= t < |s'.threads| && s'.threads[t].PutInQueue? :: s'.free != []
    decreases |es|
  {
    if es != [] {
      StepKeepsSound(s, es[0]);
      StepKeepsRoom(s, es[0]);
      FrontExists(After(s, es[0]), es[1..], s');
    } else {
      forall t | 0 <= t < |s.threads| && s.threads[t].PutInQueue? ensures s.free != [] {
        SumCovers(s.threads, Waits, t);
      }
    }
  }

  // ----- every call returns

  /** Steps a call has still to make. */
  function Effort(p: Phase): nat {
    match p
    case Idle => 0
    case PutAtQueue(_) => 4
    case PutInQueue(_) => 3
    case PutAtPool(_, _) => 2
    case PutInPool(_, _) => 1
    case DelAtPool(_) => 4
    case DelInPool(_) => 3
    case DelAtQueue(_) => 2
    case DelInQueue(_) => 1
    case ReadAtPool(_) => 2
    case ReadInPool(_) => 1
    case FullAtQueue => 2
    case FullInQueue => 1
  }

  function Remaining(s: Pool): nat { Sum(s.threads, Effort) }

  lemma MoveDescends(s: Pool, t: nat)
    requires t < |s.threads| && CanMove(s, t)
    ensures Remaining(Moved(s, t)) < Remaining(s)
  {
    SumUpdated(s.threads, Effort, t, Moved(s, t).threads[t]);
  }

  /** Where some call is in progress some thread can move, unless one is looking at the
      front of an empty queue: deletions take the locks in one order, and nothing else
      holds two. */
  lemma NoDeadlock(s: Pool, t: nat)
    requires QueueGuarded(s) && PoolGuarded(s) && t < |s.threads| && s.threads[t] != Idle
    ensures exists u: nat :: u < |s.threads| && (CanMove(s, u) || s.threads[u].PutInQueue?)
  {
    if q: nat :| q < |s.threads| && (WritesQueue(s.threads[q]) || s.threads[q].FullInQueue?) {
      assert CanMove(s, q) || s.threads[q].PutInQueue?;
    } else {
      assert s.queueLock.OpenToWriter();
      if p: nat :| p < |s.threads| && (WritesPool(s.threads[p]) || s.threads[p].ReadInPool?) {
        assert CanMove(s, p);
      } else {
        assert s.poolLock.OpenToWriter();
        assert CanMove(s, t);
      }
    }
  }

  lemma SomeoneMoves(s: Pool, t: nat)
    requires Sound(s) && Demand(s) <= s.size && t < |s.threads| && s.threads[t] != Idle
    ensures exists u: nat :: u < |s.threads| && CanMove(s, u)
  {
    FrontExists(s, [], s);
    NoDeadlock(s, t);
    var u: nat :| u < |s.threads| && (CanMove(s, u) || s.threads[u].PutInQueue?);
    assert CanMove(s, u);
  }

  /** Once no more calls are made, a bounded number of steps is left, and when no thread
      can move any more every call has returned. */
  lemma {:induction false} CallsReturn(s: Pool, es: seq<Step>, s': Pool)
    requires Sound(s) && Demand(s) <= s.size && Leads(s, es, s')
    requires forall k | 0 <= k < |es| :: es[k].Move?
    ensures |es| <= Remaining(s)
    ensures (forall t: nat | t < |s'.threads| :: !CanMove(s', t)) ==>
              forall t | 0 <= t < |s'.threads| :: s'.threads[t] == Idle
    decreases |es|
  {
    if es == [] {
      if t: nat :| t < |s.threads| && s.threads[t] != Idle {
        SomeoneMoves(s, t);
      }
    } else {
      assert es[0].Move?;
      StepKeepsSound(s, es[0]);
      StepKeepsRoom(s, es[0]);
      MoveDescends(s, es[0].thread);
      CallsReturn(After(s, es[0]), es[1..], s');
    }
  }
}
