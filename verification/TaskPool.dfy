/** `UdpTask`/`TcpTask` and `TaskPool`, used by one caller at a time. How the pool
    behaves under interleaving is the subject of `Allocator`. */
module TaskPools {
  import opened DnsPackets
  import opened Lifecycle
  import opened TimerHeaps

  /** A pending query. `number` is its place among all accepted queries. */
  class Task {
    const queryPacket: DnsPacket
    const client: Client
    var timer: Timer?
    ghost const number: nat

    constructor (packet: DnsPacket, client: Client, ghost number: nat)
      ensures queryPacket == packet && this.client == client && this.number == number
      ensures timer == null
    {
      this.queryPacket := packet;
      this.client := client;
      this.number := number;
      this.timer := null;
    }

    /** The destructor: the timer, which the heap still holds, stops being valid. */
    method Destroy()
      requires timer != null
      modifies timer
      ensures !timer.valid
    {
      timer.valid := false;
    }
  }

  class TaskPool {
    const size: nat
    var indexQueue: seq<nat>
    const pool: array<Task?>

    ghost predicate Valid()
      reads this, pool
    {
      && pool.Length == size
      && Distinct(indexQueue)
      && (forall i: nat :: i in indexQueue <==> i < size && pool[i] == null)
    }

    constructor (size: nat)
      ensures Valid() && this.size == size && fresh(pool)
      ensures indexQueue == seq(size, i => i) && forall i | 0 <= i < size :: pool[i] == null
    {
      this.size := size;
      this.pool := new Task?[size](_ => null);
      var queue: seq<nat> := [];
      for i := 0 to size
        invariant queue == seq(i, k => k)
      {
        queue := queue + [i];
      }
      this.indexQueue := queue;
      new;
      forall i: nat ensures i in indexQueue <==> i < size && pool[i] == null {
        if i < size { assert indexQueue[i] == i; }
      }
    }

    /** `PutTask`. Nothing in it checks that the queue is not empty. */
    method PutTask(task: Task, now: int) returns (index: nat)
      requires Valid() && indexQueue != []
      modifies `indexQueue, pool, task
      ensures Valid()
      ensures index == old(indexQueue)[0] && indexQueue == old(indexQueue)[1..] && index < size
      ensures old(pool[index]) == null && pool[..] == old(pool[..])[index := task]
      ensures task.timer != null && fresh(task.timer)
      ensures task.timer.expire == now + 1000 && task.timer.index == index && task.timer.valid
    {
      index := indexQueue[0];
      assert index in indexQueue;
      FrontTaken(indexQueue);
      indexQueue := indexQueue[1..];
      pool[index] := task;
      task.timer := new Timer(now, TIMEOUT, index);
    }

    method HasTask(index: nat) returns (b: bool)
      requires Valid() && index < size
      ensures b <==> pool[index] != null
    {
      b := pool[index] != null;
    }

    method GetTask(index: nat) returns (task: Task?)
      requires Valid() && index < size
      ensures task == pool[index]
    {
      task := pool[index];
    }

    method IsFull() returns (b: bool)
      requires Valid()
      ensures b <==> indexQueue == []
      ensures b <==> forall i | 0 <= i < size :: pool[i] != null
    {
      b := indexQueue == [];
      assert indexQueue != [] ==> indexQueue[0] in indexQueue;
    }

    method DelTask(index: nat)
      requires Valid() && index < size
      modifies `indexQueue, pool
      ensures Valid()
      ensures old(pool[index]) == null ==> indexQueue == old(indexQueue) && pool[..] == old(pool[..])
      ensures old(pool[index]) != null ==>
        indexQueue == old(indexQueue) + [index] && pool[..] == old(pool[..])[index := null]
    {
      if pool[index] != null {
        assert index !in indexQueue;
        pool[index] := null;
        indexQueue := indexQueue + [index];
      }
    }
  }
}
