/** `Timer` and `TimerHeap`. The inside of `std::priority_queue` is left abstract: any
    element that expires no later than the others may be on top. */
module TimerHeaps {

  class Timer {
    const expire: int
    const index: nat
    var valid: bool

    constructor (now: int, duration: int, index: nat)
      ensures expire == now + duration && this.index == index && valid
    {
      expire := now + duration;
      this.index := index;
      valid := true;
    }
  }

  predicate Earliest(t: Timer, q: multiset<Timer>) {
    t in q && forall u | u in q :: t.expire <= u.expire
  }

  lemma {:induction false} EarliestExists(q: multiset<Timer>)
    requires q != multiset{}
    ensures exists t :: Earliest(t, q)
    decreases |q|
  {
    var t :| t in q;
    var rest := q - multiset{t};
    if rest == multiset{} {
      assert forall u | u in q :: u == t by {
        forall u | u in q ensures u == t { assert u != t ==> u in rest; }
      }
      assert Earliest(t, q);
    } else {
      EarliestExists(rest);
      var e :| Earliest(e, rest);
      forall u | u in q ensures u == t || u in rest {}
      assert Earliest(if t.expire <= e.expire then t else e, q);
    }
  }

  class TimerHeap {
    var queue: multiset<Timer>

    constructor ()
      ensures queue == multiset{}
    {
      queue := multiset{};
    }

    method Push(timer: Timer)
      modifies this
      ensures queue == old(queue) + multiset{timer}
    {
      queue := queue + multiset{timer};
    }

    method Top() returns (t: Timer)
      requires queue != multiset{}
      ensures Earliest(t, queue)
    {
      EarliestExists(queue);
      t :| t in queue && Earliest(t, queue);
    }

    method Pop() returns (t: Timer)
      requires queue != multiset{}
      modifies this
      ensures Earliest(t, old(queue)) && queue == old(queue) - multiset{t}
    {
      EarliestExists(queue);
      t :| t in queue && Earliest(t, queue);
      queue := queue - multiset{t};
    }

    method Empty() returns (b: bool)
      ensures b <==> queue == multiset{}
    {
      b := queue == multiset{};
    }

    method Size() returns (n: nat)
      ensures n == |queue|
    {
      n := |queue|;
    }
  }
}
