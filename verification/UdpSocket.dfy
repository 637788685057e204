/** `UdpSocket`: datagrams the kernel refuses are queued and offered again later. */
module UdpSockets {
  import opened Bytes

  datatype Datagram = Datagram(address: nat, data: Octets)

  class UdpSocket {
    var sendQueue: seq<Datagram>
    /** Every datagram passed to `SendTo`, and those the kernel has taken. */
    ghost var handed: seq<Datagram>
    ghost var sent: multiset<Datagram>

    ghost predicate Valid()
      reads this
    {
      multiset(handed) == sent + multiset(sendQueue)
    }

    constructor ()
      ensures Valid() && handed == []
    {
      sendQueue, handed, sent := [], [], multiset{};
    }

    /** `SendTo(addr, data)`; `taken` says that the kernel takes the datagram. The result
        says that it had to be queued. */
    method SendTo(address: nat, data: Octets, taken: bool) returns (queued: bool)
      requires Valid()
      modifies this
      ensures Valid() && handed == old(handed) + [Datagram(address, data)]
      ensures queued == !taken
      ensures taken ==> sendQueue == old(sendQueue) && sent == old(sent) + multiset{Datagram(address, data)}
      ensures !taken ==> sendQueue == old(sendQueue) + [Datagram(address, data)] && sent == old(sent)
    {
      var d := Datagram(address, data);
      handed := handed + [d];
      if taken {
        sent := sent + multiset{d};
        return false;
      }
      sendQueue := sendQueue + [d];
      return true;
    }

    /** `SendTo()`; the kernel takes `n` datagrams and then refuses one, if there is one. The
        result says that some datagram is still queued. */
    method Flush(n: nat) returns (remains: bool)
      requires Valid() && n <= |sendQueue|
      modifies `sendQueue, `sent
      ensures Valid() && (remains <==> sendQueue != [])
      ensures sendQueue == old(sendQueue)[n..] && sent == old(sent) + multiset(old(sendQueue)[..n])
    {
      ghost var queue := sendQueue;
      for i := 0 to n
        invariant sendQueue == queue[i..] && sent == old(sent) + multiset(queue[..i])
      {
        assert queue[..i + 1] == queue[..i] + [queue[i]];
        sent := sent + multiset{sendQueue[0]};
        sendQueue := sendQueue[1..];
      }
      assert queue == queue[..n] + queue[n..];
      remains := sendQueue != [];
    }
  }
}
