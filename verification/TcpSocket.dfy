/** `TcpSocket`: reassembly of frames on the way in, a buffer for what the kernel
    would not take on the way out. */
module TcpSockets {
  import opened Bytes
  import opened Framing

  class TcpSocket {
    var recvBuf: Octets
    var sendBuf: Octets
    /** Whether the descriptor is registered for EPOLLOUT. */
    var writeInterest: bool

    /** Every octet received so far, and every octet handed to the caller. */
    ghost var received: Octets
    ghost var delivered: Octets
    /** Every octet passed to `Send`, and every octet the kernel has taken. */
    ghost var accepted: Octets
    ghost var taken: Octets

    ghost predicate Valid()
      reads this
    {
      && recvBuf == Remainder(received)
      && delivered == Whole(received)
      && taken + sendBuf == accepted
    }

    /** Write interest is registered exactly when something waits to be written. */
    ghost predicate Settled()
      reads this
    {
      writeInterest <==> sendBuf != []
    }

    constructor ()
      ensures Valid() && Settled()
      ensures received == delivered == accepted == taken == []
    {
      recvBuf, sendBuf, writeInterest := [], [], false;
      received, delivered, accepted, taken := [], [], [], [];
    }

    /** What `Receive` leaves: everything received, and in the buffer the part of it that
        is no whole frame. */
    twostate predicate Received(chunk: Octets)
      reads this
    {
      && received == old(received) + chunk
      && recvBuf == Remainder(old(recvBuf) + chunk)
    }

    /** `Receive`, where `chunk` is what the kernel returned. */
    method Receive(chunk: Octets) returns (data: Octets)
      requires Valid()
      modifies `recvBuf, `received, `delivered
      ensures Valid() && Received(chunk)
      ensures delivered == old(delivered) + data
      ensures data == Whole(old(recvBuf) + chunk)
      ensures Payloads(received) == Payloads(old(received)) + Payloads(old(recvBuf) + chunk)
    {
      Reassembled(received, chunk);
      ghost var buf := recvBuf + chunk;
      received, delivered := received + chunk, delivered + Whole(buf);
      if chunk != [] {
        recvBuf := recvBuf + chunk;
      }
      assert recvBuf == buf;
      data := TakeWhole();
    }

    /** The end of `Receive`: the whole frames leave the buffer. */
    method TakeWhole() returns (data: Octets)
      modifies `recvBuf
      ensures data == Whole(old(recvBuf)) && recvBuf == Remainder(old(recvBuf))
    {
      data := [];
      if recvBuf == [] {
        return;
      }
      var n := WholeLength(recvBuf);
      if n != 0 {
        data := recvBuf[..n];
        recvBuf := recvBuf[n..];
      }
    }

    /** `Send(data)`; `n` octets of it are what the kernel takes, if it is asked. The result
        says that write interest is now needed. */
    method SendData(data: Octets, n: nat) returns (register: bool)
      requires Valid() && n <= |data|
      modifies `sendBuf, `accepted, `taken
      ensures Valid() && accepted == old(accepted) + data
      ensures old(sendBuf) == [] ==> taken == old(taken) + data[..n] && sendBuf == data[n..]
      ensures old(sendBuf) != [] ==> taken == old(taken) && sendBuf == old(sendBuf) + data
      ensures register <==> old(sendBuf) == [] && sendBuf != []
    {
      accepted := accepted + data;
      if sendBuf != [] {
        Regroup(taken, sendBuf, data);
        sendBuf := sendBuf + data;
        return false;
      }
      taken := taken + data[..n];
      Regroup(old(taken), data[..n], data[n..]);
      assert data[..n] + data[n..] == data;
      if n < |data| {
        sendBuf := sendBuf + data[n..];
        return true;
      }
      return false;
    }

    /** `Send()`: offer the buffer to the kernel, which takes `n` octets. The result says
        that some remain. */
    method SendBuffered(n: nat) returns (remains: bool)
      requires Valid() && n <= |sendBuf|
      modifies `sendBuf, `taken
      ensures Valid() && taken == old(taken) + old(sendBuf)[..n] && sendBuf == old(sendBuf)[n..]
      ensures remains <==> sendBuf != []
    {
      Regroup(taken, sendBuf[..n], sendBuf[n..]);
      assert sendBuf[..n] + sendBuf[n..] == sendBuf;
      taken := taken + sendBuf[..n];
      sendBuf := sendBuf[n..];
      remains := sendBuf != [];
    }

    /** What every handler does to send: `Send(data)`, then `EpollModFd` if told to. */
    method Post(data: Octets, n: nat)
      requires Valid() && Settled() && n <= |data|
      modifies `sendBuf, `accepted, `taken, `writeInterest
      ensures Valid() && Settled() && accepted == old(accepted) + data
      ensures taken == old(taken) + if old(sendBuf) == [] then data[..n] else []
    {
      var register := SendData(data, n);
      if register {
        writeInterest := true;
      }
    }

    /** The EPOLLOUT branch of the event loop. */
    method Flush(n: nat)
      requires Valid() && Settled() && writeInterest && n <= |sendBuf|
      modifies `sendBuf, `taken, `writeInterest
      ensures Valid() && Settled()
      ensures taken == old(taken) + old(sendBuf)[..n] && sendBuf == old(sendBuf)[n..]
    {
      var remains := SendBuffered(n);
      if !remains {
        writeInterest := false;
      }
    }
  }

  /** What a chunk adds to a stream whose remainder is in the buffer. */
  lemma Reassembled(received: Octets, chunk: Octets)
    ensures var buf := Remainder(received) + chunk;
            && Remainder(received + chunk) == Remainder(buf)
            && Whole(received + chunk) == Whole(received) + Whole(buf)
            && Payloads(received + chunk) == Payloads(received) + Payloads(buf)
  {
    FramingContinues(received, chunk);
  }

  /** The scan of `Receive`: how far the whole frames reach. */
  method WholeLength(buf: Octets) returns (n: nat)
    ensures n <= |buf| && Whole(buf) == buf[..n] && Remainder(buf) == buf[n..]
  {
    n := 0;
    while true
      invariant n <= |buf| && Remainder(buf[..n]) == [] && Whole(buf[..n]) == buf[..n]
      decreases |buf| - n
    {
      // With one octet left the program reads one past the end of its buffer.
      var next: Byte :| 0 <= next < 0x100;
      if n + 1 < |buf| {
        next := buf[n + 1];
      }
      FrameAt(buf, n);
      if !(n < |buf| && n + 0x100 * (buf[n] as int) + next + 2 <= |buf|) {
        break;
      }
      var m := n + 0x100 * (buf[n] as int) + next + 2;
      NextFrame(buf, n, m);
      n := m;
    }
    FrameAt(buf, n);
    WholeUpTo(buf, n);
  }

  lemma WholeUpTo(buf: Octets, n: nat)
    requires n <= |buf| && Remainder(buf[..n]) == [] && Whole(buf[..n]) == buf[..n]
    requires !Ready(buf[n..])
    ensures Whole(buf) == buf[..n] && Remainder(buf) == buf[n..]
  {
    FramingContinues(buf[..n], buf[n..]);
    assert buf[..n] + buf[n..] == buf;
    assert [] + buf[n..] == buf[n..];
  }

  /** What any series of `Receive` calls returns, starting with `buf` in the buffer. */
  function Returned(buf: Octets, chunks: seq<Octets>): seq<Octets>
    decreases |chunks|
  {
    if chunks == [] then []
    else [Whole(buf + chunks[0])] + Returned(Remainder(buf + chunks[0]), chunks[1..])
  }

  function Left(buf: Octets, chunks: seq<Octets>): Octets
    decreases |chunks|
  {
    if chunks == [] then buf else Left(Remainder(buf + chunks[0]), chunks[1..])
  }

  function Joined(ss: seq<Octets>): Octets {
    if ss == [] then [] else ss[0] + Joined(ss[1..])
  }

  function AllPayloads(ss: seq<Octets>): seq<Octets> {
    if ss == [] then [] else Payloads(ss[0]) + AllPayloads(ss[1..])
  }

  /** However a stream is cut into chunks, the calls return the frames of the whole
      stream, in order, and keep what a single call would have kept. */
  lemma {:induction false} ChunksDoNotMatter(buf: Octets, chunks: seq<Octets>)
    requires !Ready(buf)
    ensures var outs := Returned(buf, chunks);
            && AllPayloads(outs) == Payloads(buf + Joined(chunks))
            && Joined(outs) == Whole(buf + Joined(chunks))
            && Left(buf, chunks) == Remainder(buf + Joined(chunks))
            && forall o | o in outs :: Remainder(o) == []
    decreases |chunks|
  {
    if chunks == [] {
      assert buf + [] == buf;
    } else {
      var s, rest := buf + chunks[0], Joined(chunks[1..]);
      ChunksDoNotMatter(Remainder(s), chunks[1..]);
      FramingContinues(s, rest);
      WholeIsWhole(s);
      Regroup(buf, chunks[0], rest);
      assert Returned(buf, chunks)[1..] == Returned(Remainder(s), chunks[1..]);
    }
  }
}
