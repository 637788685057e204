/** Messages on a byte stream: each is preceded by its length in two octets
    (section 4.2.2 of RFC 1035). */
module Framing {
  import opened Bytes

  /** The stream starts with a whole frame. */
  predicate Ready(s: Octets) {
    |s| >= 2 && 2 + GetU16(s) <= |s|
  }

  function FrameSize(s: Octets): nat
    requires |s| >= 2
  {
    2 + GetU16(s)
  }

  /** The bodies of the whole frames that the stream starts with. */
  function Payloads(s: Octets): seq<Octets>
    decreases |s|
  {
    if Ready(s) then [s[2..FrameSize(s)]] + Payloads(s[FrameSize(s)..]) else []
  }

  /** What follows them: it holds no whole frame. */
  function Remainder(s: Octets): (r: Octets)
    ensures !Ready(r) && |r| <= |s|
    decreases |s|
  {
    if Ready(s) then Remainder(s[FrameSize(s)..]) else s
  }

  /** The whole frames themselves, prefixes included. */
  function Whole(s: Octets): (w: Octets)
    ensures w + Remainder(s) == s
    decreases |s|
  {
    if Ready(s) then
      var n := FrameSize(s);
      Cut(s, n);
      Regroup(s[..n], Whole(s[n..]), Remainder(s[n..]));
      s[..n] + Whole(s[n..])
    else []
  }

  /** The other direction: bodies put on the wire. */
  function Framed(ps: seq<Octets>): Octets
    requires forall p | p in ps :: |p| < 0x1_0000
  {
    if ps == [] then [] else PutU16(|ps[0]|) + ps[0] + Framed(ps[1..])
  }

  lemma ReadyGrows(s: Octets, t: Octets)
    requires Ready(s)
    ensures Ready(s + t) && FrameSize(s + t) == FrameSize(s)
    ensures (s + t)[2..FrameSize(s)] == s[2..FrameSize(s)]
    ensures (s + t)[..FrameSize(s)] == s[..FrameSize(s)]
    ensures (s + t)[FrameSize(s)..] == s[FrameSize(s)..] + t
  {
  }

  /** Framing a longer stream continues where framing the shorter one stopped. */
  lemma {:induction false} FramingContinues(s: Octets, t: Octets)
    ensures Payloads(s + t) == Payloads(s) + Payloads(Remainder(s) + t)
    ensures Remainder(s + t) == Remainder(Remainder(s) + t)
    ensures Whole(s + t) == Whole(s) + Whole(Remainder(s) + t)
    decreases |s|
  {
    if Ready(s) {
      var n := FrameSize(s);
      ReadyGrows(s, t);
      FramingContinues(s[n..], t);
      Regroup(s[..n], Whole(s[n..]), Whole(Remainder(s) + t));
    }
  }

  /** Whole frames are a stream with nothing left over. */
  lemma {:induction false} WholeIsWhole(s: Octets)
    ensures Remainder(Whole(s)) == [] && Payloads(Whole(s)) == Payloads(s) && Whole(Whole(s)) == Whole(s)
    decreases |s|
  {
    if Ready(s) {
      var n := FrameSize(s);
      WholeIsWhole(s[n..]);
      assert Ready(s[..n]) && s[..n][2..n] == s[2..n] && s[..n][n..] == [];
      ReadyGrows(s[..n], Whole(s[n..]));
      assert Whole(s) == s[..n] + Whole(s[n..]);
      assert [] + Whole(s[n..]) == Whole(s[n..]);
    }
  }

  lemma OneFrame(f: Octets)
    requires Ready(f) && FrameSize(f) == |f|
    ensures Payloads(f) == [f[2..]] && Remainder(f) == [] && Whole(f) == f
  {
    assert f[|f|..] == [] && f[2..|f|] == f[2..];
    assert Whole(f) + Remainder(f) == f;
  }

  /** A stream of whole frames, then one more frame, then anything. */
  lemma OneMoreFrame(s: Octets, f: Octets)
    requires Remainder(s) == [] && Whole(s) == s
    requires Ready(f) && FrameSize(f) == |f|
    ensures Payloads(s + f) == Payloads(s) + [f[2..]]
    ensures Remainder(s + f) == [] && Whole(s + f) == s + f
  {
    FramingContinues(s, f);
    assert [] + f == f;
    OneFrame(f);
  }

  /** Bodies put on the wire are read back, in order, whatever follows them. */
  lemma {:induction false} FramedIsRead(ps: seq<Octets>, t: Octets)
    requires forall p | p in ps :: |p| < 0x1_0000
    ensures Payloads(Framed(ps) + t) == ps + Payloads(t)
    ensures Remainder(Framed(ps) + t) == Remainder(t)
  {
    if ps == [] {
      assert Framed(ps) + t == t;
    } else {
      var f, rest := PutU16(|ps[0]|) + ps[0], Framed(ps[1..]) + t;
      FramedIsRead(ps[1..], t);
      FrameOf(ps[0]);
      OneFrame(f);
      FramingContinues(f, rest);
      assert [] + rest == rest;
      Regroup(f, Framed(ps[1..]), t);
      OneBeforeRest(ps, Payloads(t));
    }
  }

  lemma OneBeforeRest(ps: seq<Octets>, qs: seq<Octets>)
    requires ps != []
    ensures [ps[0]] + (ps[1..] + qs) == ps + qs
  {
  }

  lemma FrameOf(p: Octets)
    requires |p| < 0x1_0000
    ensures var f := PutU16(|p|) + p; Ready(f) && FrameSize(f) == |f| && f[2..] == p
  {
  }

  /** In octets: two for the length, most significant first, and that many of body make a
      frame; a stream that is shorter than this holds none. */
  lemma FrameOctets(a: Byte, b: Byte, body: Octets, t: Octets)
    requires |body| == 256 * (a as int) + b
    ensures var s := [a, b] + body + t;
            && Payloads(s) == [body] + Payloads(t) && Remainder(s) == Remainder(t)
            && Whole(s) == [a, b] + body + Whole(t)
  {
    var f := [a, b] + body;
    assert f[2..] == body;
    OneFrame(f);
    FramingContinues(f, t);
    assert [] + t == t;
  }

  lemma NoFrame(s: Octets)
    requires |s| < 2 || |s| < 2 + 256 * (s[0] as int) + s[1]
    ensures Payloads(s) == [] && Remainder(s) == s && Whole(s) == []
  {
  }

  /** Frame bodies fit their length octets, and the wire form is recovered from them. */
  lemma {:induction false} PayloadsFit(s: Octets)
    ensures forall p | p in Payloads(s) :: |p| < 0x1_0000
    ensures Framed(Payloads(s)) == Whole(s)
    decreases |s|
  {
    if Ready(s) {
      var n := FrameSize(s);
      PayloadsFit(s[n..]);
      PutGetU16(s);
      assert Payloads(s)[1..] == Payloads(s[n..]);
      assert s[..n] == s[..2] + s[2..n];
    }
  }

  /** Splitting at frame boundaries: a frame that starts at `n` ends at `m`. */
  ghost predicate FrameBetween(s: Octets, n: nat, m: nat) {
    n + 2 <= m <= |s| && m == n + 2 + GetU16(s[n..m])
  }

  lemma NextFrame(s: Octets, n: nat, m: nat)
    requires FrameBetween(s, n, m) && Remainder(s[..n]) == [] && Whole(s[..n]) == s[..n]
    ensures Remainder(s[..m]) == [] && Whole(s[..m]) == s[..m]
    ensures Payloads(s[..m]) == Payloads(s[..n]) + [s[n + 2..m]]
  {
    var f := s[n..m];
    Adjacent(s, n, m);
    OneMoreFrame(s[..n], f);
  }

  lemma Adjacent(s: Octets, n: nat, m: nat)
    requires n + 2 <= m <= |s|
    ensures s[..n] + s[n..m] == s[..m] && s[n..m][2..] == s[n + 2..m]
  {
  }

  lemma FrameAt(s: Octets, n: nat)
    requires n <= |s|
    ensures Ready(s[n..]) <==> n + 1 < |s| && n + 0x100 * (s[n] as int) + s[n + 1] + 2 <= |s|
    ensures Ready(s[n..]) ==> FrameBetween(s, n, n + 0x100 * (s[n] as int) + s[n + 1] + 2)
  {
    if n + 1 < |s| {
      assert s[n..][0] == s[n] && s[n..][1] == s[n + 1];
      var m := n + 0x100 * (s[n] as int) + s[n + 1] + 2;
      if m <= |s| {
        assert s[n..m][0] == s[n] && s[n..m][1] == s[n + 1];
      }
    }
  }

  // ----- walking over a stream of whole frames

  /** The frames of the stream start at `starts`, the last of which is its end. */
  ghost predicate FramesAt(s: Octets, bodies: seq<Octets>, starts: seq<nat>) {
    && |starts| == |bodies| + 1 && starts[0] == 0 && starts[|bodies|] == |s|
    && forall k | 0 <= k < |bodies| :: FrameHere(s, bodies[k], starts[k], starts[k + 1])
  }

  predicate FrameHere(s: Octets, body: Octets, n: nat, m: nat) {
    && n + 2 <= m <= |s| && m == n + 2 + (0x100 * (s[n] as int) + s[n + 1]) && body == s[n + 2..m]
  }

  lemma WalkEnds(s: Octets, bodies: seq<Octets>, starts: seq<nat>, k: nat)
    requires FramesAt(s, bodies, starts) && k <= |bodies| && starts[k] >= |s|
    ensures k == |bodies|
  {
    assert k < |bodies| ==> FrameHere(s, bodies[k], starts[k], starts[k + 1]);
  }

  function Shifted(starts: seq<nat>, n: nat): seq<nat> {
    seq(|starts|, i requires 0 <= i < |starts| => starts[i] + n)
  }

  lemma FrameFurtherOn(s: Octets, body: Octets, d: nat, n: nat, m: nat)
    requires d <= |s| && FrameHere(s[d..], body, n, m)
    ensures FrameHere(s, body, n + d, m + d)
  {
  }

  /** A stream with nothing left over is walked from frame to frame. */
  lemma {:induction false} Walk(s: Octets) returns (starts: seq<nat>)
    requires Remainder(s) == []
    ensures FramesAt(s, Payloads(s), starts)
    decreases |s|
  {
    if s == [] {
      starts := [0];
    } else {
      var n := FrameSize(s);
      var rest := Walk(s[n..]);
      starts := [0] + Shifted(rest, n);
      OneFrameFurther(s, n, Payloads(s[n..]), rest);
    }
  }

  lemma WalkWhole(buf: Octets) returns (starts: seq<nat>)
    ensures FramesAt(Whole(buf), Payloads(buf), starts)
  {
    WholeIsWhole(buf);
    starts := Walk(Whole(buf));
  }

  lemma OneFrameFurther(s: Octets, n: nat, bodies: seq<Octets>, starts: seq<nat>)
    requires Ready(s) && n == FrameSize(s) && FramesAt(s[n..], bodies, starts)
    ensures FramesAt(s, [s[2..n]] + bodies, [0] + Shifted(starts, n))
  {
    var starts', bodies' := [0] + Shifted(starts, n), [s[2..n]] + bodies;
    forall k | 0 <= k < |bodies'| ensures FrameHere(s, bodies'[k], starts'[k], starts'[k + 1]) {
      if k > 0 {
        FrameFurtherOn(s, bodies[k - 1], n, starts[k - 1], starts[k]);
      }
    }
  }
}
