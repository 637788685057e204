/** Octets, the two fixed-width integer codecs, and the streams that the codec
    reads from and writes to. */
module Bytes {

  type Byte = x: int | 0 <= x < 0x100
  type U16 = x: int | 0 <= x < 0x1_0000
  type U32 = x: int | 0 <= x < 0x1_0000_0000

  type Octets = seq<Byte>

  /** Network byte order, most significant octet first. */
  function PutU16(n: U16): (s: Octets)
    ensures |s| == 2 && GetU16(s) == n
  {
    [n / 0x100, n % 0x100]
  }

  function GetU16(s: Octets): U16
    requires |s| >= 2
  {
    0x100 * (s[0] as int) + s[1]
  }

  function PutU32(n: U32): (s: Octets)
    ensures |s| == 4 && GetU32(s) == n
  {
    PutU16(n / 0x1_0000) + PutU16(n % 0x1_0000)
  }

  function GetU32(s: Octets): U32
    requires |s| >= 4
  {
    0x1_0000 * (GetU16(s) as int) + GetU16(s[2..])
  }

  /** Two octets are the encoding of the number they decode to. */
  lemma PutGetU16(s: Octets)
    requires |s| >= 2
    ensures PutU16(GetU16(s)) == s[..2]
  {
  }

  lemma PutGetU32(s: Octets)
    requires |s| >= 4
    ensures PutU32(GetU32(s)) == s[..4]
  {
    PutGetU16(s);
    PutGetU16(s[2..]);
    assert s[..4] == s[..2] + s[2..][..2];
  }

  lemma Regroup(a: Octets, b: Octets, tail: Octets)
    ensures (a + b) + tail == a + (b + tail)
  {
  }

  lemma Cut(s: Octets, n: nat)
    requires n <= |s|
    ensures s[..n] + s[n..] == s
  {
  }

  /** An `std::istringstream`: a fixed string and a read position. */
  class InStream {
    const data: Octets
    var pos: nat

    ghost predicate Valid()
      reads this
    {
      pos <= |data|
    }

    /** What has not been read yet. */
    ghost function Rest(): Octets
      requires Valid()
      reads this
    {
      data[pos..]
    }

    constructor (data: Octets)
      ensures Valid() && Rest() == data
    {
      this.data := data;
      this.pos := 0;
    }

    method Peek() returns (b: Byte)
      requires Valid() && Rest() != []
      ensures b == Rest()[0]
    {
      b := data[pos];
    }

    method Get() returns (b: Byte)
      requires Valid() && Rest() != []
      modifies this
      ensures Valid() && b == old(Rest())[0] && Rest() == old(Rest())[1..]
    {
      b := data[pos];
      pos := pos + 1;
    }

    method Read(n: nat) returns (s: Octets)
      requires Valid() && n <= |Rest()|
      modifies this
      ensures Valid() && s == old(Rest())[..n] && Rest() == old(Rest())[n..]
    {
      s := data[pos..pos + n];
      pos := pos + n;
    }

    method ReadU16() returns (n: U16)
      requires Valid() && 2 <= |Rest()|
      modifies this
      ensures Valid() && n == GetU16(old(Rest())) && Rest() == old(Rest())[2..]
    {
      var s := Read(2);
      n := GetU16(s);
    }

    method ReadU32() returns (n: U32)
      requires Valid() && 4 <= |Rest()|
      modifies this
      ensures Valid() && n == GetU32(old(Rest())) && Rest() == old(Rest())[4..]
    {
      var s := Read(4);
      n := GetU32(s);
    }
  }

  /** An `std::ostringstream`: writing appends. */
  class OutStream {
    var data: Octets

    constructor ()
      ensures data == []
    {
      data := [];
    }

    method Put(b: Byte)
      modifies this
      ensures data == old(data) + [b]
    {
      data := data + [b];
    }

    method Write(s: Octets)
      modifies this
      ensures data == old(data) + s
    {
      data := data + s;
    }
  }
}
