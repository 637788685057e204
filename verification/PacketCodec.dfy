/** The parse and serialize methods of the message structures. Each parse method
    takes, as ghost arguments, what the stream encodes at its position and what
    follows; `Decode` supplies both for any well-formed input. */
module PacketCodec {
  import opened Bytes
  import opened WireFormat
  import opened DomainNames
  import opened DnsPackets

  /** `DnsHeader::parse`. */
  method ParseHeader(input: InStream, ghost w: Head, ghost after: Octets) returns (h: DnsHeader)
    requires input.Valid() && DecodeHead(input.Rest()) == Decoded(w, after)
    modifies input
    ensures input.Valid() && input.Rest() == after && h == UnpackHeader(w)
  {
    var id := input.ReadU16();
    var flag := input.ReadU16();
    var qdcount := input.ReadU16();
    var ancount := input.ReadU16();
    var nscount := input.ReadU16();
    var arcount := input.ReadU16();
    h := UnpackHeader(Head(id, flag, qdcount, ancount, nscount, arcount));
  }

  /** `DnsQuestion::parse`. */
  method ParseQuestion(input: InStream, ghost w: Question, ghost after: Octets) returns (q: DnsQuestion)
    requires input.Valid() && DecodeQuestion(input.Rest()) == Decoded(w, after)
    modifies input
    ensures input.Valid() && input.Rest() == after && q == FlattenQuestion(w)
  {
    FlattenIsScannable(w.name);
    var name := ParseName(input, w.name, DecodeName(input.Rest()).rest);
    var qtype := input.ReadU16();
    var qclass := input.ReadU16();
    q := DnsQuestion(name, qtype, qclass);
  }

  /** `DnsResourceRecord::parse`. */
  method ParseRecord(input: InStream, ghost w: Record, ghost after: Octets) returns (r: DnsResourceRecord)
    requires input.Valid() && DecodeRecord(input.Rest()) == Decoded(w, after)
    modifies input
    ensures input.Valid() && input.Rest() == after && r == FlattenRecord(w)
  {
    FlattenIsScannable(w.name);
    ghost var parts, t0, t1, t2, t3, t4, t5 := PartsOfRecord(input.Rest());
    var name := ParseName(input, w.name, t0);
    var rtype := input.ReadU16();
    var rclass := input.ReadU16();
    var ttl := input.ReadU32();
    var rdlength := input.ReadU16();
    var rdata := input.Read(rdlength);
    r := DnsResourceRecord(name, rtype, rclass, ttl, rdlength, rdata);
  }

  /** One turn of a parse loop: the list on the stream is its first item and the rest. */
  lemma DecodeAllStep<T, U>(decode: Octets -> Decoded<T>, flat: T -> U, s: Octets, xs: seq<T>,
                            after: Octets, done: seq<U>)
    requires xs != [] && DecodeAll(decode, s, |xs|) == Decoded(xs, after)
    ensures decode(s).Decoded? && decode(s).value == xs[0]
    ensures DecodeAll(decode, decode(s).rest, |xs| - 1) == Decoded(xs[1..], after)
    ensures done + [flat(xs[0])] + Map(flat, xs[1..]) == done + Map(flat, xs)
  {
    var Decoded(x, t) := decode(s);
    var Decoded(ys, _) := DecodeAll(decode, t, |xs| - 1);
    assert xs == [x] + ys;
    assert xs[1..] == ys;
    assert Map(flat, xs) == [flat(xs[0])] + Map(flat, xs[1..]);
  }

  /** The parts of a message on the stream, and what they flatten to. */
  lemma PartsOnStream(s: Octets, m: Message, after: Octets)
      returns (h: Head, t: Octets, qs: seq<Question>, u: Octets, rs: seq<Record>)
    requires Decode(s) == Decoded(m, after)
    ensures DecodeHead(s) == Decoded(h, t) && DecodeQuestions(t, h.qd) == Decoded(qs, u)
    ensures |qs| == h.qd && |rs| == h.an + h.ns + h.ar && DecodeRecords(u, |rs|) == Decoded(rs, after)
    ensures FlattenMessage(m)
            == DnsPacket(UnpackHeader(h), Map(FlattenQuestion, qs), Map(FlattenRecord, rs))
  {
    var v;
    h, t, qs, u, rs, v := PartsOfDecoded(s);
    PartsOfAssembled(h, qs, rs);
  }

  /** `DnsPacket::parse`. */
  method ParsePacket(input: InStream, ghost m: Message, ghost after: Octets) returns (p: DnsPacket)
    requires input.Valid() && Decode(input.Rest()) == Decoded(m, after)
    modifies input
    ensures input.Valid() && input.Rest() == after && p == FlattenMessage(m)
  {
    ghost var h, t, qs, u, rs := PartsOnStream(input.Rest(), m, after);
    var header := ParseHeader(input, h, t);
    var questions := ParseQuestions(input, header.qdcount, qs, u);
    var rrs := ParseRecords(input, header.ancount + header.nscount + header.arcount, rs, after);
    p := DnsPacket(header, questions, rrs);
  }

  /** The question loop of `DnsPacket::parse`. */
  method ParseQuestions(input: InStream, count: nat, ghost qs: seq<Question>, ghost after: Octets)
      returns (questions: seq<DnsQuestion>)
    requires input.Valid() && count == |qs| && DecodeQuestions(input.Rest(), count) == Decoded(qs, after)
    modifies input
    ensures input.Valid() && input.Rest() == after && questions == Map(FlattenQuestion, qs)
  {
    questions := [];
    ghost var left := qs;
    var i := 0;
    while i < count
      invariant input.Valid() && i + |left| == count
      invariant DecodeAll(DecodeQuestion, input.Rest(), |left|) == Decoded(left, after)
      invariant questions + Map(FlattenQuestion, left) == Map(FlattenQuestion, qs)
    {
      DecodeAllStep(DecodeQuestion, FlattenQuestion, input.Rest(), left, after, questions);
      var question := ParseQuestion(input, left[0], DecodeQuestion(input.Rest()).rest);
      questions := questions + [question];
      left := left[1..];
      i := i + 1;
    }
  }

  /** The record loop of `DnsPacket::parse`, over all three sections. */
  method ParseRecords(input: InStream, count: nat, ghost rs: seq<Record>, ghost after: Octets)
      returns (rrs: seq<DnsResourceRecord>)
    requires input.Valid() && count == |rs| && DecodeRecords(input.Rest(), count) == Decoded(rs, after)
    modifies input
    ensures input.Valid() && input.Rest() == after && rrs == Map(FlattenRecord, rs)
  {
    rrs := [];
    ghost var left := rs;
    var i := 0;
    while i < count
      invariant input.Valid() && i + |left| == count
      invariant DecodeAll(DecodeRecord, input.Rest(), |left|) == Decoded(left, after)
      invariant rrs + Map(FlattenRecord, left) == Map(FlattenRecord, rs)
    {
      DecodeAllStep(DecodeRecord, FlattenRecord, input.Rest(), left, after, rrs);
      var record := ParseRecord(input, left[0], DecodeRecord(input.Rest()).rest);
      rrs := rrs + [record];
      left := left[1..];
      i := i + 1;
    }
  }

  /** `DnsHeader::serialize`. */
  method SerializeHeader(h: DnsHeader, output: OutStream)
    modifies output
    ensures output.data == old(output.data) + EncodeHead(PackHeader(h))
  {
    ghost var before := output.data;
    var w := PackHeader(h);
    output.Write(PutU16(w.id));
    output.Write(PutU16(w.flags));
    output.Write(PutU16(w.qd));
    output.Write(PutU16(w.an));
    output.Write(PutU16(w.ns));
    output.Write(PutU16(w.ar));
    NestSix(before, PutU16(w.id), PutU16(w.flags), PutU16(w.qd), PutU16(w.an), PutU16(w.ns), PutU16(w.ar));
  }

  lemma NestSix(s: Octets, a: Octets, b: Octets, c: Octets, d: Octets, e: Octets, f: Octets)
    ensures s + a + b + c + d + e + f == s + (a + (b + (c + (d + (e + f)))))
  {
  }

  lemma NestThree(s: Octets, a: Octets, b: Octets, c: Octets)
    ensures s + a + b + c == s + (a + (b + c))
  {
  }

  /** `DnsQuestion::serialize`. */
  method SerializeQuestion(q: DnsQuestion, output: OutStream)
    modifies output
    ensures output.data == old(output.data) + SerializedQuestion(q)
  {
    ghost var before := output.data;
    SerializeName(q.qname, output);
    output.Write(PutU16(q.qtype));
    output.Write(PutU16(q.qclass));
    NestThree(before, Rebuild(q.qname), PutU16(q.qtype), PutU16(q.qclass));
  }

  /** `DnsResourceRecord::serialize`. */
  method SerializeRecord(r: DnsResourceRecord, output: OutStream)
    modifies output
    ensures output.data == old(output.data) + SerializedRecord(r)
  {
    ghost var before := output.data;
    SerializeName(r.name, output);
    output.Write(PutU16(r.rtype));
    output.Write(PutU16(r.rclass));
    output.Write(PutU32(r.ttl));
    output.Write(PutU16(r.rdlength));
    output.Write(r.rdata[..r.rdlength]);
    NestSix(before, Rebuild(r.name), PutU16(r.rtype), PutU16(r.rclass), PutU32(r.ttl), PutU16(r.rdlength),
            r.rdata[..r.rdlength]);
  }

  /** One turn of a serialise loop. */
  lemma EncodeAllStep<U>(write: U -> Octets, written: Octets, xs: seq<U>)
    requires xs != []
    ensures written + write(xs[0]) + EncodeAll(write, xs[1..]) == written + EncodeAll(write, xs)
  {
    Regroup(written, write(xs[0]), EncodeAll(write, xs[1..]));
  }

  /** `DnsPacket::serialize`. */
  method SerializePacket(p: DnsPacket, output: OutStream)
    modifies output
    ensures output.data == old(output.data) + Serialized(p)
  {
    ghost var before, head := output.data, EncodeHead(PackHeader(p.header));
    ghost var qs, rs := EncodeAll(SerializedQuestion, p.questions), EncodeAll(SerializedRecord, p.rrs);
    SerializeHeader(p.header, output);
    for i := 0 to |p.questions|
      invariant output.data + EncodeAll(SerializedQuestion, p.questions[i..]) == before + head + qs
    {
      EncodeAllStep(SerializedQuestion, output.data, p.questions[i..]);
      SerializeQuestion(p.questions[i], output);
    }
    for i := 0 to |p.rrs|
      invariant output.data + EncodeAll(SerializedRecord, p.rrs[i..]) == before + head + qs + rs
    {
      EncodeAllStep(SerializedRecord, output.data, p.rrs[i..]);
      SerializeRecord(p.rrs[i], output);
    }
    NestThree(before, head, qs, rs);
  }
}
