/** The program's own message structures and the codec around them. */
module DnsPackets {
  import opened Arithmetic
  import opened Bytes
  import opened WireFormat
  import opened DomainNames

  type Bit = x: int | 0 <= x < 2
  type Octal = x: int | 0 <= x < 8
  type Nibble = x: int | 0 <= x < 16

  /** Names that can be serialised: all those that parsing produces. */
  type NameString = s: Octets | Scannable(s)

  datatype DnsHeader = DnsHeader(
    id: U16,
    qr: Bit, opcode: Nibble, aa: Bit, tc: Bit, rd: Bit, ra: Bit, z: Octal, rcode: Nibble,
    qdcount: U16, ancount: U16, nscount: U16, arcount: U16)

  datatype DnsQuestion = DnsQuestion(qname: NameString, qtype: U16, qclass: U16)

  datatype RawRecord = DnsResourceRecord(
    name: NameString, rtype: U16, rclass: U16, ttl: U32, rdlength: U16, rdata: Octets)

  /** `serialize` writes `rdlength` octets of `rdata`, so there are that many. */
  type DnsResourceRecord = r: RawRecord | r.rdlength <= |r.rdata|
    witness DnsResourceRecord([], 0, 0, 0, 0, [])

  datatype DnsPacket = DnsPacket(header: DnsHeader, questions: seq<DnsQuestion>, rrs: seq<DnsResourceRecord>) {
    function WithId(id: U16): DnsPacket {
      this.(header := header.(id := id))
    }
  }

  // ----- the flag word

  /** Shifting right by k divides by 2^k; masking keeps the remainder. */
  function UnpackHeader(h: Head): DnsHeader {
    var flag := h.flags;
    DnsHeader(h.id,
              flag / 0x8000 % 2, flag / 0x800 % 16, flag / 0x400 % 2, flag / 0x200 % 2,
              flag / 0x100 % 2, flag / 0x80 % 2, flag / 0x10 % 8, flag % 16,
              h.qd, h.an, h.ns, h.ar)
  }

  /** The fields occupy disjoint bits, so or-ing them together adds them. */
  function FlagWord(h: DnsHeader): U16 {
    h.qr * 0x8000 + h.opcode * 0x800 + h.aa * 0x400 + h.tc * 0x200
    + h.rd * 0x100 + h.ra * 0x80 + h.z * 0x10 + h.rcode
  }

  function PackHeader(h: DnsHeader): Head {
    Head(h.id, FlagWord(h), h.qdcount, h.ancount, h.nscount, h.arcount)
  }

  lemma HeaderRoundTrips(w: Head, h: DnsHeader)
    ensures PackHeader(UnpackHeader(w)) == w
    ensures UnpackHeader(PackHeader(h)) == h
  {
    PackUnpackFlags(w);
    UnpackPackFlags(h);
  }

  lemma PackUnpackFlags(w: Head)
    ensures FlagWord(UnpackHeader(w)) == w.flags
  {
    LowFields(w.flags);
    HighFields(w.flags);
  }

  /** The word is put together again from the fields below bit 8 and the rest. */
  lemma LowFields(f: U16)
    ensures f == 0x100 * (f / 0x100) + 0x80 * (f / 0x80 % 2) + 0x10 * (f / 0x10 % 8) + f % 16
  {
    PeelField(f, 0x1, 16);
    PeelField(f, 0x10, 8);
    PeelField(f, 0x80, 2);
  }

  lemma HighFields(f: U16)
    ensures f / 0x100 == 0x80 * (f / 0x8000 % 2) + 8 * (f / 0x800 % 16) + 4 * (f / 0x400 % 2)
                         + 2 * (f / 0x200 % 2) + f / 0x100 % 2
  {
    PeelField(f, 0x100, 2);
    PeelField(f, 0x200, 2);
    PeelField(f, 0x400, 2);
    PeelField(f, 0x800, 16);
  }

  lemma UnpackPackFlags(h: DnsHeader)
    ensures UnpackHeader(PackHeader(h)) == h
  {
    LowFlags(h);
    HighFlags(h, FlagWord(h));
  }

  /** The four fields below bit 8, and the word above them. */
  lemma LowFlags(h: DnsHeader)
    ensures var f := FlagWord(h);
            && f % 16 == h.rcode && f / 0x10 % 8 == h.z && f / 0x80 % 2 == h.ra
            && f / 0x100 == 0x80 * h.qr + 8 * h.opcode + 4 * h.aa + 2 * h.tc + h.rd
  {
    var f8 := 0x80 * h.qr + 8 * h.opcode + 4 * h.aa + 2 * h.tc + h.rd;
    var f7 := 2 * f8 + h.ra;
    var f4 := 8 * f7 + h.z;
    FieldAt(FlagWord(h), 0x1, f4, 16, h.rcode);
    FieldAt(FlagWord(h), 0x10, f7, 8, h.z);
    FieldAt(FlagWord(h), 0x80, f8, 2, h.ra);
  }

  lemma HighFlags(h: DnsHeader, f: nat)
    requires f / 0x100 == 0x80 * h.qr + 8 * h.opcode + 4 * h.aa + 2 * h.tc + h.rd
    ensures f / 0x100 % 2 == h.rd && f / 0x200 % 2 == h.tc && f / 0x400 % 2 == h.aa
    ensures f / 0x800 % 16 == h.opcode && f / 0x8000 == h.qr
  {
    var f11 := 16 * h.qr + h.opcode;
    var f10 := 2 * f11 + h.aa;
    FieldAt(f, 0x100, 2 * f10 + h.tc, 2, h.rd);
    FieldAt(f, 0x200, f10, 2, h.tc);
    FieldAt(f, 0x400, f11, 2, h.aa);
    FieldAt(f, 0x800, h.qr, 16, h.opcode);
  }

  // ----- what parsing makes of a message

  function FlattenQuestion(q: Question): DnsQuestion {
    FlattenIsScannable(q.name);
    DnsQuestion(Flatten(q.name), q.qtype, q.qclass)
  }

  function FlattenRecord(r: Record): DnsResourceRecord {
    FlattenIsScannable(r.name);
    DnsResourceRecord(Flatten(r.name), r.rtype, r.rclass, r.ttl, |r.rdata|, r.rdata)
  }

  function Map<T, U>(f: T -> U, xs: seq<T>): (ys: seq<U>)
    ensures |ys| == |xs|
    ensures forall i | 0 <= i < |xs| :: ys[i] == f(xs[i])
  {
    seq(|xs|, i requires 0 <= i < |xs| => f(xs[i]))
  }

  /** The sections are one list; the three counts carry the split. */
  function FlattenMessage(m: Message): DnsPacket {
    DnsPacket(UnpackHeader(HeadOf(m)), Map(FlattenQuestion, m.questions), Map(FlattenRecord, m.AllRecords()))
  }

  // ----- what serialising writes

  function SerializedQuestion(q: DnsQuestion): Octets {
    Rebuild(q.qname) + QuestionBody(q.qtype, q.qclass)
  }

  function SerializedRecord(r: DnsResourceRecord): Octets {
    Rebuild(r.name)
    + (PutU16(r.rtype) + (PutU16(r.rclass) + (PutU32(r.ttl) + (PutU16(r.rdlength) + r.rdata[..r.rdlength]))))
  }

  function Serialized(p: DnsPacket): Octets {
    EncodeHead(PackHeader(p.header))
    + (EncodeAll(SerializedQuestion, p.questions) + EncodeAll(SerializedRecord, p.rrs))
  }

  /** Parsing as a function of the octets. */
  function Parsed(s: Octets): Decoded<DnsPacket> {
    var (m, rest) :- Decode(s);
    Decoded(FlattenMessage(m), rest)
  }

  // ----- exact conditions, for one entry and then for lists of entries

  predicate CanonicalQuestion(q: Question) { Canonical(q.name) }

  predicate CanonicalRecord(r: Record) { Canonical(r.name) }

  ghost predicate CleanQuestion(q: Question) { Clean(q.name) }

  ghost predicate CleanRecord(r: Record) { Clean(r.name) }

  ghost predicate CanonicalMessage(m: Message) {
    && (forall q | q in m.questions :: CanonicalQuestion(q))
    && (forall r | r in m.AllRecords() :: CanonicalRecord(r))
  }

  ghost predicate CleanMessage(m: Message) {
    && (forall q | q in m.questions :: CleanQuestion(q))
    && (forall r | r in m.AllRecords() :: CleanRecord(r))
  }

  /** `good` says exactly when an entry comes back unchanged, and a bad entry
      differs in a way that later octets cannot hide. */
  ghost predicate KeptIff<T(!new), U>(flat: T -> U, write: U -> Octets, encode: T -> Octets, good: T -> bool) {
    && (forall t :: good(t) ==> write(flat(t)) == encode(t))
    && (forall t, x: Octets, y: Octets :: !good(t) ==> write(flat(t)) + x != encode(t) + y)
  }

  lemma QuestionKeptIff()
    ensures KeptIff(FlattenQuestion, SerializedQuestion, EncodeQuestion, CanonicalQuestion)
  {
    forall q ensures CanonicalQuestion(q) ==> SerializedQuestion(FlattenQuestion(q)) == EncodeQuestion(q) {
      NameRoundTripIff(q.name);
    }
    forall q, x: Octets, y: Octets | !CanonicalQuestion(q)
      ensures SerializedQuestion(FlattenQuestion(q)) + x != EncodeQuestion(q) + y
    {
      var body := QuestionBody(q.qtype, q.qclass);
      FlattenIsScannable(q.name);
      NonCanonicalDiverges(q.name, body + x, body + y);
      Regroup(Rebuild(Flatten(q.name)), body, x);
      Regroup(EncodeName(q.name), body, y);
    }
  }

  lemma SerializedFlatRecord(r: Record)
    ensures Scannable(Flatten(r.name))
    ensures SerializedRecord(FlattenRecord(r))
            == Rebuild(Flatten(r.name)) + RecordBody(r.rtype, r.rclass, r.ttl, r.rdata)
  {
    FlattenIsScannable(r.name);
    assert r.rdata[..|r.rdata|] == r.rdata;
  }

  lemma RecordKeptIff()
    ensures KeptIff(FlattenRecord, SerializedRecord, EncodeRecord, CanonicalRecord)
  {
    forall r ensures CanonicalRecord(r) ==> SerializedRecord(FlattenRecord(r)) == EncodeRecord(r) {
      NameRoundTripIff(r.name);
      SerializedFlatRecord(r);
    }
    forall r, x: Octets, y: Octets | !CanonicalRecord(r)
      ensures SerializedRecord(FlattenRecord(r)) + x != EncodeRecord(r) + y
    {
      SerializedFlatRecord(r);
      var body := RecordBody(r.rtype, r.rclass, r.ttl, r.rdata);
      NonCanonicalDiverges(r.name, body + x, body + y);
      Regroup(Rebuild(Flatten(r.name)), body, x);
      Regroup(EncodeName(r.name), body, y);
    }
  }

  lemma {:induction false} AllKept<T(!new), U>(
      flat: T -> U, write: U -> Octets, encode: T -> Octets, good: T -> bool, ts: seq<T>)
    requires KeptIff(flat, write, encode, good)
    requires forall t | t in ts :: good(t)
    ensures EncodeAll(write, Map(flat, ts)) == EncodeAll(encode, ts)
  {
    if ts != [] {
      assert Map(flat, ts)[1..] == Map(flat, ts[1..]);
      AllKept(flat, write, encode, good, ts[1..]);
    }
  }

  lemma {:induction false} SomeDiverge<T(!new), U>(
      flat: T -> U, write: U -> Octets, encode: T -> Octets, good: T -> bool, ts: seq<T>, x: Octets, y: Octets)
    requires KeptIff(flat, write, encode, good)
    requires exists t | t in ts :: !good(t)
    ensures EncodeAll(write, Map(flat, ts)) + x != EncodeAll(encode, ts) + y
  {
    var t, rest := ts[0], Map(flat, ts[1..]);
    assert Map(flat, ts)[1..] == rest;
    Regroup(write(flat(t)), EncodeAll(write, rest), x);
    Regroup(encode(t), EncodeAll(encode, ts[1..]), y);
    if good(t) {
      SomeDiverge(flat, write, encode, good, ts[1..], x, y);
      Cancel(encode(t), EncodeAll(write, rest) + x, EncodeAll(encode, ts[1..]) + y);
    }
  }

  lemma Cancel(p: Octets, a: Octets, b: Octets)
    ensures p + a == p + b <==> a == b
  {
    assert (p + a)[|p|..] == a && (p + b)[|p|..] == b;
  }

  /** A message comes through parse and serialise unchanged exactly when all its
      names are canonical. */
  lemma MessageRoundTripIff(m: Message)
    ensures Serialized(FlattenMessage(m)) == Encode(m) <==> CanonicalMessage(m)
  {
    var p, rs := FlattenMessage(m), m.AllRecords();
    var rq, rr := EncodeAll(SerializedQuestion, p.questions), EncodeAll(SerializedRecord, p.rrs);
    HeaderRoundTrips(HeadOf(m), p.header);
    Cancel(EncodeHead(HeadOf(m)), rq + rr, EncodeQuestions(m.questions) + EncodeRecords(rs));
    SectionsKeptIff(m.questions, rs, p.questions, p.rrs);
  }

  lemma SectionsKeptIff(qs: seq<Question>, rs: seq<Record>, fq: seq<DnsQuestion>, fr: seq<DnsResourceRecord>)
    requires fq == Map(FlattenQuestion, qs) && fr == Map(FlattenRecord, rs)
    ensures EncodeAll(SerializedQuestion, fq) + EncodeAll(SerializedRecord, fr)
            == EncodeQuestions(qs) + EncodeRecords(rs)
            <==> (forall q | q in qs :: CanonicalQuestion(q)) && (forall r | r in rs :: CanonicalRecord(r))
  {
    var rq, rr := EncodeAll(SerializedQuestion, fq), EncodeAll(SerializedRecord, fr);
    QuestionKeptIff();
    RecordKeptIff();
    if exists q | q in qs :: !CanonicalQuestion(q) {
      SomeDiverge(FlattenQuestion, SerializedQuestion, EncodeQuestion, CanonicalQuestion, qs, rr, EncodeRecords(rs));
    } else {
      AllKept(FlattenQuestion, SerializedQuestion, EncodeQuestion, CanonicalQuestion, qs);
      Cancel(rq, rr, EncodeRecords(rs));
      if exists r | r in rs :: !CanonicalRecord(r) {
        SomeDiverge(FlattenRecord, SerializedRecord, EncodeRecord, CanonicalRecord, rs, [], []);
        assert rr + [] == rr && EncodeRecords(rs) + [] == EncodeRecords(rs);
      } else {
        AllKept(FlattenRecord, SerializedRecord, EncodeRecord, CanonicalRecord, rs);
      }
    }
  }

  /** `clean` says exactly when an entry keeps its length; it never grows. */
  ghost predicate LengthKeptIff<T(!new), U>(flat: T -> U, write: U -> Octets, encode: T -> Octets, clean: T -> bool) {
    forall t :: |write(flat(t))| <= |encode(t)| && (|write(flat(t))| == |encode(t)| <==> clean(t))
  }

  lemma {:induction false} AllLengths<T(!new), U>(
      flat: T -> U, write: U -> Octets, encode: T -> Octets, clean: T -> bool, ts: seq<T>)
    requires LengthKeptIff(flat, write, encode, clean)
    ensures |EncodeAll(write, Map(flat, ts))| <= |EncodeAll(encode, ts)|
    ensures |EncodeAll(write, Map(flat, ts))| == |EncodeAll(encode, ts)| <==> forall t | t in ts :: clean(t)
  {
    if ts != [] {
      assert Map(flat, ts)[1..] == Map(flat, ts[1..]);
      AllLengths(flat, write, encode, clean, ts[1..]);
      assert forall t :: t in ts <==> t == ts[0] || t in ts[1..];
      assert write(flat(ts[0])) == write(Map(flat, ts)[0]);
    }
  }

  lemma EntryLengths()
    ensures LengthKeptIff(FlattenQuestion, SerializedQuestion, EncodeQuestion, (q: Question) => CleanQuestion(q))
    ensures LengthKeptIff(FlattenRecord, SerializedRecord, EncodeRecord, (r: Record) => CleanRecord(r))
  {
    forall q: Question
      ensures |SerializedQuestion(FlattenQuestion(q))| <= |EncodeQuestion(q)|
      ensures |SerializedQuestion(FlattenQuestion(q))| == |EncodeQuestion(q)| <==> CleanQuestion(q)
    {
      NameLengthIff(q.name);
    }
    forall r: Record
      ensures |SerializedRecord(FlattenRecord(r))| <= |EncodeRecord(r)|
      ensures |SerializedRecord(FlattenRecord(r))| == |EncodeRecord(r)| <==> CleanRecord(r)
    {
      NameLengthIff(r.name);
      SerializedFlatRecord(r);
    }
  }

  /** The length a relayed message is announced with over TCP, that of the incoming
      message, is the true one exactly when every name is clean; otherwise the
      message has become shorter. */
  lemma MessageLengthIff(m: Message)
    ensures |Serialized(FlattenMessage(m))| <= |Encode(m)|
    ensures |Serialized(FlattenMessage(m))| == |Encode(m)| <==> CleanMessage(m)
  {
    EntryLengths();
    AllLengths(FlattenQuestion, SerializedQuestion, EncodeQuestion, (q: Question) => CleanQuestion(q), m.questions);
    AllLengths(FlattenRecord, SerializedRecord, EncodeRecord, (r: Record) => CleanRecord(r), m.AllRecords());
  }

  // ----- relaying: only the identifier changes

  /** The relayed message is the incoming one with its first two octets replaced,
      exactly when all its names are canonical. No octet moves, so compression
      offsets keep their meaning. */
  lemma RelayedBytesIff(m: Message, id: U16)
    ensures Serialized(FlattenMessage(m).WithId(id)) == PutU16(id) + Encode(m)[2..] <==> CanonicalMessage(m)
    ensures |Serialized(FlattenMessage(m).WithId(id))| <= |Encode(m)|
    ensures |Serialized(FlattenMessage(m).WithId(id))| == |Encode(m)| <==> CleanMessage(m)
  {
    var m' := m.(id := id);
    assert FlattenMessage(m') == FlattenMessage(m).WithId(id);
    EncodeWithId(m, id);
    MessageRoundTripIff(m');
    MessageLengthIff(m');
  }

  lemma EncodeWithId(m: Message, id: U16)
    ensures Encode(m.(id := id)) == PutU16(id) + Encode(m)[2..]
    ensures |Encode(m)| >= 12
  {
    var body := EncodeQuestions(m.questions) + EncodeRecords(m.AllRecords());
    var h := HeadOf(m);
    var rest := PutU16(h.flags) + (PutU16(h.qd) + (PutU16(h.an) + (PutU16(h.ns) + PutU16(h.ar))));
    Regroup(PutU16(m.id), rest, body);
    Regroup(PutU16(id), rest, body);
    assert (PutU16(m.id) + (rest + body))[2..] == rest + body;
  }

  /** Canonical messages are clean, so for them the announced length is right too. */
  lemma CanonicalMessageIsClean(m: Message)
    requires CanonicalMessage(m)
    ensures CleanMessage(m)
  {
    forall q | q in m.questions ensures CleanQuestion(q) { CanonicalIsClean(q.name); }
    forall r | r in m.AllRecords() ensures CleanRecord(r) { CanonicalIsClean(r.name); }
  }

  // ----- the reply sent at a deadline

  /** `unset` holds the header fields the handler leaves uninitialised. */
  function TimeoutReply(query: DnsPacket, unset: DnsHeader): DnsPacket {
    DnsPacket(
      unset.(id := query.header.id, qr := 1, ra := 1, rcode := 2, ancount := 0, nscount := 0, arcount := 0),
      query.questions, [])
  }

  /** The reply as the client reads it: its own identifier, QR and RA set, RCODE 2
      (server failure), no records, and never longer than the query, so that a
      two-octet length is enough whenever it was enough for the query. Its questions
      are the client's own octets exactly when their names are canonical. */
  lemma TimeoutReplyBytes(m: Message, unset: DnsHeader)
    ensures var r := Serialized(TimeoutReply(FlattenMessage(m), unset));
            && 12 <= |r| <= |Encode(m)|
            && r[..2] == PutU16(m.id) == Encode(m)[..2]
            && GetU16(r[2..]) / 0x8000 == 1 && GetU16(r[2..]) / 0x80 % 2 == 1 && GetU16(r[2..]) % 16 == 2
            && r[6..12] == [0, 0, 0, 0, 0, 0]
            && (r[12..] == EncodeQuestions(m.questions) <==> forall q | q in m.questions :: CanonicalQuestion(q))
  {
    var p := TimeoutReply(FlattenMessage(m), unset);
    var h, body := p.header, EncodeAll(SerializedQuestion, p.questions);
    assert Serialized(p) == EncodeHead(PackHeader(h)) + body by {
      assert body + EncodeAll(SerializedRecord, p.rrs) == body;
    }
    TimeoutHeadBytes(h, body);
    QuestionSection(m);
    EncodeWithId(m, m.id);
  }

  lemma TimeoutHeadBytes(h: DnsHeader, body: Octets)
    requires h.qr == 1 && h.ra == 1 && h.rcode == 2 && h.ancount == 0 && h.nscount == 0 && h.arcount == 0
    ensures var r := EncodeHead(PackHeader(h)) + body;
            && r[..2] == PutU16(h.id) && r[6..12] == [0, 0, 0, 0, 0, 0] && r[12..] == body
            && GetU16(r[2..]) / 0x8000 == 1 && GetU16(r[2..]) / 0x80 % 2 == 1 && GetU16(r[2..]) % 16 == 2
  {
    FlagsOnWire(h, body);
    LowFlags(h);
    HighFlags(h, FlagWord(h));
  }

  lemma FlagsOnWire(h: DnsHeader, body: Octets)
    ensures GetU16((EncodeHead(PackHeader(h)) + body)[2..]) == FlagWord(h)
  {
  }

  /** The question section by itself: its length and its octets. */
  lemma QuestionSection(m: Message)
    ensures var body := EncodeAll(SerializedQuestion, FlattenMessage(m).questions);
            && |body| <= |EncodeQuestions(m.questions)|
            && (body == EncodeQuestions(m.questions) <==> forall q | q in m.questions :: CanonicalQuestion(q))
  {
    var body := EncodeAll(SerializedQuestion, FlattenMessage(m).questions);
    EntryLengths();
    AllLengths(FlattenQuestion, SerializedQuestion, EncodeQuestion, (q: Question) => CleanQuestion(q), m.questions);
    QuestionKeptIff();
    if forall q | q in m.questions :: CanonicalQuestion(q) {
      AllKept(FlattenQuestion, SerializedQuestion, EncodeQuestion, CanonicalQuestion, m.questions);
    } else {
      SomeDiverge(FlattenQuestion, SerializedQuestion, EncodeQuestion, CanonicalQuestion, m.questions, [], []);
      assert body + [] == body && EncodeQuestions(m.questions) + [] == EncodeQuestions(m.questions);
    }
  }

  // ----- from structures to octets and back

  /** Counts match their lists, records hold exactly their announced data, and every
      name is the flattening of a canonical name. */
  predicate WellFormed(p: DnsPacket) {
    && |p.questions| == p.header.qdcount
    && |p.rrs| == p.header.ancount + p.header.nscount + p.header.arcount
    && (forall q | q in p.questions :: CanonicalString(q.qname))
    && (forall r | r in p.rrs :: CanonicalString(r.name) && r.rdlength == |r.rdata|)
  }

  function UnflattenQuestions(qs: seq<DnsQuestion>): (r: seq<Question>)
    requires forall q | q in qs :: CanonicalString(q.qname)
    ensures |r| == |qs|
  {
    seq(|qs|, i requires 0 <= i < |qs| => Question(Unflatten(qs[i].qname), qs[i].qtype, qs[i].qclass))
  }

  function UnflattenRecords(rs: seq<DnsResourceRecord>): (r: seq<Record>)
    requires forall r | r in rs :: CanonicalString(r.name) && r.rdlength == |r.rdata|
    ensures |r| == |rs|
  {
    seq(|rs|, i requires 0 <= i < |rs| =>
      Record(Unflatten(rs[i].name), rs[i].rtype, rs[i].rclass, rs[i].ttl, rs[i].rdata))
  }

  function UnflattenPacket(p: DnsPacket): Message
    requires WellFormed(p)
  {
    Assemble(PackHeader(p.header), UnflattenQuestions(p.questions), UnflattenRecords(p.rrs))
  }

  lemma FlattenUnflattened(p: DnsPacket)
    requires WellFormed(p)
    ensures FlattenMessage(UnflattenPacket(p)) == p && CanonicalMessage(UnflattenPacket(p))
  {
    var qs, rs := UnflattenQuestions(p.questions), UnflattenRecords(p.rrs);
    PartsOfAssembled(PackHeader(p.header), qs, rs);
    UnpackPackFlags(p.header);
    forall i | 0 <= i < |qs| ensures FlattenQuestion(qs[i]) == p.questions[i] && CanonicalQuestion(qs[i]) {
      assert p.questions[i] in p.questions;
      FlattenUnflatten(p.questions[i].qname);
    }
    forall i | 0 <= i < |rs| ensures FlattenRecord(rs[i]) == p.rrs[i] && CanonicalRecord(rs[i]) {
      assert p.rrs[i] in p.rrs;
      FlattenUnflatten(p.rrs[i].name);
    }
    assert Map(FlattenQuestion, qs) == p.questions;
    assert Map(FlattenRecord, rs) == p.rrs;
  }

  lemma CanonicalMessageIsWellFormed(m: Message)
    requires CanonicalMessage(m)
    ensures WellFormed(FlattenMessage(m))
  {
    var p, rs := FlattenMessage(m), m.AllRecords();
    forall q | q in p.questions ensures CanonicalString(q.qname) {
      var i :| 0 <= i < |p.questions| && p.questions[i] == q;
      assert CanonicalQuestion(m.questions[i]);
      FlattenIsCanonicalString(m.questions[i].name);
    }
    forall r | r in p.rrs ensures CanonicalString(r.name) && r.rdlength == |r.rdata| {
      var i :| 0 <= i < |p.rrs| && p.rrs[i] == r;
      assert CanonicalRecord(rs[i]);
      FlattenIsCanonicalString(rs[i].name);
    }
  }

  /** Parsing what was serialised gives the same structure back exactly when the
      structure is well formed. */
  lemma PacketRoundTripIff(p: DnsPacket)
    ensures Parsed(Serialized(p)) == Decoded(p, []) <==> WellFormed(p)
  {
    var s := Serialized(p);
    if WellFormed(p) {
      var m := UnflattenPacket(p);
      FlattenUnflattened(p);
      MessageRoundTripIff(m);
      DecodeEncode(m, []);
      assert Encode(m) + [] == Encode(m);
    }
    if Parsed(s) == Decoded(p, []) {
      var m := Decode(s).value;
      EncodeDecode(s);
      assert Encode(m) + [] == Encode(m);
      MessageRoundTripIff(m);
      CanonicalMessageIsWellFormed(m);
    }
  }
}
