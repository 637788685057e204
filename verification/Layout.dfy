/** Where each field stands in the octets of a message: section 4.1 of RFC 1035 with all
    positions and weights written out. `WireFormat` and the program's structures are both
    pinned to it. */
module Layout {
  import opened Arithmetic
  import opened Bytes
  import opened WireFormat
  import opened DomainNames
  import opened DnsPackets
  import opened Messages

  /** Sixteen and thirty-two bits, most significant octet first. */
  lemma NumberOctets(n: U16, k: U32)
    ensures PutU16(n) == [n / 256, n % 256]
    ensures PutU32(k) == [k / 16777216, k / 65536 % 256, k / 256 % 256, k % 256]
  {
    UpperHalf(k);
    LowerHalf(k);
  }

  lemma UpperHalf(k: U32)
    ensures k / 0x1_0000 < 0x1_0000 && k / 0x1_0000 / 256 == k / 16777216
  {
    DivideTwice(k, 0x1_0000, 256);
  }

  lemma LowerHalf(k: U32)
    ensures k % 0x1_0000 / 256 == k / 256 % 256 && k % 0x1_0000 % 256 == k % 256
  {
    var a, b := k / 0x1_0000, k % 0x1_0000;
    QuotientIs(k, 256, 256 * a + b / 256, b % 256);
    QuotientIs(256 * a + b / 256, 256, a, b / 256);
  }

  lemma NumbersRead(s: Octets)
    requires |s| >= 4
    ensures GetU16(s) == 256 * (s[0] as int) + s[1]
    ensures GetU32(s) == 16777216 * (s[0] as int) + 65536 * (s[1] as int) + 256 * (s[2] as int) + s[3]
  {
  }

  /** A label is its length, its text and the rest; the root is a zero octet. */
  lemma NameOctets(text: LabelText, rest: Name, hi: PointerByte, lo: Byte)
    ensures EncodeName(Root) == [0]
    ensures EncodeName(Pointer(hi, lo)) == [hi, lo]
    ensures EncodeName(Label(text, rest)) == [|text|] + text + EncodeName(rest)
  {
    Regroup([|text|], text, EncodeName(rest));
  }

  // ----- names as strings, with the octet 46 for the dot

  /** The string of a name: each label with a dot behind it, then the pointer if any. */
  lemma StringOctets(text: LabelText, rest: Name, hi: PointerByte, lo: Byte)
    ensures Flatten(Root) == []
    ensures Flatten(Pointer(hi, lo)) == [hi, lo]
    ensures Flatten(Label(text, rest)) == text + [46] + Flatten(rest)
  {
    Regroup(text, [46], Flatten(rest));
  }

  /** What is written for a string: two octets for one that starts like a pointer; else a
      length, the octets up to the first dot, and what is written for the rest; a zero at
      the end. A string that ends short of a dot is not one that can be written. */
  lemma StringWritten(x: Octets, tail: Octets)
    requires x != [] ==> x[0] < 192
    requires 46 !in x
    ensures Scannable([]) && Rebuild([]) == [0]
    ensures Scannable(tail) ==> Scannable(x + [46] + tail)
    ensures Scannable(tail) ==> Rebuild(x + [46] + tail) == [|x| % 256] + x + Rebuild(tail)
    ensures x != [] ==> !Scannable(x)
  {
    Regroup(x, [46], tail);
    if Scannable(tail) {
      Regroup([|x| % 256], x, Rebuild(tail));
      WrittenUpToDot(x, tail);
    }
    NoDotFound(x);
  }

  lemma NoDotFound(x: Octets)
    requires 46 !in x
    ensures FindDot(x) == |x|
  {
  }

  lemma WrittenUpToDot(x: Octets, tail: Octets)
    requires x != [] ==> x[0] < 192
    requires 46 !in x && Scannable(tail)
    ensures Scannable(Dotted(x, tail)) && Rebuild(Dotted(x, tail)) == [|x| % 256] + (x + Rebuild(tail))
  {
    var s := Dotted(x, tail);
    NoDotFound(x);
    ScannableAfterText(x, tail);
    DottedAt(x, tail, |x|);
    DotFound(x, tail);
    AfterDot(x, tail, |x|);
    assert x[..|x|] == x;
    RebuiltLabel(s, |x|, tail);
  }

  lemma PointerWritten(s: Octets)
    requires s != [] && s[0] >= 192
    ensures Scannable(s) && Rebuild(s) == [s[0], if |s| > 1 then s[1] else 0]
  {
    RebuiltPointer(s);
  }

  function Labels(n: Name): seq<Octets> {
    match n
    case Label(text, rest) => [text] + Labels(rest)
    case _ => []
  }

  /** Canonical and clean, in terms of the octets of the labels. */
  lemma {:induction false} LabelsSay(n: Name)
    ensures Canonical(n) <==> forall t | t in Labels(n) :: t != [] && 46 !in t && t[0] < 192
    ensures Clean(n)
            <==> forall t | t in Labels(n) ::
                   t != [] && t[0] < 192 && forall k: nat | 0 < k < |t| && t[k - 1] == 46 :: t[k] < 192
  {
    if n.Label? {
      LabelsSay(n.rest);
      CleanTextSays(n.text);
      assert Labels(n)[0] == n.text && Labels(n)[1..] == Labels(n.rest);
    }
  }

  lemma CleanTextSays(x: LabelText)
    ensures CleanText(x) <==> x[0] < 192 && forall k: nat | 0 < k < |x| && x[k - 1] == 46 :: x[k] < 192
  {
    assert StartsSegment(x, 0);
    assert forall k: nat | 0 < k < |x| :: StartsSegment(x, k) <==> x[k - 1] == 46;
  }

  predicate HostOctet(b: Byte) {
    65 <= b <= 90 || 97 <= b <= 122 || 48 <= b <= 57 || b == 45
  }

  /** Names of letters, digits and hyphens come through the program unchanged. */
  lemma HostNamesSurvive(n: Name)
    requires forall t | t in Labels(n) :: t != [] && forall b | b in t :: HostOctet(b)
    ensures Scannable(Flatten(n)) && Rebuild(Flatten(n)) == EncodeName(n)
  {
    forall t | t in Labels(n) ensures t != [] && 46 !in t && t[0] < 192 {
      assert t[0] in t && !HostOctet(46);
    }
    LabelsSay(n);
    NameRoundTripIff(n);
  }

  // ----- messages

  lemma QuestionOctetsAre(q: Question)
    ensures EncodeQuestion(q)
            == EncodeName(q.name) + [q.qtype / 256, q.qtype % 256, q.qclass / 256, q.qclass % 256]
  {
  }

  lemma RecordOctetsAre(r: Record)
    ensures EncodeRecord(r) == EncodeName(r.name)
            + ([r.rtype / 256, r.rtype % 256, r.rclass / 256, r.rclass % 256,
                r.ttl / 16777216, r.ttl / 65536 % 256, r.ttl / 256 % 256, r.ttl % 256,
                |r.rdata| / 256, |r.rdata| % 256] + r.rdata)
  {
    NumberOctets(0, r.ttl);
    TenOctets(r.rtype, r.rclass, r.ttl, |r.rdata|, r.rdata);
  }

  lemma TenOctets(a: U16, b: U16, c: U32, d: U16, rest: Octets)
    ensures PutU16(a) + (PutU16(b) + (PutU32(c) + (PutU16(d) + rest)))
            == [a / 256, a % 256, b / 256, b % 256,
                c / 16777216, c / 65536 % 256, c / 256 % 256, c % 256, d / 256, d % 256] + rest
  {
    NumberOctets(0, c);
  }

  /** Lists are written one entry after the other. */
  lemma ListOctets<T>(write: T -> Octets, x: T, xs: seq<T>)
    ensures EncodeAll(write, []) == [] && EncodeAll(write, [x] + xs) == write(x) + EncodeAll(write, xs)
  {
    assert ([x] + xs)[1..] == xs;
  }

  /** Twelve octets of head, then the questions, then the records of the three sections. */
  lemma MessageOctets(m: Message)
    ensures Encode(m)[..12]
            == [m.id / 256, m.id % 256, m.flags / 256, m.flags % 256,
                |m.questions| / 256, |m.questions| % 256, |m.answers| / 256, |m.answers| % 256,
                |m.authorities| / 256, |m.authorities| % 256, |m.additionals| / 256, |m.additionals| % 256]
    ensures Encode(m)[12..]
            == EncodeAll(EncodeQuestion, m.questions)
               + EncodeAll(EncodeRecord, m.answers + m.authorities + m.additionals)
  {
    HeadOctets(HeadOf(m));
    CutAtTwelve(EncodeHead(HeadOf(m)), EncodeQuestions(m.questions) + EncodeRecords(m.AllRecords()));
  }

  lemma HeadOctets(h: Head)
    ensures EncodeHead(h)
            == [h.id / 256, h.id % 256, h.flags / 256, h.flags % 256, h.qd / 256, h.qd % 256,
                h.an / 256, h.an % 256, h.ns / 256, h.ns % 256, h.ar / 256, h.ar % 256]
  {
  }

  // ----- the program's structures

  /** The fields of the flag word, read from its two octets. */
  lemma UpperFlags(a: Byte, b: Byte)
    ensures var f := 256 * (a as int) + b;
            && f / 0x8000 % 2 == a / 128 && f / 0x800 % 16 == a / 8 % 16 && f / 0x400 % 2 == a / 4 % 2
            && f / 0x200 % 2 == a / 2 % 2 && f / 0x100 % 2 == a % 2
  {
    var f := 256 * (a as int) + b;
    assert f / 0x100 == a;
    assert f / 0x200 == a / 2;
    assert f / 0x400 == a / 4;
    assert f / 0x800 == a / 8;
    assert f / 0x8000 == a / 128;
  }

  lemma LowerFlags(a: Byte, b: Byte)
    ensures var f := 256 * (a as int) + b;
            f / 0x80 % 2 == b / 128 && f / 0x10 % 8 == b / 16 % 8 && f % 16 == b % 16
  {
    var f := 256 * (a as int) + b;
    QuotientIs(f, 0x80, 2 * a + b / 128, b % 128);
    QuotientIs(2 * a + b / 128, 2, a, b / 128);
    QuotientIs(f, 0x10, 16 * a + b / 16, b % 16);
    QuotientIs(16 * a + b / 16, 8, 2 * a + b / 16 / 8, b / 16 % 8);
  }

  lemma HeadRead(data: Octets)
    requires Complete(data)
    ensures |data| >= 12
    ensures var h := HeadOf(Decode(data).value);
            && h.id == 256 * (data[0] as int) + data[1] && h.flags == 256 * (data[2] as int) + data[3]
            && h.qd == 256 * (data[4] as int) + data[5] && h.an == 256 * (data[6] as int) + data[7]
            && h.ns == 256 * (data[8] as int) + data[9] && h.ar == 256 * (data[10] as int) + data[11]
  {
    var m := Decode(data).value;
    EncodeDecode(data);
    HeadFirst(HeadOf(m), EncodeQuestions(m.questions) + EncodeRecords(m.AllRecords()), Decode(data).rest, data);
  }

  lemma HeadFirst(h: Head, body: Octets, tail: Octets, data: Octets)
    requires data == (EncodeHead(h) + body) + tail
    ensures |data| >= 12
    ensures h.id == 256 * (data[0] as int) + data[1] && h.flags == 256 * (data[2] as int) + data[3]
    ensures h.qd == 256 * (data[4] as int) + data[5] && h.an == 256 * (data[6] as int) + data[7]
    ensures h.ns == 256 * (data[8] as int) + data[9] && h.ar == 256 * (data[10] as int) + data[11]
  {
    var e := EncodeHead(h);
    HeadOctets(h);
    assert forall i | 0 <= i < 12 :: data[i] == e[i];
  }

  /** What the parser finds in the first twelve octets of a message. */
  lemma ParsedHeader(data: Octets)
    requires Complete(data)
    ensures |data| >= 12
    ensures var h := PacketOf(data).header;
            && h.id == 256 * (data[0] as int) + data[1]
            && h.qdcount == 256 * (data[4] as int) + data[5] && h.ancount == 256 * (data[6] as int) + data[7]
            && h.nscount == 256 * (data[8] as int) + data[9] && h.arcount == 256 * (data[10] as int) + data[11]
  {
    HeadRead(data);
  }

  lemma ParsedFlags(data: Octets)
    requires Complete(data)
    ensures |data| >= 12
    ensures var h := PacketOf(data).header;
            && h.qr == data[2] / 128 && h.opcode == data[2] / 8 % 16 && h.aa == data[2] / 4 % 2
            && h.tc == data[2] / 2 % 2 && h.rd == data[2] % 2
            && h.ra == data[3] / 128 && h.z == data[3] / 16 % 8 && h.rcode == data[3] % 16
  {
    HeadRead(data);
    UnpackedFlags(HeadOf(Decode(data).value), data[2], data[3]);
  }

  lemma UnpackedFlags(w: Head, a: Byte, b: Byte)
    requires w.flags == 256 * (a as int) + b
    ensures var h := UnpackHeader(w);
            && h.qr == a / 128 && h.opcode == a / 8 % 16 && h.aa == a / 4 % 2 && h.tc == a / 2 % 2 && h.rd == a % 2
            && h.ra == b / 128 && h.z == b / 16 % 8 && h.rcode == b % 16
  {
    UpperFlags(a, b);
    LowerFlags(a, b);
  }

  /** And behind them, entry by entry: the fields keep their places. */
  lemma ParsedEntries(m: Message)
    ensures var p := FlattenMessage(m);
            && |p.questions| == |m.questions|
            && (forall i | 0 <= i < |m.questions| ::
                  var q := m.questions[i]; p.questions[i] == DnsQuestion(Flatten(q.name), q.qtype, q.qclass))
    ensures var p, rs := FlattenMessage(m), m.answers + m.authorities + m.additionals;
            && |p.rrs| == |rs|
            && (forall i | 0 <= i < |rs| ::
                  var r := rs[i];
                  p.rrs[i] == DnsResourceRecord(Flatten(r.name), r.rtype, r.rclass, r.ttl, |r.rdata|, r.rdata))
  {
  }

  /** The octets that the program writes for any packet whatever. */
  lemma SerializedHeader(p: DnsPacket)
    ensures Serialized(p)[..12]
            == [p.header.id / 256, p.header.id % 256,
                128 * p.header.qr + 8 * p.header.opcode + 4 * p.header.aa + 2 * p.header.tc + p.header.rd,
                128 * p.header.ra + 16 * p.header.z + p.header.rcode,
                p.header.qdcount / 256, p.header.qdcount % 256, p.header.ancount / 256, p.header.ancount % 256,
                p.header.nscount / 256, p.header.nscount % 256, p.header.arcount / 256, p.header.arcount % 256]
    ensures Serialized(p)[12..] == EncodeAll(SerializedQuestion, p.questions) + EncodeAll(SerializedRecord, p.rrs)
  {
    HeadOctets(PackHeader(p.header));
    CutAtTwelve(EncodeHead(PackHeader(p.header)),
                EncodeAll(SerializedQuestion, p.questions) + EncodeAll(SerializedRecord, p.rrs));
  }

  lemma CutAtTwelve(head: Octets, body: Octets)
    requires |head| == 12
    ensures (head + body)[..12] == head && (head + body)[12..] == body
  {
  }

  lemma SerializedEntries(q: DnsQuestion, r: DnsResourceRecord)
    ensures SerializedQuestion(q)
            == Rebuild(q.qname) + [q.qtype / 256, q.qtype % 256, q.qclass / 256, q.qclass % 256]
    ensures SerializedRecord(r) == Rebuild(r.name)
            + ([r.rtype / 256, r.rtype % 256, r.rclass / 256, r.rclass % 256,
                r.ttl / 16777216, r.ttl / 65536 % 256, r.ttl / 256 % 256, r.ttl % 256,
                r.rdlength / 256, r.rdlength % 256] + r.rdata[..r.rdlength])
  {
    TenOctets(r.rtype, r.rclass, r.ttl, r.rdlength, r.rdata[..r.rdlength]);
  }
}
