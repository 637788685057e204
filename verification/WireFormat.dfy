/** The message syntax of sections 4.1.1 to 4.1.4 of RFC 1035, written down
    independently of the program: abstract syntax, encoder and decoder. The
    program's own codec is measured against this one. */
module WireFormat {
  import opened Bytes

  /** Section 2.3.4 of RFC 1035: labels are 1 to 63 octets. */
  type LabelText = s: Octets | 1 <= |s| <= 63 witness [0]

  /** First octet of a compression pointer: the two high bits are set. */
  type PointerByte = x: int | 0xC0 <= x < 0x100 witness 0xC0

  /** A name ends with the root or with a compression pointer. */
  datatype Name =
    | Root
    | Pointer(hi: PointerByte, lo: Byte)
    | Label(text: LabelText, rest: Name)

  type Rdata = s: Octets | |s| < 0x1_0000

  datatype Question = Question(name: Name, qtype: U16, qclass: U16)

  datatype Record = Record(name: Name, rtype: U16, rclass: U16, ttl: U32, rdata: Rdata)

  type Questions = s: seq<Question> | |s| < 0x1_0000
  type Records = s: seq<Record> | |s| < 0x1_0000

  datatype Message = Message(
    id: U16, flags: U16,
    questions: Questions, answers: Records, authorities: Records, additionals: Records)
  {
    function AllRecords(): seq<Record> {
      answers + authorities + additionals
    }
  }

  /** The outcome of reading a value off the front of a string of octets. */
  datatype Decoded<+T> = Malformed | Decoded(value: T, rest: Octets) {
    predicate IsFailure() { Malformed? }

    function PropagateFailure<U>(): Decoded<U>
      requires Malformed?
    {
      Malformed
    }

    function Extract(): (T, Octets)
      requires Decoded?
    {
      (value, rest)
    }
  }

  // ----- encoder

  function EncodeName(n: Name): (s: Octets)
    ensures |s| >= 1
  {
    match n
    case Root => [0]
    case Pointer(hi, lo) => [hi, lo]
    case Label(text, rest) => [|text|] + (text + EncodeName(rest))
  }

  function QuestionBody(qtype: U16, qclass: U16): Octets {
    PutU16(qtype) + PutU16(qclass)
  }

  function RecordBody(rtype: U16, rclass: U16, ttl: U32, rdata: Rdata): Octets {
    PutU16(rtype) + (PutU16(rclass) + (PutU32(ttl) + (PutU16(|rdata|) + rdata)))
  }

  function EncodeQuestion(q: Question): Octets {
    EncodeName(q.name) + QuestionBody(q.qtype, q.qclass)
  }

  function EncodeRecord(r: Record): Octets {
    EncodeName(r.name) + RecordBody(r.rtype, r.rclass, r.ttl, r.rdata)
  }

  function EncodeAll<T>(encode: T -> Octets, xs: seq<T>): Octets {
    if xs == [] then [] else encode(xs[0]) + EncodeAll(encode, xs[1..])
  }

  function EncodeQuestions(qs: seq<Question>): Octets {
    EncodeAll(EncodeQuestion, qs)
  }

  function EncodeRecords(rs: seq<Record>): Octets {
    EncodeAll(EncodeRecord, rs)
  }

  /** The fixed part of a message: identifier, flag word and the four counts. */
  datatype Head = Head(id: U16, flags: U16, qd: U16, an: U16, ns: U16, ar: U16)

  function EncodeHead(h: Head): (s: Octets)
    ensures |s| == 12 && s[..2] == PutU16(h.id)
  {
    PutU16(h.id) + (PutU16(h.flags) + (PutU16(h.qd) + (PutU16(h.an) + (PutU16(h.ns) + PutU16(h.ar)))))
  }

  function HeadOf(m: Message): Head {
    Head(m.id, m.flags, |m.questions|, |m.answers|, |m.authorities|, |m.additionals|)
  }

  function Encode(m: Message): Octets {
    EncodeHead(HeadOf(m)) + (EncodeQuestions(m.questions) + EncodeRecords(m.AllRecords()))
  }

  // ----- decoder

  function DecodeName(s: Octets): (d: Decoded<Name>)
    ensures d.Decoded? ==> |d.rest| < |s|
    decreases |s|
  {
    if s == [] then Malformed
    else if s[0] >= 0xC0 then
      if |s| < 2 then Malformed else Decoded(Pointer(s[0], s[1]), s[2..])
    else if s[0] == 0 then Decoded(Root, s[1..])
    else if s[0] > 63 || |s| < 1 + s[0] then Malformed
    else
      var (rest, s') :- DecodeName(s[1 + s[0]..]);
      Decoded(Label(s[1..1 + s[0]], rest), s')
  }

  function TakeU16(s: Octets): Decoded<U16> {
    if |s| < 2 then Malformed else Decoded(GetU16(s), s[2..])
  }

  function TakeU32(s: Octets): Decoded<U32> {
    if |s| < 4 then Malformed else Decoded(GetU32(s), s[4..])
  }

  function TakeRdata(s: Octets, n: U16): Decoded<Rdata> {
    if |s| < n then Malformed else Decoded(s[..n], s[n..])
  }

  function DecodeQuestion(s: Octets): Decoded<Question> {
    var (name, t0) :- DecodeName(s);
    var (qtype, t1) :- TakeU16(t0);
    var (qclass, t2) :- TakeU16(t1);
    Decoded(Question(name, qtype, qclass), t2)
  }

  function DecodeRecord(s: Octets): Decoded<Record> {
    var (name, t0) :- DecodeName(s);
    var (rtype, t1) :- TakeU16(t0);
    var (rclass, t2) :- TakeU16(t1);
    var (ttl, t3) :- TakeU32(t2);
    var (len, t4) :- TakeU16(t3);
    var (rdata, t5) :- TakeRdata(t4, len);
    Decoded(Record(name, rtype, rclass, ttl, rdata), t5)
  }

  function DecodeAll<T>(decode: Octets -> Decoded<T>, s: Octets, n: nat): (d: Decoded<seq<T>>)
    ensures d.Decoded? ==> |d.value| == n
    decreases n
  {
    if n == 0 then Decoded([], s)
    else
      var (x, t) :- decode(s);
      var (xs, u) :- DecodeAll(decode, t, n - 1);
      Decoded([x] + xs, u)
  }

  function DecodeQuestions(s: Octets, n: nat): (d: Decoded<seq<Question>>)
    ensures d.Decoded? ==> |d.value| == n
  {
    DecodeAll(DecodeQuestion, s, n)
  }

  function DecodeRecords(s: Octets, n: nat): (d: Decoded<seq<Record>>)
    ensures d.Decoded? ==> |d.value| == n
  {
    DecodeAll(DecodeRecord, s, n)
  }

  function DecodeHead(s: Octets): (d: Decoded<Head>)
    ensures d.Decoded? <==> |s| >= 12
  {
    var (id, t1) :- TakeU16(s);
    var (flags, t2) :- TakeU16(t1);
    var (qd, t3) :- TakeU16(t2);
    var (an, t4) :- TakeU16(t3);
    var (ns, t5) :- TakeU16(t4);
    var (ar, t6) :- TakeU16(t5);
    Decoded(Head(id, flags, qd, an, ns, ar), t6)
  }

  /** The counts of the fixed part say where each section starts. */
  function Assemble(h: Head, qs: seq<Question>, rs: seq<Record>): Message
    requires |qs| == h.qd && |rs| == h.an + h.ns + h.ar
  {
    Message(h.id, h.flags, qs, rs[..h.an], rs[h.an..h.an + h.ns], rs[h.an + h.ns..])
  }

  function Decode(s: Octets): Decoded<Message> {
    var (h, t) :- DecodeHead(s);
    DecodeSections(h, t)
  }

  function DecodeSections(h: Head, t: Octets): Decoded<Message> {
    var (qs, u) :- DecodeQuestions(t, h.qd);
    var (rs, v) :- DecodeRecords(u, h.an + h.ns + h.ar);
    Decoded(Assemble(h, qs, rs), v)
  }

  // ----- decoding undoes encoding

  lemma {:induction false} DecodeEncodeName(n: Name, tail: Octets)
    ensures DecodeName(EncodeName(n) + tail) == Decoded(n, tail)
  {
    match n
    case Root => assert ([0] + tail)[1..] == tail;
    case Pointer(hi, lo) => assert ([hi, lo] + tail)[2..] == tail;
    case Label(text, rest) =>
      DecodeEncodeName(rest, tail);
      LabelAndRest(text, EncodeName(rest), tail);
      DecodeLabel(EncodeName(n) + tail, text, rest, tail);
  }

  lemma LabelAndRest(text: LabelText, name: Octets, tail: Octets)
    ensures var s := ([|text|] + (text + name)) + tail;
            && |s| >= 1 + |text| && s[0] == |text| && s[1..1 + |text|] == text && s[1 + |text|..] == name + tail
  {
  }

  lemma DecodeLabel(s: Octets, text: LabelText, rest: Name, tail: Octets)
    requires |s| >= 1 + |text| && s[0] == |text| && s[1..1 + |text|] == text
    requires DecodeName(s[1 + |text|..]) == Decoded(rest, tail)
    ensures DecodeName(s) == Decoded(Label(text, rest), tail)
  {
  }

  lemma TakePutU16(n: U16, tail: Octets)
    ensures TakeU16(PutU16(n) + tail) == Decoded(n, tail)
  {
  }

  lemma TakePutU32(n: U32, tail: Octets)
    ensures TakeU32(PutU32(n) + tail) == Decoded(n, tail)
  {
    var s := PutU32(n) + tail;
    assert s[2..] == PutU16(n % 0x1_0000) + tail;
    assert s[4..] == tail;
  }

  lemma TakeEncodedRdata(rdata: Rdata, tail: Octets)
    ensures TakeRdata(rdata + tail, |rdata|) == Decoded(rdata, tail)
  {
    assert (rdata + tail)[|rdata|..] == tail;
  }

  lemma DecodeEncodeQuestion(q: Question, tail: Octets)
    ensures DecodeQuestion(EncodeQuestion(q) + tail) == Decoded(q, tail)
  {
    var t1 := PutU16(q.qclass) + tail;
    var t0 := PutU16(q.qtype) + t1;
    Regroup(EncodeName(q.name), QuestionBody(q.qtype, q.qclass), tail);
    Regroup(PutU16(q.qtype), PutU16(q.qclass), tail);
    DecodeEncodeName(q.name, t0);
    TakePutU16(q.qtype, t1);
    TakePutU16(q.qclass, tail);
  }

  lemma DecodeEncodeRecord(r: Record, tail: Octets)
    ensures DecodeRecord(EncodeRecord(r) + tail) == Decoded(r, tail)
  {
    var t4 := r.rdata + tail;
    var t3 := PutU16(|r.rdata|) + t4;
    var t2 := PutU32(r.ttl) + t3;
    var t1 := PutU16(r.rclass) + t2;
    var t0 := PutU16(r.rtype) + t1;
    RegroupRecord(r, tail);
    DecodeEncodeName(r.name, t0);
    TakePutU16(r.rtype, t1);
    TakePutU16(r.rclass, t2);
    TakePutU32(r.ttl, t3);
    TakePutU16(|r.rdata|, t4);
    TakeEncodedRdata(r.rdata, tail);
  }

  ghost predicate DecodesWhatItEncodes<T(!new)>(encode: T -> Octets, decode: Octets -> Decoded<T>) {
    forall x: T, tail: Octets :: decode(encode(x) + tail) == Decoded(x, tail)
  }

  lemma {:induction false} DecodeEncodeAll<T(!new)>(
      encode: T -> Octets, decode: Octets -> Decoded<T>, xs: seq<T>, tail: Octets)
    requires DecodesWhatItEncodes(encode, decode)
    ensures DecodeAll(decode, EncodeAll(encode, xs) + tail, |xs|) == Decoded(xs, tail)
  {
    if xs == [] {
      assert EncodeAll(encode, xs) + tail == tail;
    } else {
      Regroup(encode(xs[0]), EncodeAll(encode, xs[1..]), tail);
      DecodeEncodeAll(encode, decode, xs[1..], tail);
      assert [xs[0]] + xs[1..] == xs;
    }
  }

  lemma DecodeEncodeQuestions(qs: seq<Question>, tail: Octets)
    ensures DecodeQuestions(EncodeQuestions(qs) + tail, |qs|) == Decoded(qs, tail)
  {
    forall q, t: Octets ensures DecodeQuestion(EncodeQuestion(q) + t) == Decoded(q, t) {
      DecodeEncodeQuestion(q, t);
    }
    DecodeEncodeAll(EncodeQuestion, DecodeQuestion, qs, tail);
  }

  lemma DecodeEncodeRecords(rs: seq<Record>, tail: Octets)
    ensures DecodeRecords(EncodeRecords(rs) + tail, |rs|) == Decoded(rs, tail)
  {
    forall r, t: Octets ensures DecodeRecord(EncodeRecord(r) + t) == Decoded(r, t) {
      DecodeEncodeRecord(r, t);
    }
    DecodeEncodeAll(EncodeRecord, DecodeRecord, rs, tail);
  }

  lemma DecodeEncodeHead(h: Head, tail: Octets)
    ensures DecodeHead(EncodeHead(h) + tail) == Decoded(h, tail)
  {
    var t5 := PutU16(h.ar) + tail;
    var t4 := PutU16(h.ns) + t5;
    var t3 := PutU16(h.an) + t4;
    var t2 := PutU16(h.qd) + t3;
    var t1 := PutU16(h.flags) + t2;
    RegroupHead(h, tail);
    TakePutU16(h.id, t1);
    TakePutU16(h.flags, t2);
    TakePutU16(h.qd, t3);
    TakePutU16(h.an, t4);
    TakePutU16(h.ns, t5);
    TakePutU16(h.ar, tail);
  }

  lemma RegroupHead(h: Head, tail: Octets)
    ensures EncodeHead(h) + tail ==
            PutU16(h.id) + (PutU16(h.flags) + (PutU16(h.qd) + (PutU16(h.an) + (PutU16(h.ns) + (PutU16(h.ar) + tail)))))
  {
    var a, b, c, d, e, f := PutU16(h.id), PutU16(h.flags), PutU16(h.qd), PutU16(h.an), PutU16(h.ns), PutU16(h.ar);
    Regroup(a, b + (c + (d + (e + f))), tail);
    Regroup(b, c + (d + (e + f)), tail);
    Regroup(c, d + (e + f), tail);
    Regroup(d, e + f, tail);
    Regroup(e, f, tail);
  }

  lemma AssembleParts(m: Message)
    ensures Assemble(HeadOf(m), m.questions, m.AllRecords()) == m
  {
    var a, b, c := m.answers, m.authorities, m.additionals;
    var rs := m.AllRecords();
    assert rs[..|a|] == a;
    assert rs[|a|..|a| + |b|] == b;
    assert rs[|a| + |b|..] == c;
  }

  /** Every message is recovered from its encoding, and what follows it is left. */
  lemma DecodeEncode(m: Message, tail: Octets)
    ensures Decode(Encode(m) + tail) == Decoded(m, tail)
  {
    RegroupMessage(m, tail);
    DecodeEncodeSections(HeadOf(m), m.questions, m.AllRecords(), tail);
    AssembleParts(m);
  }

  lemma DecodeEncodeSections(h: Head, qs: seq<Question>, rs: seq<Record>, tail: Octets)
    requires |qs| == h.qd && |rs| == h.an + h.ns + h.ar
    ensures Decode(EncodeHead(h) + (EncodeQuestions(qs) + (EncodeRecords(rs) + tail)))
            == Decoded(Assemble(h, qs, rs), tail)
  {
    var u := EncodeRecords(rs) + tail;
    var t := EncodeQuestions(qs) + u;
    DecodeEncodeHead(h, t);
    DecodeEncodeQuestions(qs, u);
    DecodeEncodeRecords(rs, tail);
    DecodeInParts(EncodeHead(h) + t, h, t, qs, u, rs, tail);
  }

  lemma DecodeInParts(s: Octets, h: Head, t: Octets, qs: seq<Question>, u: Octets, rs: seq<Record>, v: Octets)
    requires DecodeHead(s) == Decoded(h, t)
    requires DecodeQuestions(t, h.qd) == Decoded(qs, u)
    requires DecodeRecords(u, h.an + h.ns + h.ar) == Decoded(rs, v)
    ensures Decode(s) == Decoded(Assemble(h, qs, rs), v)
  {
    SectionsInParts(h, t, qs, u, rs, v);
    assert Decode(s) == DecodeSections(h, t);
  }

  lemma SectionsInParts(h: Head, t: Octets, qs: seq<Question>, u: Octets, rs: seq<Record>, v: Octets)
    requires DecodeQuestions(t, h.qd) == Decoded(qs, u)
    requires DecodeRecords(u, h.an + h.ns + h.ar) == Decoded(rs, v)
    ensures DecodeSections(h, t) == Decoded(Assemble(h, qs, rs), v)
  {
  }

  lemma RegroupMessage(m: Message, tail: Octets)
    ensures Encode(m) + tail ==
            EncodeHead(HeadOf(m)) + (EncodeQuestions(m.questions) + (EncodeRecords(m.AllRecords()) + tail))
  {
    Regroup(EncodeHead(HeadOf(m)), EncodeQuestions(m.questions) + EncodeRecords(m.AllRecords()), tail);
    Regroup(EncodeQuestions(m.questions), EncodeRecords(m.AllRecords()), tail);
  }

  // ----- encoding undoes decoding

  lemma {:induction false} EncodeDecodeName(s: Octets)
    requires DecodeName(s).Decoded?
    ensures EncodeName(DecodeName(s).value) + DecodeName(s).rest == s
    decreases |s|
  {
    if 0 < s[0] < 0xC0 {
      var t := s[1 + s[0]..];
      EncodeDecodeName(t);
      JoinLabel(s, s[0], EncodeName(DecodeName(t).value), DecodeName(t).rest);
    }
  }

  /** A label, the rest of its name and what follows the name. */
  lemma JoinLabel(s: Octets, len: Byte, name: Octets, after: Octets)
    requires |s| >= 1 + len && s[0] == len && s[1 + len..] == name + after
    ensures ([len] + (s[1..1 + len] + name)) + after == s
  {
    var text := s[1..1 + len];
    Regroup([len], text + name, after);
    Regroup(text, name, after);
    Cut(s[1..], len);
    assert s[1..][..len] == text && s[1..][len..] == s[1 + len..];
    assert s == [len] + s[1..];
  }

  lemma PutTakeU16(s: Octets, n: U16, t: Octets)
    requires TakeU16(s) == Decoded(n, t)
    ensures s == PutU16(n) + t
  {
    PutGetU16(s);
  }

  lemma PutTakeU32(s: Octets, n: U32, t: Octets)
    requires TakeU32(s) == Decoded(n, t)
    ensures s == PutU32(n) + t
  {
    PutGetU32(s);
  }

  lemma EncodeDecodeQuestion(s: Octets)
    requires DecodeQuestion(s).Decoded?
    ensures EncodeQuestion(DecodeQuestion(s).value) + DecodeQuestion(s).rest == s
  {
    var Decoded(q, t2) := DecodeQuestion(s);
    var t0 := DecodeName(s).rest;
    var t1 := TakeU16(t0).rest;
    EncodeDecodeName(s);
    PutTakeU16(t0, q.qtype, t1);
    PutTakeU16(t1, q.qclass, t2);
    Regroup(EncodeName(q.name), QuestionBody(q.qtype, q.qclass), t2);
    Regroup(PutU16(q.qtype), PutU16(q.qclass), t2);
  }

  lemma PartsOfRecord(s: Octets)
      returns (r: Record, t0: Octets, t1: Octets, t2: Octets, t3: Octets, t4: Octets, t5: Octets)
    requires DecodeRecord(s).Decoded?
    ensures DecodeName(s) == Decoded(r.name, t0) && TakeU16(t0) == Decoded(r.rtype, t1)
    ensures TakeU16(t1) == Decoded(r.rclass, t2) && TakeU32(t2) == Decoded(r.ttl, t3)
    ensures TakeU16(t3) == Decoded(|r.rdata|, t4) && t4 == r.rdata + t5
    ensures DecodeRecord(s) == Decoded(r, t5)
  {
    r, t5 := DecodeRecord(s).value, DecodeRecord(s).rest;
    t0 := DecodeName(s).rest;
    t1 := TakeU16(t0).rest;
    t2 := TakeU16(t1).rest;
    t3 := TakeU32(t2).rest;
    t4 := TakeU16(t3).rest;
    assert t4 == t4[..|r.rdata|] + t4[|r.rdata|..];
  }

  lemma EncodeDecodeRecord(s: Octets)
    requires DecodeRecord(s).Decoded?
    ensures EncodeRecord(DecodeRecord(s).value) + DecodeRecord(s).rest == s
  {
    var r, t0, t1, t2, t3, t4, t5 := PartsOfRecord(s);
    EncodeDecodeName(s);
    PutTakeU16(t0, r.rtype, t1);
    PutTakeU16(t1, r.rclass, t2);
    PutTakeU32(t2, r.ttl, t3);
    PutTakeU16(t3, |r.rdata|, t4);
    JoinRecord(s, r, t0, t1, t2, t3, t4, t5);
  }

  lemma JoinRecord(s: Octets, r: Record, t0: Octets, t1: Octets, t2: Octets, t3: Octets, t4: Octets, t5: Octets)
    requires s == EncodeName(r.name) + t0 && t0 == PutU16(r.rtype) + t1 && t1 == PutU16(r.rclass) + t2
    requires t2 == PutU32(r.ttl) + t3 && t3 == PutU16(|r.rdata|) + t4 && t4 == r.rdata + t5
    ensures EncodeRecord(r) + t5 == s
  {
    RegroupRecord(r, t5);
  }

  lemma RegroupRecord(r: Record, tail: Octets)
    ensures EncodeRecord(r) + tail ==
            EncodeName(r.name) + (PutU16(r.rtype) + (PutU16(r.rclass) + (PutU32(r.ttl)
            + (PutU16(|r.rdata|) + (r.rdata + tail)))))
  {
    var n, a, b, c, d := EncodeName(r.name), PutU16(r.rtype), PutU16(r.rclass), PutU32(r.ttl), PutU16(|r.rdata|);
    Regroup(n, a + (b + (c + (d + r.rdata))), tail);
    Regroup(a, b + (c + (d + r.rdata)), tail);
    Regroup(b, c + (d + r.rdata), tail);
    Regroup(c, d + r.rdata, tail);
    Regroup(d, r.rdata, tail);
  }

  ghost predicate EncodesWhatItDecodes<T>(encode: T -> Octets, decode: Octets -> Decoded<T>) {
    forall s: Octets :: decode(s).Decoded? ==> encode(decode(s).value) + decode(s).rest == s
  }

  lemma {:induction false} EncodeDecodeAll<T>(
      encode: T -> Octets, decode: Octets -> Decoded<T>, s: Octets, n: nat)
    requires EncodesWhatItDecodes(encode, decode)
    requires DecodeAll(decode, s, n).Decoded?
    ensures EncodeAll(encode, DecodeAll(decode, s, n).value) + DecodeAll(decode, s, n).rest == s
    decreases n
  {
    if n > 0 {
      var Decoded(x, t) := decode(s);
      var Decoded(xs, u) := DecodeAll(decode, t, n - 1);
      EncodeDecodeAll(encode, decode, t, n - 1);
      assert ([x] + xs)[1..] == xs;
      Regroup(encode(x), EncodeAll(encode, xs), u);
    }
  }

  lemma EncodeDecodeQuestions(s: Octets, n: nat)
    requires DecodeQuestions(s, n).Decoded?
    ensures EncodeQuestions(DecodeQuestions(s, n).value) + DecodeQuestions(s, n).rest == s
  {
    forall t: Octets | DecodeQuestion(t).Decoded?
      ensures EncodeQuestion(DecodeQuestion(t).value) + DecodeQuestion(t).rest == t
    {
      EncodeDecodeQuestion(t);
    }
    EncodeDecodeAll(EncodeQuestion, DecodeQuestion, s, n);
  }

  lemma EncodeDecodeRecords(s: Octets, n: nat)
    requires DecodeRecords(s, n).Decoded?
    ensures EncodeRecords(DecodeRecords(s, n).value) + DecodeRecords(s, n).rest == s
  {
    forall t: Octets | DecodeRecord(t).Decoded?
      ensures EncodeRecord(DecodeRecord(t).value) + DecodeRecord(t).rest == t
    {
      EncodeDecodeRecord(t);
    }
    EncodeDecodeAll(EncodeRecord, DecodeRecord, s, n);
  }

  lemma EncodeDecodeHead(s: Octets, h: Head, t: Octets)
    requires DecodeHead(s) == Decoded(h, t)
    ensures s == EncodeHead(h) + t
  {
    var Decoded(_, t1) := TakeU16(s);
    var Decoded(_, t2) := TakeU16(t1);
    var Decoded(_, t3) := TakeU16(t2);
    var Decoded(_, t4) := TakeU16(t3);
    var Decoded(_, t5) := TakeU16(t4);
    PutTakeU16(s, h.id, t1);
    PutTakeU16(t1, h.flags, t2);
    PutTakeU16(t2, h.qd, t3);
    PutTakeU16(t3, h.an, t4);
    PutTakeU16(t4, h.ns, t5);
    PutTakeU16(t5, h.ar, t);
    RegroupHead(h, t);
  }

  lemma PartsOfAssembled(h: Head, qs: seq<Question>, rs: seq<Record>)
    requires |qs| == h.qd && |rs| == h.an + h.ns + h.ar
    ensures var m := Assemble(h, qs, rs);
            HeadOf(m) == h && m.questions == qs && m.AllRecords() == rs
  {
  }

  lemma PartsOfDecoded(s: Octets)
      returns (h: Head, t: Octets, qs: seq<Question>, u: Octets, rs: seq<Record>, v: Octets)
    requires Decode(s).Decoded?
    ensures DecodeHead(s) == Decoded(h, t) && DecodeQuestions(t, h.qd) == Decoded(qs, u)
    ensures DecodeRecords(u, h.an + h.ns + h.ar) == Decoded(rs, v)
    ensures |qs| == h.qd && |rs| == h.an + h.ns + h.ar && Decode(s) == Decoded(Assemble(h, qs, rs), v)
  {
    h, t := DecodeHead(s).value, DecodeHead(s).rest;
    assert Decode(s) == DecodeSections(h, t);
    qs, u, rs, v := PartsOfSections(h, t);
  }

  lemma PartsOfSections(h: Head, t: Octets) returns (qs: seq<Question>, u: Octets, rs: seq<Record>, v: Octets)
    requires DecodeSections(h, t).Decoded?
    ensures DecodeQuestions(t, h.qd) == Decoded(qs, u) && DecodeRecords(u, h.an + h.ns + h.ar) == Decoded(rs, v)
    ensures |qs| == h.qd && |rs| == h.an + h.ns + h.ar && DecodeSections(h, t) == Decoded(Assemble(h, qs, rs), v)
  {
    qs, u := DecodeQuestions(t, h.qd).value, DecodeQuestions(t, h.qd).rest;
    rs, v := DecodeRecords(u, h.an + h.ns + h.ar).value, DecodeRecords(u, h.an + h.ns + h.ar).rest;
  }

  /** Only encodings of messages decode: nothing else is accepted. */
  lemma EncodeDecode(s: Octets)
    requires Decode(s).Decoded?
    ensures Encode(Decode(s).value) + Decode(s).rest == s
  {
    var h, t, qs, u, rs, v := PartsOfDecoded(s);
    EncodeDecodeHead(s, h, t);
    EncodeDecodeQuestions(t, h.qd);
    EncodeDecodeRecords(u, h.an + h.ns + h.ar);
    PartsOfAssembled(h, qs, rs);
    JoinMessage(s, Assemble(h, qs, rs), t, u, v);
  }

  lemma JoinMessage(s: Octets, m: Message, t: Octets, u: Octets, v: Octets)
    requires s == EncodeHead(HeadOf(m)) + t
    requires t == EncodeQuestions(m.questions) + u && u == EncodeRecords(m.AllRecords()) + v
    ensures Encode(m) + v == s
  {
    RegroupMessage(m, v);
  }
}
