/** `DomainName::operator==`, by which a response is matched with a query. It compares
    the flattened strings; here is when that amounts to comparing names on the wire. */
module NameComparison {
  import opened Bytes
  import opened WireFormat
  import opened DomainNames
  import opened DnsPackets

  lemma EncodingsDiffer(m: Name, n: Name)
    ensures EncodeName(m) == EncodeName(n) <==> m == n
  {
    DecodeEncodeName(m, []);
    DecodeEncodeName(n, []);
    assert EncodeName(m) + [] == EncodeName(m);
    assert EncodeName(n) + [] == EncodeName(n);
  }

  // ----- against canonical names

  /** On canonical names, comparing strings is comparing wire names. */
  lemma EqualStringsEqualNames(m: Name, n: Name)
    requires Canonical(m) && Canonical(n)
    ensures Flatten(m) == Flatten(n) <==> m == n
    ensures Flatten(m) == Flatten(n) <==> EncodeName(m) == EncodeName(n)
  {
    FlattenIsCanonicalString(m);
    FlattenIsCanonicalString(n);
    EncodingsDiffer(m, n);
  }

  /** A name is taken for a different, canonical one exactly when it is not canonical
      itself but its string is one that canonical names flatten to. */
  lemma CanonicalCollisionIff(n: Name)
    ensures (exists m :: Canonical(m) && EncodeName(m) != EncodeName(n) && Flatten(m) == Flatten(n))
            <==> !Canonical(n) && CanonicalString(Flatten(n))
  {
    if !Canonical(n) && CanonicalString(Flatten(n)) {
      var m := Unflatten(Flatten(n));
      FlattenUnflatten(Flatten(n));
      EncodingsDiffer(m, n);
      assert Canonical(m) && EncodeName(m) != EncodeName(n) && Flatten(m) == Flatten(n);
    }
    forall m | Canonical(m) && EncodeName(m) != EncodeName(n) && Flatten(m) == Flatten(n)
      ensures !Canonical(n) && CanonicalString(Flatten(n))
    {
      FlattenIsCanonicalString(m);
      if Canonical(n) {
        EqualStringsEqualNames(m, n);
      }
    }
  }

  /** An instance: `a.b` as one label and as two. */
  lemma DottedLabelCollides()
    ensures Flatten(Label([97, DOT, 98], Root)) == Flatten(Label([97], Label([98], Root)))
    ensures EncodeName(Label([97, DOT, 98], Root)) != EncodeName(Label([97], Label([98], Root)))
  {
    var one, two := Label([97, DOT, 98], Root), Label([97], Label([98], Root));
    assert Flatten(two) == [97] + ([DOT] + ([98] + ([DOT] + [])));
    assert EncodeName(one)[0] == 3 && EncodeName(two)[0] == 1;
  }

  // ----- against all names

  /** Some name flattens to `s`. */
  predicate Readable(s: Octets) {
    || s == []
    || (|s| == 2 && s[0] >= 0xC0)
    || exists i :: 1 <= i <= 63 && LabelEnds(s, i)
  }

  /** The first label may end at position `i`. */
  predicate LabelEnds(s: Octets, i: nat) {
    i < |s| && s[i] == DOT && Readable(s[i + 1..])
  }

  lemma JoinAt(s: Octets, i: nat)
    requires i < |s| && s[i] == DOT
    ensures Dotted(s[..i], s[i + 1..]) == s
  {
    SplitAt(s, i);
    HeadAndTail(s[i..]);
  }

  lemma {:induction false} ReadableIsRead(s: Octets) returns (n: Name)
    requires Readable(s)
    ensures Flatten(n) == s
    decreases |s|
  {
    if s == [] {
      n := Root;
    } else if |s| == 2 && s[0] >= 0xC0 {
      n := Pointer(s[0], s[1]);
    } else {
      var i :| 1 <= i <= 63 && LabelEnds(s, i);
      var rest := ReadableIsRead(s[i + 1..]);
      JoinAt(s, i);
      n := Label(s[..i], rest);
    }
  }

  lemma {:induction false} FlattenIsReadable(n: Name)
    ensures Readable(Flatten(n))
    ensures n.Label? ==> LabelEnds(Flatten(n), |n.text|)
  {
    if n.Label? {
      FlattenIsReadable(n.rest);
      DottedAt(n.text, Flatten(n.rest), |n.text|);
      AfterDot(n.text, Flatten(n.rest), |n.text|);
      assert LabelEnds(Flatten(n), |n.text|);
    }
  }

  /** The string can be read in another way: as a pointer instead of a label, as a label
      instead of a pointer, or with one of the labels ending at another dot. */
  predicate Ambiguous(n: Name) {
    match n
    case Root => false
    case Pointer(_, lo) => lo == DOT
    case Label(text, rest) =>
      || (text[0] >= 0xC0 && |text| == 1 && rest.Root?)
      || (exists i :: 1 <= i <= 63 && i != |text| && LabelEnds(Flatten(n), i))
      || Ambiguous(rest)
  }

  lemma {:induction false} AmbiguousCollides(n: Name) returns (m: Name)
    requires Ambiguous(n)
    ensures m != n && Flatten(m) == Flatten(n)
  {
    match n
    case Pointer(hi, lo) => m := Label([hi], Root);
    case Label(text, rest) =>
      if text[0] >= 0xC0 && |text| == 1 && rest.Root? {
        m := Pointer(text[0], DOT);
      } else if i :| 1 <= i <= 63 && i != |text| && LabelEnds(Flatten(n), i) {
        var other := ReadableIsRead(Flatten(n)[i + 1..]);
        JoinAt(Flatten(n), i);
        m := Label(Flatten(n)[..i], other);
      } else {
        var other := AmbiguousCollides(rest);
        m := Label(text, other);
      }
  }

  lemma {:induction false} CollisionIsAmbiguous(m: Name, n: Name)
    requires m != n && Flatten(m) == Flatten(n)
    ensures Ambiguous(n)
    decreases n
  {
    if n.Label? && m.Label? {
      if |m.text| == |n.text| {
        SameFirstLabel(m, n);
        CollisionIsAmbiguous(m.rest, n.rest);
      } else {
        FlattenIsReadable(m);
      }
    } else {
      OneIsPointer(m, n);
    }
  }

  lemma SameFirstLabel(m: Name, n: Name)
    requires m.Label? && n.Label? && |m.text| == |n.text| && Flatten(m) == Flatten(n)
    ensures m.text == n.text && Flatten(m.rest) == Flatten(n.rest)
  {
    DottedAt(m.text, Flatten(m.rest), |m.text|);
    DottedAt(n.text, Flatten(n.rest), |n.text|);
    AfterDot(m.text, Flatten(m.rest), |m.text|);
    AfterDot(n.text, Flatten(n.rest), |n.text|);
  }

  lemma OneIsPointer(m: Name, n: Name)
    requires m != n && Flatten(m) == Flatten(n) && !(m.Label? && n.Label?)
    ensures Ambiguous(n)
  {
    if n.Label? {
      DottedAt(n.text, Flatten(n.rest), |n.text|);
      assert |Flatten(n.rest)| == 0 ==> n.rest.Root?;
    } else if m.Label? {
      DottedAt(m.text, Flatten(m.rest), |m.text|);
    }
  }

  /** A name is taken for a different one, canonical or not, exactly when its string can be
      read in another way; for a name that cannot, comparing strings is exact. */
  lemma CollisionIff(n: Name)
    ensures (exists m :: EncodeName(m) != EncodeName(n) && Flatten(m) == Flatten(n)) <==> Ambiguous(n)
  {
    if Ambiguous(n) {
      var m := AmbiguousCollides(n);
      EncodingsDiffer(m, n);
      assert EncodeName(m) != EncodeName(n);
    }
    forall m | EncodeName(m) != EncodeName(n) && Flatten(m) == Flatten(n) ensures Ambiguous(n) {
      EncodingsDiffer(m, n);
      CollisionIsAmbiguous(m, n);
    }
  }

  // ----- lists of questions

  /** The two messages have the same questions, in the program's eyes. */
  predicate SameQuestions(m: Message, n: Message) {
    FlattenMessage(m).questions == FlattenMessage(n).questions
  }

  lemma QuestionOctets(m: Message, n: Message)
    requires SameQuestions(m, n)
    ensures EncodeQuestions(m.questions) == EncodeQuestions(n.questions) <==> m.questions == n.questions
  {
    DecodeEncodeQuestions(m.questions, []);
    DecodeEncodeQuestions(n.questions, []);
    assert |m.questions| == |FlattenMessage(m).questions| == |n.questions|;
  }

  lemma SameNameStrings(m: Message, n: Message, i: nat)
    requires SameQuestions(m, n) && i < |m.questions|
    ensures i < |n.questions| && Flatten(m.questions[i].name) == Flatten(n.questions[i].name)
    ensures m.questions[i].qtype == n.questions[i].qtype && m.questions[i].qclass == n.questions[i].qclass
  {
    assert FlattenMessage(m).questions[i] == FlattenMessage(n).questions[i];
  }

  /** Two canonical messages with the same questions have them in the same octets. */
  lemma CanonicalQuestionsMatch(m: Message, n: Message)
    requires SameQuestions(m, n)
    requires forall q | q in m.questions + n.questions :: Canonical(q.name)
    ensures EncodeQuestions(m.questions) == EncodeQuestions(n.questions)
  {
    forall i | 0 <= i < |m.questions| ensures i < |n.questions| && m.questions[i] == n.questions[i] {
      SameNameStrings(m, n, i);
      assert m.questions[i] in m.questions && n.questions[i] in n.questions;
      EqualStringsEqualNames(m.questions[i].name, n.questions[i].name);
    }
    SameQuestionsOctets(m, n);
  }

  lemma SameQuestionsOctets(m: Message, n: Message)
    requires SameQuestions(m, n)
    requires forall i | 0 <= i < |m.questions| && i < |n.questions| :: m.questions[i] == n.questions[i]
    ensures EncodeQuestions(m.questions) == EncodeQuestions(n.questions)
  {
    assert |m.questions| == |FlattenMessage(m).questions| == |n.questions|;
    assert m.questions == n.questions;
  }

  ghost predicate UnambiguousQuestions(m: Message) {
    forall q | q in m.questions :: !Ambiguous(q.name)
  }

  lemma UnambiguousQuestionsMatch(m: Message, n: Message)
    requires SameQuestions(m, n) && UnambiguousQuestions(n)
    ensures EncodeQuestions(m.questions) == EncodeQuestions(n.questions)
  {
    forall i | 0 <= i < |m.questions| && i < |n.questions| ensures m.questions[i] == n.questions[i] {
      SameNameStrings(m, n, i);
      assert n.questions[i] in n.questions;
      CollisionIff(n.questions[i].name);
      EncodingsDiffer(m.questions[i].name, n.questions[i].name);
    }
    SameQuestionsOctets(m, n);
  }

  lemma AmbiguousQuestionCollides(n: Message, i: nat) returns (m: Message)
    requires i < |n.questions| && Ambiguous(n.questions[i].name)
    ensures SameQuestions(m, n) && EncodeQuestions(m.questions) != EncodeQuestions(n.questions)
  {
    var q := n.questions[i];
    var other := AmbiguousCollides(q.name);
    m := n.(questions := n.questions[i := q.(name := other)]);
    assert FlattenMessage(m).questions == FlattenMessage(n).questions;
    QuestionOctets(m, n);
    assert m.questions[i] != n.questions[i];
  }

  /** The test by which a response is accepted lets through only the octets that were asked
      for, whatever comes in, exactly when no name asked for is ambiguous. */
  lemma MatchIsExactIff(n: Message)
    ensures (forall m | SameQuestions(m, n) :: EncodeQuestions(m.questions) == EncodeQuestions(n.questions))
            <==> UnambiguousQuestions(n)
  {
    if UnambiguousQuestions(n) {
      forall m | SameQuestions(m, n) ensures EncodeQuestions(m.questions) == EncodeQuestions(n.questions) {
        UnambiguousQuestionsMatch(m, n);
      }
    } else {
      var i :| 0 <= i < |n.questions| && Ambiguous(n.questions[i].name);
      var m := AmbiguousQuestionCollides(n, i);
    }
  }
}
