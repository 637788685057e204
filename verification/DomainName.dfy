/** `DomainName`: a name flattened to a dotted string, with a raw compression
    pointer at its tail, and rebuilt by scanning for dots. */
module DomainNames {
  import opened Bytes
  import opened WireFormat

  const DOT: Byte := 46

  /** The string that `DomainName::parse` leaves in `name`. */
  function Flatten(n: Name): Octets {
    match n
    case Root => []
    case Pointer(hi, lo) => [hi, lo]
    case Label(text, rest) => Dotted(text, Flatten(rest))
  }

  function Dotted(x: Octets, tail: Octets): Octets { x + ([DOT] + tail) }

  /** `string::find('.')`; the length when there is no dot. */
  function FindDot(s: Octets): (i: nat)
    ensures i <= |s| && forall k | 0 <= k < i :: s[k] != DOT
    ensures i < |s| ==> s[i] == DOT
  {
    if s == [] || s[0] == DOT then 0 else 1 + FindDot(s[1..])
  }

  /** The scan of `DomainName::serialize` is defined: wherever it looks for a
      dot, there is one. */
  predicate Scannable(s: Octets) {
    s == [] || s[0] >= 0xC0 || (FindDot(s) < |s| && Scannable(s[FindDot(s) + 1..]))
  }

  /** A length octet, that many octets of text, and what follows. */
  function Segment(text: Octets, after: Octets): Octets {
    [|text| % 0x100] + (text + after)
  }

  /** What `DomainName::serialize` writes. A pointer ends the scan; its second
      octet is the terminating NUL of `c_str` when the string stops short. */
  function Rebuild(s: Octets): (r: Octets)
    requires Scannable(s)
    ensures |r| >= 1
  {
    if s == [] then [0]
    else if s[0] >= 0xC0 then [s[0], if |s| > 1 then s[1] else 0]
    else
      var i := FindDot(s);
      Segment(s[..i], Rebuild(s[i + 1..]))
  }

  lemma SliceOfSlice(s: Octets, pos: nat, len: nat)
    requires pos + len < |s|
    ensures s[pos..][..len] == s[pos..pos + len]
    ensures s[pos..][len + 1..] == s[pos + len + 1..]
  {
  }

  lemma JoinRebuilt(a: Octets, b: Octets, c: Octets, d: Octets)
    ensures (a + b + c) + d == a + (b + (c + d))
  {
  }

  /** How the first octets of an encoded name show which kind of name it is. */
  lemma NameStarts(s: Octets, n: Name, after: Octets)
    requires DecodeName(s) == Decoded(n, after)
    ensures s != []
    ensures s[0] >= 0xC0 ==> |s| >= 2 && n.Pointer? && s[..2] == Flatten(n) && after == s[2..]
    ensures s[0] == 0 ==> n.Root? && after == s[1..]
    ensures 0 < s[0] < 0xC0 ==>
      && n.Label? && s[0] <= |s[1..]| && n.text == s[1..][..s[0]]
      && DecodeName(s[1..][s[0]..]) == Decoded(n.rest, after)
  {
    if 0 < s[0] < 0xC0 {
      SliceOfTail(s, s[0]);
    }
  }

  lemma SliceOfTail(s: Octets, len: nat)
    requires len < |s|
    ensures s[1..][..len] == s[1..1 + len] && s[1..][len..] == s[1 + len..]
  {
  }

  lemma JoinText(before: Octets, x: Octets, tail: Octets)
    ensures (before + x + [DOT]) + tail == before + Dotted(x, tail)
  {
  }

  /** `DomainName::parse`. The ghost arguments name what the stream encodes. */
  method ParseName(input: InStream, ghost n: Name, ghost after: Octets) returns (name: Octets)
    requires input.Valid() && DecodeName(input.Rest()) == Decoded(n, after)
    modifies input
    ensures input.Valid() && input.Rest() == after && name == Flatten(n)
  {
    ghost var left := n;
    name := [];
    var more := true;
    while more
      invariant input.Valid() && (more ==> DecodeName(input.Rest()) == Decoded(left, after))
      invariant more ==> name + Flatten(left) == Flatten(n)
      invariant !more ==> input.Rest() == after && name == Flatten(n)
      decreases more, left
    {
      more, name := ParsePart(input, name, left, after);
      if more {
        left := left.rest;
      }
    }
  }

  /** One turn of its loop: a pointer or the root ends it, a label is followed by more. */
  method ParsePart(input: InStream, name: Octets, ghost n: Name, ghost after: Octets)
      returns (more: bool, longer: Octets)
    requires input.Valid() && DecodeName(input.Rest()) == Decoded(n, after)
    modifies input
    ensures input.Valid() && more == n.Label?
    ensures more ==> DecodeName(input.Rest()) == Decoded(n.rest, after)
    ensures more ==> longer + Flatten(n.rest) == name + Flatten(n)
    ensures !more ==> input.Rest() == after && longer == name + Flatten(n)
  {
    NameStarts(input.Rest(), n, after);
    var b := input.Peek();
    if b / 64 % 4 == 3 {
      var tmp := ParsePointer(input, n, after);
      return false, name + tmp;
    } else if b == 0 {
      var _ := input.Get();
      assert name + [] == name;
      return false, name;
    }
    var tmp := ParseLabel(input, n, after);
    JoinText(name, tmp, Flatten(n.rest));
    return true, name + tmp + [DOT];
  }

  method ParsePointer(input: InStream, ghost n: Name, ghost after: Octets) returns (tmp: Octets)
    requires input.Valid() && DecodeName(input.Rest()) == Decoded(n, after)
    requires input.Rest() != [] && input.Rest()[0] >= 0xC0
    modifies input
    ensures input.Valid() && n.Pointer? && tmp == Flatten(n) && input.Rest() == after
  {
    NameStarts(input.Rest(), n, after);
    tmp := input.Read(2);
  }

  method ParseLabel(input: InStream, ghost n: Name, ghost after: Octets) returns (text: Octets)
    requires input.Valid() && DecodeName(input.Rest()) == Decoded(n, after) && n.Label?
    modifies input
    ensures input.Valid() && text == n.text && DecodeName(input.Rest()) == Decoded(n.rest, after)
  {
    NameStarts(input.Rest(), n, after);
    var len := input.Get();
    text := input.Read(len);
  }

  /** `DomainName::serialize`. */
  method SerializeName(name: Octets, output: OutStream)
    requires Scannable(name)
    modifies output
    ensures output.data == old(output.data) + Rebuild(name)
  {
    var pos := 0;
    ghost var left := name;
    while pos < |name|
      invariant pos <= |name| && left == name[pos..] && Scannable(left)
      invariant output.data + Rebuild(left) == old(output.data) + Rebuild(name)
    {
      var more;
      more, pos, left := SerializePart(name, pos, output, left);
      if !more {
        return;
      }
    }
    output.Put(0);
  }

  /** One turn of its loop: a pointer ends it, a label is followed by more. */
  method SerializePart(name: Octets, pos: nat, output: OutStream, ghost left: Octets)
      returns (more: bool, next: nat, ghost rest: Octets)
    requires pos < |name| && left == name[pos..] && Scannable(left)
    modifies output
    ensures more ==> pos < next <= |name| && rest == name[next..] && Scannable(rest)
    ensures more ==> output.data + Rebuild(rest) == old(output.data) + Rebuild(left)
    ensures !more ==> output.data == old(output.data) + Rebuild(left)
  {
    if name[pos] / 64 % 4 == 3 {
      RebuiltPointer(left);
      output.Write([name[pos], if pos + 1 < |name| then name[pos + 1] else 0]);
      return false, pos, left;
    }
    ScannableLabel(left);
    next, rest := SerializeSegment(name, pos, output, left);
    return true, next, rest;
  }

  method SerializeSegment(name: Octets, pos: nat, output: OutStream, ghost left: Octets)
      returns (next: nat, ghost rest: Octets)
    requires pos < |name| && left == name[pos..] && left[0] < 0xC0
    requires Scannable(left) && FindDot(left) < |left| && Scannable(left[FindDot(left) + 1..])
    modifies output
    ensures pos < next <= |name| && rest == name[next..] && rest == left[FindDot(left) + 1..]
    ensures output.data + Rebuild(rest) == old(output.data) + Rebuild(left)
  {
    var len := FindDot(name[pos..]);
    rest := left[len + 1..];
    RebuiltLabel(left, len, rest);
    SliceOfSlice(name, pos, len);
    SerializeLabel(name[pos..pos + len], output, Rebuild(rest));
    next := pos + len + 1;
  }

  lemma RebuiltPointer(s: Octets)
    requires s != [] && s[0] >= 0xC0
    ensures Scannable(s) && Rebuild(s) == [s[0], if |s| > 1 then s[1] else 0]
  {
  }

  lemma ScannableLabel(s: Octets)
    requires s != [] && s[0] < 0xC0 && Scannable(s)
    ensures FindDot(s) < |s| && Scannable(s[FindDot(s) + 1..])
  {
  }

  lemma RebuiltLabel(s: Octets, i: nat, rest: Octets)
    requires s != [] && s[0] < 0xC0 && i == FindDot(s) < |s| && rest == s[i + 1..] && Scannable(rest)
    ensures Scannable(s) && Rebuild(s) == Segment(s[..i], Rebuild(rest))
  {
  }

  method SerializeLabel(text: Octets, output: OutStream, ghost after: Octets)
    modifies output
    ensures output.data + after == old(output.data) + Segment(text, after)
  {
    JoinRebuilt(output.data, [|text| % 0x100], text, after);
    output.Put(|text| % 0x100);
    output.Write(text);
  }

  // ----- the strings that parsing produces

  lemma {:induction false} FindDotIs(s: Octets, i: nat)
    requires i <= |s| && (i < |s| ==> s[i] == DOT) && forall k | 0 <= k < i :: s[k] != DOT
    ensures FindDot(s) == i
    decreases i
  {
    if i > 0 {
      FindDotIs(s[1..], i - 1);
    }
  }

  lemma DottedAt(x: Octets, tail: Octets, i: nat)
    requires i <= |x|
    ensures var s := Dotted(x, tail);
            && |s| == |x| + 1 + |tail| && (forall k | 0 <= k < |x| :: s[k] == x[k]) && s[|x|] == DOT
            && s[..i] == x[..i]
  {
  }

  /** The first dot of `x . tail` is the first dot of `x`, or the one after it. */
  lemma DotFound(x: Octets, tail: Octets)
    ensures FindDot(Dotted(x, tail)) == FindDot(x) < |Dotted(x, tail)|
    ensures Dotted(x, tail)[..FindDot(x)] == x[..FindDot(x)]
  {
    DottedAt(x, tail, FindDot(x));
    FindDotIs(Dotted(x, tail), FindDot(x));
  }

  lemma AfterDot(x: Octets, tail: Octets, i: nat)
    requires i <= |x|
    ensures Dotted(x, tail)[i + 1..] == if i == |x| then tail else Dotted(x[i + 1..], tail)
  {
  }

  lemma DotJoins(s: Octets)
    requires FindDot(s) < |s|
    ensures s == Dotted(s[..FindDot(s)], s[FindDot(s) + 1..])
  {
    SplitAt(s, FindDot(s));
    HeadAndTail(s[FindDot(s)..]);
  }

  lemma SplitAt(s: Octets, i: nat)
    requires i < |s|
    ensures s == s[..i] + s[i..] && s[i..][1..] == s[i + 1..]
  {
  }

  lemma HeadAndTail(s: Octets)
    requires s != []
    ensures s == [s[0]] + s[1..]
  {
  }

  /** A dotted text followed by a scannable string is scannable. */
  lemma {:induction false} ScannableAfterText(x: Octets, tail: Octets)
    requires Scannable(tail)
    ensures Scannable(Dotted(x, tail))
    decreases |x|
  {
    var i := FindDot(x);
    DotFound(x, tail);
    AfterDot(x, tail, FindDot(x));
    if i < |x| {
      ScannableAfterText(x[i + 1..], tail);
    }
  }

  /** Serialising what was parsed never runs off the string. */
  lemma {:induction false} FlattenIsScannable(n: Name)
    ensures Scannable(Flatten(n))
  {
    if n.Label? {
      FlattenIsScannable(n.rest);
      ScannableAfterText(n.text, Flatten(n.rest));
    }
  }

  // ----- exact condition for the round trip

  /** A label that flattening and rebuilding keeps: no dot in it, and it cannot be
      mistaken for a pointer. */
  predicate CanonicalLabel(text: LabelText) {
    DOT !in text && text[0] < 0xC0
  }

  predicate Canonical(n: Name) {
    n.Label? ==> CanonicalLabel(n.text) && Canonical(n.rest)
  }

  lemma RebuildText(x: LabelText, tail: Octets)
    requires CanonicalLabel(x) && Scannable(tail) && Scannable(Dotted(x, tail))
    ensures Rebuild(Dotted(x, tail)) == [|x|] + (x + Rebuild(tail))
  {
    DotFound(x, tail);
    AfterDot(x, tail, FindDot(x));
    assert x[..|x|] == x;
  }

  lemma {:induction false} RebuildLabel(n: Name)
    requires n.Label? && CanonicalLabel(n.text) && Scannable(Flatten(n.rest)) && Scannable(Flatten(n))
    ensures Rebuild(Flatten(n)) == [|n.text|] + (n.text + Rebuild(Flatten(n.rest)))
  {
    RebuildText(n.text, Flatten(n.rest));
  }

  lemma {:induction false} CanonicalRoundTrip(n: Name)
    requires Canonical(n)
    ensures Scannable(Flatten(n)) && Rebuild(Flatten(n)) == EncodeName(n)
  {
    if n.Label? {
      CanonicalRoundTrip(n.rest);
      ScannableAfterText(n.text, Flatten(n.rest));
      RebuildLabel(n);
    }
  }

  lemma RebuiltStart(s: Octets)
    requires s != [] && Scannable(s)
    ensures Rebuild(s)[0] == if s[0] >= 0xC0 then s[0] else FindDot(s) % 0x100
  {
  }

  lemma EncodedStart(n: Name)
    requires n.Label?
    ensures EncodeName(n)[0] == |n.text|
  {
  }

  lemma BadLabelShows(n: Name)
    requires n.Label? && !CanonicalLabel(n.text) && Scannable(Flatten(n))
    ensures Rebuild(Flatten(n))[0] != EncodeName(n)[0]
  {
    DotFound(n.text, Flatten(n.rest));
    EncodedStart(n);
    RebuiltStart(Dotted(n.text, Flatten(n.rest)));
  }

  /** Where the condition fails, the rebuilt octets and the original ones differ
      at a position both have, so nothing written afterwards can hide it. */
  lemma {:induction false} NonCanonicalDiverges(n: Name, x: Octets, y: Octets)
    requires !Canonical(n)
    requires Scannable(Flatten(n))
    ensures Rebuild(Flatten(n)) + x != EncodeName(n) + y
  {
    if CanonicalLabel(n.text) {
      FlattenIsScannable(n.rest);
      NonCanonicalDiverges(n.rest, x, y);
      RestDiverges(n, x, y);
    } else {
      BadLabelShows(n);
      FirstOctetDiverges(Rebuild(Flatten(n)), EncodeName(n), x, y);
    }
  }

  lemma FirstOctetDiverges(a: Octets, b: Octets, x: Octets, y: Octets)
    requires a != [] && b != [] && a[0] != b[0]
    ensures a + x != b + y
  {
    assert (a + x)[0] == a[0] && (b + y)[0] == b[0];
  }

  lemma RestDiverges(n: Name, x: Octets, y: Octets)
    requires n.Label? && CanonicalLabel(n.text) && Scannable(Flatten(n)) && Scannable(Flatten(n.rest))
    requires Rebuild(Flatten(n.rest)) + x != EncodeName(n.rest) + y
    ensures Rebuild(Flatten(n)) + x != EncodeName(n) + y
  {
    RebuildLabel(n);
    SameStart([|n.text|], n.text, Rebuild(Flatten(n.rest)), EncodeName(n.rest), x, y);
  }

  lemma SameStart(h: Octets, t: Octets, a: Octets, b: Octets, x: Octets, y: Octets)
    requires a + x != b + y
    ensures (h + (t + a)) + x != (h + (t + b)) + y
  {
    var k := |h| + |t|;
    assert ((h + (t + a)) + x)[k..] == a + x;
    assert ((h + (t + b)) + y)[k..] == b + y;
  }

  /** Names survive the program's parse and serialise unchanged exactly when no
      label holds a dot and none starts with an octet of 0xC0 or more. */
  lemma NameRoundTripIff(n: Name)
    ensures Scannable(Flatten(n))
    ensures Rebuild(Flatten(n)) == EncodeName(n) <==> Canonical(n)
  {
    FlattenIsScannable(n);
    if Canonical(n) {
      CanonicalRoundTrip(n);
    } else {
      NonCanonicalDiverges(n, [], []);
      assert Rebuild(Flatten(n)) + [] == Rebuild(Flatten(n));
      assert EncodeName(n) + [] == EncodeName(n);
    }
  }

  // ----- exact condition for keeping the length

  predicate StartsSegment(x: Octets, k: nat) {
    k < |x| && (k == 0 || x[k - 1] == DOT)
  }

  /** No dot-delimited segment of the label starts with an octet of 0xC0 or more. */
  ghost predicate CleanText(x: Octets) {
    forall k: nat | StartsSegment(x, k) :: x[k] < 0xC0
  }

  ghost predicate Clean(n: Name) {
    n.Label? ==> CleanText(n.text) && Clean(n.rest)
  }

  /** The segments of a text are its first one and those after its first dot. */
  lemma SegmentsAfterDot(x: Octets, y: Octets, k: nat)
    requires FindDot(x) < |x| && y == x[FindDot(x) + 1..]
    ensures var i := FindDot(x);
            StartsSegment(x, k) <==> (k == 0 || (k > i && StartsSegment(y, k - i - 1) && y[k - i - 1] == x[k]))
  {
    var i := FindDot(x);
    if 0 < k <= i {
      assert x[k - 1] != DOT;
    } else if i + 1 == k < |x| {
      assert y[0] == x[k];
    } else if i + 1 < k < |x| {
      assert y[k - i - 1] == x[k] && y[k - i - 2] == x[k - 1];
    }
  }

  lemma CleanAfterDot(x: Octets, y: Octets)
    requires FindDot(x) < |x| && y == x[FindDot(x) + 1..]
    ensures CleanText(x) <==> x[0] < 0xC0 && CleanText(y)
  {
    var i := FindDot(x);
    if CleanText(x) {
      assert StartsSegment(x, 0);
      forall k: nat | StartsSegment(y, k) ensures y[k] < 0xC0 {
        SegmentsAfterDot(x, y, k + i + 1);
      }
    }
    if x[0] < 0xC0 && CleanText(y) {
      forall k: nat | StartsSegment(x, k) ensures x[k] < 0xC0 {
        SegmentsAfterDot(x, y, k);
      }
    }
  }

  lemma CleanWithoutDot(x: Octets)
    requires FindDot(x) == |x|
    ensures CleanText(x) <==> x == [] || x[0] < 0xC0
  {
    assert x != [] ==> StartsSegment(x, 0);
  }

  lemma RebuiltLength(s: Octets)
    requires s != [] && Scannable(s)
    ensures s[0] >= 0xC0 ==> |Rebuild(s)| == 2
    ensures s[0] < 0xC0 ==> FindDot(s) < |s| && Scannable(s[FindDot(s) + 1..])
    ensures s[0] < 0xC0 ==> |Rebuild(s)| == 1 + FindDot(s) + |Rebuild(s[FindDot(s) + 1..])|
  {
    if s[0] < 0xC0 {
      ScannableLabel(s);
      RebuiltLabel(s, FindDot(s), s[FindDot(s) + 1..]);
    } else {
      RebuiltPointer(s);
    }
  }

  /** What a text with its dot contributes to the length, up to its first dot. */
  lemma DottedLength(x: Octets, tail: Octets)
    requires Scannable(tail) && Scannable(Dotted(x, tail))
    ensures var i, r := FindDot(x), |Rebuild(Dotted(x, tail))|;
            if x != [] && x[0] >= 0xC0 then r == 2
            else if i == |x| then r == 1 + i + |Rebuild(tail)|
            else Scannable(Dotted(x[i + 1..], tail)) && r == 1 + i + |Rebuild(Dotted(x[i + 1..], tail))|
  {
    DottedAt(x, tail, 0);
    DotFound(x, tail);
    AfterDot(x, tail, FindDot(x));
    RebuiltLength(Dotted(x, tail));
  }

  /** A text with its dot keeps its length when it is clean; otherwise the scan
      stops early and the result is strictly shorter. */
  lemma {:induction false} TextLength(x: Octets, tail: Octets)
    requires Scannable(tail) && Scannable(Dotted(x, tail))
    ensures CleanText(x) ==> |Rebuild(Dotted(x, tail))| == |x| + 1 + |Rebuild(tail)|
    ensures !CleanText(x) ==> |Rebuild(Dotted(x, tail))| < |x| + 1 + |Rebuild(tail)|
    decreases |x|
  {
    var i := FindDot(x);
    DottedLength(x, tail);
    if i == |x| {
      CleanWithoutDot(x);
    } else {
      CleanAfterDot(x, x[i + 1..]);
      if x[0] < 0xC0 {
        TextLength(x[i + 1..], tail);
      }
    }
  }

  /** The rebuilt name has the original length exactly when the name is clean, and
      is never longer. */
  lemma {:induction false} NameLengthIff(n: Name)
    ensures Scannable(Flatten(n))
    ensures |Rebuild(Flatten(n))| <= |EncodeName(n)|
    ensures |Rebuild(Flatten(n))| == |EncodeName(n)| <==> Clean(n)
  {
    FlattenIsScannable(n);
    if n.Label? {
      NameLengthIff(n.rest);
      TextLength(n.text, Flatten(n.rest));
    }
  }

  /** Clean is the wider of the two conditions. */
  lemma {:induction false} CanonicalIsClean(n: Name)
    requires Canonical(n)
    ensures Clean(n)
  {
    if n.Label? {
      CanonicalIsClean(n.rest);
    }
  }

  // ----- the converse direction: from strings to names

  /** The strings that canonical names flatten to. */
  predicate CanonicalString(s: Octets)
    decreases |s|, 1
  {
    || s == []
    || (|s| == 2 && s[0] >= 0xC0)
    || CanonicalLabelString(s, FindDot(s))
  }

  /** A label of `i` octets and its dot, and a canonical string after it. */
  predicate CanonicalLabelString(s: Octets, i: nat)
    decreases |s|, 0
  {
    1 <= i <= 63 && i < |s| && s[0] < 0xC0 && CanonicalString(s[i + 1..])
  }

  function Unflatten(s: Octets): (n: Name)
    requires CanonicalString(s)
    ensures Canonical(n)
  {
    if s == [] then Root
    else if s[0] >= 0xC0 then
      assert !CanonicalLabelString(s, FindDot(s));
      Pointer(s[0], s[1])
    else
      var i := FindDot(s);
      assert CanonicalLabelString(s, i);
      Label(s[..i], Unflatten(s[i + 1..]))
  }

  lemma UnflattenStep(s: Octets, i: nat)
    requires CanonicalString(s) && s != [] && s[0] < 0xC0 && i == FindDot(s)
    requires CanonicalLabelString(s, i)
    ensures Unflatten(s) == Label(s[..i], Unflatten(s[i + 1..]))
  {
  }

  lemma {:induction false} FlattenUnflatten(s: Octets)
    requires CanonicalString(s)
    ensures Flatten(Unflatten(s)) == s
    decreases |s|
  {
    if s == [] {
    } else if s[0] >= 0xC0 {
      assert s == [s[0], s[1]];
    } else {
      var i := FindDot(s);
      assert CanonicalLabelString(s, i);
      UnflattenStep(s, i);
      FlattenUnflatten(s[i + 1..]);
      DotJoins(s);
    }
  }

  /** Canonical strings are exactly the flattenings of canonical names. */
  lemma {:induction false} FlattenIsCanonicalString(n: Name)
    requires Canonical(n)
    ensures CanonicalString(Flatten(n)) && Unflatten(Flatten(n)) == n
  {
    if n.Label? {
      var s, x, tail := Flatten(n), n.text, Flatten(n.rest);
      FlattenIsCanonicalString(n.rest);
      DotFound(x, tail);
      AfterDot(x, tail, FindDot(x));
      assert FindDot(x) == |x| && s[..|x|] == x;
    }
  }
}
