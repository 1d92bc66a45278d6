/** Version precedence, compared with section 11 of Semantic Versioning 2.0.0; digits and letters are ASCII. */
module Versions {
  import opened Text

  /** What the parser keeps of a version: build metadata is gone. */
  datatype Version = Version(major: nat, minor: nat, patch: nat, pre: Option<seq<string>>)

  // ---- Parsing

  function Span(s: string, p: char -> bool): (n: nat)
    ensures n <= |s| && (forall i :: 0 <= i < n ==> p(s[i])) && (n < |s| ==> !p(s[n]))
  {
    if s == "" || !p(s[0]) then 0 else 1 + Span(s[1..], p)
  }

  predicate Digit(c: char) { '0' <= c <= '9' }

  /** The characters of pre-release and build identifiers, and the dot between them. */
  predicate Label(c: char) { Digit(c) || 'A' <= c <= 'Z' || 'a' <= c <= 'z' || c == '-' || c == '.' }

  /** Digits, letters, a hyphen and a dot, by code point. */
  lemma LabelExactly(c: char)
    ensures Digit(c) <==> 48 <= c as int <= 57
    ensures Label(c) <==> Digit(c) || 65 <= c as int <= 90 || 97 <= c as int <= 122 || c as int in {45, 46}
  {
  }

  lemma DigitsAreDigits(s: string)
    requires forall i :: 0 <= i < |s| ==> Digit(s[i])
    ensures AllDigits(s, 10)
  {
  }

  datatype Scan<T> = Bad | Got(value: T, rest: string)

  function Number(s: string): Scan<nat>
  {
    var n := Span(s, Digit);
    DigitsAreDigits(s[..n]);
    if n == 0 then Bad else Got(Value(s[..n], 10), s[n..])
  }

  function Skip(s: string, c: char): Scan<()> { if s != "" && s[0] == c then Got((), s[1..]) else Bad }

  function SplitDots(s: string): (r: seq<string>)
    ensures r != []
  {
    if s == "" then [""]
    else
      var rest := SplitDots(s[1..]);
      if s[0] == '.' then [""] + rest else [[s[0]] + rest[0]] + rest[1..]
  }

  /** The optional pre-release and build, to the end of the text. */
  function Tail(s: string): Option<Option<seq<string>>>
  {
    if s != "" && s[0] == '-' then
      var n := Span(s[1..], Label);
      if n > 0 && Build(s[1 + n..]) then Some(Some(SplitDots(s[1..][..n]))) else None
    else if Build(s) then Some(None) else None
  }

  predicate Build(s: string) { s == "" || (|s| > 1 && s[0] == '+' && Span(s[1..], Label) == |s| - 1) }

  function Core(s: string): Scan<(nat, nat, nat)>
  {
    var a := Number(s);
    if a.Bad? then Bad else
    var d := Skip(a.rest, '.');
    if d.Bad? then Bad else
    var b := Number(d.rest);
    if b.Bad? then Bad else
    var e := Skip(b.rest, '.');
    if e.Bad? then Bad else
    var c := Number(e.rest);
    if c.Bad? then Bad else Got((a.value, b.value, c.value), c.rest)
  }

  function VersionParts(value: string): Option<Version>
  {
    var text := Strip(value);
    var s := if text != "" && text[0] == 'v' then text[1..] else text;
    var core := Core(s);
    if core.Bad? then None
    else
      var tail := Tail(core.rest);
      if tail.None? then None else Some(Version(core.value.0, core.value.1, core.value.2, tail.value))
  }

  // ---- The source's comparison

  predicate Numeric(part: string) { part != "" && forall i :: 0 <= i < |part| ==> Digit(part[i]) }

  function IntOf(part: string): nat
    requires Numeric(part)
  {
    DigitsAreDigits(part);
    Value(part, 10)
  }

  function CompareParts(left: seq<string>, right: seq<string>): int
  {
    if left == [] || right == [] then
      (if |left| > |right| then 1 else 0) - (if |left| < |right| then 1 else 0)
    else if left[0] == right[0] then CompareParts(left[1..], right[1..])
    else if Numeric(left[0]) && Numeric(right[0]) then
      if IntOf(left[0]) < IntOf(right[0]) then -1 else 1
    else if Numeric(left[0]) != Numeric(right[0]) then
      if Numeric(left[0]) then -1 else 1
    else if Less(left[0], right[0]) then -1
    else 1
  }

  function ComparePrerelease(left: Option<seq<string>>, right: Option<seq<string>>): int
  {
    if left.None? || right.None? then
      if left == right then 0 else if left.None? then 1 else -1
    else CompareParts(left.value, right.value)
  }

  /** Is the first version older? */
  predicate Older(l: Version, r: Version)
  {
    if (l.major, l.minor, l.patch) != (r.major, r.minor, r.patch) then
      l.major < r.major || (l.major == r.major && (l.minor < r.minor || (l.minor == r.minor && l.patch < r.patch)))
    else ComparePrerelease(l.pre, r.pre) < 0
  }

  function CompareVersions(current: string, latest: string): Option<bool>
  {
    var l, r := VersionParts(current), VersionParts(latest);
    if l.None? || r.None? then None else Some(Older(l.value, r.value))
  }

  // ---- The reference: section 11 of the standard

  /** Rules 4.1 to 4.3: numeric identifiers by value and below the others, the others in ASCII order. */
  predicate PartPrecedes(a: string, b: string)
  {
    if Numeric(a) && Numeric(b) then IntOf(a) < IntOf(b)
    else if Numeric(a) != Numeric(b) then Numeric(a)
    else Less(a, b)
  }

  /** Neither identifier precedes the other. */
  predicate SamePart(a: string, b: string) { !PartPrecedes(a, b) && !PartPrecedes(b, a) }

  ghost predicate SameUpTo(l: seq<string>, r: seq<string>, n: nat)
  {
    n <= |l| && n <= |r| && forall k :: 0 <= k < n ==> SamePart(l[k], r[k])
  }

  /** The first difference decides; with none, rule 4.4: more identifiers mean a higher precedence. */
  ghost predicate PrecedesAt(l: seq<string>, r: seq<string>, n: nat)
  {
    SameUpTo(l, r, n) && if n < |l| then n < |r| && PartPrecedes(l[n], r[n]) else n < |r|
  }

  ghost predicate PrePrecedes(l: Option<seq<string>>, r: Option<seq<string>>)
  {
    if l.None? then false else if r.None? then true else exists n :: PrecedesAt(l.value, r.value, n)
  }

  ghost predicate Precedes(l: Version, r: Version)
  {
    || l.major < r.major
    || (l.major == r.major && l.minor < r.minor)
    || (l.major == r.major && l.minor == r.minor && l.patch < r.patch)
    || (l.major == r.major && l.minor == r.minor && l.patch == r.patch && PrePrecedes(l.pre, r.pre))
  }

  // ---- Identifiers

  predicate NoLeadingZero(part: string) { Numeric(part) && |part| > 1 ==> part[0] != '0' }

  lemma SameNumber(a: string, b: string)
    requires Numeric(a) && Numeric(b) && NoLeadingZero(a) && NoLeadingZero(b) && IntOf(a) == IntOf(b)
    ensures a == b
  {
    DigitsAreDigits(a);
    DigitsAreDigits(b);
    ParsePrints(a);
    ParsePrints(b);
  }

  lemma PartOrder(a: string, b: string, c: string)
    ensures !PartPrecedes(a, a)
    ensures PartPrecedes(a, b) && PartPrecedes(b, c) ==> PartPrecedes(a, c)
    ensures SamePart(a, b) <==> a == b || (Numeric(a) && Numeric(b) && IntOf(a) == IntOf(b))
    ensures SamePart(a, b) && PartPrecedes(b, c) ==> PartPrecedes(a, c)
    ensures PartPrecedes(a, b) && SamePart(b, c) ==> PartPrecedes(a, c)
  {
    LessIrreflexive(a);
    LessTotal(a, b);
    LessTotal(b, c);
    if Less(a, b) && Less(b, a) { LessTransitive(a, b, a); }
    if Less(a, b) && Less(b, c) { LessTransitive(a, b, c); }
  }

  // ---- Where the source and the standard agree

  /** The first textual difference is between two numeric identifiers of one value, such as "01" and "1". */
  ghost predicate TiesAt(l: seq<string>, r: seq<string>, n: nat)
  {
    n < |l| && n < |r| && l[..n] == r[..n] && l[n] != r[n] && SamePart(l[n], r[n])
  }

  ghost predicate Ties(l: seq<string>, r: seq<string>) { exists n :: TiesAt(l, r, n) }

  /** The position of the first textual difference; a length if one list starts the other. */
  function FirstDifference(l: seq<string>, r: seq<string>): (n: nat)
    ensures n <= |l| && n <= |r| && l[..n] == r[..n]
    ensures n < |l| && n < |r| ==> l[n] != r[n]
  {
    if l != [] && r != [] && l[0] == r[0] then
      var n := FirstDifference(l[1..], r[1..]);
      assert l[..n + 1] == [l[0]] + l[1..][..n] && r[..n + 1] == [r[0]] + r[1..][..n];
      n + 1
    else 0
  }

  /** The source's loop decides at the first textual difference. */
  lemma {:induction false} CompareAtFirstDifference(l: seq<string>, r: seq<string>)
    ensures var n := FirstDifference(l, r);
            CompareParts(l, r) ==
              if n < |l| && n < |r| then (if PartPrecedes(l[n], r[n]) then -1 else 1)
              else if n < |l| then 1 else if n < |r| then -1 else 0
  {
    if l != [] && r != [] && l[0] == r[0] {
      CompareAtFirstDifference(l[1..], r[1..]);
    }
  }

  lemma EqualPrefix(l: seq<string>, r: seq<string>, n: nat)
    requires n <= |l| && n <= |r| && l[..n] == r[..n]
    ensures forall k :: 0 <= k < n ==> l[k] == r[k]
  {
    forall k | 0 <= k < n ensures l[k] == r[k] {
      assert l[k] == l[..n][k] && r[k] == r[..n][k];
    }
  }

  lemma EqualPartsAreSame(l: seq<string>, r: seq<string>, n: nat)
    requires n <= |l| && n <= |r| && l[..n] == r[..n]
    ensures SameUpTo(l, r, n)
  {
    forall k | 0 <= k < n ensures SamePart(l[k], r[k]) {
      assert l[k] == l[..n][k] && r[k] == r[..n][k];
      PartOrder(l[k], r[k], l[k]);
    }
  }

  lemma OneDecision(l: seq<string>, r: seq<string>, m: nat, n: nat)
    requires PrecedesAt(l, r, m) && SameUpTo(l, r, n) && (n == |l| || n == |r| || !SamePart(l[n], r[n]))
    ensures m == n
  {
    assert m < n ==> SamePart(l[m], r[m]);
  }

  /** Where no tie comes first, the source agrees with the standard. */
  lemma AgreesWithoutTie(l: seq<string>, r: seq<string>)
    requires !Ties(l, r)
    ensures CompareParts(l, r) < 0 <==> exists n :: PrecedesAt(l, r, n)
  {
    var n := FirstDifference(l, r);
    CompareAtFirstDifference(l, r);
    EqualPartsAreSame(l, r, n);
    if n < |l| && n < |r| { assert !TiesAt(l, r, n); }
    if CompareParts(l, r) < 0 { assert PrecedesAt(l, r, n); }
    if m :| PrecedesAt(l, r, m) { OneDecision(l, r, m, n); }
  }

  lemma TieIsRefused(l: seq<string>, r: seq<string>)
    requires Ties(l, r)
    ensures CompareParts(l, r) == 1 && CompareParts(r, l) == 1 && l != r
  {
    var n :| TiesAt(l, r, n);
    FirstDifferenceIs(l, r, n);
    FirstDifferenceIs(r, l, n);
    CompareAtFirstDifference(l, r);
    CompareAtFirstDifference(r, l);
  }

  lemma FirstDifferenceIs(l: seq<string>, r: seq<string>, n: nat)
    requires n < |l| && n < |r| && l[..n] == r[..n] && l[n] != r[n]
    ensures FirstDifference(l, r) == n
  {
    var m := FirstDifference(l, r);
    EqualPrefix(l, r, n);
    EqualPrefix(l, r, m);
  }

  /** The pre-releases of two versions tie, and nothing before them decides. */
  ghost predicate VersionsTie(l: Version, r: Version)
  {
    l.major == r.major && l.minor == r.minor && l.patch == r.patch && l.pre.Some? && r.pre.Some? && Ties(l.pre.value, r.pre.value)
  }

  lemma OlderIsPrecedes(l: Version, r: Version)
    requires !VersionsTie(l, r)
    ensures Older(l, r) <==> Precedes(l, r)
  {
    if l.pre.Some? && r.pre.Some? && (l.major, l.minor, l.patch) == (r.major, r.minor, r.patch) {
      AgreesWithoutTie(l.pre.value, r.pre.value);
    }
  }

  lemma TiedIsNeitherOlder(l: Version, r: Version)
    requires VersionsTie(l, r)
    ensures !Older(l, r) && !Older(r, l) && l != r
  {
    TieIsRefused(l.pre.value, r.pre.value);
  }

  lemma TieIsSymmetric(l: Version, r: Version)
    requires VersionsTie(l, r)
    ensures VersionsTie(r, l)
  {
    var n :| TiesAt(l.pre.value, r.pre.value, n);
    assert TiesAt(r.pre.value, l.pre.value, n);
  }

  /**
   * In both directions at once, the source agrees with the standard exactly when no tie comes first or
   * the standard also orders the two neither way.
   */
  lemma AgreesExactly(l: Version, r: Version)
    ensures (Older(l, r) <==> Precedes(l, r)) && (Older(r, l) <==> Precedes(r, l)) <==>
            !VersionsTie(l, r) || (!Precedes(l, r) && !Precedes(r, l))
  {
    if VersionsTie(l, r) {
      TiedIsNeitherOlder(l, r);
    } else {
      if VersionsTie(r, l) { TieIsSymmetric(r, l); }
      OlderIsPrecedes(l, r);
      OlderIsPrecedes(r, l);
    }
  }

  // ---- A strict order on all versions, total without ties

  lemma OlderIsIrreflexive(v: Version)
    ensures !Older(v, v)
  {
    if v.pre.Some? { CompareAtFirstDifference(v.pre.value, v.pre.value); }
  }

  lemma PartsTransitive(a: seq<string>, b: seq<string>, c: seq<string>)
    requires CompareParts(a, b) < 0 && CompareParts(b, c) < 0
    ensures CompareParts(a, c) < 0
  {
    var i, j, k := FirstDifference(a, b), FirstDifference(b, c), FirstDifference(a, c);
    CompareAtFirstDifference(a, b);
    CompareAtFirstDifference(b, c);
    CompareAtFirstDifference(a, c);
    var n := if i < j then i else j;
    assert a[..n] == a[..i][..n] == b[..i][..n] == b[..n] == b[..j][..n] == c[..j][..n] == c[..n];
    if n < |a| && n < |c| {
      assert i < j ==> b[n] == b[..j][n] && c[n] == c[..j][n];
      assert j < i ==> a[n] == a[..i][n] && b[n] == b[..i][n];
      PartOrder(a[n], b[n], c[n]);
      PartOrder(a[n], a[n], a[n]);
      assert a[n] != c[n];
      FirstDifferenceIs(a, c, n);
    } else {
      assert n == |a| && n < |c|;
      EqualPrefix(a, c, n);
      assert k == n;
    }
  }

  lemma OlderIsTransitive(a: Version, b: Version, c: Version)
    requires Older(a, b) && Older(b, c)
    ensures Older(a, c)
  {
    if a.pre.Some? && b.pre.Some? && c.pre.Some? && (a.major, a.minor, a.patch) == (b.major, b.minor, b.patch) == (c.major, c.minor, c.patch) {
      PartsTransitive(a.pre.value, b.pre.value, c.pre.value);
    }
  }

  /** Any two different versions are ordered, exactly when they do not tie. */
  lemma OlderIsTotalExactly(l: Version, r: Version)
    ensures (Older(l, r) || l == r || Older(r, l)) <==> !VersionsTie(l, r)
  {
    if VersionsTie(l, r) {
      TiedIsNeitherOlder(l, r);
    } else if l.pre.Some? && r.pre.Some? && (l.major, l.minor, l.patch) == (r.major, r.minor, r.patch) {
      var a, b := l.pre.value, r.pre.value;
      var n := FirstDifference(a, b);
      CompareAtFirstDifference(a, b);
      if n < |a| && n < |b| {
        assert !TiesAt(a, b, n);
        FirstDifferenceIs(b, a, n);
        CompareAtFirstDifference(b, a);
      } else if n == |a| == |b| {
        assert a == a[..n] && b == b[..n];
      } else {
        PrefixDifference(a, b, n);
        CompareAtFirstDifference(b, a);
      }
    }
  }

  lemma PrefixDifference(a: seq<string>, b: seq<string>, n: nat)
    requires n <= |a| && n <= |b| && (n == |a| || n == |b|) && a[..n] == b[..n]
    ensures FirstDifference(b, a) == n
  {
    var m := FirstDifference(b, a);
    EqualPrefix(a, b, n);
  }

  ghost predicate Canonical(v: Version) { v.pre.Some? ==> forall p :: p in v.pre.value ==> NoLeadingZero(p) }

  lemma CanonicalNeverTies(l: Version, r: Version)
    requires Canonical(l) && Canonical(r)
    ensures !VersionsTie(l, r)
  {
    if l.pre.Some? && r.pre.Some? {
      var a, b := l.pre.value, r.pre.value;
      forall n: nat ensures !TiesAt(a, b, n) {
        if n < |a| && n < |b| {
          assert a[n] in a && b[n] in b;
          PartOrder(a[n], b[n], a[n]);
          if Numeric(a[n]) && Numeric(b[n]) && IntOf(a[n]) == IntOf(b[n]) { SameNumber(a[n], b[n]); }
        }
      }
    }
  }

  /** On versions whose numeric identifiers have no leading zeros, exactly one of the three holds, as the standard says. */
  lemma CanonicalTrichotomy(l: Version, r: Version)
    requires Canonical(l) && Canonical(r)
    ensures Older(l, r) || l == r || Older(r, l)
    ensures !(Older(l, r) && Older(r, l)) && (l == r ==> !Older(l, r))
    ensures Older(l, r) <==> Precedes(l, r)
  {
    CanonicalNeverTies(l, r);
    OlderIsTotalExactly(l, r);
    OlderIsPrecedes(l, r);
    OlderIsIrreflexive(l);
    if Older(l, r) && Older(r, l) { OlderIsTransitive(l, r, l); }
  }

  /** With a leading zero neither order is reported, though the standard's rule orders what follows. */
  lemma LeadingZeroIsNotOrdered() returns (l: Version, r: Version)
    ensures Precedes(l, r) && !Older(l, r) && !Older(r, l)
  {
    var a, b := ["01", "5"], ["1", "6"];
    l, r := Version(1, 0, 0, Some(a)), Version(1, 0, 0, Some(b));
    OneDigit('1');
    OneDigit('5');
    OneDigit('6');
    LeadingZero('1');
    TieThenOrder(a, b);
    TiedIsNeitherOlder(l, r);
  }

  lemma OneDigit(c: char)
    requires Digit(c)
    ensures Numeric([c]) && IntOf([c]) == c as int - '0' as int
  {
    DigitsAreDigits([c]);
    ValueSnoc("", c, 10);
    assert "" + [c] == [c];
  }

  lemma LeadingZero(c: char)
    requires Digit(c)
    ensures Numeric(['0', c]) && IntOf(['0', c]) == IntOf([c])
  {
    OneDigit('0');
    OneDigit(c);
    DigitsAreDigits(['0', c]);
    ValueSnoc("0", c, 10);
    assert "0" + [c] == ['0', c];
  }

  lemma TieThenOrder(a: seq<string>, b: seq<string>)
    requires |a| == |b| == 2 && a[0] != b[0] && SamePart(a[0], b[0]) && PartPrecedes(a[1], b[1])
    ensures Ties(a, b) && PrecedesAt(a, b, 1)
  {
    assert TiesAt(a, b, 0);
    assert SameUpTo(a, b, 1);
  }

  /** The comparison of pre-releases is a sign, and zero only for the same one. */
  lemma {:induction false} PartsSign(l: seq<string>, r: seq<string>)
    ensures CompareParts(l, r) in {-1, 0, 1} && (CompareParts(l, r) == 0 <==> l == r)
    decreases |l|
  {
    if l != [] && r != [] && l[0] == r[0] {
      PartsSign(l[1..], r[1..]);
      assert l == [l[0]] + l[1..] && r == [r[0]] + r[1..];
    }
  }

  lemma PrereleaseSign(l: Option<seq<string>>, r: Option<seq<string>>)
    ensures ComparePrerelease(l, r) in {-1, 0, 1} && (ComparePrerelease(l, r) == 0 <==> l == r)
    ensures l.None? && r.Some? ==> ComparePrerelease(l, r) > 0 && ComparePrerelease(r, l) < 0
  {
    if l.Some? && r.Some? { PartsSign(l.value, r.value); }
  }

  // ---- Parsing a written version

  lemma {:induction false} SpanIs(a: string, b: string, p: char -> bool)
    requires (forall i :: 0 <= i < |a| ==> p(a[i])) && (b != "" ==> !p(b[0]))
    ensures Span(a + b, p) == |a|
  {
    if a == "" {
      assert a + b == b;
    } else {
      assert (a + b)[1..] == a[1..] + b;
      SpanIs(a[1..], b, p);
    }
  }

  function Print10(n: nat): (s: string)
    ensures s != "" && (forall i :: 0 <= i < |s| ==> Digit(s[i])) && Parse(s, 10) == Some(n)
  {
    PrintParses(n, 10);
    var s := Print(n, 10);
    assert forall i :: 0 <= i < |s| ==> IsDigit(s[i], 10);
    s
  }

  lemma NumberIs(n: nat, rest: string)
    requires rest != "" ==> !Digit(rest[0])
    ensures Number(Print10(n) + rest) == Got(n, rest)
  {
    var s := Print10(n);
    SpanIs(s, rest, Digit);
    assert (s + rest)[..|s|] == s && (s + rest)[|s|..] == rest;
  }

  function JoinDots(parts: seq<string>): string
  {
    if parts == [] then "" else if |parts| == 1 then parts[0] else parts[0] + "." + JoinDots(parts[1..])
  }

  /** Letters, digits and hyphens, or nothing. */
  predicate Identifier(part: string) { forall i :: 0 <= i < |part| ==> Label(part[i]) && part[i] != '.' }

  lemma {:induction false} SplitFirst(part: string, rest: string)
    requires Identifier(part)
    ensures SplitDots(part) == [part] && SplitDots(part + "." + rest) == [part] + SplitDots(rest)
  {
    if part == "" {
      assert part + "." + rest == "." + rest;
    } else {
      SplitFirst(part[1..], rest);
      assert (part + "." + rest)[1..] == part[1..] + "." + rest;
      assert [part[0]] + part[1..] == part;
    }
  }

  lemma {:induction false} SplitJoined(parts: seq<string>)
    requires parts != [] && forall i :: 0 <= i < |parts| ==> Identifier(parts[i])
    ensures SplitDots(JoinDots(parts)) == parts
    ensures forall i :: 0 <= i < |JoinDots(parts)| ==> Label(JoinDots(parts)[i])
  {
    if |parts| == 1 {
      SplitFirst(parts[0], "");
    } else {
      SplitJoined(parts[1..]);
      SplitFirst(parts[0], JoinDots(parts[1..]));
    }
  }

  function WrittenPre(pre: Option<seq<string>>): string { if pre.None? then "" else "-" + JoinDots(pre.value) }

  function WrittenBuild(build: Option<string>): string { if build.None? then "" else "+" + build.value }

  function Written(v: Version, prefix: bool, build: Option<string>): string
  {
    (if prefix then "v" else "") +
    (Print10(v.major) + ("." + (Print10(v.minor) + ("." + (Print10(v.patch) + (WrittenPre(v.pre) + WrittenBuild(build)))))))
  }

  predicate Writable(v: Version)
  {
    v.pre.Some? ==> v.pre.value != [] && JoinDots(v.pre.value) != "" &&
                    forall i :: 0 <= i < |v.pre.value| ==> Identifier(v.pre.value[i])
  }

  predicate ValidBuild(build: Option<string>)
  {
    build.Some? ==> build.value != "" && forall i :: 0 <= i < |build.value| ==> Label(build.value[i])
  }

  lemma BuildIs(build: Option<string>)
    requires ValidBuild(build)
    ensures Build(WrittenBuild(build))
  {
    if build.Some? {
      SpanIs(build.value, "", Label);
      assert build.value + "" == build.value && WrittenBuild(build)[1..] == build.value;
    }
  }

  lemma PreTailIs(parts: seq<string>, b: string)
    requires Build(b) && (b != "" ==> b[0] == '+')
    requires Writable(Version(0, 0, 0, Some(parts)))
    ensures Tail("-" + JoinDots(parts) + b) == Some(Some(parts))
  {
    var joined := JoinDots(parts);
    var s := "-" + joined + b;
    SplitJoined(parts);
    SpanIs(joined, b, Label);
    assert s[1..] == joined + b && s[1 + |joined|..] == b;
    assert (joined + b)[..|joined|] == joined;
  }

  lemma TailIs(pre: Option<seq<string>>, build: Option<string>)
    requires Writable(Version(0, 0, 0, pre)) && ValidBuild(build)
    ensures Tail(WrittenPre(pre) + WrittenBuild(build)) == Some(pre)
  {
    BuildIs(build);
    if pre.None? {
      assert "" + WrittenBuild(build) == WrittenBuild(build);
    } else {
      PreTailIs(pre.value, WrittenBuild(build));
    }
  }

  lemma SkipIs(c: char, rest: string)
    ensures Skip([c] + rest, c) == Got((), rest)
  {
    assert ([c] + rest)[1..] == rest;
  }

  lemma CoreIs(v: Version, tail: string)
    requires tail != "" ==> !Digit(tail[0])
    ensures Core(Print10(v.major) + ("." + (Print10(v.minor) + ("." + (Print10(v.patch) + tail))))) ==
            Got((v.major, v.minor, v.patch), tail)
  {
    var last := Print10(v.patch) + tail;
    var middle := Print10(v.minor) + ("." + last);
    NumberIs(v.patch, tail);
    NumberIs(v.minor, "." + last);
    NumberIs(v.major, "." + middle);
    SkipIs('.', last);
    SkipIs('.', middle);
  }

  lemma PartsAre(s: string, core: string, tail: string, v: Version)
    requires Strip(s) == s && core != "" && core[0] != 'v' && (s == core || s == "v" + core)
    requires Core(core) == Got((v.major, v.minor, v.patch), tail) && Tail(tail) == Some(v.pre)
    ensures VersionParts(s) == Some(v)
  {
    assert s != core ==> s[1..] == core;
  }

  lemma WrittenIsStripped(s: string, core: string)
    requires core != "" && Digit(core[0]) && !IsSpace(core[|core| - 1]) && (s == core || s == "v" + core)
    ensures Strip(s) == s
  {
    StripNothing(s);
  }

  /** A version written with any build metadata, with or without the leading v, is read back without them. */
  lemma WrittenIsRead(v: Version, prefix: bool, build: Option<string>)
    requires Writable(v) && ValidBuild(build)
    ensures VersionParts(Written(v, prefix, build)) == Some(v)
  {
    var tail := WrittenPre(v.pre) + WrittenBuild(build);
    var after := "." + (Print10(v.minor) + ("." + (Print10(v.patch) + tail)));
    var core := Print10(v.major) + after;
    var s := Written(v, prefix, build);
    assert s == if prefix then "v" + core else core;
    FirstOfCore(v.major, after);
    LastIsNotSpace(v, build, core);
    WrittenIsStripped(s, core);
    CoreIs(v, tail);
    TailIs(v.pre, build);
    PartsAre(s, core, tail, v);
  }

  lemma FirstOfCore(n: nat, after: string)
    ensures Print10(n) + after != "" && Digit((Print10(n) + after)[0])
  {
    assert (Print10(n) + after)[0] == Print10(n)[0];
  }

  lemma LastIsNotSpace(v: Version, build: Option<string>, core: string)
    requires Writable(v) && ValidBuild(build)
    requires core == Print10(v.major) + ("." + (Print10(v.minor) + ("." + (Print10(v.patch) + (WrittenPre(v.pre) + WrittenBuild(build))))))
    ensures !IsSpace(core[|core| - 1])
  {
    var p, b := WrittenPre(v.pre), WrittenBuild(build);
    if build.Some? {
      assert core[|core| - 1] == build.value[|build.value| - 1];
    } else if v.pre.Some? {
      SplitJoined(v.pre.value);
      assert p + b == p;
      assert core[|core| - 1] == p[|p| - 1];
    } else {
      assert p + b == "";
      assert core[|core| - 1] == Print10(v.patch)[|Print10(v.patch)| - 1];
    }
  }

  // ---- Every accepted text is one of these

  predicate DigitText(s: string) { s != "" && forall i :: 0 <= i < |s| ==> Digit(s[i]) }

  /** A version as anyone may spell it: three numbers with any leading zeros, identifiers, build metadata, a leading v. */
  function Spelled(prefix: bool, a: string, b: string, c: string, pre: Option<seq<string>>, build: Option<string>): string
  {
    (if prefix then "v" else "") + (a + ("." + (b + ("." + (c + (WrittenPre(pre) + WrittenBuild(build)))))))
  }

  lemma NumberOfDigits(digits: string, rest: string)
    requires DigitText(digits) && (rest != "" ==> !Digit(rest[0]))
    ensures Number(digits + rest).Got? && Number(digits + rest).rest == rest
    ensures AllDigits(digits, 10) && Number(digits + rest).value == Value(digits, 10)
  {
    SpanIs(digits, rest, Digit);
    DigitsAreDigits(digits);
    assert (digits + rest)[..|digits|] == digits && (digits + rest)[|digits|..] == rest;
  }

  lemma CoreOfDigits(a: string, b: string, c: string, tail: string)
    requires DigitText(a) && DigitText(b) && DigitText(c) && (tail != "" ==> !Digit(tail[0]))
    ensures AllDigits(a, 10) && AllDigits(b, 10) && AllDigits(c, 10)
    ensures Core(a + ("." + (b + ("." + (c + tail))))) == Got((Value(a, 10), Value(b, 10), Value(c, 10)), tail)
  {
    var last := c + tail;
    var middle := b + ("." + last);
    NumberOfDigits(c, tail);
    NumberOfDigits(b, "." + last);
    NumberOfDigits(a, "." + middle);
    SkipIs('.', last);
    SkipIs('.', middle);
  }

  lemma PartsOf(value: string, core: string, tail: string, v: Version)
    requires core != "" && core[0] != 'v' && (Strip(value) == core || Strip(value) == "v" + core)
    requires Core(core) == Got((v.major, v.minor, v.patch), tail) && Tail(tail) == Some(v.pre)
    ensures VersionParts(value) == Some(v)
  {
    assert Strip(value) != core ==> Strip(value)[1..] == core;
  }

  /** Any spelling is read, white space around it included. */
  lemma SpelledIsRead(value: string, prefix: bool, a: string, b: string, c: string, pre: Option<seq<string>>, build: Option<string>)
    requires DigitText(a) && DigitText(b) && DigitText(c) && Writable(Version(0, 0, 0, pre)) && ValidBuild(build)
    requires Strip(value) == Spelled(prefix, a, b, c, pre, build)
    ensures AllDigits(a, 10) && AllDigits(b, 10) && AllDigits(c, 10)
    ensures VersionParts(value) == Some(Version(Value(a, 10), Value(b, 10), Value(c, 10), pre))
  {
    var tail := WrittenPre(pre) + WrittenBuild(build);
    CoreOfDigits(a, b, c, tail);
    TailIs(pre, build);
    SpelledWith(value, prefix, a, b + ("." + (c + tail)));
    PartsOf(value, a + ("." + (b + ("." + (c + tail)))), tail, Version(Value(a, 10), Value(b, 10), Value(c, 10), pre));
  }

  lemma SpelledWith(value: string, prefix: bool, a: string, rest: string)
    requires DigitText(a) && Strip(value) == (if prefix then "v" else "") + (a + ("." + rest))
    ensures var core := a + ("." + rest); core != "" && core[0] != 'v' && (Strip(value) == core || Strip(value) == "v" + core)
  {
    assert (a + ("." + rest))[0] == a[0] && Digit(a[0]);
  }

  lemma NumberSplits(s: string)
    requires Number(s).Got?
    ensures var digits := s[..Span(s, Digit)];
            DigitText(digits) && AllDigits(digits, 10) && s == digits + Number(s).rest && Number(s).value == Value(digits, 10)
  {
    var n := Span(s, Digit);
    DigitsAreDigits(s[..n]);
    assert s == s[..n] + s[n..];
  }

  lemma SkipSplits(s: string, c: char)
    requires Skip(s, c).Got?
    ensures s == [c] + Skip(s, c).rest
  {
  }

  lemma CoreSplits(s: string) returns (a: string, b: string, c: string)
    requires Core(s).Got?
    ensures DigitText(a) && DigitText(b) && DigitText(c) && AllDigits(a, 10) && AllDigits(b, 10) && AllDigits(c, 10)
    ensures s == a + ("." + (b + ("." + (c + Core(s).rest)))) && Core(s).value == (Value(a, 10), Value(b, 10), Value(c, 10))
  {
    var x := Number(s);
    var d := Skip(x.rest, '.');
    var y := Number(d.rest);
    var e := Skip(y.rest, '.');
    var z := Number(e.rest);
    NumberSplits(s);
    SkipSplits(x.rest, '.');
    NumberSplits(d.rest);
    SkipSplits(y.rest, '.');
    NumberSplits(e.rest);
    a, b, c := s[..Span(s, Digit)], d.rest[..Span(d.rest, Digit)], e.rest[..Span(e.rest, Digit)];
  }

  lemma BuildSplits(s: string) returns (build: Option<string>)
    requires Build(s)
    ensures ValidBuild(build) && s == WrittenBuild(build)
  {
    if s == "" {
      build := None;
    } else {
      build := Some(s[1..]);
      assert s == "+" + s[1..];
    }
  }

  lemma {:induction false} SplitIsJoined(s: string)
    requires forall i :: 0 <= i < |s| ==> Label(s[i])
    ensures JoinDots(SplitDots(s)) == s
    ensures forall i :: 0 <= i < |SplitDots(s)| ==> Identifier(SplitDots(s)[i])
  {
    if s != "" {
      SplitIsJoined(s[1..]);
      var rest := SplitDots(s[1..]);
      assert s == [s[0]] + s[1..];
      if s[0] == '.' {
        assert ([""] + rest)[1..] == rest;
        assert JoinDots([""] + rest) == "" + "." + JoinDots(rest);
      } else {
        JoinedFirst(s[0], rest);
      }
    }
  }

  lemma JoinedFirst(c: char, rest: seq<string>)
    requires rest != []
    ensures JoinDots([[c] + rest[0]] + rest[1..]) == [c] + JoinDots(rest)
  {
    var longer := [[c] + rest[0]] + rest[1..];
    assert longer[1..] == rest[1..];
    if |rest| > 1 { assert ([c] + rest[0]) + "." + JoinDots(rest[1..]) == [c] + (rest[0] + "." + JoinDots(rest[1..])); }
  }

  lemma PreTailSplits(s: string) returns (build: Option<string>)
    requires Tail(s).Some? && s != "" && s[0] == '-'
    ensures Writable(Version(0, 0, 0, Tail(s).value)) && ValidBuild(build)
    ensures s == WrittenPre(Tail(s).value) + WrittenBuild(build)
  {
    var n := Span(s[1..], Label);
    var text := s[1..][..n];
    SplitIsJoined(text);
    build := BuildSplits(s[1 + n..]);
    assert s == ("-" + text) + s[1 + n..];
  }

  lemma TailSplits(s: string) returns (build: Option<string>)
    requires Tail(s).Some?
    ensures Writable(Version(0, 0, 0, Tail(s).value)) && ValidBuild(build)
    ensures s == WrittenPre(Tail(s).value) + WrittenBuild(build)
  {
    if s != "" && s[0] == '-' {
      build := PreTailSplits(s);
    } else {
      build := BuildSplits(s);
      assert s == "" + WrittenBuild(build);
    }
  }

  /** The text without its leading v. */
  function Bare(value: string): string
  {
    var text := Strip(value);
    if text != "" && text[0] == 'v' then text[1..] else text
  }

  lemma BareSplits(value: string) returns (prefix: bool)
    ensures Strip(value) == (if prefix then "v" else "") + Bare(value)
  {
    var text := Strip(value);
    prefix := text != "" && text[0] == 'v';
    if prefix { assert text == "v" + text[1..]; } else { assert "" + text == text; }
  }

  lemma PartsOfBare(value: string)
    ensures VersionParts(value).Some? <==> Core(Bare(value)).Got? && Tail(Core(Bare(value)).rest).Some?
    ensures VersionParts(value).Some? ==>
              var core := Core(Bare(value));
              VersionParts(value) == Some(Version(core.value.0, core.value.1, core.value.2, Tail(core.rest).value))
  {
  }

  /** And nothing else is: what is read was spelled that way. */
  lemma ReadIsSpelled(value: string) returns (prefix: bool, a: string, b: string, c: string, build: Option<string>)
    requires VersionParts(value).Some?
    ensures var v := VersionParts(value).value;
            && DigitText(a) && DigitText(b) && DigitText(c) && AllDigits(a, 10) && AllDigits(b, 10) && AllDigits(c, 10)
            && v.major == Value(a, 10) && v.minor == Value(b, 10) && v.patch == Value(c, 10)
            && Writable(v) && ValidBuild(build) && Strip(value) == Spelled(prefix, a, b, c, v.pre, build)
  {
    prefix := BareSplits(value);
    PartsOfBare(value);
    a, b, c := CoreSplits(Bare(value));
    build := TailSplits(Core(Bare(value)).rest);
  }

  lemma CompareRead(current: string, latest: string, l: Version, r: Version)
    requires VersionParts(current) == Some(l) && VersionParts(latest) == Some(r)
    ensures CompareVersions(current, latest) == Some(Older(l, r))
  {
  }

  /** Build metadata and the leading v never change the answer, which is the standard's for canonical versions. */
  lemma CompareWritten(l: Version, r: Version, prefix: bool, prefix': bool, build: Option<string>, build': Option<string>)
    requires Writable(l) && Writable(r) && ValidBuild(build) && ValidBuild(build')
    ensures var answer := CompareVersions(Written(l, prefix, build), Written(r, prefix', build'));
            answer == Some(Older(l, r)) && (Canonical(l) && Canonical(r) ==> (answer == Some(true) <==> Precedes(l, r)))
  {
    WrittenIsRead(l, prefix, build);
    WrittenIsRead(r, prefix', build');
    CompareRead(Written(l, prefix, build), Written(r, prefix', build'), l, r);
    if Canonical(l) && Canonical(r) { CanonicalTrichotomy(l, r); }
  }
}
