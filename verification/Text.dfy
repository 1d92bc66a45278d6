/** Option, string order, positional numerals and white space, shared by the other modules. */
module Text {

  datatype Option<+T> = None | Some(value: T)

  /** Strict lexicographic order by code point, as Go and Python compare strings. */
  predicate Less(a: string, b: string)
  {
    if b == [] then false
    else if a == [] then true
    else if a[0] == b[0] then Less(a[1..], b[1..])
    else a[0] < b[0]
  }

  lemma {:induction false} LessIrreflexive(a: string)
    ensures !Less(a, a)
  {
    if a != [] { LessIrreflexive(a[1..]); }
  }

  lemma {:induction false} LessTransitive(a: string, b: string, c: string)
    requires Less(a, b) && Less(b, c)
    ensures Less(a, c)
  {
    if a != [] && a[0] == b[0] == c[0] { LessTransitive(a[1..], b[1..], c[1..]); }
  }

  lemma {:induction false} LessTotal(a: string, b: string)
    ensures Less(a, b) || a == b || Less(b, a)
  {
    if a != [] && b != [] && a[0] == b[0] {
      LessTotal(a[1..], b[1..]);
      assert a == [a[0]] + a[1..] && b == [b[0]] + b[1..];
    }
  }

  // Numerals in base 10 (suffixes, headers, versions) and base 16 (chunk sizes).

  predicate IsBase(base: nat) { 2 <= base <= 16 }

  /** The value of a digit in either case, or None. */
  function DigitValue(c: char): (r: Option<nat>)
    ensures r.Some? ==> r.value < 16
  {
    if '0' <= c <= '9' then Some(c as int - '0' as int)
    else if 'a' <= c <= 'f' then Some(c as int - 'a' as int + 10)
    else if 'A' <= c <= 'F' then Some(c as int - 'A' as int + 10)
    else None
  }

  function DigitChar(d: nat): (c: char)
    requires d < 16
    ensures DigitValue(c) == Some(d)
    ensures c == '0' <==> d == 0
  {
    if d < 10 then '0' + d as char else 'a' + (d - 10) as char
  }

  predicate IsDigit(c: char, base: nat)
  {
    DigitValue(c).Some? && DigitValue(c).value < base
  }

  predicate AllDigits(s: string, base: nat)
  {
    forall i :: 0 <= i < |s| ==> IsDigit(s[i], base)
  }

  function Print(n: nat, base: nat): (s: string)
    requires IsBase(base)
    decreases n
  {
    if n < base then [DigitChar(n)] else Print(n / base, base) + [DigitChar(n % base)]
  }

  function Value(s: string, base: nat): nat
    requires AllDigits(s, base)
  {
    if s == [] then 0
    else Value(s[..|s| - 1], base) * base + DigitValue(s[|s| - 1]).value
  }

  function Parse(s: string, base: nat): Option<nat>
  {
    if s != [] && AllDigits(s, base) then Some(Value(s, base)) else None
  }

  lemma Division(n: nat, base: nat)
    requires base > 1 && n >= base
    ensures n == n / base * base + n % base
    ensures 0 < n / base < n
  {
    var q, r := n / base, n % base;
    assert n == q * base + r;
    AtLeastDouble(q, base);
  }

  lemma {:induction false} AtLeastDouble(q: nat, base: nat)
    requires base >= 2
    ensures q * base >= 2 * q
  {
    if q > 0 {
      AtLeastDouble(q - 1, base);
      assert q * base == (q - 1) * base + base;
    }
  }

  lemma ValueSnoc(front: string, c: char, base: nat)
    requires AllDigits(front, base) && IsDigit(c, base)
    ensures AllDigits(front + [c], base)
    ensures Value(front + [c], base) == Value(front, base) * base + DigitValue(c).value
  {
    assert (front + [c])[..|front|] == front;
  }

  /** Printing then parsing gives the number back, and no leading zero is printed. */
  lemma {:induction false} PrintParses(n: nat, base: nat)
    requires IsBase(base)
    ensures Parse(Print(n, base), base) == Some(n)
    ensures n >= base ==> Print(n, base)[0] != '0'
    decreases n
  {
    if n >= base {
      Division(n, base);
      PrintParses(n / base, base);
      var front, c := Print(n / base, base), DigitChar(n % base);
      ValueSnoc(front, c, base);
    } else {
      ValueSnoc("", DigitChar(n), base);
      assert "" + [DigitChar(n)] == Print(n, base);
    }
  }

  lemma PrintInjective(m: nat, n: nat, base: nat)
    requires IsBase(base) && Print(m, base) == Print(n, base)
    ensures m == n
  {
    PrintParses(m, base);
    PrintParses(n, base);
  }

  /** A numeral in decimal digits with no leading zero is the one Print produces. */
  lemma {:induction false} ParsePrints(s: string)
    requires s != [] && AllDigits(s, 10) && (|s| > 1 ==> s[0] != '0')
    ensures Print(Value(s, 10), 10) == s
    ensures |s| > 1 ==> Value(s, 10) >= 10
  {
    var front, last := s[..|s| - 1], DigitValue(s[|s| - 1]).value;
    assert s == front + [s[|s| - 1]];
    assert DigitChar(last) == s[|s| - 1];
    if |s| == 1 {
      assert Value(front, 10) == 0;
    } else {
      ParsePrints(front);
      assert Value(front, 10) >= 1 by {
        if |front| == 1 { assert front[..0] == []; }
      }
      assert Value(s, 10) / 10 == Value(front, 10) && Value(s, 10) % 10 == last;
    }
  }

  // ---- White space, as Python's str.strip takes it

  predicate IsSpace(c: char)
  {
    || '\t' <= c <= '\r' || '\U{1c}' <= c <= ' ' || c == '\U{85}' || c == '\U{a0}' || c == '\U{1680}'
    || '\U{2000}' <= c <= '\U{200a}' || c == '\U{2028}' || c == '\U{2029}' || c == '\U{202f}' || c == '\U{205f}'
    || c == '\U{3000}'
  }

  function StripLeft(s: string): string
  {
    if s != "" && IsSpace(s[0]) then StripLeft(s[1..]) else s
  }

  function StripRight(s: string): string
  {
    if s != "" && IsSpace(s[|s| - 1]) then StripRight(s[..|s| - 1]) else s
  }

  function Strip(s: string): string { StripRight(StripLeft(s)) }

  lemma StripNothing(s: string)
    requires s != "" ==> !IsSpace(s[0]) && !IsSpace(s[|s| - 1])
    ensures Strip(s) == s
  {
  }

  /** The white space of Unicode by code point: five control characters and four separators, the space, and sixteen more. */
  lemma IsSpaceExactly(c: char)
    ensures IsSpace(c) <==>
            var u := c as int;
            9 <= u <= 13 || 28 <= u <= 32 || 8192 <= u <= 8202 || u in {133, 160, 5760, 8232, 8233, 8239, 8287, 12288}
  {
  }

  /** White space only, up to an index or from it on. */
  predicate SpaceBefore(s: string, i: nat) { forall k :: 0 <= k < i && k < |s| ==> IsSpace(s[k]) }

  predicate SpaceFrom(s: string, j: nat) { forall k :: j <= k < |s| ==> IsSpace(s[k]) }

  lemma {:induction false} StripLeftIs(s: string) returns (i: nat)
    ensures i <= |s| && StripLeft(s) == s[i..] && SpaceBefore(s, i)
    ensures i < |s| ==> !IsSpace(s[i])
  {
    if s != "" && IsSpace(s[0]) {
      i := StripLeftIs(s[1..]);
      assert s[1..][i..] == s[i + 1..];
      forall k | 0 <= k < i + 1 && k < |s| ensures IsSpace(s[k]) { if k > 0 { assert s[1..][k - 1] == s[k]; } }
      if i < |s[1..]| { assert s[1..][i] == s[i + 1]; }
      i := i + 1;
    } else {
      i := 0;
    }
  }

  lemma {:induction false} StripRightIs(s: string) returns (j: nat)
    ensures j <= |s| && StripRight(s) == s[..j] && SpaceFrom(s, j)
    ensures 0 < j ==> !IsSpace(s[j - 1])
  {
    if s != "" && IsSpace(s[|s| - 1]) {
      j := StripRightIs(s[..|s| - 1]);
      assert s[..|s| - 1][..j] == s[..j];
    } else {
      j := |s|;
    }
  }

  /** What is left between i and j neither starts nor ends with white space; everything around it is white space. */
  predicate Stripped(s: string, i: nat, j: nat)
  {
    && i <= j <= |s| && SpaceBefore(s, i) && SpaceFrom(s, j)
    && (i < j ==> !IsSpace(s[i]) && !IsSpace(s[j - 1]))
  }

  /** Stripping cuts the white space off both ends and nothing else. */
  lemma StripExactly(s: string) returns (i: nat, j: nat)
    ensures Stripped(s, i, j) && Strip(s) == s[i..j]
  {
    i := StripLeftIs(s);
    var rest := s[i..];
    var n := StripRightIs(rest);
    j := i + n;
    assert rest[..n] == s[i..j];
    forall k | j <= k < |s| ensures IsSpace(s[k]) { assert rest[k - i] == s[k]; }
    if i < j { assert rest[n - 1] == s[j - 1]; }
  }
}
