/**
 * Decoding of a chunked response body (section 7.1 of RFC 9112); bytes are characters. The loop walks by
 * positions, and a negative size walks it backwards.
 */
module Chunked {
  import opened Text
  import opened Walks

  const CRLF := "\r\n"

  predicate CrlfAt(s: string, i: nat)
  {
    i + 1 < |s| && s[i] == '\r' && s[i + 1] == '\n'
  }

  ghost predicate NoCrlf(s: string) { forall i :: 0 <= i ==> !CrlfAt(s, i) }

  /** The first CRLF at or after p stands at e. */
  ghost predicate LineAt(s: string, p: nat, e: nat)
  {
    p <= e && CrlfAt(s, e) && forall j :: p <= j < e ==> !CrlfAt(s, j)
  }

  lemma LineOnce(s: string, p: nat, e: nat, e': nat)
    requires LineAt(s, p, e) && LineAt(s, p, e')
    ensures e == e'
  {
    assert e < e' ==> !CrlfAt(s, e);
    assert e' < e ==> !CrlfAt(s, e');
  }

  // ---- The size of a chunk, as Python's int(text, 16) reads it

  /** What stands before the first semicolon. */
  function BeforeSemicolon(s: string): string
  {
    if s == "" then ""
    else
      var front := s[..|s| - 1];
      if BeforeSemicolon(front) != front then BeforeSemicolon(front)
      else if s[|s| - 1] == ';' then front
      else s
  }

  predicate ByteSpace(c: char) { c == ' ' || '\t' <= c <= '\r' }

  /**
   * What has been read: white space, a sign, a first zero that may start the 0x prefix, the prefix with its
   * optional underscore, digits with single underscores between them, white space again.
   */
  datatype Lexed =
    | Lead | Sign(neg: bool) | Zero(neg: bool) | Prefix(neg: bool) | PrefixUnder(neg: bool)
    | Digits(neg: bool, value: nat) | Under(neg: bool, value: nat) | Tail(neg: bool, value: nat) | Bad

  function Digit(neg: bool, before: nat, c: char): Lexed
  {
    if IsDigit(c, 16) then Digits(neg, before * 16 + DigitValue(c).value) else Bad
  }

  function Lex(l: Lexed, c: char): Lexed
  {
    match l
    case Lead =>
      if ByteSpace(c) then Lead
      else if c == '-' || c == '+' then Sign(c == '-')
      else if c == '0' then Zero(false)
      else Digit(false, 0, c)
    case Sign(neg) => if c == '0' then Zero(neg) else Digit(neg, 0, c)
    case Zero(neg) =>
      if c == 'x' || c == 'X' then Prefix(neg)
      else if c == '_' then Under(neg, 0)
      else if ByteSpace(c) then Tail(neg, 0)
      else Digit(neg, 0, c)
    case Prefix(neg) => if c == '_' then PrefixUnder(neg) else Digit(neg, 0, c)
    case PrefixUnder(neg) => Digit(neg, 0, c)
    case Digits(neg, v) => if c == '_' then Under(neg, v) else if ByteSpace(c) then Tail(neg, v) else Digit(neg, v, c)
    case Under(neg, v) => Digit(neg, v, c)
    case Tail(neg, v) => if ByteSpace(c) then Tail(neg, v) else Bad
    case Bad => Bad
  }

  function LexAll(s: string): Lexed
  {
    if s == "" then Lead else Lex(LexAll(s[..|s| - 1]), s[|s| - 1])
  }

  function With(neg: bool, v: nat): int { if neg then -(v as int) else v }

  function IntOf(l: Lexed): Option<int>
  {
    match l
    case Zero(_) => Some(0)
    case Digits(neg, v) => Some(With(neg, v))
    case Tail(neg, v) => Some(With(neg, v))
    case _ => None
  }

  function HexInt(s: string): Option<int> { IntOf(LexAll(s)) }

  function SizeOf(line: string): Option<int> { HexInt(BeforeSemicolon(line)) }

  predicate Negative(l: Lexed) { !l.Lead? && !l.Bad? && l.neg }

  lemma {:induction false} NegativeHasMinus(s: string)
    requires Negative(LexAll(s))
    ensures '-' in s
    decreases |s|
  {
    var front, last := s[..|s| - 1], s[|s| - 1];
    assert s == front + [last];
    if Negative(LexAll(front)) { NegativeHasMinus(front); }
  }

  // ---- Which texts are sizes

  predicate Hex(c: char) { '0' <= c <= '9' || 'a' <= c <= 'f' || 'A' <= c <= 'F' }

  predicate Padding(s: string) { forall i :: 0 <= i < |s| ==> s[i] as int in {9, 10, 11, 12, 13, 32} }

  /** Digits with single underscores between them. */
  predicate Grouped(g: string)
  {
    && g != "" && Hex(g[0]) && Hex(g[|g| - 1])
    && forall i :: 0 <= i < |g| ==> Hex(g[i]) || (i > 0 && g[i] == '_' && g[i - 1] != '_')
  }

  function GroupValue(g: string): nat
  {
    if g == "" then 0
    else
      var front, c := GroupValue(g[..|g| - 1]), g[|g| - 1];
      if IsDigit(c, 16) then front * 16 + DigitValue(c).value else front
  }

  /** A size as Python allows it: padding, a sign, a 0x prefix with an underscore, grouped digits, padding. */
  datatype Spelling = Spelling(pad: string, sign: string, prefix: string, digits: string, end: string)

  function TextOf(sp: Spelling): string { sp.pad + sp.sign + sp.prefix + sp.digits + sp.end }

  predicate Opening(sp: Spelling)
  {
    Padding(sp.pad) && sp.sign in {"", "+", "-"} && sp.prefix in {"", "0x", "0X", "0x_", "0X_"}
  }

  predicate Spells(sp: Spelling) { Opening(sp) && Grouped(sp.digits) && Padding(sp.end) }

  /** What a state says about the text read so far; an underscore just read stands at its end. */
  predicate Means(sp: Spelling, l: Lexed)
  {
    && Opening(sp) && (Negative(l) <==> sp.sign == "-" && !l.Bad? && !l.Lead?)
    && match l
       case Lead => sp.sign == sp.prefix == sp.digits == sp.end == ""
       case Sign(_) => sp.sign != "" && sp.prefix == sp.digits == sp.end == ""
       case Zero(_) => sp.prefix == "" && sp.digits == "0" && sp.end == ""
       case Prefix(_) => sp.prefix in {"0x", "0X"} && sp.digits == sp.end == ""
       case PrefixUnder(_) => sp.prefix in {"0x_", "0X_"} && sp.digits == sp.end == ""
       case Digits(_, v) => Grouped(sp.digits) && v == GroupValue(sp.digits) && sp.end == ""
       case Under(_, v) => Grouped(sp.digits) && v == GroupValue(sp.digits) && sp.end == "_"
       case Tail(_, v) => Grouped(sp.digits) && v == GroupValue(sp.digits) && sp.end != "" && Padding(sp.end)
       case Bad => true
  }

  lemma GroupSnoc(g: string, c: char)
    requires Hex(c) && (g == "" || Grouped(g))
    ensures Grouped(g + [c]) && IsDigit(c, 16) && GroupValue(g + [c]) == GroupValue(g) * 16 + DigitValue(c).value
  {
    var longer := g + [c];
    assert longer[..|g|] == g;
    forall i | 0 <= i < |longer| ensures Hex(longer[i]) || (i > 0 && longer[i] == '_' && longer[i - 1] != '_') {
      if i < |g| {
        assert longer[i] == g[i];
        if i > 0 { assert longer[i - 1] == g[i - 1]; }
      }
    }
  }

  lemma GroupUnderSnoc(g: string, c: char)
    requires Hex(c) && Grouped(g)
    ensures Grouped(g + "_" + [c]) && IsDigit(c, 16) && GroupValue(g + "_" + [c]) == GroupValue(g) * 16 + DigitValue(c).value
  {
    var under, longer := g + "_", g + "_" + [c];
    assert under[..|g|] == g && longer[..|under|] == under;
    forall i | 0 <= i < |longer| ensures Hex(longer[i]) || (i > 0 && longer[i] == '_' && longer[i - 1] != '_') {
      if i < |g| {
        assert longer[i] == g[i];
        if i > 0 { assert longer[i - 1] == g[i - 1]; }
      } else if i == |g| {
        assert longer[i - 1] == g[|g| - 1];
      }
    }
  }

  lemma HexIsDigit(c: char)
    ensures IsDigit(c, 16) <==> Hex(c)
    ensures ByteSpace(c) <==> c as int in {9, 10, 11, 12, 13, 32}
    ensures Hex(c) ==> !ByteSpace(c) && c !in "+-_xX"
  {
  }

  /** What the reader has seen after one character more. */
  function Grown(sp: Spelling, l: Lexed, c: char): Spelling
  {
    match l
    case Lead =>
      if ByteSpace(c) then sp.(pad := sp.pad + [c])
      else if c == '-' || c == '+' then sp.(sign := [c])
      else sp.(digits := [c])
    case Zero(_) =>
      if c == 'x' || c == 'X' then sp.(digits := "", prefix := ['0', c])
      else if c == '_' then sp.(end := "_")
      else if ByteSpace(c) then sp.(end := [c])
      else sp.(digits := sp.digits + [c])
    case Prefix(_) => if c == '_' then sp.(prefix := sp.prefix + "_") else sp.(digits := [c])
    case Digits(_, _) =>
      if c == '_' then sp.(end := "_") else if ByteSpace(c) then sp.(end := [c]) else sp.(digits := sp.digits + [c])
    case Under(_, _) => sp.(digits := sp.digits + "_" + [c], end := "")
    case Tail(_, _) => sp.(end := sp.end + [c])
    case _ => sp.(digits := [c])
  }

  lemma GrownOpening(sp: Spelling, l: Lexed, c: char)
    requires Means(sp, l) && !Lex(l, c).Bad? && (l.Lead? || l.Sign? || l.Prefix? || l.PrefixUnder?)
    ensures TextOf(Grown(sp, l, c)) == TextOf(sp) + [c]
  {
  }

  lemma GrownDigits(sp: Spelling, l: Lexed, c: char)
    requires Means(sp, l) && !Lex(l, c).Bad? && (l.Zero? || l.Digits? || l.Tail?)
    ensures TextOf(Grown(sp, l, c)) == TextOf(sp) + [c]
  {
  }

  lemma GrownUnder(sp: Spelling, l: Lexed, c: char)
    requires Means(sp, l) && !Lex(l, c).Bad? && l.Under?
    ensures TextOf(Grown(sp, l, c)) == TextOf(sp) + [c]
  {
    assert sp.digits + "_" + [c] == sp.digits + ("_" + [c]);
  }

  lemma GrownText(sp: Spelling, l: Lexed, c: char)
    requires Means(sp, l) && !Lex(l, c).Bad?
    ensures TextOf(Grown(sp, l, c)) == TextOf(sp) + [c]
  {
    match l
    case Zero(_) => GrownDigits(sp, l, c);
    case Digits(_, _) => GrownDigits(sp, l, c);
    case Tail(_, _) => GrownDigits(sp, l, c);
    case Under(_, _) => GrownUnder(sp, l, c);
    case _ => GrownOpening(sp, l, c);
  }

  lemma FirstDigit(c: char)
    requires Hex(c)
    ensures Grouped([c]) && IsDigit(c, 16) && GroupValue([c]) == DigitValue(c).value
  {
    GroupSnoc("", c);
    assert "" + [c] == [c];
  }

  lemma ZeroGroup()
    ensures Grouped("0") && GroupValue("0") == 0
    ensures GroupValue("") == 0
  {
    var g := "0";
    assert g[..0] == "" && g[0] == '0' && IsDigit('0', 16) && DigitValue('0').value == 0;
    assert GroupValue(g) == GroupValue(g[..0]) * 16 + 0;
  }

  lemma OpeningMeans(sp: Spelling, l: Lexed, c: char)
    requires Means(sp, l) && !Lex(l, c).Bad? && (l.Lead? || l.Sign? || l.Prefix? || l.PrefixUnder?)
    ensures Means(Grown(sp, l, c), Lex(l, c))
  {
    HexIsDigit(c);
    ZeroGroup();
    assert "0x" + "_" == "0x_" && "0X" + "_" == "0X_";
    assert (c == '-' ==> [c] == "-") && (c == '+' ==> [c] == "+") && (c == '0' ==> [c] == "0");
    if Hex(c) { FirstDigit(c); }
  }

  lemma ZeroMeans(sp: Spelling, l: Lexed, c: char)
    requires Means(sp, l) && !Lex(l, c).Bad? && l.Zero?
    ensures Means(Grown(sp, l, c), Lex(l, c))
  {
    HexIsDigit(c);
    ZeroGroup();
    if Hex(c) { GroupSnoc(sp.digits, c); }
  }

  lemma DigitsMean(sp: Spelling, l: Lexed, c: char)
    requires Means(sp, l) && !Lex(l, c).Bad? && (l.Digits? || l.Under? || l.Tail?)
    ensures Means(Grown(sp, l, c), Lex(l, c))
  {
    HexIsDigit(c);
    if Hex(c) {
      if l.Digits? { GroupSnoc(sp.digits, c); }
      if l.Under? { GroupUnderSnoc(sp.digits, c); }
    }
    if l.Under? { UnderSnoc(sp.digits); }
  }

  lemma UnderSnoc(g: string)
    ensures GroupValue(g + "_") == GroupValue(g)
  {
    assert (g + "_")[..|g|] == g;
  }

  lemma GrownMeans(sp: Spelling, l: Lexed, c: char)
    requires Means(sp, l) && !Lex(l, c).Bad?
    ensures Means(Grown(sp, l, c), Lex(l, c))
  {
    match l
    case Zero(_) => ZeroMeans(sp, l, c);
    case Digits(_, _) => DigitsMean(sp, l, c);
    case Under(_, _) => DigitsMean(sp, l, c);
    case Tail(_, _) => DigitsMean(sp, l, c);
    case _ => OpeningMeans(sp, l, c);
  }

  lemma {:induction false} LexedIsSpelled(s: string) returns (sp: Spelling)
    requires !LexAll(s).Bad?
    ensures Means(sp, LexAll(s)) && TextOf(sp) == s
    decreases |s|
  {
    if s == "" {
      sp := Spelling("", "", "", "", "");
    } else {
      var front, c := s[..|s| - 1], s[|s| - 1];
      var before := LexedIsSpelled(front);
      GrownText(before, LexAll(front), c);
      GrownMeans(before, LexAll(front), c);
      sp := Grown(before, LexAll(front), c);
      assert s == front + [c];
    }
  }

  /** Whatever is read as a size is spelled like one, and stands for its digits with its sign. */
  lemma SizeIsSpelled(s: string) returns (sp: Spelling)
    requires HexInt(s).Some?
    ensures Spells(sp) && TextOf(sp) == s
    ensures HexInt(s) == Some(With(sp.sign == "-", GroupValue(sp.digits)))
  {
    sp := LexedIsSpelled(s);
    ZeroGroup();
    match LexAll(s)
    case Zero(neg) => assert sp.sign == "-" <==> neg;
    case Digits(neg, v) => assert sp.sign == "-" <==> neg;
    case Tail(neg, v) => assert sp.sign == "-" <==> neg;
    case _ =>
  }

  function LexOn(l: Lexed, s: string): Lexed
  {
    if s == "" then l else Lex(LexOn(l, s[..|s| - 1]), s[|s| - 1])
  }

  lemma {:induction false} LexInTurn(l: Lexed, a: string, b: string)
    ensures LexOn(l, a + b) == LexOn(LexOn(l, a), b)
    decreases |b|
  {
    if b == "" {
      assert a + b == a;
    } else {
      assert (a + b)[..|a + b| - 1] == a + b[..|b| - 1];
      LexInTurn(l, a, b[..|b| - 1]);
    }
  }

  lemma {:induction false} LexAllIsOn(s: string)
    ensures LexAll(s) == LexOn(Lead, s)
  {
    if s != "" { LexAllIsOn(s[..|s| - 1]); }
  }

  lemma {:induction false} PadIsLead(pad: string)
    requires Padding(pad)
    ensures LexOn(Lead, pad) == Lead
  {
    if pad != "" {
      PadIsLead(pad[..|pad| - 1]);
      HexIsDigit(pad[|pad| - 1]);
    }
  }

  lemma LexTwo(l: Lexed, c: char, d: char)
    ensures LexOn(l, [c]) == Lex(l, c) && LexOn(l, [c, d]) == Lex(Lex(l, c), d)
  {
    assert [c][..0] == "" && [c, d][..1] == [c];
  }

  /** After padding and sign, with or without the prefix, digits may follow. */
  lemma OpeningIsRead(sp: Spelling)
    requires Opening(sp)
    ensures var l := LexOn(Lead, sp.pad + sp.sign + sp.prefix);
            && (Negative(l) <==> sp.sign == "-")
            && (sp.prefix == "" ==> l == if sp.sign == "" then Lead else Sign(sp.sign == "-"))
            && (sp.prefix != "" ==> l.Prefix? || l.PrefixUnder?)
            && (l.Prefix? || l.PrefixUnder? ==> l.neg == (sp.sign == "-"))
  {
    PadIsLead(sp.pad);
    LexInTurn(Lead, sp.pad, sp.sign);
    LexInTurn(Lead, sp.pad + sp.sign, sp.prefix);
    if sp.sign != "" {
      LexTwo(Lead, sp.sign[0], '0');
      assert sp.sign == [sp.sign[0]];
    }
    var l := LexOn(Lead, sp.pad + sp.sign);
    if sp.prefix != "" { PrefixIsRead(l, sp.prefix); }
  }

  lemma PrefixIsRead(l: Lexed, prefix: string)
    requires (l.Lead? || l.Sign?) && prefix in {"0x", "0X", "0x_", "0X_"}
    ensures var after := LexOn(l, prefix); (after.Prefix? || after.PrefixUnder?) && after.neg == (l.Sign? && l.neg)
  {
    var two := ['0', prefix[1]];
    LexTwo(l, '0', prefix[1]);
    if |prefix| == 2 {
      assert prefix == two;
    } else {
      LexInTurn(l, two, ['_']);
      LexTwo(LexOn(l, two), '_', '_');
      assert prefix == two + ['_'];
    }
  }

  predicate BeforeDigits(l: Lexed) { l.Lead? || l.Sign? || l.Prefix? || l.PrefixUnder? }

  /** The state after a group, or after one and an underscore. */
  predicate ReadGroup(after: Lexed, neg: bool, g: string)
  {
    if g != "" && g[|g| - 1] == '_' then after == Under(neg, GroupValue(g))
    else after == Digits(neg, GroupValue(g)) || (g == "0" && after == Zero(neg))
  }

  predicate Groups(g: string) { Grouped(g) || (|g| > 1 && g[|g| - 1] == '_' && Grouped(g[..|g| - 1])) }

  lemma FirstIsRead(l: Lexed, g: string)
    requires BeforeDigits(l) && |g| == 1 && Grouped(g)
    ensures ReadGroup(LexOn(l, g), !l.Lead? && l.neg, g)
  {
    HexIsDigit(g[0]);
    FirstDigit(g[0]);
    LexTwo(l, g[0], g[0]);
    assert g == [g[0]];
    ZeroGroup();
  }

  lemma NextIsRead(l: Lexed, front: string, c: char, neg: bool)
    requires front != "" && Groups(front) && Groups(front + [c]) && ReadGroup(l, neg, front)
    ensures ReadGroup(Lex(l, c), neg, front + [c])
  {
    var g := front + [c];
    assert g[..|g| - 1] == front && g[|g| - 1] == c;
    HexIsDigit(c);
    ZeroGroup();
  }

  /** A group of digits is read as its value; one that is cut behind an underscore waits for the next digit. */
  lemma {:induction false} GroupIsRead(l: Lexed, g: string)
    requires BeforeDigits(l) && Groups(g)
    ensures ReadGroup(LexOn(l, g), !l.Lead? && l.neg, g)
    decreases |g|
  {
    if |g| == 1 {
      FirstIsRead(l, g);
    } else {
      var front, c := g[..|g| - 1], g[|g| - 1];
      assert g == front + [c];
      if c != '_' { GroupFront(g); }
      GroupIsRead(l, front);
      NextIsRead(LexOn(l, front), front, c, !l.Lead? && l.neg);
    }
  }

  lemma GroupFront(g: string)
    requires Grouped(g) && |g| > 1
    ensures var front := g[..|g| - 1]; Grouped(front) || (|front| > 1 && front[|front| - 1] == '_' && Grouped(front[..|front| - 1]))
  {
    var front := g[..|g| - 1];
    forall i | 0 <= i < |front| ensures Hex(front[i]) || (i > 0 && front[i] == '_' && front[i - 1] != '_') {
      assert front[i] == g[i];
      if i > 0 { assert front[i - 1] == g[i - 1]; }
    }
    if !Hex(front[|front| - 1]) {
      var before := front[..|front| - 1];
      assert front[|front| - 2] == g[|g| - 3];
      forall i | 0 <= i < |before| ensures Hex(before[i]) || (i > 0 && before[i] == '_' && before[i - 1] != '_') {
        assert before[i] == g[i];
        if i > 0 { assert before[i - 1] == g[i - 1]; }
      }
    }
  }

  lemma {:induction false} EndIsRead(l: Lexed, end: string)
    requires (l.Zero? || l.Digits? || l.Tail?) && Padding(end)
    ensures IntOf(LexOn(l, end)) == IntOf(l) && (LexOn(l, end) == l || (LexOn(l, end).Tail? && LexOn(l, end).neg == l.neg))
    decreases |end|
  {
    if end != "" {
      EndIsRead(l, end[..|end| - 1]);
      HexIsDigit(end[|end| - 1]);
    }
  }

  /** And every such spelling is read as its number. */
  lemma SpelledIsSize(sp: Spelling)
    requires Spells(sp)
    ensures HexInt(TextOf(sp)) == Some(With(sp.sign == "-", GroupValue(sp.digits)))
  {
    var opening := sp.pad + sp.sign + sp.prefix;
    var l := LexOn(Lead, opening);
    OpeningIsRead(sp);
    LexInTurn(Lead, opening, sp.digits);
    GroupIsRead(l, sp.digits);
    LexInTurn(Lead, opening + sp.digits, sp.end);
    EndIsRead(LexOn(l, sp.digits), sp.end);
    LexAllIsOn(TextOf(sp));
    ZeroGroup();
  }

  // ---- One pass of the loop

  /** Where Python's slices and `find` put an index into a text of length n. */
  function Norm(i: int, n: nat): (r: nat)
    ensures r <= n
  {
    if i < 0 then (if i + n < 0 then 0 else i + n) else if i > n then n else i
  }

  /** A negative index counts from the end, and no index leads out of the text. */
  lemma NormExactly(i: int, n: nat)
    ensures 0 <= i <= n ==> Norm(i, n) == i
    ensures i > n ==> Norm(i, n) == n
    ensures i < 0 <= i + n ==> Norm(i, n) == n + i
    ensures i + n < 0 ==> Norm(i, n) == 0
  {
  }

  /** The characters from a up to b. */
  function Mid(s: string, a: nat, b: nat): string
    decreases b
  {
    if b <= a || b > |s| then "" else Mid(s, a, b - 1) + [s[b - 1]]
  }

  lemma {:induction false} MidIs(s: string, a: nat, b: nat)
    requires a <= b <= |s|
    ensures Mid(s, a, b) == s[a..b]
    decreases b
  {
    if a < b {
      MidIs(s, a, b - 1);
      assert s[a..b] == s[a..b - 1] + [s[b - 1]];
    }
  }

  function Slice(s: string, from: int, to: int): string { Mid(s, Norm(from, |s|), Norm(to, |s|)) }

  function PassWith(body: string, start: int, size: Option<int>): Pass
  {
    if size.None? then Malformed
    else if size.value == 0 then Finished
    else More(Slice(body, start, start + size.value), Norm(start + size.value + 2, |body|))
  }

  /** Where the line at p ends. */
  ghost function EndOf(body: string, p: nat): Option<nat>
  {
    if exists e: nat :: LineAt(body, p, e) then
      var e: nat :| LineAt(body, p, e);
      Some(e)
    else None
  }

  lemma EndIs(body: string, p: nat, e: nat)
    requires LineAt(body, p, e)
    ensures EndOf(body, p) == Some(e)
  {
    LineOnce(body, p, e, EndOf(body, p).value);
  }

  /** A pass at a position of the body: the next size line, and the step it makes. */
  ghost function PassAt(body: string, p: nat): Pass
  {
    var e := EndOf(body, p);
    if e.None? then Malformed else PassWith(body, e.value + 2, SizeOf(Mid(body, p, e.value)))
  }

  lemma PassIs(body: string, p: nat, e: nat, size: Option<int>)
    requires LineAt(body, p, e) && size == SizeOf(Mid(body, p, e))
    ensures PassAt(body, p) == PassWith(body, e + 2, size)
  {
    EndIs(body, p, e);
  }

  lemma PassFails(body: string, p: nat)
    requires forall j :: p <= j ==> !CrlfAt(body, j)
    ensures PassAt(body, p) == Malformed
  {
  }

  /** A pass that goes on found a whole line in front of it. */
  lemma PassNeedsLine(body: string, p: nat)
    requires PassAt(body, p).More?
    ensures p < |body|
  {
  }

  // ---- The whole loop

  ghost function Steps(body: string): nat -> Pass { (p: nat) => PassAt(body, p) }

  /** The loop ends on the body. */
  ghost predicate Terminates(body: string) { Ends(Steps(body)) }

  /** The loop ends on the body with this result; None stands for the raised error. */
  ghost predicate DecodesTo(body: string, r: Option<string>) { EndsWith(Steps(body), r) }

  /** It has one result. */
  lemma DecodesToOne(body: string, r: Option<string>, r': Option<string>)
    requires DecodesTo(body, r) && DecodesTo(body, r')
    ensures r == r'
  {
    EndsWithOne(Steps(body), r, r');
  }

  lemma StepsInside(body: string)
    ensures forall q: nat :: Steps(body)(q).More? ==> q < |body|
  {
    forall q: nat ensures Steps(body)(q).More? ==> q < |body| {
      if Steps(body)(q).More? { PassNeedsLine(body, q); }
    }
  }

  /** The loop ends exactly if it ends within one pass more than the body has bytes. */
  lemma TerminatesExactly(body: string)
    ensures Terminates(body) <==> Within(Steps(body), 0, |body| + 1) != Unfinished
  {
    StepsInside(body);
    EndsExactly(Steps(body), |body|);
  }

  /** The size line at the position carries a minus sign in front of its extension. */
  ghost predicate MinusAt(body: string, p: nat)
  {
    exists e: nat :: LineAt(body, p, e) && '-' in BeforeSemicolon(Mid(body, p, e))
  }

  lemma ForwardPass(body: string, p: nat)
    requires !MinusAt(body, p) && PassAt(body, p).More?
    ensures PassAt(body, p).next > p
  {
    PassNeedsLine(body, p);
    var e: nat :| LineAt(body, p, e);
    var size := SizeOf(Mid(body, p, e));
    PassIs(body, p, e, size);
    if size.value < 0 { NegativeHasMinus(BeforeSemicolon(Mid(body, p, e))); }
  }

  /** It ends on every body none of whose size lines that are read carries a minus sign. */
  lemma ForwardTerminates(body: string)
    requires forall p: nat :: Reached(Steps(body), p) ==> !MinusAt(body, p)
    ensures Terminates(body)
  {
    StepsInside(body);
    forall p: nat | Reached(Steps(body), p) && Steps(body)(p).More? ensures p < Steps(body)(p).next {
      ForwardPass(body, p);
    }
    ForwardEnds(Steps(body), |body|);
  }

  /** Whatever follows, a body that starts with the size -6 is read from its start again and again. */
  lemma MinusSixNeverEnds(rest: string)
    ensures PassAt("-6" + CRLF + rest, 0) == More(Slice("-6" + CRLF + rest, 4, -2), 0) && !Terminates("-6" + CRLF + rest)
  {
    var body := "-6" + CRLF + rest;
    MinusSixIsRead(body, rest);
    SelfStepNeverEnds(Steps(body));
  }

  lemma MinusSixIsRead(body: string, rest: string)
    requires body == "-6" + CRLF + rest
    ensures PassAt(body, 0) == More(Slice(body, 4, -2), 0)
  {
    MinusSixSize();
    assert body[2] == '\r' && body[3] == '\n' && body[0] == '-' && body[1] == '6';
    MidIs(body, 0, 2);
    assert body[0..2] == "-6";
    PassIs(body, 0, 2, Some(-6));
  }

  lemma MinusSixSize()
    ensures SizeOf("-6") == Some(-6)
  {
    assert "-6"[..1] == "-" && "-"[..0] == "";
    assert BeforeSemicolon("-") == "-" && BeforeSemicolon("-6") == "-6";
    assert LexAll("-") == Sign(true);
    assert LexAll("-6") == Digits(true, 6);
  }

  // ---- The source's loop

  /** The source's `body.find` for the CRLF, from any integer position. */
  method FindCrlf(s: string, position: int) returns (r: Option<nat>)
    ensures r.None? ==> forall j :: Norm(position, |s|) <= j ==> !CrlfAt(s, j)
    ensures r.Some? ==> LineAt(s, Norm(position, |s|), r.value)
  {
    var i := Norm(position, |s|);
    while i < |s|
      invariant Norm(position, |s|) <= i
      invariant forall j :: Norm(position, |s|) <= j < i ==> !CrlfAt(s, j)
    {
      if CrlfAt(s, i) { return Some(i); }
      i := i + 1;
    }
    return None;
  }

  /** One pass of the source's loop: the size line, the slice it announces, the next position. */
  method ReadChunk(body: string, position: int, ghost step: nat -> Pass) returns (pass: Pass, next: int)
    requires forall p: nat {:trigger PassAt(body, p)} :: step(p) == PassAt(body, p)
    ensures pass == step(Norm(position, |body|))
    ensures pass.More? ==> Norm(next, |body|) == pass.next
  {
    ghost var p := Norm(position, |body|);
    next := position;
    var end := FindCrlf(body, position);
    if end.None? {
      PassFails(body, p);
      return Malformed, next;
    }
    var size := SizeOf(Slice(body, position, end.value));
    PassIs(body, p, end.value, size);
    next := end.value + 2;
    pass := PassWith(body, next, size);
    if pass.More? { next := next + size.value + 2; }
  }

  method Loop(body: string, ghost step: nat -> Pass) returns (r: Option<string>)
    requires forall p: nat {:trigger PassAt(body, p)} :: step(p) == PassAt(body, p)
    requires Ends(step)
    ensures EndsWith(step, r)
  {
    ghost var all: nat :| Within(step, 0, all) != Unfinished;
    ghost var passes := all;
    var decoded := "";
    var position := 0;
    PrefixedByNothing(Within(step, 0, all));
    while true
      invariant Within(step, 0, all) == Prefixed(decoded, Within(step, Norm(position, |body|), passes))
      decreases passes
    {
      var pass, next := ReadChunk(body, position, step);
      PassKeepsResult(step, Norm(position, |body|), passes, decoded);
      match pass {
        case Malformed => return None;
        case Finished => return Some(decoded);
        case More(data, _) => decoded, position, passes := decoded + data, next, passes - 1;
      }
    }
  }

  /** The source's loop, on any body on which it ends; on the others it has no result. */
  method DecodeChunked(body: string) returns (r: Option<string>)
    requires Terminates(body)
    ensures DecodesTo(body, r)
  {
    r := Loop(body, Steps(body));
  }

  // ---- The encoding

  /** A chunk as a sender writes it: its size in any spelling, an optional extension, its data. */
  datatype Chunk = Chunk(size: string, extension: Option<string>, data: string)

  ghost predicate ValidChunk(c: Chunk)
  {
    && HexInt(c.size) == Some(|c.data|) && ';' !in c.size && NoCrlf(c.size)
    && (c.extension.Some? ==> NoCrlf(c.extension.value))
  }

  function SizeLine(c: Chunk): string
  {
    c.size + if c.extension.Some? then ";" + c.extension.value else ""
  }

  /** Data chunks, then the last chunk of size zero, then the trailer. */
  function Encoded(chunks: seq<Chunk>, last: Chunk, trailer: string): string
  {
    if chunks == [] then SizeLine(last) + CRLF + trailer
    else SizeLine(chunks[0]) + CRLF + (chunks[0].data + CRLF + Encoded(chunks[1..], last, trailer))
  }

  function Content(chunks: seq<Chunk>): string
  {
    if chunks == [] then "" else chunks[0].data + Content(chunks[1..])
  }

  lemma {:induction false} NoSemicolon(s: string)
    requires ';' !in s
    ensures BeforeSemicolon(s) == s
  {
    if s != "" {
      assert s == s[..|s| - 1] + [s[|s| - 1]];
      NoSemicolon(s[..|s| - 1]);
    }
  }

  lemma {:induction false} SizeIsBeforeSemicolon(size: string, tail: string)
    requires ';' !in size && (tail == "" || tail[0] == ';')
    ensures BeforeSemicolon(size + tail) == size
    decreases |tail|
  {
    NoSemicolon(size);
    if tail == "" {
      assert size + tail == size;
    } else {
      var front := tail[..|tail| - 1];
      assert (size + tail)[..|size + tail| - 1] == size + front;
      SizeIsBeforeSemicolon(size, front);
      if front == "" { assert size + front == size; }
    }
  }

  lemma SizeLineIsClean(c: Chunk)
    requires ValidChunk(c)
    ensures NoCrlf(SizeLine(c)) && SizeOf(SizeLine(c)) == Some(|c.data|)
  {
    var tail := if c.extension.Some? then ";" + c.extension.value else "";
    SizeIsBeforeSemicolon(c.size, tail);
    forall i: nat ensures !CrlfAt(SizeLine(c), i) {
      if i + 1 < |c.size| {
        assert !CrlfAt(c.size, i);
      } else if i > |c.size| && c.extension.Some? && i + 1 < |SizeLine(c)| {
        assert SizeLine(c)[i] == c.extension.value[i - |c.size| - 1];
        assert SizeLine(c)[i + 1] == c.extension.value[i - |c.size|];
        assert !CrlfAt(c.extension.value, i - |c.size| - 1);
      }
    }
  }

  lemma LineInBody(pre: string, line: string, after: string)
    requires NoCrlf(line)
    ensures LineAt(pre + (line + CRLF + after), |pre|, |pre| + |line|)
  {
    var body, e := pre + (line + CRLF + after), |pre| + |line|;
    assert body[e] == '\r' && body[e + 1] == '\n';
    forall j | |pre| <= j < e ensures !CrlfAt(body, j) {
      assert body[j] == line[j - |pre|];
      assert j + 1 < e ==> body[j + 1] == line[j + 1 - |pre|];
      assert !CrlfAt(line, j - |pre|);
    }
  }

  lemma MidOf(pre: string, data: string, rest: string)
    ensures Mid(pre + (data + rest), |pre|, |pre| + |data|) == data
  {
    MidIs(pre + (data + rest), |pre|, |pre| + |data|);
    assert (pre + (data + rest))[|pre|..|pre| + |data|] == data;
  }

  lemma LineOf(body: string, pre: string, line: string, after: string)
    requires NoCrlf(line) && body == pre + (line + CRLF + after)
    ensures LineAt(body, |pre|, |pre| + |line|) && Mid(body, |pre|, |pre| + |line|) == line
  {
    LineInBody(pre, line, after);
    assert body == pre + (line + (CRLF + after));
    MidOf(pre, line, CRLF + after);
  }

  lemma ReadsLine(body: string, p: nat, line: string, size: Option<int>)
    requires LineAt(body, p, p + |line|) && Mid(body, p, p + |line|) == line && SizeOf(line) == size
    ensures PassAt(body, p) == PassWith(body, p + |line| + 2, size)
  {
    PassIs(body, p, p + |line|, size);
  }

  lemma LinePass(body: string, pre: string, line: string, after: string, size: Option<int>)
    requires NoCrlf(line) && SizeOf(line) == size && body == pre + (line + CRLF + after)
    ensures PassAt(body, |pre|) == PassWith(body, |pre| + |line| + 2, size)
  {
    LineOf(body, pre, line, after);
    ReadsLine(body, |pre|, line, size);
  }

  lemma ChunkPass(body: string, pre: string, c: Chunk, after: string)
    requires ValidChunk(c) && body == pre + (SizeLine(c) + CRLF + after)
    ensures PassAt(body, |pre|) == PassWith(body, |pre| + |SizeLine(c)| + 2, Some(|c.data|))
  {
    SizeLineIsClean(c);
    LinePass(body, pre, SizeLine(c), after, Some(|c.data|));
  }

  lemma DataIsSliced(body: string, before: string, data: string, rest: string)
    requires body == before + (data + rest)
    ensures Slice(body, |before|, |before| + |data|) == data
  {
    MidOf(before, data, rest);
  }

  /** What stands before the chunk after c. */
  function Past(pre: string, c: Chunk): string { pre + SizeLine(c) + CRLF + c.data + CRLF }

  lemma PastFirst(pre: string, c: Chunk, rest: string)
    ensures pre + (SizeLine(c) + CRLF + (c.data + CRLF + rest)) == Past(pre, c) + rest
    ensures pre + (SizeLine(c) + CRLF + (c.data + CRLF + rest)) == (pre + SizeLine(c) + CRLF) + (c.data + (CRLF + rest))
    ensures |Past(pre, c)| == |pre| + |SizeLine(c)| + |c.data| + 4
  {
  }

  /** A chunk in front of anything, read at its place in the body. */
  lemma ChunkIsRead(body: string, step: nat -> Pass, pre: string, c: Chunk, rest: string)
    requires forall p: nat {:trigger PassAt(body, p)} :: step(p) == PassAt(body, p)
    requires ValidChunk(c) && c.data != "" && body == pre + (SizeLine(c) + CRLF + (c.data + CRLF + rest))
    ensures step(|pre|) == More(c.data, |Past(pre, c)|) && body == Past(pre, c) + rest
  {
    var start, n := |pre| + |SizeLine(c)| + 2, |c.data|;
    assert PassWith(body, start, Some(n)) == More(c.data, start + n + 2) && |Past(pre, c)| == start + n + 2 && body == Past(pre, c) + rest by {
      PastFirst(pre, c, rest);
      DataIsSliced(body, pre + SizeLine(c) + CRLF, c.data, CRLF + rest);
      PassWithIs(body, start, n, c.data);
    }
    ChunkPass(body, pre, c, c.data + CRLF + rest);
  }

  lemma PassWithIs(body: string, start: nat, n: nat, data: string)
    requires n > 0 && start + n + 2 <= |body| && Slice(body, start, start + n) == data
    ensures PassWith(body, start, Some(n)) == More(data, start + n + 2)
  {
  }

  lemma LastIsRead(body: string, step: nat -> Pass, pre: string, last: Chunk, trailer: string)
    requires forall p: nat {:trigger PassAt(body, p)} :: step(p) == PassAt(body, p)
    requires ValidChunk(last) && last.data == "" && body == pre + (SizeLine(last) + CRLF + trailer)
    ensures step(|pre|) == Finished
  {
    ChunkPass(body, pre, last, trailer);
  }

  lemma {:induction false} EncodedIsRead(body: string, step: nat -> Pass, pre: string, chunks: seq<Chunk>, last: Chunk, trailer: string)
    requires forall p: nat {:trigger PassAt(body, p)} :: step(p) == PassAt(body, p)
    requires forall c :: c in chunks ==> ValidChunk(c) && c.data != ""
    requires ValidChunk(last) && last.data == "" && body == pre + Encoded(chunks, last, trailer)
    ensures Within(step, |pre|, |chunks| + 1) == Text(Content(chunks))
    decreases |chunks|
  {
    if chunks == [] {
      LastIsRead(body, step, pre, last, trailer);
    } else {
      ChunkIsRead(body, step, pre, chunks[0], Encoded(chunks[1..], last, trailer));
      EncodedIsRead(body, step, Past(pre, chunks[0]), chunks[1..], last, trailer);
    }
  }

  /**
   * Decoding undoes encoding: any non-empty chunks, with arbitrary data and extensions, any last
   * chunk and any trailer come out as exactly the concatenated data, and the loop ends.
   */
  lemma DecodeUndoesEncode(chunks: seq<Chunk>, last: Chunk, trailer: string)
    requires forall c :: c in chunks ==> ValidChunk(c) && c.data != ""
    requires ValidChunk(last) && last.data == ""
    ensures Terminates(Encoded(chunks, last, trailer))
    ensures DecodesTo(Encoded(chunks, last, trailer), Some(Content(chunks)))
  {
    var body := Encoded(chunks, last, trailer);
    assert body == "" + body;
    EncodedIsRead(body, Steps(body), "", chunks, last, trailer);
  }

  /** The chunk a sender makes of some data with the size printed in lower-case hexadecimal. */
  function Plain(data: string): Chunk { Chunk(Print(|data|, 16), None, data) }

  function PlainChunks(pieces: seq<string>): seq<Chunk>
  {
    if pieces == [] then [] else [Plain(pieces[0])] + PlainChunks(pieces[1..])
  }

  function Joined(pieces: seq<string>): string
  {
    if pieces == [] then "" else pieces[0] + Joined(pieces[1..])
  }

  lemma {:induction false} DigitsAreGroup(s: string)
    requires s != "" && AllDigits(s, 16)
    ensures Grouped(s) && GroupValue(s) == Value(s, 16)
    decreases |s|
  {
    var front, last := s[..|s| - 1], s[|s| - 1];
    assert IsDigit(last, 16) && s == front + [last];
    HexIsDigit(last);
    ValueSnoc(front, last, 16);
    if front == "" {
      FirstDigit(last);
      assert s == [last];
    } else {
      DigitsAreGroup(front);
      GroupSnoc(front, last);
    }
  }

  lemma DigitsAreRead(s: string)
    requires s != "" && AllDigits(s, 16)
    ensures HexInt(s) == Some(Value(s, 16))
  {
    var sp := Spelling("", "", "", s, "");
    DigitsAreGroup(s);
    SpelledIsSize(sp);
    assert TextOf(sp) == s;
  }

  lemma DigitsAreClean(s: string)
    requires AllDigits(s, 16)
    ensures NoCrlf(s) && ';' !in s
  {
    forall i: nat ensures !CrlfAt(s, i) {
      if i < |s| { assert IsDigit(s[i], 16); }
    }
    forall c | c in s ensures c != ';' {
      var i :| 0 <= i < |s| && s[i] == c;
      assert IsDigit(s[i], 16);
    }
  }

  lemma PlainIsValid(data: string)
    ensures ValidChunk(Plain(data))
  {
    PrintParses(|data|, 16);
    DigitsAreRead(Print(|data|, 16));
    DigitsAreClean(Print(|data|, 16));
  }

  lemma {:induction false} PlainChunksValid(pieces: seq<string>)
    requires forall p :: p in pieces ==> p != ""
    ensures forall c :: c in PlainChunks(pieces) ==> ValidChunk(c) && c.data != ""
    ensures Content(PlainChunks(pieces)) == Joined(pieces)
  {
    if pieces != [] {
      PlainIsValid(pieces[0]);
      assert pieces[0] in pieces;
      forall p | p in pieces[1..] ensures p != "" { assert p in pieces; }
      PlainChunksValid(pieces[1..]);
      assert PlainChunks(pieces)[1..] == PlainChunks(pieces[1..]);
      forall c | c in PlainChunks(pieces) ensures ValidChunk(c) && c.data != "" {
        assert c == Plain(pieces[0]) || c in PlainChunks(pieces[1..]);
      }
    }
  }

  /** With printed sizes, for every list of non-empty pieces. */
  lemma PlainRoundTrip(pieces: seq<string>)
    requires forall p :: p in pieces ==> p != ""
    ensures DecodesTo(Encoded(PlainChunks(pieces), Plain(""), CRLF), Some(Joined(pieces)))
  {
    PlainChunksValid(pieces);
    PlainIsValid("");
    DecodeUndoesEncode(PlainChunks(pieces), Plain(""), CRLF);
  }

  // ---- A body that was cut off

  lemma CutLine(line: string, n: nat)
    requires NoCrlf(line) && n < |line + CRLF|
    ensures NoCrlf((line + CRLF)[..n])
  {
    var s := (line + CRLF)[..n];
    forall i: nat ensures !CrlfAt(s, i) {
      if i + 1 < n { assert !CrlfAt(line, i); }
    }
  }

  /** A cut inside the size line leaves nothing to read. */
  lemma CutInLine(body: string, step: nat -> Pass, pre: string, c: Chunk, n: nat)
    requires forall p: nat {:trigger PassAt(body, p)} :: step(p) == PassAt(body, p)
    requires ValidChunk(c) && n < |SizeLine(c)| + 2 && body == pre + (SizeLine(c) + CRLF)[..n]
    ensures step(|pre|) == Malformed
  {
    SizeLineIsClean(c);
    CutLine(SizeLine(c), n);
    var cut := (SizeLine(c) + CRLF)[..n];
    forall j | |pre| <= j ensures !CrlfAt(body, j) {
      assert !CrlfAt(cut, j - |pre|);
    }
    PassFails(body, |pre|);
  }

  /** A cut inside the data or its line end makes the next pass start at the end of the body. */
  lemma CutInData(body: string, step: nat -> Pass, pre: string, c: Chunk, cut: string)
    requires forall p: nat {:trigger PassAt(body, p)} :: step(p) == PassAt(body, p)
    requires ValidChunk(c) && c.data != "" && |cut| < |c.data| + 2 && body == pre + (SizeLine(c) + CRLF + cut)
    ensures step(|pre|).More? && step(|pre|).next == |body| && step(|body|) == Malformed
  {
    ChunkPass(body, pre, c, cut);
    PassFails(body, |body|);
  }

  lemma CutEncoded(line: string, data: string, rest: string, n: nat)
    requires n <= |line + CRLF + (data + CRLF + rest)|
    ensures var whole := line + CRLF + (data + CRLF + rest);
            && (n < |line| + 2 ==> whole[..n] == (line + CRLF)[..n])
            && (n >= |line| + 2 ==> whole[..n] == line + CRLF + (data + CRLF + rest)[..n - |line| - 2])
            && (n >= |line| + |data| + 4 ==> whole[..n] == line + CRLF + (data + CRLF + rest[..n - |line| - |data| - 4]))
  {
  }

  lemma CutInFirst(body: string, step: nat -> Pass, pre: string, c: Chunk, rest: string, n: nat, passes: nat)
    requires forall p: nat {:trigger PassAt(body, p)} :: step(p) == PassAt(body, p)
    requires ValidChunk(c) && c.data != "" && n < |SizeLine(c)| + |c.data| + 4 && passes > 1
    requires n <= |SizeLine(c) + CRLF + (c.data + CRLF + rest)|
    requires body == pre + (SizeLine(c) + CRLF + (c.data + CRLF + rest))[..n]
    ensures Within(step, |pre|, passes) == Refused
  {
    CutEncoded(SizeLine(c), c.data, rest, n);
    if n < |SizeLine(c)| + 2 {
      CutInLine(body, step, pre, c, n);
    } else {
      CutInData(body, step, pre, c, (c.data + CRLF + rest)[..n - |SizeLine(c)| - 2]);
    }
  }

  lemma CutPastFirst(body: string, pre: string, c: Chunk, rest: string, n: nat)
    requires |SizeLine(c)| + |c.data| + 4 <= n <= |SizeLine(c) + CRLF + (c.data + CRLF + rest)|
    requires body == pre + (SizeLine(c) + CRLF + (c.data + CRLF + rest))[..n]
    ensures var tail := rest[..n - |SizeLine(c)| - |c.data| - 4];
            body == pre + (SizeLine(c) + CRLF + (c.data + CRLF + tail)) == Past(pre, c) + tail
  {
    CutEncoded(SizeLine(c), c.data, rest, n);
    PastFirst(pre, c, rest[..n - |SizeLine(c)| - |c.data| - 4]);
  }

  lemma {:induction false} CutIsRefused(body: string, step: nat -> Pass, pre: string, chunks: seq<Chunk>, last: Chunk, n: nat)
    requires forall p: nat {:trigger PassAt(body, p)} :: step(p) == PassAt(body, p)
    requires forall c :: c in chunks ==> ValidChunk(c) && c.data != ""
    requires ValidChunk(last) && last.data == "" && n < |Encoded(chunks, last, "")|
    requires body == pre + Encoded(chunks, last, "")[..n]
    ensures Within(step, |pre|, |chunks| + 2) == Refused
    decreases |chunks|
  {
    if chunks == [] {
      assert Encoded(chunks, last, "")[..n] == (SizeLine(last) + CRLF)[..n];
      CutInLine(body, step, pre, last, n);
    } else {
      var c, rest := chunks[0], Encoded(chunks[1..], last, "");
      if n < |SizeLine(c)| + |c.data| + 4 {
        CutInFirst(body, step, pre, c, rest, n, |chunks| + 2);
      } else {
        var tail := rest[..n - |SizeLine(c)| - |c.data| - 4];
        CutPastFirst(body, pre, c, rest, n);
        ChunkIsRead(body, step, pre, c, tail);
        CutIsRefused(body, step, Past(pre, c), chunks[1..], last, |tail|);
      }
    }
  }

  /** A body cut off anywhere before its last chunk is complete is refused, never taken for a shorter one. */
  lemma TruncatedIsRefused(chunks: seq<Chunk>, last: Chunk, n: nat)
    requires forall c :: c in chunks ==> ValidChunk(c) && c.data != ""
    requires ValidChunk(last) && last.data == "" && n < |Encoded(chunks, last, "")|
    ensures DecodesTo(Encoded(chunks, last, "")[..n], None)
  {
    var body := Encoded(chunks, last, "")[..n];
    assert body == "" + body;
    CutIsRefused(body, Steps(body), "", chunks, last, n);
  }
}
