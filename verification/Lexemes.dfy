/**
 The lexer against the language: sources written as lists of lexemes, each with
 its own spelling, and what the lexer makes of them. Every lexeme comes back with
 its kind and its text, except hexadecimal escapes in character literals.
 */
module Lexemes {
  import opened Wrappers
  import opened RustLexer

  // ---------------------------------------------------------------- lexemes

  /** A character of a string literal, or a backslash and what it escapes. */
  datatype Unit = Bare(c: char) | Escaped(c: char)

  datatype CharForm = Single(c: char) | Escape(c: char) | Unicode(digits: string) | Hex(high: char, low: char)

  datatype Lexeme =
    | White(c: char)
    | Line(body: string)
    | Block(body: string)
    | Quoted(prefix: string, units: seq<Unit>)
    | RawText(prefix: string, hashes: nat, body: string)
    | Character(byte: bool, form: CharForm)
    | Word(name: string)
    | RawWord(name: string)
    | Mark(c: char)

  function Times(c: char, n: nat): (r: string)
    ensures |r| == n && forall k :: 0 <= k < n ==> r[k] == c
  {
    if n == 0 then "" else [c] + Times(c, n - 1)
  }

  function UnitText(u: Unit): string { if u.Bare? then [u.c] else ['\\', u.c] }

  function UnitsText(units: seq<Unit>): string {
    if units == [] then "" else
      UnitText(units[0]) + UnitsText(units[1..])
  }

  function FormText(f: CharForm): string {
    match f
    case Single(c) => [c]
    case Escape(c) => ['\\', c]
    case Unicode(digits) => ['\\', 'u', '{'] + digits + ['}']
    case Hex(high, low) => ['\\', 'x', high, low]
  }

  function Text(l: Lexeme): string {
    match l
    case White(c) => [c]
    case Line(body) => "//" + body
    case Block(body) => "/*" + body
    case Quoted(prefix, units) => prefix + ['"'] + UnitsText(units) + ['"']
    case RawText(prefix, hashes, body) => prefix + Times('#', hashes) + ['"'] + body + ['"'] + Times('#', hashes)
    case Character(byte, form) => (if byte then ['b'] else []) + ['\''] + FormText(form) + ['\'']
    case Word(name) => name
    case RawWord(name) => "r#" + name
    case Mark(c) => [c]
  }

  function SortOf(l: Lexeme): PieceKind {
    match l
    case White(_) => Blank
    case Line(_) => Comment(true)
    case Block(_) => Comment(true)
    case Quoted(_, _) => Tok(Literal)
    case RawText(_, _, _) => Tok(Literal)
    case Character(_, _) => Tok(Literal)
    case Word(_) => Tok(Ident)
    case RawWord(_) => Tok(Ident)
    case Mark(_) => Tok(Punct)
  }

  predicate IsName(c: Classes, name: string) {
    name != "" && c.isIdentStart(name[0]) && forall k :: 0 < k < |name| ==> c.isIdentContinue(name[k])
  }

  /** What the character tables say of the characters the grammar names. */
  ghost predicate Sane(c: Classes) {
    && (forall x :: c.isIdentStart(x) ==> !c.isSpace(x) && c.isIdentContinue(x))
    && (forall x :: x in ['/', '"', '\'', '#', '\\', '*'] ==> !c.isSpace(x) && !c.isIdentContinue(x))
    && (forall x :: x in ['r', 'b', 'c'] ==> c.isIdentStart(x))
  }

  /** No quote in the body is followed by as many hashes as close the literal. */
  predicate NeverCloses(body: string, hashes: nat) {
    forall j :: 0 <= j < |body| ==> !RawCloses(body, hashes, j)
  }

  ghost predicate Proper(c: Classes, l: Lexeme) {
    match l
    case White(x) => c.isSpace(x)
    case Line(body) => '\n' !in body
    case Block(body) => ClosedAt("/*" + body, 2, |body| + 2)
    case Quoted(prefix, units) =>
      prefix in ["", "b", "c"] && forall u :: u in units && u.Bare? ==> u.c != '"' && u.c != '\\'
    case RawText(prefix, hashes, body) => prefix in ["r", "br", "cr"] && NeverCloses(body, hashes)
    case Character(_, form) =>
      (match form
       case Single(x) => x != '\\' && x != '\''
       case Escape(_) => true
       case Unicode(digits) => '}' !in digits
       case Hex(high, low) => high != '\'')
    case Word(name) => IsName(c, name)
    case RawWord(name) => IsName(c, name)
    case Mark(x) => !c.isSpace(x) && !c.isIdentStart(x) && x != '"'
  }

  /** Names that open a literal when a quote or a hash follows. */
  const PREFIXES: seq<string> := ["r", "b", "c", "br", "cr"]

  /** What stands behind does not belong to the lexeme. */
  predicate Fits(c: Classes, l: Lexeme, rest: string) {
    match l
    case Line(_) => rest != "" ==> rest[0] == '\n'
    case Word(name) =>
      rest != "" ==> !c.isIdentContinue(rest[0]) && (name in PREFIXES ==> rest[0] !in ['"', '\'', '#'])
    case RawWord(_) => rest != "" ==> !c.isIdentContinue(rest[0])
    case Mark(x) =>
      && (x == '/' && rest != "" ==> rest[0] != '/' && rest[0] != '*')
      // Otherwise a quote opens a character literal; here it marks a lifetime.
      && (x == '\'' ==> rest != "" && c.isIdentStart(rest[0]) && (|rest| > 1 ==> rest[1] != '\''))
    case _ => true
  }

  function Spell(ls: seq<Lexeme>): string { if ls == [] then "" else Text(ls[0]) + Spell(ls[1..]) }

  /** A list of lexemes that stays apart when it is written down. */
  ghost predicate Legible(c: Classes, ls: seq<Lexeme>) {
    forall k {:trigger StaysApart(c, ls, k)} :: 0 <= k < |ls| ==> StaysApart(c, ls, k)
  }

  /** The lexeme is well formed, and what is written behind it does not belong to it. */
  ghost predicate StaysApart(c: Classes, ls: seq<Lexeme>, k: nat)
    requires k < |ls|
  {
    Proper(c, ls[k]) && Fits(c, ls[k], Spell(ls[k + 1..]))
  }

  predicate Misread(l: Lexeme) { l.Character? && l.form.Hex? }

  // ---------------------------------------------------------------- one lexeme at a position

  /** The text stands at `i`. */
  ghost predicate Here(s: string, i: nat, text: string) {
    i + |text| <= |s| && forall k :: 0 <= k < |text| ==> s[i + k] == text[k]
  }

  lemma HereTwo(s: string, i: nat, a: string, b: string)
    requires Here(s, i, a + b)
    ensures Here(s, i, a) && Here(s, i + |a|, b)
  {
    var ab := a + b;
    forall k | 0 <= k < |a| ensures s[i + k] == a[k] { assert s[i + k] == ab[k]; }
    forall k | 0 <= k < |b| ensures s[i + |a| + k] == b[k] {
      var j := |a| + k;
      assert s[i + j] == ab[j] == b[k];
    }
  }

  lemma HereOne(s: string, i: nat, c: char)
    requires Here(s, i, [c])
    ensures i < |s| && s[i] == c
  {
    assert s[i + 0] == [c][0];
  }

  lemma HereTimes(s: string, i: nat, c: char, n: nat)
    requires Here(s, i, Times(c, n))
    ensures i + n <= |s| && forall k :: i <= k < i + n ==> s[k] == c
  {
    forall k | i <= k < i + n ensures s[k] == c {
      var j := k - i;
      assert s[i + j] == Times(c, n)[j];
    }
  }

  /** The text stands at `i`, and the rest behind it, up to the end of the source. */
  ghost predicate Stands(s: string, i: nat, text: string, rest: string) {
    i + |text| + |rest| == |s| && Here(s, i, text) && Here(s, i + |text|, rest)
  }

  lemma IsAt(s: string, pattern: string, i: nat)
    requires i + |pattern| <= |s| && forall k :: 0 <= k < |pattern| ==> s[i + k] == pattern[k]
    ensures At(s, pattern, i)
  {
    assert s[i..i + |pattern|] == pattern;
  }

  lemma NotAt(s: string, pattern: string, i: nat, k: nat)
    requires k < |pattern| && (i + k < |s| ==> s[i + k] != pattern[k])
    ensures !At(s, pattern, i)
  {
    if i + |pattern| <= |s| { assert s[i..i + |pattern|][k] == s[i + k]; }
  }

  /** Not a comment: it starts with another character than a slash. */
  lemma NoComment(s: string, i: nat)
    requires i < |s| && s[i] != '/'
    ensures !At(s, "//", i) && !At(s, "/*", i)
  {
    NotAt(s, "//", i, 0);
    NotAt(s, "/*", i, 0);
  }

  lemma LineEnd(s: string, i: nat, body: string)
    requires Here(s, i + 2, body) && '\n' !in body && (i + 2 + |body| < |s| ==> s[i + 2 + |body|] == '\n')
    ensures FindChar(s, '\n', i + 2) == i + 2 + |body|
  {
    forall k | i + 2 <= k < i + 2 + |body| ensures s[k] != '\n' {
      var j := k - i - 2;
      assert s[i + 2 + j] == body[j] && body[j] in body;
    }
  }

  lemma LineRead(s: string, c: Classes, i: nat, body: string)
    requires Sane(c) && '\n' !in body && Here(s, i, "//" + body)
    requires i + 2 + |body| < |s| ==> s[i + 2 + |body|] == '\n'
    ensures i < |s| && NextPiece(s, c, i) == Piece(Comment(true), i, i + 2 + |body|)
  {
    HereTwo(s, i, "//", body);
    assert s[i + 0] == "//"[0] == '/';
    IsAt(s, "//", i);
    LineEnd(s, i, body);
  }

  /** A comment body read at another place. */
  lemma {:induction false} BodyMoves(a: string, i: nat, e: nat, t: CommentBody, s: string, d: nat)
    returns (u: CommentBody)
    requires BodyAt(a, i, e, t) && e <= |a| && i <= e
    requires |a| + d <= |s| && forall k :: 0 <= k < |a| ==> s[d + k] == a[k]
    ensures BodyAt(s, i + d, e + d, u)
    decreases t
  {
    match t
    case ClosingMark =>
      MarkMoves(a, "*/", i, s, d);
      u := ClosingMark;
    case Plain(rest) =>
      BodyIsForward(a, i + 1, e, rest);
      NeitherMoves(a, i, e, s, d);
      var v := BodyMoves(a, i + 1, e, rest, s, d);
      u := Plain(v);
    case Inside(inner, mid, rest) =>
      MarkMoves(a, "/*", i, s, d);
      BodyIsForward(a, i + 2, mid, inner);
      BodyIsForward(a, mid, e, rest);
      var v := BodyMoves(a, i + 2, mid, inner, s, d);
      var w := BodyMoves(a, mid, e, rest, s, d);
      u := Inside(v, mid + d, w);
  }

  lemma {:induction false} BodyIsForward(s: string, i: nat, e: nat, t: CommentBody)
    requires BodyAt(s, i, e, t)
    ensures i < e <= |s|
    decreases t
  {
    match t
    case ClosingMark =>
    case Plain(rest) => BodyIsForward(s, i + 1, e, rest);
    case Inside(inner, mid, rest) =>
      BodyIsForward(s, i + 2, mid, inner);
      BodyIsForward(s, mid, e, rest);
  }

  lemma MarkMoves(a: string, pattern: string, i: nat, s: string, d: nat)
    requires |a| + d <= |s| && forall k :: 0 <= k < |a| ==> s[d + k] == a[k]
    requires i + |pattern| <= |a|
    ensures At(a, pattern, i) <==> At(s, pattern, i + d)
  {
    var x, y := a[i..i + |pattern|], s[i + d..i + d + |pattern|];
    forall k | 0 <= k < |pattern| ensures x[k] == y[k] { assert x[k] == a[i + k] == s[d + (i + k)]; }
    assert x == y;
  }

  lemma NeitherMoves(a: string, i: nat, e: nat, s: string, d: nat)
    requires |a| + d <= |s| && forall k :: 0 <= k < |a| ==> s[d + k] == a[k]
    requires i + 1 < e <= |a| && !At(a, "/*", i) && !At(a, "*/", i)
    ensures !At(s, "/*", i + d) && !At(s, "*/", i + d)
  {
    MarkMoves(a, "/*", i, s, d);
    MarkMoves(a, "*/", i, s, d);
  }

  lemma BlockRead(s: string, c: Classes, i: nat, l: Lexeme, rest: string)
    requires Sane(c) && l.Block? && Proper(c, l) && Stands(s, i, Text(l), rest)
    ensures i < |s| && NextPiece(s, c, i) == Piece(SortOf(l), i, i + |Text(l)|)
  {
    var text := Text(l);
    assert text[0] == '/' && text[1] == '*';
    IsAt(s, "/*", i);
    NotAt(s, "//", i, 1);
    var t :| BodyAt(text, 2, |text|, t);
    BodyIsForward(text, 2, |text|, t);
    var u := BodyMoves(text, 2, |text|, t, s, i);
    BodyEnds(s, i + 2, i + |text|, u);
  }

  // Raw literals.

  lemma {:induction false} HashesAre(s: string, i: nat, n: nat)
    requires i + n <= |s| && (forall k :: i <= k < i + n ==> s[k] == '#') && (i + n < |s| ==> s[i + n] != '#')
    ensures Hashes(s, i) == n
    decreases n
  {
    if n > 0 { HashesAre(s, i + 1, n - 1); }
  }

  /** No raw literal where neither a prefix with a quote nor one with a hash stands. */
  lemma NoRaw(s: string, i: nat)
    requires forall k :: 0 <= k < 3 ==> var q := i + |RAW_PREFIXES[k]|;
      At(s, RAW_PREFIXES[k], i) ==> q >= |s| || (s[q] != '"' && s[q] != '#')
    ensures RawEnd(s, i).None?
  {
    forall k | 0 <= k < 3 ensures !RawOpens(s, i, RAW_PREFIXES[k]) {
      var q := i + |RAW_PREFIXES[k]|;
      if At(s, RAW_PREFIXES[k], i) && q < |s| { HashesAre(s, q, 0); }
    }
  }

  /** A character that begins no raw prefix. */
  lemma NoPrefix(s: string, i: nat)
    requires i < |s| && s[i] !in ['r', 'b', 'c']
    ensures RawEnd(s, i).None?
  {
    NotAt(s, "br", i, 0);
    NotAt(s, "cr", i, 0);
    NotAt(s, "r", i, 0);
    NoRaw(s, i);
  }

  lemma RawFromIs(s: string, n: nat, from: nat, close: nat)
    requires from <= close < |s| && RawCloses(s, n, close)
    requires forall j :: from <= j < close ==> !RawCloses(s, n, j)
    ensures RawFrom(s, n, from) == close + 1 + n
  {
    RawFirst(s, n, from);
  }

  /** Inside the body nothing closes the literal; a closing cannot begin there and end behind. */
  lemma NoneInside(s: string, from: nat, body: string, n: nat, j: nat)
    requires from + |body| < |s| && s[from + |body|] == '"' && NeverCloses(body, n)
    requires forall k :: 0 <= k < |body| ==> s[from + k] == body[k]
    requires from <= j < from + |body|
    ensures !RawCloses(s, n, j)
  {
    if j + n < from + |body| {
      assert !RawCloses(body, n, j - from);
      assert forall k :: j - from < k <= j - from + n ==> body[k] == s[from + k];
    }
  }

  /** A raw literal with these parts stands from `i` to `q` and the hashes behind. */
  ghost predicate RawAt(s: string, i: nat, prefix: string, n: nat, body: string, h: nat, q: nat) {
    && h == i + |prefix| && q == h + n + 1 + |body| && q + n < |s| && s[h + n] == '"' && s[q] == '"'
    && Here(s, i, prefix) && Here(s, h + n + 1, body)
    && (forall k :: h <= k < h + n ==> s[k] == '#') && (forall k :: q < k <= q + n ==> s[k] == '#')
  }

  lemma RawParts(s: string, i: nat, prefix: string, n: nat, body: string)
    requires Here(s, i, prefix + Times('#', n) + ['"'] + body + ['"'] + Times('#', n))
    ensures RawAt(s, i, prefix, n, body, i + |prefix|, i + |prefix| + n + 1 + |body|)
  {
    var hashes := Times('#', n);
    var h := i + |prefix|;
    HereTwo(s, i, prefix + hashes + ['"'] + body + ['"'], hashes);
    HereTwo(s, i, prefix + hashes + ['"'] + body, ['"']);
    HereTwo(s, i, prefix + hashes + ['"'], body);
    HereTwo(s, i, prefix + hashes, ['"']);
    HereTwo(s, i, prefix, hashes);
    HereOne(s, h + n, '"');
    HereOne(s, h + n + 1 + |body|, '"');
    HereTimes(s, h, '#', n);
    HereTimes(s, h + n + 2 + |body|, '#', n);
  }

  lemma RawWithIs(s: string, i: nat, prefix: string, h: nat, n: nat, q: nat)
    requires At(s, prefix, i) && h == i + |prefix|
    requires h + n < q && q + n < |s| && s[h + n] == '"' && forall k :: h <= k < h + n ==> s[k] == '#'
    requires RawCloses(s, n, q) && forall j :: h + n + 1 <= j < q ==> !RawCloses(s, n, j)
    ensures RawOpens(s, i, prefix) && RawWith(s, i, prefix) == q + 1 + n
  {
    HashesAre(s, h, n);
    RawFromIs(s, n, h + n + 1, q);
  }

  lemma RawEndIs(s: string, i: nat, prefix: string, e: nat)
    requires prefix in ["r", "br", "cr"] && RawOpens(s, i, prefix) && RawWith(s, i, prefix) == e
    ensures RawEnd(s, i) == Some(e)
  {
    assert s[i..i + |prefix|][0] == s[i];
    OtherPrefixes(s, i, prefix);
  }

  /** A literal that is neither white space nor a comment is the next piece. */
  lemma LiteralIs(s: string, c: Classes, i: nat, e: nat)
    requires i < |s| && !c.isSpace(s[i]) && s[i] != '/' && LiteralEnd(s, i) == Some(e)
    ensures NextPiece(s, c, i) == Piece(Tok(Literal), i, e)
  {
    NoComment(s, i);
  }

  lemma PrefixStarts(s: string, i: nat, prefix: string)
    requires prefix in ["r", "br", "cr"] && At(s, prefix, i)
    ensures i < |s| && s[i] in ['r', 'b', 'c']
  {
    assert s[i..i + |prefix|][0] == s[i];
  }

  lemma NoneInBody(s: string, b: nat, body: string, n: nat)
    requires b + |body| < |s| && s[b + |body|] == '"' && NeverCloses(body, n)
    requires forall k :: 0 <= k < |body| ==> s[b + k] == body[k]
    ensures forall j :: b <= j < b + |body| ==> !RawCloses(s, n, j)
  {
    forall j | b <= j < b + |body| ensures !RawCloses(s, n, j) { NoneInside(s, b, body, n, j); }
  }

  lemma ClosesAt(s: string, n: nat, q: nat)
    requires q + n < |s| && s[q] == '"' && forall k :: q < k <= q + n ==> s[k] == '#'
    ensures RawCloses(s, n, q)
  {}

  lemma RawTextEnd(s: string, i: nat, prefix: string, n: nat, body: string, h: nat, q: nat)
    requires prefix in ["r", "br", "cr"] && NeverCloses(body, n) && RawAt(s, i, prefix, n, body, h, q)
    ensures At(s, prefix, i) && RawEnd(s, i) == Some(q + 1 + n)
  {
    IsAt(s, prefix, i);
    NoneInBody(s, h + n + 1, body, n);
    ClosesAt(s, n, q);
    RawWithIs(s, i, prefix, h, n, q);
    RawEndIs(s, i, prefix, q + 1 + n);
  }

  function RawLength(prefix: string, n: nat, body: string): nat { |prefix| + n + 1 + |body| + 1 + n }

  lemma RawRead(s: string, c: Classes, i: nat, prefix: string, n: nat, body: string)
    requires Sane(c) && prefix in ["r", "br", "cr"] && NeverCloses(body, n)
    requires Here(s, i, prefix + Times('#', n) + ['"'] + body + ['"'] + Times('#', n))
    ensures i < |s| && NextPiece(s, c, i) == Piece(Tok(Literal), i, i + RawLength(prefix, n, body))
  {
    var h := i + |prefix|;
    RawParts(s, i, prefix, n, body);
    RawTextEnd(s, i, prefix, n, body, h, h + n + 1 + |body|);
    PrefixStarts(s, i, prefix);
    assert c.isIdentStart(s[i]);
    LiteralIs(s, c, i, i + RawLength(prefix, n, body));
  }

  /** The prefixes differ in their first character. */
  lemma OtherPrefixes(s: string, i: nat, prefix: string)
    requires prefix in ["r", "br", "cr"] && i < |s| && s[i] == prefix[0]
    ensures forall k :: 0 <= k < 3 && RAW_PREFIXES[k] != prefix ==> !At(s, RAW_PREFIXES[k], i)
  {
    forall k | 0 <= k < 3 && RAW_PREFIXES[k] != prefix ensures !At(s, RAW_PREFIXES[k], i) {
      assert RAW_PREFIXES[k][0] != prefix[0];
      NotAt(s, RAW_PREFIXES[k], i, 0);
    }
  }

  // Quoted literals.

  lemma BareStep(s: string, from: nat, p: nat)
    requires from <= p < |s| && s[p] != '"' && s[p] != '\\'
    ensures QuotedFrom(s, from, p, '"') == QuotedFrom(s, from, p + 1, '"') && Slashes(s, from, p + 1) == 0
  {}

  lemma EscapeStep(s: string, from: nat, p: nat)
    requires from <= p && p + 1 < |s| && s[p] == '\\' && Slashes(s, from, p) % 2 == 0
    ensures QuotedFrom(s, from, p, '"') == QuotedFrom(s, from, p + 2, '"') && Slashes(s, from, p + 2) % 2 == 0
  {
    assert Slashes(s, from, p + 1) == 1 + Slashes(s, from, p);
    assert QuotedFrom(s, from, p + 1, '"') == QuotedFrom(s, from, p + 2, '"');
  }

  lemma UnitsFirst(s: string, p: nat, units: seq<Unit>)
    requires units != [] && Here(s, p, UnitsText(units))
    ensures var d := |UnitText(units[0])|;
      && |UnitsText(units)| == d + |UnitsText(units[1..])| && Here(s, p + d, UnitsText(units[1..]))
      && p < |s| && s[p] == if units[0].Bare? then units[0].c else '\\'
  {
    HereTwo(s, p, UnitText(units[0]), UnitsText(units[1..]));
    assert s[p + 0] == UnitText(units[0])[0];
  }

  /** At an even count of backslashes a bare character moves the scan on by one, an escape by two. */
  lemma {:induction false} UnitsRead(s: string, from: nat, p: nat, units: seq<Unit>)
    requires from <= p && p + |UnitsText(units)| < |s| && Slashes(s, from, p) % 2 == 0
    requires Here(s, p, UnitsText(units)) && s[p + |UnitsText(units)|] == '"'
    requires forall u :: u in units && u.Bare? ==> u.c != '"' && u.c != '\\'
    ensures QuotedFrom(s, from, p, '"') == p + |UnitsText(units)| + 1
    decreases |units|
  {
    if units != [] {
      UnitsFirst(s, p, units);
      if units[0].Bare? {
        assert units[0] in units;
        BareStep(s, from, p);
        UnitsRead(s, from, p + 1, units[1..]);
      } else {
        EscapeStep(s, from, p);
        UnitsRead(s, from, p + 2, units[1..]);
      }
    }
  }

  lemma QuotedParts(s: string, i: nat, prefix: string, w: string)
    requires Here(s, i, prefix + ['"'] + w + ['"'])
    ensures var q := i + |prefix|;
      Here(s, i, prefix) && Here(s, q + 1, w) && q + 1 + |w| < |s| && s[q] == '"' && s[q + 1 + |w|] == '"'
  {
    HereTwo(s, i, prefix + ['"'] + w, ['"']);
    HereTwo(s, i, prefix + ['"'], w);
    HereTwo(s, i, prefix, ['"']);
    HereOne(s, i + |prefix|, '"');
    HereOne(s, i + |prefix| + 1 + |w|, '"');
  }

  /** A quote, or `b` or `c` and a quote, opens no raw literal. */
  lemma QuoteIsNoRaw(s: string, i: nat, q: nat)
    requires i <= q < |s| && s[q] == '"' && (q == i || (q == i + 1 && s[i] in ['b', 'c']))
    ensures RawEnd(s, i).None?
  {
    if q == i {
      NoPrefix(s, i);
    } else {
      NotAt(s, "br", i, 1);
      NotAt(s, "cr", i, 1);
      NotAt(s, "r", i, 0);
      NoRaw(s, i);
    }
  }

  lemma QuotedEndIs(s: string, i: nat, q: nat, units: seq<Unit>)
    requires i <= q && q + 1 + |UnitsText(units)| < |s| && s[q] == '"' && s[q + 1 + |UnitsText(units)|] == '"'
    requires q == i || (q == i + 1 && s[i] in ['b', 'c'])
    requires Here(s, q + 1, UnitsText(units))
    requires forall u :: u in units && u.Bare? ==> u.c != '"' && u.c != '\\'
    ensures LiteralEnd(s, i) == Some(q + |UnitsText(units)| + 2)
  {
    QuoteIsNoRaw(s, i, q);
    UnitsRead(s, q + 1, q + 1, units);
  }

  lemma QuoteStarts(s: string, c: Classes, i: nat, q: nat)
    requires Sane(c) && i <= q < |s| && s[q] == '"' && (q == i || (q == i + 1 && s[i] in ['b', 'c']))
    ensures !c.isSpace(s[i]) && s[i] != '/'
  {
    assert q == i + 1 ==> c.isIdentStart(s[i]);
  }

  lemma QuotedStart(s: string, i: nat, prefix: string)
    requires prefix in ["", "b", "c"] && Here(s, i, prefix)
    ensures prefix == "" || (|prefix| == 1 && s[i] in ['b', 'c'])
  {
    if prefix != "" { assert s[i + 0] == prefix[0]; }
  }

  lemma QuotedRead(s: string, c: Classes, i: nat, prefix: string, units: seq<Unit>)
    requires Sane(c) && prefix in ["", "b", "c"] && forall u :: u in units && u.Bare? ==> u.c != '"' && u.c != '\\'
    requires Here(s, i, prefix + ['"'] + UnitsText(units) + ['"'])
    ensures i < |s|
    ensures NextPiece(s, c, i) == Piece(Tok(Literal), i, i + |prefix| + |UnitsText(units)| + 2)
  {
    QuotedParts(s, i, prefix, UnitsText(units));
    var q := i + |prefix|;
    QuotedStart(s, i, prefix);
    QuotedEndIs(s, i, q, units);
    QuoteStarts(s, c, i, q);
    LiteralIs(s, c, i, q + |UnitsText(units)| + 2);
  }

  // Character literals.

  /** What the scan makes of a character literal at its quote: a hexadecimal escape is none. */
  lemma FormRead(s: string, q: nat, f: CharForm)
    requires q + 1 + |FormText(f)| < |s| && s[q] == '\'' && s[q + 1 + |FormText(f)|] == '\''
    requires forall k :: 0 <= k < |FormText(f)| ==> s[q + 1 + k] == FormText(f)[k]
    requires f.Single? ==> f.c != '\\'
    requires f.Unicode? ==> '}' !in f.digits
    requires f.Hex? ==> f.high != '\''
    ensures CharEnd(s, q) == if f.Hex? then None else Some(q + |FormText(f)| + 2)
  {
    var text := FormText(f);
    assert s[q + 1] == text[0];
    if !f.Single? { assert s[q + 2] == text[1]; }
    if f.Hex? {
      assert s[q + 3] == text[2];
    } else if f.Unicode? {
      assert s[q + 3] == text[2];
      var close := q + 4 + |f.digits|;
      assert text[3 + |f.digits|] == '}' && s[close] == '}';
      forall k | q + 4 <= k < close ensures s[k] != '}' {
        assert s[k] == text[k - q - 1] == f.digits[k - q - 4];
        assert f.digits[k - q - 4] in f.digits;
      }
      assert FindChar(s, '}', q + 4) == close;
    }
  }

  /** An apostrophe, or `b` and one, opens neither a raw nor a quoted literal. */
  lemma ApostropheIsNoString(s: string, i: nat, q: nat)
    requires i <= q < |s| && s[q] == '\'' && (q == i || (q == i + 1 && s[i] == 'b'))
    ensures RawEnd(s, i).None? && !StartsQuoted(s, i)
  {
    if q == i {
      NoPrefix(s, i);
    } else {
      NotAt(s, "br", i, 1);
      NotAt(s, "cr", i, 0);
      NotAt(s, "r", i, 0);
      NoRaw(s, i);
    }
  }

  lemma CharacterParts(s: string, i: nat, b: string, w: string)
    requires Here(s, i, b + ['\''] + w + ['\''])
    ensures var q := i + |b|;
      Here(s, i, b) && Here(s, q + 1, w) && q + 1 + |w| < |s| && s[q] == '\'' && s[q + 1 + |w|] == '\''
  {
    HereTwo(s, i, b + ['\''] + w, ['\'']);
    HereTwo(s, i, b + ['\''], w);
    HereTwo(s, i, b, ['\'']);
    HereOne(s, i + |b|, '\'');
    HereOne(s, i + |b| + 1 + |w|, '\'');
  }

  lemma CharacterIs(s: string, c: Classes, i: nat, q: nat, e: Option<nat>)
    requires i <= q < |s| && s[q] == '\'' && (q == i || (q == i + 1 && s[i] == 'b')) && CharEnd(s, q) == e
    requires !c.isSpace(s[i])
    ensures e.Some? ==> NextPiece(s, c, i) == Piece(Tok(Literal), i, e.value)
    ensures e.None? ==> NextPiece(s, c, i).sort != Tok(Literal)
  {
    ApostropheIsNoString(s, i, q);
    NoComment(s, i);
  }

  /** A character literal is the next piece exactly if it is not a hexadecimal escape. */
  lemma CharacterRead(s: string, c: Classes, i: nat, byte: bool, form: CharForm)
    requires Sane(c) && Proper(c, Character(byte, form))
    requires Here(s, i, (if byte then ['b'] else []) + ['\''] + FormText(form) + ['\''])
    ensures i < |s|
    ensures var e := i + (if byte then 1 else 0) + |FormText(form)| + 2;
      NextPiece(s, c, i) == Piece(Tok(Literal), i, e) <==> !form.Hex?
  {
    var b := if byte then ['b'] else [];
    var q := i + |b|;
    CharacterParts(s, i, b, FormText(form));
    if byte { HereOne(s, i, 'b'); }
    FormRead(s, q, form);
    assert byte ==> c.isIdentStart(s[i]);
    CharacterIs(s, c, i, q, CharEnd(s, q));
  }

  // Names and marks.

  lemma {:induction false} RunIs(s: string, c: Classes, i: nat, e: nat)
    requires i <= e <= |s| && (forall k :: i <= k < e ==> c.isIdentContinue(s[k]))
    requires e < |s| ==> !c.isIdentContinue(s[e])
    ensures IdentRun(s, c, i) == e
  {}

  /** What opens no literal: a name that no quote or hash makes a prefix. */
  predicate OpensNone(s: string, i: nat, e: nat) {
    && i < e <= |s|
    && (forall k :: i <= k < e ==> s[k] !in ['"', '\'', '#'])
    && (e < |s| ==> s[i..e] in PREFIXES ==> s[e] !in ['"', '\'', '#'])
  }

  lemma PrefixBehind(s: string, i: nat, e: nat, prefix: string)
    requires OpensNone(s, i, e) && prefix in PREFIXES && At(s, prefix, i)
    requires e < |s| ==> s[e] !in ['r']
    ensures var q := i + |prefix|; q >= |s| || s[q] !in ['"', '\'', '#']
  {
    var q := i + |prefix|;
    assert s[i..q] == prefix;
    assert forall k :: i <= k < q ==> s[k] == prefix[k - i];
    assert |prefix| == 2 ==> prefix[1] == 'r';
  }

  lemma NoLiteral(s: string, i: nat, e: nat)
    requires OpensNone(s, i, e) && (e < |s| ==> s[e] != 'r')
    ensures LiteralEnd(s, i).None?
  {
    forall k | 0 <= k < 3
      ensures var q := i + |RAW_PREFIXES[k]|;
        At(s, RAW_PREFIXES[k], i) ==> q >= |s| || (s[q] != '"' && s[q] != '#')
    {
      if At(s, RAW_PREFIXES[k], i) { PrefixBehind(s, i, e, RAW_PREFIXES[k]); }
    }
    NoRaw(s, i);
    if s[i] == 'b' {
      IsAt(s, "b", i);
      PrefixBehind(s, i, e, "b");
    } else if s[i] == 'c' {
      IsAt(s, "c", i);
      PrefixBehind(s, i, e, "c");
    }
  }

  lemma WordOpensNone(s: string, c: Classes, i: nat, l: Lexeme, rest: string)
    requires Sane(c) && l.Word? && Proper(c, l) && Fits(c, l, rest) && Stands(s, i, Text(l), rest)
    ensures var e := i + |l.name|;
      && OpensNone(s, i, e) && s[i..e] == l.name && c.isIdentStart(s[i])
      && (forall k :: i <= k < e ==> c.isIdentContinue(s[k])) && (e < |s| ==> !c.isIdentContinue(s[e]))
  {
    var e := i + |l.name|;
    forall k | i <= k < e ensures c.isIdentContinue(s[k]) { assert s[k] == l.name[k - i]; }
    assert s[i..e] == l.name;
    if e < |s| { assert s[e] == rest[0]; }
    assert s[i] == l.name[0];
  }

  lemma WordRead(s: string, c: Classes, i: nat, l: Lexeme, rest: string)
    requires Sane(c) && l.Word? && Proper(c, l) && Fits(c, l, rest) && Stands(s, i, Text(l), rest)
    ensures i < |s| && NextPiece(s, c, i) == Piece(SortOf(l), i, i + |Text(l)|)
  {
    var e := i + |l.name|;
    WordOpensNone(s, c, i, l, rest);
    assert c.isIdentStart('r') && (e < |s| ==> s[e] != 'r');
    NoLiteral(s, i, e);
    NoComment(s, i);
    RunIs(s, c, i + 1, e);
    if e == i + 1 && s[i] == 'r' { assert l.name == "r" && "r" in PREFIXES; }
  }

  lemma RawWordParts(s: string, c: Classes, i: nat, l: Lexeme, rest: string)
    requires Sane(c) && l.RawWord? && IsName(c, l.name) && Fits(c, l, rest) && Stands(s, i, Text(l), rest)
    ensures var e := i + |Text(l)|;
      && i + 2 < e <= |s| && s[i] == 'r' && s[i + 1] == '#' && c.isIdentStart(s[i + 2])
      && (forall k :: i + 3 <= k < e ==> c.isIdentContinue(s[k])) && (e < |s| ==> !c.isIdentContinue(s[e]))
  {
    var text := Text(l);
    var e := i + |text|;
    assert s[i + 0] == text[0] && s[i + 1] == text[1] && s[i + 2] == text[2] == l.name[0];
    forall k | i + 3 <= k < e ensures c.isIdentContinue(s[k]) {
      assert s[i + (k - i)] == text[k - i] == l.name[k - i - 2];
    }
    if e < |s| { assert s[e + 0] == rest[0]; }
  }

  /** `r`, a hash, and a name up to `e`. */
  lemma RawWordIs(s: string, c: Classes, i: nat, e: nat)
    requires Sane(c) && i + 2 < e <= |s| && s[i] == 'r' && s[i + 1] == '#' && c.isIdentStart(s[i + 2])
    requires (forall k :: i + 3 <= k < e ==> c.isIdentContinue(s[k])) && (e < |s| ==> !c.isIdentContinue(s[e]))
    ensures NextPiece(s, c, i) == Piece(Tok(Ident), i, e)
  {
    assert c.isIdentStart('r') && !c.isIdentContinue('#') && !c.isIdentContinue('"');
    HashWordIsNoRaw(s, i);
    NoComment(s, i);
    RunIs(s, c, i + 1, i + 1);
    RunIs(s, c, i + 3, e);
  }

  lemma RawWordRead(s: string, c: Classes, i: nat, l: Lexeme, rest: string)
    requires Sane(c) && l.RawWord? && Proper(c, l) && Fits(c, l, rest) && Stands(s, i, Text(l), rest)
    ensures i < |s| && NextPiece(s, c, i) == Piece(SortOf(l), i, i + |Text(l)|)
  {
    RawWordParts(s, c, i, l, rest);
    RawWordIs(s, c, i, i + |Text(l)|);
  }

  /** One hash and a name behind `r` open no raw literal. */
  lemma HashWordIsNoRaw(s: string, i: nat)
    requires i + 2 < |s| && s[i] == 'r' && s[i + 1] == '#' && s[i + 2] != '#' && s[i + 2] != '"'
    ensures RawEnd(s, i).None?
  {
    NotAt(s, "br", i, 0);
    NotAt(s, "cr", i, 0);
    HashesAre(s, i + 1, 1);
  }

  lemma MarkRead(s: string, c: Classes, i: nat, l: Lexeme, rest: string)
    requires Sane(c) && l.Mark? && Proper(c, l) && Fits(c, l, rest) && Stands(s, i, Text(l), rest)
    ensures i < |s| && NextPiece(s, c, i) == Piece(SortOf(l), i, i + |Text(l)|)
  {
    assert s[i] == Text(l)[0] == l.c;
    assert c.isIdentStart('r') && c.isIdentStart('b') && c.isIdentStart('c');
    if i + 1 < |s| { assert s[i + 1] == rest[0]; }
    if i + 2 < |s| { assert s[i + 2] == rest[1]; }
    NoPrefix(s, i);
    NotAt(s, "//", i, if s[i] == '/' then 1 else 0);
    NotAt(s, "/*", i, if s[i] == '/' then 1 else 0);
    assert c.isIdentStart('\\') ==> c.isIdentContinue('\\');
  }

  /** One lexeme where it stands is the next piece, exactly unless it is misread. */
  lemma LexemeRead(s: string, c: Classes, i: nat, l: Lexeme, rest: string)
    requires Sane(c) && Proper(c, l) && Fits(c, l, rest) && Stands(s, i, Text(l), rest)
    ensures i < |s| && 0 < |Text(l)|
    ensures NextPiece(s, c, i) == Piece(SortOf(l), i, i + |Text(l)|) <==> !Misread(l)
  {
    match l
    case White(_) => assert s[i] == Text(l)[0] == l.c;
    case Line(body) =>
      if rest != "" { HereOne(s, i + |Text(l)|, rest[0]); }
      LineRead(s, c, i, body);
    case Block(_) => BlockRead(s, c, i, l, rest);
    case Quoted(prefix, units) => QuotedRead(s, c, i, prefix, units);
    case RawText(prefix, n, body) => RawRead(s, c, i, prefix, n, body);
    case Character(byte, form) => CharacterRead(s, c, i, byte, form);
    case Word(_) => WordRead(s, c, i, l, rest);
    case RawWord(_) => RawWordRead(s, c, i, l, rest);
    case Mark(_) => MarkRead(s, c, i, l, rest);
  }

  // ---------------------------------------------------------------- the round trip

  function Offset(ls: seq<Lexeme>, k: nat): nat
    requires k <= |ls|
  {
    if k == 0 then 0 else Offset(ls, k - 1) + |Text(ls[k - 1])|
  }

  lemma SpellRest(ls: seq<Lexeme>, k: nat)
    requires k < |ls|
    ensures Spell(ls[k..]) == Text(ls[k]) + Spell(ls[k + 1..])
  {
    assert ls[k..][0] == ls[k] && ls[k..][1..] == ls[k + 1..];
  }

  lemma Dropped(s: string, o: nat, text: string, rest: string)
    requires o <= |s| && s[o..] == text + rest
    ensures o + |text| <= |s| && s[o + |text|..] == rest
  {
    assert s[o..][|text|..] == s[o + |text|..];
  }

  /** From `o` on the source spells the lexemes from the `k`-th on. */
  ghost predicate From(s: string, o: nat, ls: seq<Lexeme>, k: nat) {
    o <= |s| && k <= |ls| && forall rest {:trigger Told(rest)} :: rest == Spell(ls[k..]) ==> s[o..] == rest
  }

  /** Marks the texts that `From` is used at. */
  ghost predicate Told(rest: string) { true }

  lemma FromNext(s: string, o: nat, ls: seq<Lexeme>, k: nat)
    requires k < |ls| && From(s, o, ls, k)
    ensures From(s, o + |Text(ls[k])|, ls, k + 1)
  {
    assert Told(Spell(ls[k..]));
    SpellRest(ls, k);
    Dropped(s, o, Text(ls[k]), Spell(ls[k + 1..]));
  }

  lemma FromStart(ls: seq<Lexeme>)
    ensures From(Spell(ls), 0, ls, 0)
  {
    assert ls[0..] == ls && Spell(ls)[0..] == Spell(ls);
  }

  lemma {:induction false} SpellFrom(s: string, ls: seq<Lexeme>, k: nat)
    requires From(s, 0, ls, 0) && k <= |ls|
    ensures From(s, Offset(ls, k), ls, k)
  {
    if k > 0 {
      SpellFrom(s, ls, k - 1);
      FromNext(s, Offset(ls, k - 1), ls, k - 1);
    }
  }

  lemma Placed(s: string, o: nat, text: string, rest: string)
    requires o <= |s| && s[o..] == text + rest
    ensures Stands(s, o, text, rest)
  {
    assert forall j :: 0 <= j < |s| - o ==> s[o + j] == s[o..][j];
  }

  lemma StandsAt(ls: seq<Lexeme>, k: nat)
    requires k < |ls|
    ensures Stands(Spell(ls), Offset(ls, k), Text(ls[k]), Spell(ls[k + 1..]))
  {
    FromStart(ls);
    SpellFrom(Spell(ls), ls, k);
    assert Told(Spell(ls[k..]));
    SpellRest(ls, k);
    Placed(Spell(ls), Offset(ls, k), Text(ls[k]), Spell(ls[k + 1..]));
  }

  function PieceFor(ls: seq<Lexeme>, k: nat): Piece
    requires k < |ls|
  {
    Piece(SortOf(ls[k]), Offset(ls, k), Offset(ls, k + 1))
  }

  /** The `k`-th lexeme is the piece read where it stands. */
  ghost predicate ReadHere(s: string, c: Classes, ls: seq<Lexeme>, k: nat)
    requires k < |ls|
  {
    Offset(ls, k) < |s| && NextPiece(s, c, Offset(ls, k)) == PieceFor(ls, k)
  }

  lemma ReadAt(c: Classes, ls: seq<Lexeme>, k: nat)
    requires Sane(c) && Legible(c, ls) && k < |ls|
    ensures ReadHere(Spell(ls), c, ls, k) <==> !Misread(ls[k])
  {
    assert StaysApart(c, ls, k);
    StandsAt(ls, k);
    LexemeRead(Spell(ls), c, Offset(ls, k), ls[k], Spell(ls[k + 1..]));
  }

  /** Where one piece ends, the next is read. */
  lemma NextIs(s: string, c: Classes, ps: seq<Piece>, k: nat, at: nat)
    requires Lexed(s, c, ps, |s|) && k <= |ps| && at < |s| && at == if k == 0 then 0 else ps[k - 1].end
    ensures k < |ps| && ps[k] == NextPiece(s, c, at)
  {
    if k < |ps| {
      assert ps[k] in ps;
      assert k > 0 ==> ps[k - 1].end == ps[k].start;
    }
  }

  lemma {:induction false} PiecesAre(s: string, c: Classes, ls: seq<Lexeme>, ps: seq<Piece>, n: nat)
    requires Lexed(s, c, ps, |s|) && n <= |ls|
    requires forall k: nat {:trigger ReadHere(s, c, ls, k)} :: k < n ==> ReadHere(s, c, ls, k)
    ensures n <= |ps| && forall k :: 0 <= k < n ==> ps[k] == PieceFor(ls, k)
  {
    if n > 0 {
      PiecesAre(s, c, ls, ps, n - 1);
      assert ReadHere(s, c, ls, n - 1);
      NextIs(s, c, ps, n - 1, Offset(ls, n - 1));
    }
  }

  /** The pieces are the lexemes, one by one: kind, place and text. */
  ghost predicate ReadAsWritten(ls: seq<Lexeme>, ps: seq<Piece>) {
    |ps| == |ls| && forall k :: 0 <= k < |ls| ==> ps[k] == PieceFor(ls, k)
  }

  /**
   The round trip of the lexer: a source written as a list of lexemes is read as
   exactly these, each with its kind, its place and so its text, if and only if no
   character literal among them is a hexadecimal escape.
   */
  lemma LexRoundTrip(c: Classes, ls: seq<Lexeme>, ps: seq<Piece>)
    requires Sane(c) && Legible(c, ls) && Lexed(Spell(ls), c, ps, |Spell(ls)|)
    ensures ReadAsWritten(ls, ps) <==> forall l :: l in ls ==> !Misread(l)
  {
    if forall l :: l in ls ==> !Misread(l) { AllRead(c, ls, ps); }
    if ReadAsWritten(ls, ps) {
      forall l | l in ls ensures !Misread(l) {
        var k :| 0 <= k < |ls| && ls[k] == l;
        PieceIsNext(Spell(ls), c, ps, k);
        ReadAt(c, ls, k);
      }
    }
  }

  lemma PieceIsNext(s: string, c: Classes, ps: seq<Piece>, k: nat)
    requires Lexed(s, c, ps, |s|) && k < |ps|
    ensures ps[k].start < |s| && ps[k] == NextPiece(s, c, ps[k].start)
  {
    assert ps[k] in ps;
  }

  lemma AllRead(c: Classes, ls: seq<Lexeme>, ps: seq<Piece>)
    requires Sane(c) && Legible(c, ls) && Lexed(Spell(ls), c, ps, |Spell(ls)|)
    requires forall l :: l in ls ==> !Misread(l)
    ensures ReadAsWritten(ls, ps)
  {
    forall k: nat | k < |ls| ensures ReadHere(Spell(ls), c, ls, k) { ReadAt(c, ls, k); }
    PiecesAre(Spell(ls), c, ls, ps, |ls|);
    WholeLength(ls);
    EndsThere(ls, ps);
  }

  lemma WholeLength(ls: seq<Lexeme>)
    ensures Offset(ls, |ls|) == |Spell(ls)|
  {
    FromStart(ls);
    SpellFrom(Spell(ls), ls, |ls|);
    assert Told(Spell(ls[|ls|..]));
  }

  lemma EndsThere(ls: seq<Lexeme>, ps: seq<Piece>)
    requires |ls| <= |ps| && EndToEnd(ps, Offset(ls, |ls|))
    requires forall k :: 0 <= k < |ls| ==> ps[k] == PieceFor(ls, k)
    ensures |ps| == |ls|
  {
    if |ls| < |ps| { StartsBefore(ps, Offset(ls, |ls|), |ls|); }
    if |ls| > 0 { assert ps[|ls| - 1].end == Offset(ls, |ls|); }
  }

  lemma StartsBefore(ps: seq<Piece>, to: nat, k: nat)
    requires EndToEnd(ps, to) && k < |ps|
    ensures ps[k].start < to
  {
    if k < |ps| - 1 { PiecesAscend(ps, to, k, |ps| - 1); }
  }

  /** Each piece's text is its lexeme's. */
  lemma TextsAre(ls: seq<Lexeme>, k: nat)
    requires k < |ls|
    ensures Offset(ls, k) <= Offset(ls, k + 1) <= |Spell(ls)|
    ensures Spell(ls)[Offset(ls, k)..Offset(ls, k + 1)] == Text(ls[k])
  {
    StandsAt(ls, k);
    SliceIs(Spell(ls), Offset(ls, k), Text(ls[k]), Spell(ls[k + 1..]));
  }

  lemma SliceIs(s: string, o: nat, text: string, rest: string)
    requires Stands(s, o, text, rest)
    ensures o + |text| <= |s| && s[o..o + |text|] == text
  {}

  /** The tokens that the first `n` lexemes are. */
  function WrittenTokens(ls: seq<Lexeme>, n: nat): seq<Token>
    requires n <= |ls|
  {
    if n == 0 then [] else
      WrittenTokens(ls, n - 1) + (if SortOf(ls[n - 1]).Tok?
        then [Token(SortOf(ls[n - 1]).kind, Text(ls[n - 1]), Offset(ls, n - 1), Offset(ls, n))] else [])
  }

  function WrittenComments(ls: seq<Lexeme>, n: nat): seq<Span>
    requires n <= |ls|
  {
    if n == 0 then [] else
      WrittenComments(ls, n - 1) + (if SortOf(ls[n - 1]).Comment? then [Span(Offset(ls, n - 1), Offset(ls, n))] else [])
  }

  /** The `k`-th lexeme's text is where its piece is. */
  ghost predicate TextHere(s: string, ls: seq<Lexeme>, k: nat)
    requires k < |ls|
  {
    Offset(ls, k) <= Offset(ls, k + 1) <= |s| && s[Offset(ls, k)..Offset(ls, k + 1)] == Text(ls[k])
  }

  /** What the first `n` pieces give is what the first `n` lexemes are. */
  ghost predicate Given(s: string, ls: seq<Lexeme>, front: seq<Piece>)
    requires InSource(s, front) && |front| <= |ls|
  {
    forall n: nat {:trigger Counted(n)} :: n == |front| ==>
      && TokensOf(s, front) == WrittenTokens(ls, n)
      && CommentsOf(front) == WrittenComments(ls, n) && WarningsOf(front) == []
  }

  /** Marks the lengths that `Given` is used at. */
  ghost predicate Counted(n: nat) { true }

  lemma GivenNone(s: string, ls: seq<Lexeme>)
    ensures Given(s, ls, [])
  {
    GivenIs(s, ls, []);
  }

  lemma WrittenMore(ls: seq<Lexeme>, n: nat)
    requires n < |ls|
    ensures WrittenTokens(ls, n + 1) == WrittenTokens(ls, n) + (if SortOf(ls[n]).Tok?
        then [Token(SortOf(ls[n]).kind, Text(ls[n]), Offset(ls, n), Offset(ls, n + 1))] else [])
    ensures WrittenComments(ls, n + 1) == WrittenComments(ls, n) + (if SortOf(ls[n]).Comment?
        then [Span(Offset(ls, n), Offset(ls, n + 1))] else [])
    ensures SortOf(ls[n]).Comment? ==> SortOf(ls[n]).terminated
  {}

  lemma PieceGives(s: string, ls: seq<Lexeme>, n: nat)
    requires n < |ls| && TextHere(s, ls, n) && SortOf(ls[n]).Tok?
    ensures TokenOf(s, PieceFor(ls, n)) == Token(SortOf(ls[n]).kind, Text(ls[n]), Offset(ls, n), Offset(ls, n + 1))
  {}

  lemma GivenMore(s: string, ls: seq<Lexeme>, front: seq<Piece>, p: Piece)
    requires InSource(s, front) && |front| < |ls| && Given(s, ls, front)
    requires p == PieceFor(ls, |front|) && TextHere(s, ls, |front|) && p.start < p.end
    ensures InSource(s, front + [p]) && Given(s, ls, front + [p])
  {
    Push(s, front, p);
    WrittenMore(ls, |front|);
    if p.sort.Tok? { PieceGives(s, ls, |front|); }
    assert Counted(|front|);
    GivenIs(s, ls, front + [p]);
  }

  lemma GivenIs(s: string, ls: seq<Lexeme>, front: seq<Piece>)
    requires InSource(s, front) && |front| <= |ls| && TokensOf(s, front) == WrittenTokens(ls, |front|)
    requires CommentsOf(front) == WrittenComments(ls, |front|) && WarningsOf(front) == []
    ensures Given(s, ls, front)
  {}

  lemma {:induction false} FirstTokens(s: string, ls: seq<Lexeme>, front: seq<Piece>)
    requires InSource(s, front) && |front| <= |ls|
    requires forall k :: 0 <= k < |front| ==> front[k] == PieceFor(ls, k)
    requires forall k: nat {:trigger TextHere(s, ls, k)} :: k < |ls| ==> TextHere(s, ls, k)
    ensures Given(s, ls, front)
  {
    if front == [] {
      GivenNone(s, ls);
    } else {
      var init, last := front[..|front| - 1], front[|front| - 1];
      FirstTokens(s, ls, init);
      assert TextHere(s, ls, |init|);
      GivenMore(s, ls, init, last);
      assert front == init + [last];
    }
  }

  /** What the lexer returns for a source so written: its tokens and comments, each once, in order, and no warning. */
  lemma TokensWritten(c: Classes, ls: seq<Lexeme>, ps: seq<Piece>)
    requires Sane(c) && Legible(c, ls) && Lexed(Spell(ls), c, ps, |Spell(ls)|) && InSource(Spell(ls), ps)
    requires forall l :: l in ls ==> !Misread(l)
    ensures TokensOf(Spell(ls), ps) == WrittenTokens(ls, |ls|)
    ensures CommentsOf(ps) == WrittenComments(ls, |ls|) && WarningsOf(ps) == []
  {
    AllRead(c, ls, ps);
    forall k: nat | k < |ls| ensures TextHere(Spell(ls), ls, k) { TextsAre(ls, k); }
    FirstTokens(Spell(ls), ls, ps);
    assert Counted(|ls|);
  }

  /** A literal with a hexadecimal escape comes apart: its quote is a mark, or its `b` a name. */
  lemma HexIsMisread(c: Classes, byte: bool, high: char, low: char)
    requires Sane(c) && high != '\''
    ensures var l := Character(byte, Hex(high, low));
      && Legible(c, [l])
      && NextPiece(Text(l), c, 0) == Piece(Tok(if byte then Ident else Punct), 0, 1)
  {
    var l := Character(byte, Hex(high, low));
    var s := Text(l);
    assert StaysApart(c, [l], 0);
    var q := if byte then 1 else 0;
    assert s[q] == '\'' && s[q + 1] == '\\' && s[q + 2] == 'x' && s[q + 3] == high && (byte ==> s[0] == 'b');
    ApostropheIsNoString(s, 0, q);
    NoComment(s, 0);
    assert c.isIdentStart('b') && !c.isIdentContinue('\'');
    assert c.isIdentStart('\'') ==> c.isIdentContinue('\'');
    if byte { RunIs(s, c, 1, 1); }
  }
}
