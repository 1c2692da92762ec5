/**
 The conservative Rust lexer of the architecture report. Each step takes one
 piece of the source: a blank character, a comment, or a token. `NextPiece` says
 which, and the loops that scan literals and comments are proved against it.

 Character classes are Unicode tables of the host language; they are parameters.
 */
module RustLexer {
  import opened Wrappers

  datatype Classes = Classes(isSpace: char -> bool, isIdentStart: char -> bool, isIdentContinue: char -> bool)

  datatype Kind = Ident | Literal | Punct

  datatype Token = Token(kind: Kind, text: string, start: nat, end: nat)

  datatype Span = Span(start: nat, end: nat)

  datatype PieceKind = Blank | Comment(terminated: bool) | Tok(kind: Kind)

  datatype Piece = Piece(sort: PieceKind, start: nat, end: nat)

  /** A raw identifier without its marker. */
  function Unraw(x: string): string { if |x| >= 2 && x[..2] == "r#" then x[2..] else x }

  lemma UnrawExact(x: string)
    ensures Unraw("r#" + x) == x && (!("r#" <= x) ==> Unraw(x) == x)
  {
    assert ("r#" + x)[..2] == "r#" && ("r#" + x)[2..] == x;
  }

  predicate At(s: string, pattern: string, i: nat) {
    i + |pattern| <= |s| && s[i..i + |pattern|] == pattern
  }

  // ---------------------------------------------------------------- literals and comments

  /** First occurrence of a character from `i` on, or the end of the source. */
  function FindChar(s: string, c: char, i: nat): (j: nat)
    requires i <= |s|
    ensures i <= j <= |s| && (forall k :: i <= k < j ==> s[k] != c) && (j < |s| ==> s[j] == c)
    decreases |s| - i
  {
    if i == |s| || s[i] == c then i else FindChar(s, c, i + 1)
  }

  /** A nested block comment from inside it: where it ends, and how deep it still is there. */
  function BlockEnd(s: string, i: nat, depth: nat): (r: (nat, nat))
    requires i <= |s|
    ensures i <= r.0 <= |s| && (r.1 > 0 ==> r.0 == |s|)
    decreases |s| - i
  {
    if i == |s| || depth == 0 then (i, depth)
    else if At(s, "/*", i) then BlockEnd(s, i + 2, depth + 1)
    else if At(s, "*/", i) then BlockEnd(s, i + 2, depth - 1)
    else BlockEnd(s, i + 1, depth)
  }

  method ScanBlock(s: string, start: nat) returns (end: nat, terminated: bool)
    requires At(s, "/*", start)
    ensures end == BlockEnd(s, start + 2, 1).0 && (terminated <==> BlockEnd(s, start + 2, 1).1 == 0)
  {
    end := start + 2;
    var depth: nat := 1;
    while end < |s| && depth > 0
      invariant start + 2 <= end <= |s|
      invariant BlockEnd(s, start + 2, 1) == BlockEnd(s, end, depth)
      decreases |s| - end
    {
      if At(s, "/*", end) {
        depth := depth + 1;
        end := end + 2;
      } else if At(s, "*/", end) {
        depth := depth - 1;
        end := end + 2;
      } else {
        end := end + 1;
      }
    }
    terminated := depth == 0;
  }

  /** What stands behind an opening comment mark up to its own closing one; comments nest. */
  datatype CommentBody =
    | ClosingMark
    | Plain(rest: CommentBody)
    | Inside(inner: CommentBody, mid: nat, rest: CommentBody)

  /** The text from `i` to `e` is such a body, with the closing mark. */
  predicate BodyAt(s: string, i: nat, e: nat, t: CommentBody)
    decreases t
  {
    match t
    case ClosingMark => At(s, "*/", i) && e == i + 2
    case Plain(rest) => i < |s| && !At(s, "/*", i) && !At(s, "*/", i) && BodyAt(s, i + 1, e, rest)
    case Inside(inner, mid, rest) => At(s, "/*", i) && BodyAt(s, i + 2, mid, inner) && BodyAt(s, mid, e, rest)
  }

  /** A body takes the count down by one. */
  lemma {:induction false} BodyCloses(s: string, i: nat, e: nat, t: CommentBody, depth: nat)
    requires BodyAt(s, i, e, t) && depth > 0
    ensures i < e <= |s| && BlockEnd(s, i, depth) == BlockEnd(s, e, depth - 1)
    decreases t
  {
    match t
    case ClosingMark =>
    case Plain(rest) => BodyCloses(s, i + 1, e, rest, depth);
    case Inside(inner, mid, rest) =>
      BodyCloses(s, i + 2, mid, inner, depth + 1);
      BodyCloses(s, mid, e, rest, depth);
  }

  /** Where the count comes down to nothing, a body stood first. */
  lemma {:induction false} ClosedIsBody(s: string, i: nat, depth: nat) returns (t: CommentBody, e: nat)
    requires i <= |s| && depth > 0 && BlockEnd(s, i, depth).1 == 0
    ensures BodyAt(s, i, e, t) && i < e <= |s| && BlockEnd(s, e, depth - 1) == BlockEnd(s, i, depth)
    decreases |s| - i
  {
    if At(s, "/*", i) {
      var inner, mid := ClosedIsBody(s, i + 2, depth + 1);
      var rest;
      rest, e := ClosedIsBody(s, mid, depth);
      t := Inside(inner, mid, rest);
    } else if At(s, "*/", i) {
      t, e := ClosingMark, i + 2;
    } else {
      var rest;
      rest, e := ClosedIsBody(s, i + 1, depth);
      t := Plain(rest);
    }
  }

  lemma BodyEnds(s: string, i: nat, e: nat, t: CommentBody)
    requires i <= |s| && BodyAt(s, i, e, t)
    ensures BlockEnd(s, i, 1).0 == e && BlockEnd(s, i, 1).1 == 0
  {
    BodyCloses(s, i, e, t, 1);
  }

  /** The comment whose body starts at `i` ends at `e`. */
  ghost predicate ClosedAt(s: string, i: nat, e: nat) { exists t :: BodyAt(s, i, e, t) }

  lemma ClosedEnds(s: string, i: nat, e: nat)
    requires i <= |s| && ClosedAt(s, i, e)
    ensures BlockEnd(s, i, 1).0 == e && BlockEnd(s, i, 1).1 == 0
  {
    var t :| BodyAt(s, i, e, t);
    BodyEnds(s, i, e, t);
  }

  /** A block comment is terminated, at `e`, exactly when a nested comment body ends there. */
  lemma BlockExact(s: string, i: nat, e: nat)
    requires i <= |s|
    ensures BlockEnd(s, i, 1).0 == e && BlockEnd(s, i, 1).1 == 0 <==> ClosedAt(s, i, e)
  {
    if BlockEnd(s, i, 1).1 == 0 {
      var t, f := ClosedIsBody(s, i, 1);
      BodyEnds(s, i, f, t);
      assert ClosedAt(s, i, f);
    }
    if ClosedAt(s, i, e) { ClosedEnds(s, i, e); }
  }

  /** Length of the run of backslashes that ends just before `i`, looking back no further than `from`. */
  function Slashes(s: string, from: nat, i: nat): nat
    requires from <= i <= |s|
    decreases i
  {
    if from < i && s[i - 1] == '\\' then 1 + Slashes(s, from, i - 1) else 0
  }

  /** A quote that is not escaped: an even number of backslashes precedes it. */
  predicate Closes(s: string, from: nat, i: nat, quote: char)
    requires from <= i < |s|
  {
    s[i] == quote && Slashes(s, from, i) % 2 == 0
  }

  /** Position after the first unescaped quote at or after `i`, or the end of the source. */
  function QuotedFrom(s: string, from: nat, i: nat, quote: char): (e: nat)
    requires from <= i <= |s|
    ensures i <= e <= |s|
    decreases |s| - i
  {
    if i == |s| then i else if Closes(s, from, i, quote) then i + 1 else QuotedFrom(s, from, i + 1, quote)
  }

  /** It is the first: nothing before it closes, and without one the literal runs to the end. */
  lemma {:induction false} QuotedFirst(s: string, from: nat, i: nat, quote: char)
    requires from <= i <= |s|
    ensures var e := QuotedFrom(s, from, i, quote);
      if exists j :: i <= j < |s| && Closes(s, from, j, quote)
      then i < e && Closes(s, from, e - 1, quote) && forall j :: i <= j < e - 1 ==> !Closes(s, from, j, quote)
      else e == |s|
    decreases |s| - i
  {
    if i < |s| && !Closes(s, from, i, quote) { QuotedFirst(s, from, i + 1, quote); }
  }

  method QuotedEnd(s: string, start: nat, quote: char) returns (end: nat)
    requires start < |s| && quote != '\\'
    ensures end == QuotedFrom(s, start + 1, start + 1, quote)
  {
    var cursor := start + 1;
    var escaped := false;
    while cursor < |s|
      invariant start + 1 <= cursor <= |s|
      invariant escaped <==> Slashes(s, start + 1, cursor) % 2 == 1
      invariant QuotedFrom(s, start + 1, start + 1, quote) == QuotedFrom(s, start + 1, cursor, quote)
    {
      var char_ := s[cursor];
      if escaped {
        escaped := false;
      } else if char_ == '\\' {
        escaped := true;
      } else if char_ == quote {
        return cursor + 1;
      }
      cursor := cursor + 1;
    }
    end := |s|;
  }

  function Hashes(s: string, i: nat): (n: nat)
    requires i <= |s|
    ensures i + n <= |s| && (forall k :: i <= k < i + n ==> s[k] == '#') && (i + n < |s| ==> s[i + n] != '#')
    decreases |s| - i
  {
    if i < |s| && s[i] == '#' then 1 + Hashes(s, i + 1) else 0
  }

  /** A closing quote followed by as many hashes as opened the literal. */
  predicate RawCloses(s: string, hashes: nat, i: nat) {
    i + 1 + hashes <= |s| && s[i] == '"' && forall k :: i < k <= i + hashes ==> s[k] == '#'
  }

  /** Position after the first raw closing at or after `i`, or the end of the source. */
  function RawFrom(s: string, hashes: nat, i: nat): (e: nat)
    requires i <= |s|
    ensures i <= e <= |s|
    decreases |s| - i
  {
    if i == |s| then i else if RawCloses(s, hashes, i) then i + 1 + hashes else RawFrom(s, hashes, i + 1)
  }

  lemma {:induction false} RawFirst(s: string, hashes: nat, i: nat)
    requires i <= |s|
    ensures var e := RawFrom(s, hashes, i);
      if exists j :: i <= j < |s| && RawCloses(s, hashes, j)
      then i + 1 + hashes <= e && RawCloses(s, hashes, e - 1 - hashes)
           && forall j :: i <= j < e - 1 - hashes ==> !RawCloses(s, hashes, j)
      else e == |s|
    decreases |s| - i
  {
    if i < |s| && !RawCloses(s, hashes, i) { RawFirst(s, hashes, i + 1); }
  }

  const RAW_PREFIXES: seq<string> := ["br", "cr", "r"]

  /** A raw literal with this prefix opens at `start`: prefix, hashes, quote. */
  predicate RawOpens(s: string, start: nat, prefix: string) {
    At(s, prefix, start) &&
    var q := start + |prefix| + Hashes(s, start + |prefix|);
    q < |s| && s[q] == '"'
  }

  function RawWith(s: string, start: nat, prefix: string): (e: nat)
    requires RawOpens(s, start, prefix)
    ensures start + |prefix| < e <= |s|
  {
    var n := Hashes(s, start + |prefix|);
    RawFrom(s, n, start + |prefix| + n + 1)
  }

  /** The first prefix that opens decides; the prefixes differ in their first character. */
  function RawEnd(s: string, start: nat): (e: Option<nat>)
    ensures e.Some? ==> start < e.value <= |s|
  {
    if RawOpens(s, start, RAW_PREFIXES[0]) then Some(RawWith(s, start, RAW_PREFIXES[0]))
    else if RawOpens(s, start, RAW_PREFIXES[1]) then Some(RawWith(s, start, RAW_PREFIXES[1]))
    else if RawOpens(s, start, RAW_PREFIXES[2]) then Some(RawWith(s, start, RAW_PREFIXES[2]))
    else None
  }

  method RawAfterPrefix(s: string, start: nat, prefix: string) returns (end: Option<nat>)
    ensures end == if RawOpens(s, start, prefix) then Some(RawWith(s, start, prefix)) else None
  {
    if !At(s, prefix, start) { return None; }
    var cursor := start + |prefix|;
    var hashes := 0;
    while cursor < |s| && s[cursor] == '#'
      invariant start + |prefix| <= cursor == start + |prefix| + hashes <= |s|
      invariant Hashes(s, start + |prefix|) == hashes + Hashes(s, cursor)
    {
      hashes := hashes + 1;
      cursor := cursor + 1;
    }
    if cursor >= |s| || s[cursor] != '"' { return None; }
    end := Some(RawFrom(s, hashes, cursor + 1));
  }

  method RawStringEnd(s: string, start: nat) returns (end: Option<nat>)
    ensures end == RawEnd(s, start)
  {
    end := None;
    for p := 0 to |RAW_PREFIXES|
      invariant end.None?
      invariant forall k :: 0 <= k < p ==> !RawOpens(s, start, RAW_PREFIXES[k])
    {
      end := RawAfterPrefix(s, start, RAW_PREFIXES[p]);
      if end.Some? { return; }
    }
  }

  /** A character literal, as opposed to a lifetime: where it ends. */
  function CharEnd(s: string, start: nat): (e: Option<nat>)
    ensures e.Some? ==> start + 2 < e.value <= |s| && s[e.value - 1] == '\''
  {
    if start + 1 >= |s| then None else
      var cursor :=
        if s[start + 1] != '\\' then start + 2
        else if start + 3 < |s| && s[start + 2] == 'u' && s[start + 3] == '{' then
          var closing := FindChar(s, '}', start + 4);
          if closing == |s| then |s| else closing + 1
        else start + 3;
      if cursor < |s| && s[cursor] == '\'' then Some(cursor + 1) else None
  }

  function IdentRun(s: string, c: Classes, i: nat): (e: nat)
    requires i <= |s|
    ensures i <= e <= |s| && (forall k :: i <= k < e ==> c.isIdentContinue(s[k]))
    ensures e < |s| ==> !c.isIdentContinue(s[e])
    decreases |s| - i
  {
    if i < |s| && c.isIdentContinue(s[i]) then IdentRun(s, c, i + 1) else i
  }

  /** An identifier, or a raw identifier r#name, taken as long as possible. */
  function IdentEnd(s: string, c: Classes, start: nat): (e: nat)
    requires start < |s|
    ensures start < e <= |s|
  {
    var e := IdentRun(s, c, start + 1);
    if e + 1 < |s| && e == start + 1 && s[start] == 'r' && s[e] == '#' && c.isIdentStart(s[e + 1])
    then IdentRun(s, c, e + 2)
    else e
  }

  method ScanIdent(s: string, c: Classes, start: nat) returns (end: nat)
    requires start < |s|
    ensures end == IdentEnd(s, c, start)
  {
    end := start + 1;
    while end < |s| && c.isIdentContinue(s[end])
      invariant start < end <= |s| && IdentRun(s, c, start + 1) == IdentRun(s, c, end)
    {
      end := end + 1;
    }
    if end + 1 < |s| && s[start..end] == "r" && s[end] == '#' && c.isIdentStart(s[end + 1]) {
      ghost var body := end + 2;
      end := end + 2;
      while end < |s| && c.isIdentContinue(s[end])
        invariant body <= end <= |s| && IdentRun(s, c, body) == IdentRun(s, c, end)
      {
        end := end + 1;
      }
    }
  }

  // ---------------------------------------------------------------- one piece

  predicate StartsQuoted(s: string, i: nat)
    requires i < |s|
  {
    s[i] == '"' || ((s[i] == 'b' || s[i] == 'c') && i + 1 < |s| && s[i + 1] == '"')
  }

  function LiteralEnd(s: string, i: nat): (e: Option<nat>)
    requires i < |s|
    ensures e.Some? ==> i < e.value <= |s|
  {
    if RawEnd(s, i).Some? then RawEnd(s, i)
    else if StartsQuoted(s, i) then
      var q := if s[i] == '"' then i else i + 1;
      Some(QuotedFrom(s, q + 1, q + 1, '"'))
    else if s[i] == '\'' && CharEnd(s, i).Some? then CharEnd(s, i)
    else if s[i] == 'b' && i + 1 < |s| && s[i + 1] == '\'' && CharEnd(s, i + 1).Some? then CharEnd(s, i + 1)
    else None
  }

  function NextPiece(s: string, c: Classes, i: nat): (p: Piece)
    requires i < |s|
    ensures p.start == i < p.end <= |s|
    ensures p.sort.Blank? ==> p.end == i + 1 && c.isSpace(s[i])
  {
    if c.isSpace(s[i]) then Piece(Blank, i, i + 1)
    else if At(s, "//", i) then Piece(Comment(true), i, FindChar(s, '\n', i + 2))
    else if At(s, "/*", i) then
      var (end, depth) := BlockEnd(s, i + 2, 1);
      Piece(Comment(depth == 0), i, end)
    else if LiteralEnd(s, i).Some? then Piece(Tok(Literal), i, LiteralEnd(s, i).value)
    else if c.isIdentStart(s[i]) then Piece(Tok(Ident), i, IdentEnd(s, c, i))
    else Piece(Tok(Punct), i, i + 1)
  }

  /** The pieces lie end to end from the start of the source to `to`. */
  predicate EndToEnd(ps: seq<Piece>, to: nat) {
    && (if ps == [] then to == 0 else ps[0].start == 0 && ps[|ps| - 1].end == to)
    && (forall k :: 0 <= k < |ps| ==> ps[k].start < ps[k].end)
    && (forall k :: 0 < k < |ps| ==> ps[k - 1].end == ps[k].start)
  }

  predicate IsNext(s: string, c: Classes, p: Piece) { p.start < |s| && p == NextPiece(s, c, p.start) }

  /** `ps` is how the source reads up to `to`: each piece the one that starts where the last ended. */
  predicate Lexed(s: string, c: Classes, ps: seq<Piece>, to: nat) {
    && EndToEnd(ps, to)
    && (forall p :: p in ps ==> IsNext(s, c, p))
  }

  // ---------------------------------------------------------------- the lexer

  function TokenOf(s: string, p: Piece): Token
    requires p.sort.Tok? && p.start <= p.end <= |s|
  {
    Token(p.sort.kind, s[p.start..p.end], p.start, p.end)
  }

  predicate InSource(s: string, ps: seq<Piece>) {
    forall i :: 0 <= i < |ps| ==> ps[i].start < ps[i].end <= |s|
  }

  function TokensOf(s: string, ps: seq<Piece>): seq<Token>
    requires InSource(s, ps)
  {
    if ps == [] then [] else
      var last := ps[|ps| - 1];
      TokensOf(s, ps[..|ps| - 1]) + (if last.sort.Tok? then [TokenOf(s, last)] else [])
  }

  function CommentsOf(ps: seq<Piece>): seq<Span> {
    if ps == [] then [] else
      var last := ps[|ps| - 1];
      CommentsOf(ps[..|ps| - 1]) + (if last.sort.Comment? then [Span(last.start, last.end)] else [])
  }

  function WarningsOf(ps: seq<Piece>): seq<nat> {
    if ps == [] then [] else
      var last := ps[|ps| - 1];
      WarningsOf(ps[..|ps| - 1]) + (if last.sort.Comment? && !last.sort.terminated then [last.start] else [])
  }

  lemma Push(s: string, ps: seq<Piece>, p: Piece)
    requires InSource(s, ps) && p.start < p.end <= |s|
    ensures InSource(s, ps + [p])
    ensures TokensOf(s, ps + [p]) == TokensOf(s, ps) + (if p.sort.Tok? then [TokenOf(s, p)] else [])
    ensures CommentsOf(ps + [p]) == CommentsOf(ps) + (if p.sort.Comment? then [Span(p.start, p.end)] else [])
    ensures WarningsOf(ps + [p]) == WarningsOf(ps) + (if p.sort.Comment? && !p.sort.terminated then [p.start] else [])
  {
    assert (ps + [p])[..|ps|] == ps;
  }

  lemma LexedPush(s: string, c: Classes, ps: seq<Piece>, i: nat, p: Piece)
    requires Lexed(s, c, ps, i) && i < |s| && p == NextPiece(s, c, i)
    ensures Lexed(s, c, ps + [p], p.end)
  {}

  method LexRust(s: string, c: Classes)
    returns (tokens: seq<Token>, comments: seq<Span>, warnings: seq<nat>, ghost pieces: seq<Piece>)
    ensures Lexed(s, c, pieces, |s|) && InSource(s, pieces)
    ensures tokens == TokensOf(s, pieces) && comments == CommentsOf(pieces) && warnings == WarningsOf(pieces)
    ensures Ordered(tokens, s) && Apart(comments, tokens) && Bounded(comments, s)
  {
    tokens, comments, warnings, pieces := [], [], [], [];
    var cursor := 0;
    while cursor < |s|
      invariant 0 <= cursor <= |s|
      invariant Lexed(s, c, pieces, cursor) && InSource(s, pieces)
      invariant tokens == TokensOf(s, pieces) && comments == CommentsOf(pieces) && warnings == WarningsOf(pieces)
      decreases |s| - cursor
    {
      var piece := ScanPiece(s, c, cursor);
      Push(s, pieces, piece);
      LexedPush(s, c, pieces, cursor, piece);
      pieces := pieces + [piece];
      if piece.sort.Tok? {
        tokens := tokens + [Token(piece.sort.kind, s[cursor..piece.end], cursor, piece.end)];
      } else if piece.sort.Comment? {
        if !piece.sort.terminated { warnings := warnings + [cursor]; }
        comments := comments + [Span(cursor, piece.end)];
      }
      cursor := piece.end;
    }
    TokensOrdered(s, pieces);
  }

  method ScanPiece(s: string, c: Classes, cursor: nat) returns (piece: Piece)
    requires cursor < |s|
    ensures piece == NextPiece(s, c, cursor)
  {
    if c.isSpace(s[cursor]) { return Piece(Blank, cursor, cursor + 1); }
    if At(s, "//", cursor) { return Piece(Comment(true), cursor, FindChar(s, '\n', cursor + 2)); }
    if At(s, "/*", cursor) {
      var end, terminated := ScanBlock(s, cursor);
      return Piece(Comment(terminated), cursor, end);
    }
    var kind, end := ScanToken(s, c, cursor);
    piece := Piece(Tok(kind), cursor, end);
  }

  method ScanToken(s: string, c: Classes, cursor: nat) returns (kind: Kind, end: nat)
    requires cursor < |s| && !c.isSpace(s[cursor]) && !At(s, "//", cursor) && !At(s, "/*", cursor)
    ensures NextPiece(s, c, cursor) == Piece(Tok(kind), cursor, end)
  {
    var raw := RawStringEnd(s, cursor);
    if raw.Some? { return Literal, raw.value; }
    if StartsQuoted(s, cursor) {
      end := QuotedEnd(s, if s[cursor] == '"' then cursor else cursor + 1, '"');
      return Literal, end;
    }
    if s[cursor] == '\'' && CharEnd(s, cursor).Some? { return Literal, CharEnd(s, cursor).value; }
    if s[cursor] == 'b' && cursor + 1 < |s| && s[cursor + 1] == '\'' && CharEnd(s, cursor + 1).Some? {
      return Literal, CharEnd(s, cursor + 1).value;
    }
    if c.isIdentStart(s[cursor]) {
      end := ScanIdent(s, c, cursor);
      return Ident, end;
    }
    return Punct, cursor + 1;
  }

  // ---------------------------------------------------------------- what lexing keeps

  function Written(s: string, ps: seq<Piece>): string
    requires InSource(s, ps)
  {
    if ps == [] then "" else Written(s, ps[..|ps| - 1]) + s[ps[|ps| - 1].start..ps[|ps| - 1].end]
  }

  /** Lexing is lossless: the pieces put together are the source. */
  lemma {:induction false} LexLossless(s: string, ps: seq<Piece>, to: nat)
    requires InSource(s, ps) && EndToEnd(ps, to) && to <= |s|
    ensures Written(s, ps) == s[..to]
  {
    if ps != [] {
      var init, last := ps[..|ps| - 1], ps[|ps| - 1];
      LexLossless(s, init, last.start);
      assert s[..to] == s[..last.start] + s[last.start..to];
    }
  }

  lemma {:induction false} PiecesAscend(ps: seq<Piece>, to: nat, i: nat, j: nat)
    requires EndToEnd(ps, to) && i < j < |ps|
    ensures ps[i].end <= ps[j].start
    decreases j
  {
    if i < j - 1 { PiecesAscend(ps, to, i, j - 1); }
    assert ps[j - 1].end == ps[j].start;
  }

  /** Where a list of tokens or comments came from: an increasing choice of pieces. */
  ghost predicate Chosen(where: seq<nat>, n: nat) {
    && (forall k :: 0 <= k < |where| ==> where[k] < n)
    && (forall k, l :: 0 <= k < l < |where| ==> where[k] < where[l])
  }

  lemma {:induction false} TokenSites(s: string, ps: seq<Piece>) returns (where: seq<nat>)
    requires InSource(s, ps)
    ensures Chosen(where, |ps|) && |where| == |TokensOf(s, ps)|
    ensures forall k :: 0 <= k < |where| ==> ps[where[k]].sort.Tok? && TokensOf(s, ps)[k] == TokenOf(s, ps[where[k]])
  {
    if ps == [] { return []; }
    var init := ps[..|ps| - 1];
    where := TokenSites(s, init);
    if ps[|ps| - 1].sort.Tok? { where := where + [|ps| - 1]; }
  }

  lemma {:induction false} CommentSites(ps: seq<Piece>) returns (where: seq<nat>)
    ensures Chosen(where, |ps|) && |where| == |CommentsOf(ps)|
    ensures forall k :: 0 <= k < |where| ==>
      ps[where[k]].sort.Comment? && CommentsOf(ps)[k] == Span(ps[where[k]].start, ps[where[k]].end)
  {
    if ps == [] { return []; }
    var init := ps[..|ps| - 1];
    where := CommentSites(init);
    if ps[|ps| - 1].sort.Comment? { where := where + [|ps| - 1]; }
  }

  /** Tokens are in bounds, non-empty, ascending and disjoint, and each one's text is its slice. */
  predicate Ordered(tokens: seq<Token>, s: string) {
    && (forall i :: 0 <= i < |tokens| ==>
          tokens[i].start < tokens[i].end <= |s| && tokens[i].text == s[tokens[i].start..tokens[i].end])
    && (forall i, j :: 0 <= i < j < |tokens| ==> tokens[i].end <= tokens[j].start)
  }

  predicate Apart(comments: seq<Span>, tokens: seq<Token>) {
    && (forall i, j :: 0 <= i < j < |comments| ==> comments[i].end <= comments[j].start)
    && (forall i, j :: 0 <= i < |tokens| && 0 <= j < |comments| ==>
          tokens[i].end <= comments[j].start || comments[j].end <= tokens[i].start)
  }

  /** Comments are in bounds and not empty. */
  predicate Bounded(comments: seq<Span>, s: string) {
    forall m :: m in comments ==> m.start < m.end <= |s|
  }

  lemma TokensOrdered(s: string, ps: seq<Piece>)
    requires EndToEnd(ps, |s|) && InSource(s, ps)
    ensures Ordered(TokensOf(s, ps), s) && Apart(CommentsOf(ps), TokensOf(s, ps)) && Bounded(CommentsOf(ps), s)
  {
    forall i: nat, j: nat | i < j < |ps| ensures ps[i].end <= ps[j].start { PiecesAscend(ps, |s|, i, j); }
    var toks := TokenSites(s, ps);
    var coms := CommentSites(ps);
    forall i, j | 0 <= i < |toks| && 0 <= j < |coms|
      ensures TokensOf(s, ps)[i].end <= CommentsOf(ps)[j].start || CommentsOf(ps)[j].end <= TokensOf(s, ps)[i].start
    {
      assert toks[i] != coms[j];
    }
    forall m | m in CommentsOf(ps) ensures m.start < m.end <= |s| {
      var k :| 0 <= k < |coms| && CommentsOf(ps)[k] == m;
    }
  }

  /** Outside tokens and comments there is only blank space. */
  lemma Outside(s: string, c: Classes, ps: seq<Piece>, p: nat)
    requires Lexed(s, c, ps, |s|) && InSource(s, ps) && p < |s|
    ensures
      || (exists t :: t in TokensOf(s, ps) && t.start <= p < t.end)
      || (exists m :: m in CommentsOf(ps) && m.start <= p < m.end)
      || c.isSpace(s[p])
  {
    var i := PieceAt(ps, |s|, p);
    PieceListed(s, ps, i);
    if ps[i].sort.Blank? {
      assert ps[i] in ps;
      BlankPiece(s, c, ps[i]);
    }
  }

  lemma BlankPiece(s: string, c: Classes, p: Piece)
    requires IsNext(s, c, p) && p.sort.Blank?
    ensures p.end == p.start + 1 && c.isSpace(s[p.start])
  {}

  lemma {:induction false} PieceListed(s: string, ps: seq<Piece>, i: nat)
    requires InSource(s, ps) && i < |ps|
    ensures ps[i].sort.Tok? ==> TokenOf(s, ps[i]) in TokensOf(s, ps)
    ensures ps[i].sort.Comment? ==> Span(ps[i].start, ps[i].end) in CommentsOf(ps)
    decreases |ps|
  {
    if i < |ps| - 1 { PieceListed(s, ps[..|ps| - 1], i); }
  }

  lemma {:induction false} PieceAt(ps: seq<Piece>, to: nat, p: nat) returns (i: nat)
    requires EndToEnd(ps, to) && p < to
    ensures i < |ps| && ps[i].start <= p < ps[i].end
    decreases |ps|
  {
    var last := ps[|ps| - 1];
    if last.start <= p { return |ps| - 1; }
    i := PieceAt(ps[..|ps| - 1], last.start, p);
  }

  /** The warnings are the starts of the unterminated comments among the pieces. */
  lemma {:induction false} WarningsListed(ps: seq<Piece>, w: nat)
    ensures w in WarningsOf(ps) <==> exists p :: p in ps && p.sort == Comment(false) && p.start == w
  {
    if ps != [] {
      var init, last := ps[..|ps| - 1], ps[|ps| - 1];
      WarningsListed(init, w);
      assert ps == init + [last];
    }
  }

  ghost predicate Unclosed(s: string, i: nat) { forall e: nat :: !ClosedAt(s, i, e) }

  lemma UnclosedExact(s: string, i: nat)
    requires i <= |s|
    ensures Unclosed(s, i) <==> BlockEnd(s, i, 1).1 > 0
  {
    if BlockEnd(s, i, 1).1 == 0 {
      var t, e := ClosedIsBody(s, i, 1);
      assert ClosedAt(s, i, e);
    } else {
      forall e: nat ensures !ClosedAt(s, i, e) {
        if ClosedAt(s, i, e) { ClosedEnds(s, i, e); }
      }
    }
  }

  lemma BlockComment(s: string, c: Classes, p: Piece)
    requires IsNext(s, c, p) && p.sort.Comment?
    ensures p.sort == Comment(false) <==> At(s, "/*", p.start) && Unclosed(s, p.start + 2)
  {
    var w := p.start;
    if At(s, "/*", w) {
      assert s[w..w + 2][1] == '*';
      UnclosedExact(s, w + 2);
    }
  }

  /** A position is reported exactly when a piece starts there as a block comment that no comment body closes. */
  lemma WarningsExact(s: string, c: Classes, ps: seq<Piece>, w: nat)
    requires Lexed(s, c, ps, |s|) && InSource(s, ps)
    ensures w in WarningsOf(ps) <==>
      exists p :: p in ps && p.start == w && p.sort.Comment? && At(s, "/*", w) && Unclosed(s, w + 2)
  {
    WarningsListed(ps, w);
    forall p | p in ps && p.sort.Comment?
      ensures p.sort == Comment(false) <==> At(s, "/*", p.start) && Unclosed(s, p.start + 2)
    {
      assert IsNext(s, c, p);
      BlockComment(s, c, p);
    }
  }
}
