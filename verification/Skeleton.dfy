/**
 Source skeletons: which braces are function bodies, which of those are kept, and
 the source with comments and kept bodies replaced.
 */
module Skeleton {
  import opened Wrappers
  import opened RustLexer
  import opened Delimiters
  import opened Sorting

  // ---------------------------------------------------------------- function bodies

  /** No parenthesis or square bracket opened from `start` on is still open at `at`. */
  ghost predicate AtTopLevel(ms: Marks, pairs: Pairs, start: nat, at: nat) {
    forall a: nat, b: nat ::
      Mate(pairs, a, b) && start <= a < at && a < b && a < |ms| && ms[a] != Some(Open(Curly)) ==> b < at
  }

  lemma OpenIsForward(ms: Marks, pairs: Pairs, i: nat)
    requires Paired(ms, pairs) && i in pairs && i < |ms| && IsOpen(ms[i])
    ensures i < pairs[i] < |ms|
  {
    assert Mate(pairs, i, pairs[i]) && Mate(pairs, pairs[i], i);
  }

  /** Stepping over one token, or over a whole bracket pair, keeps the top level. */
  lemma StepOver(ms: Marks, pairs: Pairs, start: nat, at: nat, to: nat)
    requires Paired(ms, pairs) && AtTopLevel(ms, pairs, start, at) && start <= at < |ms|
    requires if at in pairs && at < pairs[at]
      then to == pairs[at] + 1 || (to == at + 1 && ms[at] == Some(Open(Curly))) else to == at + 1
    ensures AtTopLevel(ms, pairs, start, to)
  {
    forall a: nat, b: nat | Mate(pairs, a, b) && start <= a < to && a < b && a < |ms| && ms[a] != Some(Open(Curly))
      ensures b < to
    {
      if at < a { assert Mate(pairs, at, pairs[at]); }
    }
  }

  /** The parameter list's opening parenthesis, stepping over bracket pairs, before any semicolon. */
  ghost function ParametersFrom(tokens: seq<Token>, pairs: Pairs, cursor: nat, limit: nat): (r: Option<nat>)
    requires Paired(MarksOf(tokens), pairs) && limit <= |tokens|
    ensures r.Some? ==> cursor <= r.value < limit && tokens[r.value].text == "("
    decreases limit - cursor
  {
    if cursor >= limit then None
    else if tokens[cursor].text == "(" then Some(cursor)
    else if tokens[cursor].text == ";" then None
    else if (tokens[cursor].text == "[" || tokens[cursor].text == "{") && cursor in pairs then
      BracketText(tokens, pairs, cursor);
      OpenIsForward(MarksOf(tokens), pairs, cursor);
      ParametersFrom(tokens, pairs, pairs[cursor] + 1, limit)
    else ParametersFrom(tokens, pairs, cursor + 1, limit)
  }

  /** A token inside a bracket pair that opens at or behind `start` and closes before `at`. */
  ghost predicate InPair(pairs: Pairs, start: nat, q: nat, at: nat) {
    exists a: nat, b: nat :: Mate(pairs, a, b) && start <= a < q < b < at
  }

  /** Between `start` and `at` every pair is closed again, and parentheses and semicolons occur inside pairs only. */
  ghost predicate Walked(tokens: seq<Token>, pairs: Pairs, start: nat, at: nat) {
    && (forall a: nat, b: nat :: Mate(pairs, a, b) && start <= a < at && a < b ==> b < at)
    && (forall q: nat :: start <= q < at && q < |tokens| && tokens[q].text in ["(", ";"] ==>
      InPair(pairs, start, q, at))
  }

  lemma WalkedOver(tokens: seq<Token>, pairs: Pairs, start: nat, at: nat)
    requires Paired(MarksOf(tokens), pairs) && Walked(tokens, pairs, start, at) && start <= at < |tokens|
    requires tokens[at].text in ["[", "{"] && at in pairs && at < pairs[at]
    ensures Walked(tokens, pairs, start, pairs[at] + 1)
  {
    var c := pairs[at];
    assert Mate(pairs, at, c);
    forall q: nat | start <= q < c + 1 && q < |tokens| && tokens[q].text in ["(", ";"]
      ensures InPair(pairs, start, q, c + 1)
    {
      if q < at { PairStays(pairs, start, q, at, c + 1); } else { CloserIsNoStop(tokens, pairs, at); }
    }
    OverKeepsPairs(tokens, pairs, start, at);
  }

  lemma PairStays(pairs: Pairs, start: nat, q: nat, at: nat, to: nat)
    requires InPair(pairs, start, q, at) && at <= to
    ensures InPair(pairs, start, q, to)
  {
    var a: nat, b: nat :| Mate(pairs, a, b) && start <= a < q < b < at;
    assert b < to;
  }

  lemma OverKeepsPairs(tokens: seq<Token>, pairs: Pairs, start: nat, at: nat)
    requires Paired(MarksOf(tokens), pairs) && start <= at && at in pairs && at < pairs[at]
    requires forall a: nat, b: nat :: Mate(pairs, a, b) && start <= a < at && a < b ==> b < at
    ensures forall a: nat, b: nat :: Mate(pairs, a, b) && start <= a < pairs[at] + 1 && a < b ==> b < pairs[at] + 1
  {
    assert Mate(pairs, at, pairs[at]) && Mate(pairs, pairs[at], at);
  }

  lemma CloserIsNoStop(tokens: seq<Token>, pairs: Pairs, at: nat)
    requires Paired(MarksOf(tokens), pairs) && at < |tokens| && at in pairs && at < pairs[at]
    ensures pairs[at] < |tokens| && tokens[pairs[at]].text !in ["(", ";"]
  {
    assert Mate(pairs, at, pairs[at]);
  }

  lemma WalkedOne(tokens: seq<Token>, pairs: Pairs, start: nat, at: nat)
    requires Paired(MarksOf(tokens), pairs) && Walked(tokens, pairs, start, at) && start <= at < |tokens|
    requires tokens[at].text !in ["(", ";"] && (at in pairs ==> pairs[at] < at)
    ensures Walked(tokens, pairs, start, at + 1)
  {
    forall q: nat | start <= q < at + 1 && q < |tokens| && tokens[q].text in ["(", ";"]
      ensures InPair(pairs, start, q, at + 1)
    {
      PairStays(pairs, start, q, at, at + 1);
    }
    forall a: nat, b: nat | Mate(pairs, a, b) && start <= a < at + 1 && a < b ensures b < at + 1 {
      assert a != at;
    }
  }

  lemma BracketIsOpen(tokens: seq<Token>, pairs: Pairs, at: nat)
    requires Paired(MarksOf(tokens), pairs) && at < |tokens| && at in pairs && tokens[at].text !in ["(", "[", "{"]
    ensures pairs[at] < at
  {
    assert Mate(pairs, at, pairs[at]) && Mate(pairs, pairs[at], at);
  }

  /**
   The parameter list found is the first parenthesis outside every bracket pair behind the name, with
   no such semicolon before it.
   */
  lemma {:induction false} ParametersFirst(tokens: seq<Token>, pairs: Pairs, start: nat, cursor: nat, limit: nat)
    requires Paired(MarksOf(tokens), pairs) && start <= cursor && limit <= |tokens|
      && Walked(tokens, pairs, start, cursor)
    requires ParametersFrom(tokens, pairs, cursor, limit).Some?
    ensures Walked(tokens, pairs, start, ParametersFrom(tokens, pairs, cursor, limit).value)
    decreases limit - cursor
  {
    if tokens[cursor].text != "(" {
      ParametersStep(tokens, pairs, cursor, limit);
      if tokens[cursor].text in ["[", "{"] && cursor in pairs {
        WalkedOver(tokens, pairs, start, cursor);
        ParametersFirst(tokens, pairs, start, pairs[cursor] + 1, limit);
      } else {
        if cursor in pairs { BracketIsOpen(tokens, pairs, cursor); }
        WalkedOne(tokens, pairs, start, cursor);
        ParametersFirst(tokens, pairs, start, cursor + 1, limit);
      }
    }
  }

  /** The first parenthesis outside every pair from `start` on, with no such semicolon before it. */
  ghost predicate IsList(tokens: seq<Token>, pairs: Pairs, start: nat, limit: nat, p: nat) {
    start <= p < limit <= |tokens| && tokens[p].text == "(" && Walked(tokens, pairs, start, p)
  }

  /** Where everything up to both positions is walked, nothing that ends the search lies between them. */
  lemma NoneBetween(tokens: seq<Token>, pairs: Pairs, start: nat, cursor: nat, p: nat)
    requires Walked(tokens, pairs, start, cursor) && Walked(tokens, pairs, start, p)
    requires start <= cursor < p <= |tokens|
    ensures tokens[cursor].text !in ["(", ";"]
  {}

  /** Where the search goes on from `cursor`. */
  function Next(tokens: seq<Token>, pairs: Pairs, cursor: nat): nat
    requires cursor < |tokens|
  {
    if tokens[cursor].text in ["[", "{"] && cursor in pairs then pairs[cursor] + 1 else cursor + 1
  }

  lemma NextWithin(tokens: seq<Token>, pairs: Pairs, start: nat, cursor: nat, p: nat)
    requires Paired(MarksOf(tokens), pairs) && start <= cursor < p <= |tokens| && tokens[cursor].text !in ["(", ";"]
    requires Walked(tokens, pairs, start, cursor) && Walked(tokens, pairs, start, p)
    ensures cursor < Next(tokens, pairs, cursor) <= p && Walked(tokens, pairs, start, Next(tokens, pairs, cursor))
  {
    if tokens[cursor].text in ["[", "{"] && cursor in pairs {
      ParametersStep(tokens, pairs, cursor, |tokens|);
      assert Mate(pairs, cursor, pairs[cursor]);
      WalkedOver(tokens, pairs, start, cursor);
    } else {
      if cursor in pairs { BracketIsOpen(tokens, pairs, cursor); }
      WalkedOne(tokens, pairs, start, cursor);
    }
  }

  /** Such a parenthesis is found from every position the search passes. */
  lemma {:induction false} ListIsFound(tokens: seq<Token>, pairs: Pairs, start: nat, cursor: nat, limit: nat, p: nat)
    requires Paired(MarksOf(tokens), pairs) && start <= p < limit <= |tokens| && tokens[p].text == "("
    requires start <= cursor <= p && Walked(tokens, pairs, start, cursor) && Walked(tokens, pairs, start, p)
    ensures ParametersFrom(tokens, pairs, cursor, limit) == Some(p)
    decreases p - cursor
  {
    if cursor < p {
      NoneBetween(tokens, pairs, start, cursor, p);
      NextWithin(tokens, pairs, start, cursor, p);
      ParametersStep(tokens, pairs, cursor, limit);
      ListIsFound(tokens, pairs, start, Next(tokens, pairs, cursor), limit, p);
    }
  }

  /** The search finds exactly that parenthesis, and nothing exactly where the window holds none. */
  lemma ParametersExact(tokens: seq<Token>, pairs: Pairs, start: nat, limit: nat)
    requires Paired(MarksOf(tokens), pairs) && limit <= |tokens|
    ensures var r := ParametersFrom(tokens, pairs, start, limit);
      && (forall p: nat :: r == Some(p) <==> IsList(tokens, pairs, start, limit, p))
      && (r.None? <==> forall p: nat :: !IsList(tokens, pairs, start, limit, p))
  {
    var r := ParametersFrom(tokens, pairs, start, limit);
    if r.Some? { ParametersFirst(tokens, pairs, start, start, limit); }
    forall p: nat | IsList(tokens, pairs, start, limit, p) ensures r == Some(p) {
      ListIsFound(tokens, pairs, start, start, limit, p);
    }
  }

  /** The search stops a thousand tokens behind the keyword. */
  function Window(tokens: seq<Token>, index: nat): nat { if |tokens| < index + 1000 then |tokens| else index + 1000 }

  lemma ParametersStep(tokens: seq<Token>, pairs: Pairs, cursor: nat, limit: nat)
    requires Paired(MarksOf(tokens), pairs) && cursor < limit <= |tokens| && tokens[cursor].text !in ["(", ";"]
    ensures var over := tokens[cursor].text in ["[", "{"] && cursor in pairs;
      && (over ==> cursor < pairs[cursor])
      && ParametersFrom(tokens, pairs, cursor, limit) ==
           ParametersFrom(tokens, pairs, if over then pairs[cursor] + 1 else cursor + 1, limit)
  {
    if tokens[cursor].text in ["[", "{"] && cursor in pairs {
      BracketText(tokens, pairs, cursor);
      OpenIsForward(MarksOf(tokens), pairs, cursor);
    }
  }

  method FindParameters(tokens: seq<Token>, pairs: Pairs, index: nat) returns (r: Option<nat>)
    requires Paired(MarksOf(tokens), pairs) && index + 1 < |tokens|
    ensures r == ParametersFrom(tokens, pairs, index + 2, Window(tokens, index))
  {
    var cursor := index + 2;
    var limit := Window(tokens, index);
    while cursor < limit
      invariant index + 2 <= cursor
      invariant ParametersFrom(tokens, pairs, index + 2, limit) == ParametersFrom(tokens, pairs, cursor, limit)
      decreases limit - cursor
    {
      if tokens[cursor].text == "(" { return Some(cursor); }
      if tokens[cursor].text == ";" { return None; }
      ParametersStep(tokens, pairs, cursor, limit);
      if (tokens[cursor].text == "[" || tokens[cursor].text == "{") && cursor in pairs {
        cursor := pairs[cursor];
      }
      cursor := cursor + 1;
    }
    r := None;
  }

  /** A paired token is a bracket, and its text says which. */
  lemma BracketText(tokens: seq<Token>, pairs: Pairs, i: nat)
    requires Paired(MarksOf(tokens), pairs) && i in pairs
    ensures i < |tokens| && pairs[i] < |tokens| && tokens[i].kind == Punct
    ensures tokens[i].text in ["(", "[", "{"] ==> IsOpen(MarksOf(tokens)[i])
    ensures tokens[i].text == "{" ==> MarksOf(tokens)[i] == Some(Open(Curly))
    ensures tokens[i].text in ["(", "["] ==> MarksOf(tokens)[i] != Some(Open(Curly))
  {
    assert Mate(pairs, i, pairs[i]) && Mate(pairs, pairs[i], i);
  }

  /** The body's opening brace behind the parameter list, past generic arguments and return types. */
  ghost function BodyFrom(tokens: seq<Token>, pairs: Pairs, cursor: nat, angle: nat): (r: Option<nat>)
    requires Paired(MarksOf(tokens), pairs)
    ensures r.Some? ==> cursor <= r.value < |tokens| && r.value in pairs && tokens[r.value].text == "{"
    decreases |tokens| - cursor
  {
    if cursor >= |tokens| then None
    else
      var text := tokens[cursor].text;
      if (text == "(" || text == "[") && cursor in pairs then
        BracketText(tokens, pairs, cursor);
        OpenIsForward(MarksOf(tokens), pairs, cursor);
        BodyFrom(tokens, pairs, pairs[cursor] + 1, angle)
      else if text == "<" then BodyFrom(tokens, pairs, cursor + 1, angle + 1)
      else if text == ">" && angle > 0 then BodyFrom(tokens, pairs, cursor + 1, angle - 1)
      else if text == "{" && cursor in pairs then
        BracketText(tokens, pairs, cursor);
        OpenIsForward(MarksOf(tokens), pairs, cursor);
        if angle > 0 then BodyFrom(tokens, pairs, pairs[cursor] + 1, angle) else Some(cursor)
      else if text == ";" && angle == 0 then None
      else BodyFrom(tokens, pairs, cursor + 1, angle)
  }

  predicate BodyStops(tokens: seq<Token>, pairs: Pairs, cursor: nat, angle: nat)
    requires cursor < |tokens|
  {
    angle == 0 && ((tokens[cursor].text == "{" && cursor in pairs) || tokens[cursor].text == ";")
  }

  /** The search steps over a bracket pair, or over one token. */
  function BodyNext(tokens: seq<Token>, pairs: Pairs, cursor: nat): nat
    requires cursor < |tokens|
  {
    if tokens[cursor].text in ["(", "[", "{"] && cursor in pairs then pairs[cursor] + 1 else cursor + 1
  }

  function AngleNext(text: string, angle: nat): nat {
    if text == "<" then angle + 1 else if text == ">" && angle > 0 then angle - 1 else angle
  }

  lemma BodyStep(tokens: seq<Token>, pairs: Pairs, cursor: nat, angle: nat)
    requires Paired(MarksOf(tokens), pairs) && cursor < |tokens| && !BodyStops(tokens, pairs, cursor, angle)
    ensures cursor < BodyNext(tokens, pairs, cursor)
    ensures BodyFrom(tokens, pairs, cursor, angle) ==
      BodyFrom(tokens, pairs, BodyNext(tokens, pairs, cursor), AngleNext(tokens[cursor].text, angle))
  {
    if tokens[cursor].text in ["(", "[", "{"] && cursor in pairs {
      BracketText(tokens, pairs, cursor);
      OpenIsForward(MarksOf(tokens), pairs, cursor);
    }
  }

  method FindBody(tokens: seq<Token>, pairs: Pairs, start: nat) returns (r: Option<nat>)
    requires Paired(MarksOf(tokens), pairs)
    ensures r == BodyFrom(tokens, pairs, start, 0)
  {
    var cursor := start;
    var angle: nat := 0;
    while cursor < |tokens|
      invariant start <= cursor
      invariant BodyFrom(tokens, pairs, start, 0) == BodyFrom(tokens, pairs, cursor, angle)
      decreases |tokens| - cursor
    {
      var text := tokens[cursor].text;
      if text == "{" && cursor in pairs && angle == 0 { return Some(cursor); }
      if text == ";" && angle == 0 { return None; }
      BodyStep(tokens, pairs, cursor, angle);
      if (text == "(" || text == "[" || text == "{") && cursor in pairs {
        cursor := pairs[cursor] + 1;
        continue;
      }
      if text == "<" {
        angle := angle + 1;
      } else if text == ">" && angle > 0 {
        angle := angle - 1;
      }
      cursor := cursor + 1;
    }
    r := None;
  }

  lemma TopLevelStep(tokens: seq<Token>, pairs: Pairs, start: nat, cursor: nat)
    requires Paired(MarksOf(tokens), pairs) && start <= cursor < |tokens|
      && AtTopLevel(MarksOf(tokens), pairs, start, cursor)
    ensures cursor < BodyNext(tokens, pairs, cursor)
    ensures AtTopLevel(MarksOf(tokens), pairs, start, BodyNext(tokens, pairs, cursor))
  {
    if tokens[cursor].text in ["(", "[", "{"] && cursor in pairs {
      BracketText(tokens, pairs, cursor);
      OpenIsForward(MarksOf(tokens), pairs, cursor);
      StepOver(MarksOf(tokens), pairs, start, cursor, pairs[cursor] + 1);
    } else {
      PlainStep(tokens, pairs, start, cursor);
    }
  }

  /** A body's brace is never inside a parenthesis or square bracket of the signature. */
  lemma {:induction false} BodyAtTopLevel(tokens: seq<Token>, pairs: Pairs, start: nat, cursor: nat, angle: nat)
    requires Paired(MarksOf(tokens), pairs) && start <= cursor && AtTopLevel(MarksOf(tokens), pairs, start, cursor)
    requires BodyFrom(tokens, pairs, cursor, angle).Some?
    ensures AtTopLevel(MarksOf(tokens), pairs, start, BodyFrom(tokens, pairs, cursor, angle).value)
    decreases |tokens| - cursor
  {
    if !BodyStops(tokens, pairs, cursor, angle) {
      BodyStep(tokens, pairs, cursor, angle);
      TopLevelStep(tokens, pairs, start, cursor);
      BodyAtTopLevel(tokens, pairs, start, BodyNext(tokens, pairs, cursor), AngleNext(tokens[cursor].text, angle));
    }
  }

  // Which brace is the body's, without the search.

  /** Outside every bracket pair opened from `start` on. */
  ghost predicate Top(pairs: Pairs, start: nat, q: nat) {
    forall a: nat, b: nat :: Mate(pairs, a, b) && start <= a < q ==> b < q
  }

  /** How many angle brackets outside those pairs are open at a position; one too many closes nothing. */
  ghost function AngleDepth(tokens: seq<Token>, pairs: Pairs, start: nat, at: nat): nat
    requires at <= |tokens|
  {
    if at <= start then 0
    else
      var d := AngleDepth(tokens, pairs, start, at - 1);
      if !Top(pairs, start, at - 1) then d
      else if tokens[at - 1].text == "<" then d + 1
      else if tokens[at - 1].text == ">" && d > 0 then d - 1
      else d
  }

  /** Outside pairs and angle brackets, a semicolon, or a brace that has a partner. */
  ghost predicate Decides(tokens: seq<Token>, pairs: Pairs, start: nat, q: nat)
    requires q < |tokens|
  {
    && Top(pairs, start, q) && AngleDepth(tokens, pairs, start, q) == 0
    && (tokens[q].text == ";" || (tokens[q].text == "{" && q in pairs))
  }

  /** Nothing from `start` up to `q` decides. */
  ghost predicate Undecided(tokens: seq<Token>, pairs: Pairs, start: nat, q: nat) {
    forall k: nat :: start <= k < q && k < |tokens| ==> !Decides(tokens, pairs, start, k)
  }

  /** The first token that decides is a brace, at `o`. */
  ghost predicate OpensBody(tokens: seq<Token>, pairs: Pairs, start: nat, o: nat) {
    && start <= o < |tokens| && Decides(tokens, pairs, start, o) && tokens[o].text == "{"
    && Undecided(tokens, pairs, start, o)
  }

  /** The next position outside pairs is where the search goes on. */
  lemma TopNext(tokens: seq<Token>, pairs: Pairs, start: nat, cursor: nat)
    requires Paired(MarksOf(tokens), pairs) && start <= cursor < |tokens| && Top(pairs, start, cursor)
    ensures var next := BodyNext(tokens, pairs, cursor);
      cursor < next <= |tokens| && Top(pairs, start, next) && forall q :: cursor < q < next ==> !Top(pairs, start, q)
  {
    if tokens[cursor].text in ["(", "[", "{"] && cursor in pairs {
      BracketText(tokens, pairs, cursor);
      OpenIsForward(MarksOf(tokens), pairs, cursor);
      TopOver(tokens, pairs, start, cursor);
    } else if cursor in pairs {
      BracketIsOpen(tokens, pairs, cursor);
    }
  }

  lemma TopOver(tokens: seq<Token>, pairs: Pairs, start: nat, cursor: nat)
    requires Paired(MarksOf(tokens), pairs) && start <= cursor && Top(pairs, start, cursor)
    requires cursor in pairs && cursor < pairs[cursor]
    ensures Top(pairs, start, pairs[cursor] + 1) && forall q :: cursor < q <= pairs[cursor] ==> !Top(pairs, start, q)
  {
    var c := pairs[cursor];
    assert Mate(pairs, cursor, c) && Mate(pairs, c, cursor);
    forall a: nat, b: nat | Mate(pairs, a, b) && start <= a < c + 1 ensures b < c + 1 {
      if cursor < a < c { assert cursor < b < c; }
    }
  }

  lemma {:induction false} AngleOver(tokens: seq<Token>, pairs: Pairs, start: nat, cursor: nat, next: nat)
    requires start <= cursor < next <= |tokens| && Top(pairs, start, cursor)
    requires forall q :: cursor < q < next ==> !Top(pairs, start, q)
    ensures AngleDepth(tokens, pairs, start, next)
      == AngleNext(tokens[cursor].text, AngleDepth(tokens, pairs, start, cursor))
    decreases next
  {
    if next > cursor + 1 { AngleOver(tokens, pairs, start, cursor, next - 1); }
  }

  lemma UndecidedOver(tokens: seq<Token>, pairs: Pairs, start: nat, cursor: nat, next: nat)
    requires start <= cursor < next <= |tokens| && Undecided(tokens, pairs, start, cursor)
    requires !Decides(tokens, pairs, start, cursor) && forall q :: cursor < q < next ==> !Top(pairs, start, q)
    ensures Undecided(tokens, pairs, start, next)
  {}

  /** Where the search stands, it has passed nothing that decides. */
  ghost predicate Passing(tokens: seq<Token>, pairs: Pairs, start: nat, cursor: nat, angle: nat) {
    && start <= cursor <= |tokens| && Top(pairs, start, cursor)
    && AngleDepth(tokens, pairs, start, cursor) == angle && Undecided(tokens, pairs, start, cursor)
  }

  lemma PassingOn(tokens: seq<Token>, pairs: Pairs, start: nat, cursor: nat, angle: nat)
    requires Paired(MarksOf(tokens), pairs) && cursor < |tokens| && Passing(tokens, pairs, start, cursor, angle)
    requires !BodyStops(tokens, pairs, cursor, angle)
    ensures Passing(tokens, pairs, start, BodyNext(tokens, pairs, cursor), AngleNext(tokens[cursor].text, angle))
    ensures cursor < BodyNext(tokens, pairs, cursor)
  {
    TopNext(tokens, pairs, start, cursor);
    AngleOver(tokens, pairs, start, cursor, BodyNext(tokens, pairs, cursor));
    UndecidedOver(tokens, pairs, start, cursor, BodyNext(tokens, pairs, cursor));
  }

  lemma {:induction false} BodySearch(tokens: seq<Token>, pairs: Pairs, start: nat, cursor: nat, angle: nat)
    requires Paired(MarksOf(tokens), pairs) && Passing(tokens, pairs, start, cursor, angle)
    ensures var r := BodyFrom(tokens, pairs, cursor, angle);
      if r.Some? then OpensBody(tokens, pairs, start, r.value) else forall o: nat :: !OpensBody(tokens, pairs, start, o)
    decreases |tokens| - cursor
  {
    if cursor < |tokens| {
      if BodyStops(tokens, pairs, cursor, angle) {
        assert Decides(tokens, pairs, start, cursor);
      } else {
        PassingOn(tokens, pairs, start, cursor, angle);
        BodyStep(tokens, pairs, cursor, angle);
        BodySearch(tokens, pairs, start, BodyNext(tokens, pairs, cursor), AngleNext(tokens[cursor].text, angle));
      }
    }
  }

  /** The search finds exactly that brace, and none exactly where a semicolon, or nothing, decides. */
  lemma BodyExact(tokens: seq<Token>, pairs: Pairs, start: nat)
    requires Paired(MarksOf(tokens), pairs) && start <= |tokens|
    ensures var r := BodyFrom(tokens, pairs, start, 0);
      && (forall o: nat :: r == Some(o) <==> OpensBody(tokens, pairs, start, o))
      && (r.None? <==> forall o: nat :: !OpensBody(tokens, pairs, start, o))
  {
    BodySearch(tokens, pairs, start, start, 0);
    forall o: nat, q: nat | OpensBody(tokens, pairs, start, o) && OpensBody(tokens, pairs, start, q) ensures o == q {
      assert Decides(tokens, pairs, start, o) && Decides(tokens, pairs, start, q);
    }
  }

  predicate IsFn(tokens: seq<Token>, i: nat) {
    i + 1 < |tokens| && tokens[i].kind == Ident && tokens[i].text == "fn" && tokens[i + 1].kind == Ident
  }

  /** The parameter list of the function at token `i`, when it has one. */
  ghost function FnParameters(tokens: seq<Token>, pairs: Pairs, i: nat): (r: Option<nat>)
    requires Paired(MarksOf(tokens), pairs)
    ensures r.Some? ==> i < r.value < |tokens| && r.value in pairs
  {
    if !IsFn(tokens, i) then None
    else
      var p := ParametersFrom(tokens, pairs, i + 2, Window(tokens, i));
      if p.Some? && p.value in pairs then p else None
  }

  /** The opening brace of the body of the function at token `i`, when it has one. */
  ghost function FnBody(tokens: seq<Token>, pairs: Pairs, i: nat): Option<nat>
    requires Paired(MarksOf(tokens), pairs)
  {
    var p := FnParameters(tokens, pairs, i);
    if p.None? then None else BodyFrom(tokens, pairs, pairs[p.value] + 1, 0)
  }

  /** `fn` and a name, and behind them the first parenthesis outside every pair. */
  ghost predicate Declares(tokens: seq<Token>, pairs: Pairs, i: nat, p: nat) {
    && i + 1 < |tokens| && tokens[i].kind == Ident && tokens[i].text == "fn" && tokens[i + 1].kind == Ident
    && p in pairs && IsList(tokens, pairs, i + 2, Window(tokens, i), p)
  }

  lemma ListIs(tokens: seq<Token>, pairs: Pairs, start: nat, limit: nat, p: nat)
    requires Paired(MarksOf(tokens), pairs) && limit <= |tokens|
    ensures ParametersFrom(tokens, pairs, start, limit) == Some(p) <==> IsList(tokens, pairs, start, limit, p)
  {
    ParametersExact(tokens, pairs, start, limit);
  }

  lemma BodyIs(tokens: seq<Token>, pairs: Pairs, start: nat, o: nat)
    requires Paired(MarksOf(tokens), pairs) && start <= |tokens|
    ensures BodyFrom(tokens, pairs, start, 0) == Some(o) <==> OpensBody(tokens, pairs, start, o)
  {
    BodyExact(tokens, pairs, start);
  }

  lemma FnParametersExact(tokens: seq<Token>, pairs: Pairs, i: nat, p: nat)
    requires Paired(MarksOf(tokens), pairs)
    ensures FnParameters(tokens, pairs, i) == Some(p) <==> Declares(tokens, pairs, i, p)
  {
    if IsFn(tokens, i) { ListIs(tokens, pairs, i + 2, Window(tokens, i), p); }
  }

  lemma BodyBehind(tokens: seq<Token>, pairs: Pairs, i: nat, p: nat, o: nat)
    requires Paired(MarksOf(tokens), pairs) && FnParameters(tokens, pairs, i) == Some(p)
    ensures FnBody(tokens, pairs, i) == Some(o) <==> OpensBody(tokens, pairs, pairs[p] + 1, o)
  {
    BracketText(tokens, pairs, p);
    BodyIs(tokens, pairs, pairs[p] + 1, o);
  }

  /**
   A function has the body at `o` exactly if it declares a parameter list, and the
   first token that decides behind that is the brace at `o`.
   */
  lemma FnBodyExact(tokens: seq<Token>, pairs: Pairs, i: nat, o: nat)
    requires Paired(MarksOf(tokens), pairs)
    ensures FnBody(tokens, pairs, i) == Some(o) <==>
      exists p: nat :: Declares(tokens, pairs, i, p) && OpensBody(tokens, pairs, pairs[p] + 1, o)
  {
    var r := FnParameters(tokens, pairs, i);
    if p: nat :| Declares(tokens, pairs, i, p) && OpensBody(tokens, pairs, pairs[p] + 1, o) {
      FnParametersExact(tokens, pairs, i, p);
      BodyBehind(tokens, pairs, i, p, o);
    } else if r.Some? {
      FnParametersExact(tokens, pairs, i, r.value);
      BodyBehind(tokens, pairs, i, r.value, o);
    }
  }

  /** How many of the first `n` tokens start a function item. */
  ghost function FnCount(tokens: seq<Token>, pairs: Pairs, n: nat): nat
    requires Paired(MarksOf(tokens), pairs)
  {
    if n == 0 then 0 else FnCount(tokens, pairs, n - 1) + if FnParameters(tokens, pairs, n - 1).Some? then 1 else 0
  }

  lemma PlainStep(tokens: seq<Token>, pairs: Pairs, start: nat, at: nat)
    requires Paired(MarksOf(tokens), pairs) && AtTopLevel(MarksOf(tokens), pairs, start, at) && start <= at < |tokens|
    requires tokens[at].text in ["(", "[", "{"] ==> at !in pairs
    ensures AtTopLevel(MarksOf(tokens), pairs, start, at + 1)
  {
    if at in pairs && at < pairs[at] {
      assert Mate(pairs, at, pairs[at]);
      assert false;
    }
    StepOver(MarksOf(tokens), pairs, start, at, at + 1);
  }

  predicate BodyBrace(ms: Marks, pairs: Pairs, o: nat) {
    0 < o < |ms| && o in pairs && pairs[o] < |ms| && ms[o] == Some(Open(Curly))
  }

  /** A body with the blank space before it, and a trailing comma of the signature. */
  function Body(tokens: seq<Token>, pairs: Pairs, o: nat): Span
    requires BodyBrace(MarksOf(tokens), pairs, o)
  {
    BodyAt(tokens, o, pairs[o])
  }

  function BodyAt(tokens: seq<Token>, o: nat, c: nat): Span
    requires 0 < o < |tokens| && c < |tokens|
  {
    var before := tokens[o - 1];
    Span(if before.text == "," then before.start else before.end, tokens[c].end)
  }

  /** A body's span holds exactly the tokens from brace to brace, and a comma right before. */
  lemma BodyHolds(tokens: seq<Token>, s: string, pairs: Pairs, o: nat, j: nat)
    requires Ordered(tokens, s) && Paired(MarksOf(tokens), pairs)
    requires BodyBrace(MarksOf(tokens), pairs, o) && j < |tokens|
    ensures var b := Body(tokens, pairs, o);
      && (b.start <= tokens[j].start && tokens[j].end <= b.end <==>
            o <= j <= pairs[o] || (j == o - 1 && tokens[j].text == ","))
      && (!(o <= j <= pairs[o]) && !(j == o - 1 && tokens[j].text == ",") ==>
            tokens[j].end <= b.start || b.end <= tokens[j].start)
  {
    OpenIsForward(MarksOf(tokens), pairs, o);
    var c := pairs[o];
    OrderedBy(tokens, s, o - 1, o);
    OrderedBy(tokens, s, o, c);
    if j < o {
      OrderedBy(tokens, s, j, o - 1);
    } else if j <= c {
      OrderedBy(tokens, s, o, j);
      OrderedBy(tokens, s, j, c);
    } else {
      OrderedBy(tokens, s, c, j);
    }
  }

  predicate Inside(x: Span, y: Span) { y.start <= x.start && x.end <= y.end }

  /** Of two spans the later one is inside the earlier one, or behind it. */
  predicate Laminar(x: Span, y: Span) { x.start <= y.start ==> Inside(y, x) || x.end <= y.start }

  lemma BodiesNest(tokens: seq<Token>, s: string, pairs: Pairs, o: nat, p: nat)
    requires Ordered(tokens, s) && Paired(MarksOf(tokens), pairs) && o < p
    requires BodyBrace(MarksOf(tokens), pairs, o) && BodyBrace(MarksOf(tokens), pairs, p)
    ensures var x, y := Body(tokens, pairs, o), Body(tokens, pairs, p);
      x.start < y.start && (Inside(y, x) || x.end <= y.start)
  {
    var ms := MarksOf(tokens);
    var c, d := pairs[o], pairs[p];
    OpenIsForward(ms, pairs, o);
    OpenIsForward(ms, pairs, p);
    assert Mate(pairs, o, c) && Mate(pairs, p, d) && Mate(pairs, c, o);
    CurlyText(tokens[o]);
    assert Fit(ms[o], ms[c]);
    CurlyText(tokens[c]);
    SpansNest(tokens, s, o, c, p, d);
  }

  lemma SpansNest(tokens: seq<Token>, s: string, o: nat, c: nat, p: nat, d: nat)
    requires Ordered(tokens, s) && 0 < o < c < |tokens| && o < p < d < |tokens| && p != c && (p < c ==> d < c)
    requires tokens[o].text != "," && tokens[c].text != ","
    ensures var x, y := BodyAt(tokens, o, c), BodyAt(tokens, p, d);
      x.start < y.start && (Inside(y, x) || x.end <= y.start)
  {
    OrderedBy(tokens, s, o - 1, o);
    OrderedBy(tokens, s, o, p - 1);
    if p < c {
      OrderedBy(tokens, s, d, c);
    } else {
      OrderedBy(tokens, s, c, p - 1);
    }
  }

  lemma CurlyText(t: Token)
    ensures MarkOf(t).Some? ==> t.text != ","
  {}

  lemma OrderedBy(tokens: seq<Token>, s: string, i: nat, j: nat)
    requires Ordered(tokens, s) && i <= j < |tokens|
    ensures tokens[i].start < tokens[i].end && tokens[j].start < tokens[j].end <= |s|
    ensures tokens[i].end <= tokens[j].end && tokens[i].start <= tokens[j].start
      && (i < j ==> tokens[i].end <= tokens[j].start)
  {}

  predicate Family(spans: seq<Span>) {
    && (forall x :: x in spans ==> x.start < x.end)
    && (forall x, y :: x in spans && y in spans ==> Laminar(x, y))
  }

  predicate Before(x: Span, y: Span) { x.start < y.start || (x.start == y.start && x.end <= y.end) }

  lemma BeforeOrders()
    ensures TotalPreorder(Before)
  {}

  predicate Disjoint(spans: seq<Span>) {
    forall i, j :: 0 <= i < j < |spans| ==> spans[i].end <= spans[j].start
  }

  predicate Contained(x: Span, spans: seq<Span>) { exists y :: y in spans && Inside(x, y) }

  /** Of the first `i` sorted spans, `kept` holds those not inside an earlier one. */
  ghost predicate KeptSoFar(sorted: seq<Span>, i: nat, kept: seq<Span>) {
    && i <= |sorted| && Disjoint(kept)
    && (forall y :: y in kept ==> y in sorted[..i])
    && (forall x :: x in sorted[..i] ==> Contained(x, kept))
  }

  lemma EarlierIsBefore(sorted: seq<Span>, i: nat, y: Span)
    requires SortedBy(Before, sorted) && i < |sorted| && y in sorted[..i]
    ensures Before(y, sorted[i])
  {
    var k :| 0 <= k < i && sorted[k] == y;
  }

  lemma DropStep(sorted: seq<Span>, i: nat, kept: seq<Span>)
    requires KeptSoFar(sorted, i, kept) && i < |sorted| && kept != [] && Inside(sorted[i], kept[|kept| - 1])
    ensures KeptSoFar(sorted, i + 1, kept)
  {
    assert sorted[..i + 1] == sorted[..i] + [sorted[i]];
    assert Contained(sorted[i], kept);
  }

  lemma KeepStep(sorted: seq<Span>, i: nat, kept: seq<Span>)
    requires Family(sorted) && SortedBy(Before, sorted) && KeptSoFar(sorted, i, kept) && i < |sorted|
    requires kept == [] || !Inside(sorted[i], kept[|kept| - 1])
    ensures KeptSoFar(sorted, i + 1, kept + [sorted[i]])
  {
    var body := sorted[i];
    var upTo := sorted[..i + 1];
    assert upTo == sorted[..i] + [body];
    forall y | y in kept ensures y in sorted && Before(y, body) {
      EarlierIsBefore(sorted, i, y);
    }
    AppendKept(sorted, kept, body);
    forall x | x in upTo ensures Contained(x, kept + [body]) {
      if x == body { assert Inside(body, body) && body in kept + [body]; }
    }
  }

  /** Keeps each span that is not inside the one kept last. */
  method Outermost(sorted: seq<Span>) returns (kept: seq<Span>)
    requires Family(sorted) && SortedBy(Before, sorted)
    ensures Disjoint(kept) && (forall y :: y in kept ==> y in sorted)
    ensures forall x :: x in sorted ==> Contained(x, kept)
  {
    kept := [];
    for i := 0 to |sorted|
      invariant KeptSoFar(sorted, i, kept)
    {
      if kept != [] && Inside(sorted[i], kept[|kept| - 1]) {
        DropStep(sorted, i, kept);
        continue;
      }
      KeepStep(sorted, i, kept);
      kept := kept + [sorted[i]];
    }
    assert sorted[..|sorted|] == sorted;
  }

  lemma AppendKept(sorted: seq<Span>, kept: seq<Span>, body: Span)
    requires Family(sorted) && Disjoint(kept) && body in sorted && (forall y :: y in kept ==> y in sorted)
    requires forall y :: y in kept ==> Before(y, body)
    requires kept == [] || !Inside(body, kept[|kept| - 1])
    ensures Disjoint(kept + [body])
    ensures forall x :: Contained(x, kept) ==> Contained(x, kept + [body])
  {
    if kept != [] {
      var last := kept[|kept| - 1];
      assert last in kept;
      assert Laminar(last, body);
      forall i | 0 <= i < |kept| ensures kept[i].end <= body.start {
        if i < |kept| - 1 { assert kept[i].end <= last.start; }
      }
    }
    forall x | Contained(x, kept) ensures Contained(x, kept + [body]) {
      var y :| y in kept && Inside(x, y);
      assert y in kept + [body];
    }
  }

  /** The braces found are those of the functions among the first `n` tokens, and no others. */
  ghost predicate FoundUpTo(tokens: seq<Token>, pairs: Pairs, n: nat, braces: seq<nat>)
    requires Paired(MarksOf(tokens), pairs)
  {
    && (forall i: nat :: i < n && FnBody(tokens, pairs, i).Some? ==> FnBody(tokens, pairs, i).value in braces)
    && (forall o :: o in braces ==> exists i: nat :: i < n && FnBody(tokens, pairs, i) == Some(o))
  }

  lemma FoundStep(tokens: seq<Token>, pairs: Pairs, n: nat, braces: seq<nat>, more: seq<nat>)
    requires Paired(MarksOf(tokens), pairs) && FoundUpTo(tokens, pairs, n, braces)
    requires more == if FnBody(tokens, pairs, n).Some? then braces + [FnBody(tokens, pairs, n).value] else braces
    ensures FoundUpTo(tokens, pairs, n + 1, more)
  {
    forall o | o in more ensures exists i: nat :: i < n + 1 && FnBody(tokens, pairs, i) == Some(o) {
      if o in braces {
        var i: nat :| i < n && FnBody(tokens, pairs, i) == Some(o);
      } else {
        assert FnBody(tokens, pairs, n) == Some(o);
      }
    }
  }

  /** One turn of the outer loop: the function at token `i`, if there is one. */
  method FunctionAt(tokens: seq<Token>, pairs: Pairs, i: nat) returns (item: bool, body: Option<nat>)
    requires Paired(MarksOf(tokens), pairs)
    ensures item <==> FnParameters(tokens, pairs, i).Some?
    ensures body == FnBody(tokens, pairs, i)
    ensures body.Some? ==> BodyBrace(MarksOf(tokens), pairs, body.value)
  {
    item, body := false, None;
    if IsFn(tokens, i) {
      var parameters := FindParameters(tokens, pairs, i);
      if parameters.Some? && parameters.value in pairs {
        item := true;
        body := FindBody(tokens, pairs, pairs[parameters.value] + 1);
        if body.Some? { BracketText(tokens, pairs, body.value); }
      }
    }
  }

  /** The bodies belong to the braces. */
  ghost predicate BodiesOf(tokens: seq<Token>, pairs: Pairs, braces: seq<nat>, bodies: seq<Span>) {
    |bodies| == |braces| && forall k :: 0 <= k < |braces| ==>
      BodyBrace(MarksOf(tokens), pairs, braces[k]) && bodies[k] == Body(tokens, pairs, braces[k])
  }

  lemma BodiesMore(tokens: seq<Token>, pairs: Pairs, braces: seq<nat>, bodies: seq<Span>, o: nat)
    requires BodiesOf(tokens, pairs, braces, bodies) && BodyBrace(MarksOf(tokens), pairs, o)
    ensures BodiesOf(tokens, pairs, braces + [o], bodies + [Body(tokens, pairs, o)])
  {}

  /** What the outer loop has collected after `n` tokens. */
  ghost predicate Collected(tokens: seq<Token>, pairs: Pairs, n: nat, bodies: seq<Span>, items: nat, braces: seq<nat>)
    requires Paired(MarksOf(tokens), pairs)
  {
    FoundUpTo(tokens, pairs, n, braces) && items == FnCount(tokens, pairs, n) && BodiesOf(tokens, pairs, braces, bodies)
  }

  method CollectOne(tokens: seq<Token>, pairs: Pairs, n: nat, before: seq<Span>, count: nat, ghost old_: seq<nat>)
    returns (bodies: seq<Span>, items: nat, ghost braces: seq<nat>)
    requires Paired(MarksOf(tokens), pairs) && Collected(tokens, pairs, n, before, count, old_)
    ensures Collected(tokens, pairs, n + 1, bodies, items, braces)
  {
    var item, body := FunctionAt(tokens, pairs, n);
    items := if item then count + 1 else count;
    if body.None? {
      FoundStep(tokens, pairs, n, old_, old_);
      return before, items, old_;
    }
    FoundStep(tokens, pairs, n, old_, old_ + [body.value]);
    BodiesMore(tokens, pairs, old_, before, body.value);
    bodies, braces := before + [Body(tokens, pairs, body.value)], old_ + [body.value];
  }

  method CollectBodies(tokens: seq<Token>, pairs: Pairs) returns (bodies: seq<Span>, items: nat, ghost braces: seq<nat>)
    requires Paired(MarksOf(tokens), pairs)
    ensures Collected(tokens, pairs, |tokens|, bodies, items, braces)
  {
    bodies, items, braces := [], 0, [];
    for index := 0 to |tokens|
      invariant Collected(tokens, pairs, index, bodies, items, braces)
    {
      bodies, items, braces := CollectOne(tokens, pairs, index, bodies, items, braces);
    }
  }

  /** The kept bodies: disjoint and ascending, and the body of every function lies in one of them. */
  method FunctionItems(tokens: seq<Token>, s: string, pairs: Pairs)
    returns (kept: seq<Span>, items: nat, ghost braces: seq<nat>)
    requires Ordered(tokens, s) && Paired(MarksOf(tokens), pairs)
    ensures FoundUpTo(tokens, pairs, |tokens|, braces) && items == FnCount(tokens, pairs, |tokens|)
    ensures forall o :: o in braces ==> BodyBrace(MarksOf(tokens), pairs, o)
    ensures Disjoint(kept)
    ensures forall y :: y in kept ==> exists o ::
      o in braces && BodyBrace(MarksOf(tokens), pairs, o) && y == Body(tokens, pairs, o)
    ensures forall o :: o in braces && BodyBrace(MarksOf(tokens), pairs, o) ==> Contained(Body(tokens, pairs, o), kept)
  {
    var bodies: seq<Span>;
    bodies, items, braces := CollectBodies(tokens, pairs);
    BodiesAreFamily(tokens, s, pairs, bodies, braces);
    BeforeOrders();
    SortSorts(Before, bodies);
    kept := Outermost(Sort(Before, bodies));
    KeptBodies(tokens, pairs, bodies, braces, kept);
  }

  lemma KeptBodies(tokens: seq<Token>, pairs: Pairs, bodies: seq<Span>, braces: seq<nat>, kept: seq<Span>)
    requires |bodies| == |braces|
    requires forall k :: 0 <= k < |braces| ==>
      BodyBrace(MarksOf(tokens), pairs, braces[k]) && bodies[k] == Body(tokens, pairs, braces[k])
    requires (forall y :: y in kept ==> y in bodies) && (forall x :: x in bodies ==> Contained(x, kept))
    ensures forall y :: y in kept ==> exists o ::
      o in braces && BodyBrace(MarksOf(tokens), pairs, o) && y == Body(tokens, pairs, o)
    ensures forall o :: o in braces && BodyBrace(MarksOf(tokens), pairs, o) ==> Contained(Body(tokens, pairs, o), kept)
  {
    forall y | y in kept
      ensures exists o :: o in braces && BodyBrace(MarksOf(tokens), pairs, o) && y == Body(tokens, pairs, o)
    {
      var k :| 0 <= k < |bodies| && bodies[k] == y;
      assert braces[k] in braces;
    }
    forall o | o in braces && BodyBrace(MarksOf(tokens), pairs, o) ensures Contained(Body(tokens, pairs, o), kept) {
      var k :| 0 <= k < |braces| && braces[k] == o;
      assert bodies[k] in bodies;
    }
  }

  lemma BodiesAreFamily(tokens: seq<Token>, s: string, pairs: Pairs, bodies: seq<Span>, braces: seq<nat>)
    requires Ordered(tokens, s) && Paired(MarksOf(tokens), pairs) && |bodies| == |braces|
    requires forall k :: 0 <= k < |braces| ==>
      BodyBrace(MarksOf(tokens), pairs, braces[k]) && bodies[k] == Body(tokens, pairs, braces[k])
    ensures Family(Sort(Before, bodies))
  {
    forall i, j | 0 <= i < |bodies| && 0 <= j < |bodies|
      ensures bodies[i].start < bodies[i].end && Laminar(bodies[i], bodies[j])
    {
      BodiesLaminar(tokens, s, pairs, braces[i], braces[j]);
    }
    assert Family(bodies);
    BeforeOrders();
    SortSorts(Before, bodies);
  }

  lemma BodiesLaminar(tokens: seq<Token>, s: string, pairs: Pairs, o: nat, p: nat)
    requires Ordered(tokens, s) && Paired(MarksOf(tokens), pairs)
    requires BodyBrace(MarksOf(tokens), pairs, o) && BodyBrace(MarksOf(tokens), pairs, p)
    ensures Body(tokens, pairs, o).start < Body(tokens, pairs, o).end
    ensures Laminar(Body(tokens, pairs, o), Body(tokens, pairs, p))
  {
    OpenIsForward(MarksOf(tokens), pairs, o);
    OrderedBy(tokens, s, o - 1, o);
    OrderedBy(tokens, s, o, pairs[o]);
    if o < p {
      BodiesNest(tokens, s, pairs, o, p);
    } else if p < o {
      BodiesNest(tokens, s, pairs, p, o);
    }
  }

  // ---------------------------------------------------------------- the skeleton text

  datatype Replacement = Replacement(span: Span, text: string, priority: nat)

  /** By start; at the same start a body before a comment, then the longer first. */
  predicate Earlier(x: Replacement, y: Replacement) {
    || x.span.start < y.span.start
    || (x.span.start == y.span.start
        && (x.priority > y.priority
            || (x.priority == y.priority && y.span.end - y.span.start <= x.span.end - x.span.start)))
  }

  lemma EarlierOrders()
    ensures TotalPreorder(Earlier)
  {}

  predicate Covers(r: Replacement, p: nat) { r.span.start <= p < r.span.end }
  predicate Covered(rs: seq<Replacement>, p: nat) { exists r :: r in rs && Covers(r, p) }

  /** Each later span is inside an earlier one or behind it. */
  predicate Nested(rs: seq<Replacement>) {
    forall i, j :: 0 <= i < j < |rs| ==> Inside(rs[j].span, rs[i].span) || rs[i].span.end <= rs[j].span.start
  }

  predicate InText(s: string, rs: seq<Replacement>) {
    forall i :: 0 <= i < |rs| ==> rs[i].span.start < rs[i].span.end <= |s|
  }

  predicate Separate(rs: seq<Replacement>) {
    forall i, j :: 0 <= i < j < |rs| ==> rs[i].span.end <= rs[j].span.start
  }

  function EndOf(rs: seq<Replacement>): nat { if rs == [] then 0 else rs[|rs| - 1].span.end }

  /** The replaced text up to the last replacement. */
  function Woven(s: string, rs: seq<Replacement>): string
    requires InText(s, rs) && Separate(rs)
  {
    if rs == [] then "" else
      var init, last := rs[..|rs| - 1], rs[|rs| - 1];
      Woven(s, init) + s[EndOf(init)..last.span.start] + last.text
  }

  /** The text with the spans of `put` replaced. */
  ghost predicate Weaves(s: string, put: seq<Replacement>, out: string) {
    InText(s, put) && Separate(put) && EndOf(put) <= |s| && out == Woven(s, put) + s[EndOf(put)..]
  }

  /** What holds after the first `i` replacements: those not yet covered were put, and cover the same. */
  ghost predicate PutSoFar(s: string, rs: seq<Replacement>, i: nat, put: seq<Replacement>) {
    && i <= |rs| && InText(s, put) && Separate(put)
    && (forall q :: q in put ==> q in rs[..i])
    && (forall r, p :: r in rs[..i] && Covers(r, p) ==> Covered(put, p))
  }

  lemma SkipStep(s: string, rs: seq<Replacement>, i: nat, put: seq<Replacement>)
    requires Nested(rs) && PutSoFar(s, rs, i, put) && i < |rs| && rs[i].span.start < EndOf(put)
    ensures PutSoFar(s, rs, i + 1, put)
  {
    var last := put[|put| - 1];
    assert last in put;
    var k :| 0 <= k < i && rs[k] == last;
    assert Inside(rs[i].span, rs[k].span);
    assert rs[..i + 1] == rs[..i] + [rs[i]];
    forall p | Covers(rs[i], p) ensures Covered(put, p) {
      assert Covers(last, p);
    }
  }

  lemma PutStep(s: string, rs: seq<Replacement>, i: nat, put: seq<Replacement>)
    requires InText(s, rs) && PutSoFar(s, rs, i, put) && i < |rs| && EndOf(put) <= rs[i].span.start
    ensures PutSoFar(s, rs, i + 1, put + [rs[i]])
    ensures Woven(s, put + [rs[i]]) == Woven(s, put) + s[EndOf(put)..rs[i].span.start] + rs[i].text
  {
    var more := put + [rs[i]];
    assert rs[..i + 1] == rs[..i] + [rs[i]];
    assert more[..|put|] == put;
    forall k | 0 <= k < |put| ensures put[k].span.end <= rs[i].span.start {
      if k < |put| - 1 { assert put[k].span.end <= put[|put| - 1].span.start; }
    }
    forall p | Covered(put, p) ensures Covered(more, p) {
      var q :| q in put && Covers(q, p);
      assert q in more;
    }
    forall p | Covers(rs[i], p) ensures Covered(more, p) {
      assert rs[i] in more;
    }
  }

  /** The replacement loop: later spans that begin inside the last replaced one are skipped. */
  method Substitute(s: string, rs: seq<Replacement>) returns (out: string)
    requires InText(s, rs) && Nested(rs)
    ensures exists put :: PutSoFar(s, rs, |rs|, put) && Weaves(s, put, out)
  {
    out := "";
    ghost var put: seq<Replacement> := [];
    var cursor := 0;
    for i := 0 to |rs|
      invariant PutSoFar(s, rs, i, put) && cursor == EndOf(put) <= |s|
      invariant out == Woven(s, put)
    {
      if rs[i].span.start < cursor {
        SkipStep(s, rs, i, put);
      } else {
        PutStep(s, rs, i, put);
        out := out + s[cursor..rs[i].span.start] + rs[i].text;
        cursor := rs[i].span.end;
        put := put + [rs[i]];
      }
    }
    out := out + s[cursor..];
    assert PutSoFar(s, rs, |rs|, put) && Weaves(s, put, out);
  }

  // ---------------------------------------------------------------- what survives

  /** The characters of the first `n` that no replacement covers. */
  function Uncovered(s: string, rs: seq<Replacement>, n: nat): string
    requires n <= |s|
  {
    if n == 0 then "" else
      Uncovered(s, rs, n - 1) + (if Covered(rs, n - 1) then "" else [s[n - 1]])
  }

  /** The replaced text with the inserted strings left out. */
  function Surviving(s: string, rs: seq<Replacement>): string
    requires InText(s, rs) && Separate(rs)
  {
    if rs == [] then "" else
      var init, last := rs[..|rs| - 1], rs[|rs| - 1];
      Surviving(s, init) + s[EndOf(init)..last.span.start]
  }

  lemma {:induction false} UncoveredRun(s: string, rs: seq<Replacement>, a: nat, b: nat)
    requires a <= b <= |s|
    ensures (forall p :: a <= p < b ==> Covered(rs, p)) ==> Uncovered(s, rs, b) == Uncovered(s, rs, a)
    ensures (forall p :: a <= p < b ==> !Covered(rs, p)) ==> Uncovered(s, rs, b) == Uncovered(s, rs, a) + s[a..b]
    decreases b - a
  {
    if a < b {
      UncoveredRun(s, rs, a, b - 1);
      assert s[a..b] == s[a..b - 1] + [s[b - 1]];
    }
  }

  lemma GapIsUncovered(s: string, rs: seq<Replacement>, k: nat, p: nat)
    requires InText(s, rs) && Separate(rs) && k <= |rs|
    requires EndOf(rs[..k]) <= p && (k < |rs| ==> p < rs[k].span.start)
    ensures !Covered(rs, p)
  {
    forall r | r in rs ensures !Covers(r, p) {
      var i :| 0 <= i < |rs| && rs[i] == r;
      if i < k {
        assert rs[..k][k - 1] == rs[k - 1];
        if i < k - 1 { assert rs[i].span.end <= rs[k - 1].span.start; }
      } else if i > k {
        assert rs[k].span.end <= rs[i].span.start;
      }
    }
  }

  /** Every character outside the replaced spans survives, once and in order. */
  lemma {:induction false} Survives(s: string, rs: seq<Replacement>, k: nat)
    requires InText(s, rs) && Separate(rs) && k <= |rs|
    ensures EndOf(rs[..k]) <= |s| && Surviving(s, rs[..k]) == Uncovered(s, rs, EndOf(rs[..k]))
  {
    if k > 0 {
      Survives(s, rs, k - 1);
      UncoveredSpan(s, rs, k - 1, EndOf(rs[..k - 1]));
      SurvivingLast(s, rs, k);
    }
  }

  lemma SurvivingLast(s: string, rs: seq<Replacement>, k: nat)
    requires InText(s, rs) && Separate(rs) && 0 < k <= |rs| && EndOf(rs[..k - 1]) <= rs[k - 1].span.start
    ensures Surviving(s, rs[..k]) == Surviving(s, rs[..k - 1]) + s[EndOf(rs[..k - 1])..rs[k - 1].span.start]
    ensures EndOf(rs[..k]) == rs[k - 1].span.end
  {
    assert rs[..k][..k - 1] == rs[..k - 1];
  }

  /** Over one replaced span: the gap before it survives, the span does not. */
  lemma UncoveredSpan(s: string, rs: seq<Replacement>, k: nat, from: nat)
    requires InText(s, rs) && Separate(rs) && k < |rs| && from == EndOf(rs[..k])
    ensures from <= rs[k].span.start < rs[k].span.end <= |s|
    ensures Uncovered(s, rs, rs[k].span.end) == Uncovered(s, rs, from) + s[from..rs[k].span.start]
  {
    var last := rs[k];
    if k > 0 { assert rs[..k][k - 1] == rs[k - 1]; }
    forall p | from <= p < last.span.start ensures !Covered(rs, p) { GapIsUncovered(s, rs, k, p); }
    UncoveredRun(s, rs, from, last.span.start);
    forall p | last.span.start <= p < last.span.end ensures Covered(rs, p) { assert last in rs && Covers(last, p); }
    UncoveredRun(s, rs, last.span.start, last.span.end);
  }

  lemma SkeletonKeepsTheRest(s: string, put: seq<Replacement>)
    requires InText(s, put) && Separate(put)
    ensures EndOf(put) <= |s| && Surviving(s, put) + s[EndOf(put)..] == Uncovered(s, put, |s|)
  {
    Survives(s, put, |put|);
    assert put[..|put|] == put;
    forall p | EndOf(put) <= p < |s| ensures !Covered(put, p) { GapIsUncovered(s, put, |put|, p); }
    UncoveredRun(s, put, EndOf(put), |s|);
    assert s[EndOf(put)..|s|] == s[EndOf(put)..];
  }

  // ---------------------------------------------------------------- comments and bodies together

  /** A comment lies between two tokens, so it is inside a body or apart from it. */
  lemma CommentOrBody(tokens: seq<Token>, s: string, comments: seq<Span>, pairs: Pairs, m: Span, o: nat)
    requires Ordered(tokens, s) && Apart(comments, tokens) && m in comments && m.start < m.end
    requires Paired(MarksOf(tokens), pairs) && BodyBrace(MarksOf(tokens), pairs, o)
    ensures var b := Body(tokens, pairs, o); Inside(m, b) || m.end <= b.start || b.end <= m.start
  {
    var j :| 0 <= j < |comments| && comments[j] == m;
    OpenIsForward(MarksOf(tokens), pairs, o);
    var c := pairs[o];
    OrderedBy(tokens, s, o - 1, c);
    assert tokens[o - 1].end <= m.start || m.end <= tokens[o - 1].start;
    assert tokens[c].end <= m.start || m.end <= tokens[c].start;
  }

  function CommentText(s: string, m: Span): string { if At(s, "/*", m.start) then " " else "" }

  /** What a comment kept apart stays apart: a blank stands for a block, and a line's end stays where it is. */
  lemma CommentsKeepApart(s: string, c: Classes, p: Piece)
    requires IsNext(s, c, p) && p.sort.Comment?
    ensures CommentText(s, Span(p.start, p.end)) == " "
      || (CommentText(s, Span(p.start, p.end)) == "" && (p.end == |s| || s[p.end] == '\n'))
  {
    if At(s, "//", p.start) { assert s[p.start..p.start + 2][1] == s[p.start + 1]; }
  }

  predicate IsComment(s: string, comments: seq<Span>, r: Replacement) {
    r.span in comments && r == Replacement(r.span, CommentText(s, r.span), 0)
  }

  predicate IsBody(bodies: seq<Span>, r: Replacement) {
    r.span in bodies && r == Replacement(r.span, ";", 1)
  }

  /** Comments and kept bodies, as `source_skeleton` meets them. */
  ghost predicate Consistent(s: string, comments: seq<Span>, bodies: seq<Span>) {
    && (forall m :: m in comments ==> m.start < m.end <= |s|)
    && (forall b :: b in bodies ==> b.start < b.end <= |s|)
    && (forall i, j :: 0 <= i < j < |comments| ==> comments[i].end <= comments[j].start)
    && Disjoint(bodies)
    && (forall m, b :: m in comments && b in bodies ==> Inside(m, b) || m.end <= b.start || b.end <= m.start)
  }

  lemma SortedAreNested(s: string, comments: seq<Span>, bodies: seq<Span>, rs: seq<Replacement>)
    requires Consistent(s, comments, bodies) && SortedBy(Earlier, rs)
    requires forall r :: r in rs ==> IsComment(s, comments, r) || IsBody(bodies, r)
    ensures Nested(rs) && InText(s, rs)
  {
    forall i | 0 <= i < |rs| ensures rs[i].span.start < rs[i].span.end <= |s| { assert rs[i] in rs; }
    forall i, j | 0 <= i < j < |rs|
      ensures Inside(rs[j].span, rs[i].span) || rs[i].span.end <= rs[j].span.start
    {
      assert rs[i] in rs && rs[j] in rs && Earlier(rs[i], rs[j]);
      PairNested(s, comments, bodies, rs[i], rs[j]);
    }
  }

  lemma PairNested(s: string, comments: seq<Span>, bodies: seq<Span>, x: Replacement, y: Replacement)
    requires Consistent(s, comments, bodies) && Earlier(x, y)
    requires (IsComment(s, comments, x) || IsBody(bodies, x)) && (IsComment(s, comments, y) || IsBody(bodies, y))
    ensures Inside(y.span, x.span) || x.span.end <= y.span.start
  {
    if IsComment(s, comments, x) && IsComment(s, comments, y) {
      var i, j :| 0 <= i < |comments| && comments[i] == x.span && 0 <= j < |comments| && comments[j] == y.span;
    } else if IsBody(bodies, x) && IsBody(bodies, y) {
      var i, j :| 0 <= i < |bodies| && bodies[i] == x.span && 0 <= j < |bodies| && bodies[j] == y.span;
    } else if IsComment(s, comments, x) {
      assert x.span in comments && y.span in bodies;
    } else {
      assert y.span in comments && x.span in bodies;
    }
  }

  /** Exactly the comments and bodies are replaced, and what is not replaced survives once and in order. */
  ghost predicate Keeps(s: string, comments: seq<Span>, bodies: seq<Span>, put: seq<Replacement>, out: string) {
    && Weaves(s, put, out)
    && Surviving(s, put) + s[EndOf(put)..] == Uncovered(s, put, |s|)
    && (forall p: nat :: p < |s| ==>
      (Covered(put, p) <==> exists m :: (m in comments || m in bodies) && m.start <= p < m.end))
    && (forall q :: q in put ==> IsComment(s, comments, q) || IsBody(bodies, q))
  }

  /**
   `source_skeleton` before its white-space clean-up: comments and kept bodies
   are replaced, and every other character survives once and in order.
   */
  method SourceSkeleton(s: string, comments: seq<Span>, bodies: seq<Span>) returns (out: string)
    requires Consistent(s, comments, bodies)
    ensures exists put :: Keeps(s, comments, bodies, put, out)
  {
    var rs: seq<Replacement> := [];
    for i := 0 to |comments|
      invariant forall r :: r in rs ==> IsComment(s, comments, r)
      invariant forall k :: 0 <= k < i ==> Replacement(comments[k], CommentText(s, comments[k]), 0) in rs
    {
      rs := rs + [Replacement(comments[i], CommentText(s, comments[i]), 0)];
    }
    for i := 0 to |bodies|
      invariant forall r :: r in rs ==> IsComment(s, comments, r) || IsBody(bodies, r)
      invariant forall k :: 0 <= k < |comments| ==> Replacement(comments[k], CommentText(s, comments[k]), 0) in rs
      invariant forall k :: 0 <= k < i ==> Replacement(bodies[k], ";", 1) in rs
    {
      rs := rs + [Replacement(bodies[i], ";", 1)];
    }
    EarlierOrders();
    SortSorts(Earlier, rs);
    var sorted := Sort(Earlier, rs);
    SortedAreNested(s, comments, bodies, sorted);
    out := Substitute(s, sorted);
    ghost var put :| PutSoFar(s, sorted, |sorted|, put) && Weaves(s, put, out);
    SkeletonKeepsTheRest(s, put);
    assert sorted[..|sorted|] == sorted;
    CoveredExactly(s, comments, bodies, sorted, put);
    assert Keeps(s, comments, bodies, put, out);
  }

  lemma CoveredExactly(s: string, comments: seq<Span>, bodies: seq<Span>, rs: seq<Replacement>, put: seq<Replacement>)
    requires forall q :: q in put ==> IsComment(s, comments, q) || IsBody(bodies, q)
    requires forall k :: 0 <= k < |comments| ==> Replacement(comments[k], CommentText(s, comments[k]), 0) in rs
    requires forall k :: 0 <= k < |bodies| ==> Replacement(bodies[k], ";", 1) in rs
    requires forall r, p :: r in rs && Covers(r, p) ==> Covered(put, p)
    ensures forall p: nat :: Covered(put, p) <==> exists m :: (m in comments || m in bodies) && m.start <= p < m.end
  {
    forall p: nat ensures Covered(put, p) <==> exists m :: (m in comments || m in bodies) && m.start <= p < m.end {
      if Covered(put, p) {
        var q :| q in put && Covers(q, p);
        assert q.span.start <= p < q.span.end;
      }
      if m :| (m in comments || m in bodies) && m.start <= p < m.end {
        if m in comments {
          var k :| 0 <= k < |comments| && comments[k] == m;
          assert Covers(Replacement(comments[k], CommentText(s, comments[k]), 0), p);
        } else {
          var k :| 0 <= k < |bodies| && bodies[k] == m;
          assert Covers(Replacement(bodies[k], ";", 1), p);
        }
      }
    }
  }

  /** What the lexer and the body finder hand over is consistent. */
  lemma LexedIsConsistent(s: string, tokens: seq<Token>, comments: seq<Span>, pairs: Pairs, bodies: seq<Span>)
    requires Ordered(tokens, s) && Apart(comments, tokens) && Paired(MarksOf(tokens), pairs)
    requires Bounded(comments, s) && Disjoint(bodies)
    requires forall b :: b in bodies ==> exists o :: BodyBrace(MarksOf(tokens), pairs, o) && b == Body(tokens, pairs, o)
    ensures Consistent(s, comments, bodies)
  {
    forall b | b in bodies ensures b.start < b.end <= |s| {
      var o :| BodyBrace(MarksOf(tokens), pairs, o) && b == Body(tokens, pairs, o);
      BodiesLaminar(tokens, s, pairs, o, o);
      OrderedBy(tokens, s, pairs[o], pairs[o]);
    }
    forall m, b | m in comments && b in bodies ensures Inside(m, b) || m.end <= b.start || b.end <= m.start {
      var o :| BodyBrace(MarksOf(tokens), pairs, o) && b == Body(tokens, pairs, o);
      CommentOrBody(tokens, s, comments, pairs, m, o);
    }
  }

  /** The bodies of exactly the functions, reduced to disjoint ones that contain every other. */
  ghost predicate KeptFrom(tokens: seq<Token>, pairs: Pairs, braces: seq<nat>, kept: seq<Span>) {
    && Paired(MarksOf(tokens), pairs)
    && FoundUpTo(tokens, pairs, |tokens|, braces) && Disjoint(kept)
    && (forall o :: o in braces ==> BodyBrace(MarksOf(tokens), pairs, o) && Contained(Body(tokens, pairs, o), kept))
    && (forall y :: y in kept ==> exists o :: o in braces && y == Body(tokens, pairs, o))
  }

  /** From the text of a file to its skeleton: lexer, pairs, bodies and replacement together. */
  method SkeletonOf(s: string, c: Classes)
    returns (out: string, ghost pieces: seq<Piece>, ghost pairs: Pairs, ghost braces: seq<nat>, ghost kept: seq<Span>)
    ensures Lexed(s, c, pieces, |s|) && InSource(s, pieces) && KeptFrom(TokensOf(s, pieces), pairs, braces, kept)
    ensures exists put :: Keeps(s, CommentsOf(pieces), kept, put, out)
  {
    var tokens, comments, warnings, read := LexRust(s, c);
    var mates, unpaired := DelimiterPairs(tokens);
    var bodies, items, found := FunctionItems(tokens, s, mates);
    KeptAreBodies(tokens, mates, bodies, found);
    LexedIsConsistent(s, tokens, comments, mates, bodies);
    out := SourceSkeleton(s, comments, bodies);
    pieces, pairs, braces, kept := read, mates, found, bodies;
  }

  lemma KeptAreBodies(tokens: seq<Token>, pairs: Pairs, kept: seq<Span>, braces: seq<nat>)
    requires Paired(MarksOf(tokens), pairs)
    requires forall y :: y in kept ==> exists o ::
      o in braces && BodyBrace(MarksOf(tokens), pairs, o) && y == Body(tokens, pairs, o)
    ensures forall b :: b in kept ==> exists o :: BodyBrace(MarksOf(tokens), pairs, o) && b == Body(tokens, pairs, o)
  {}
}
