/**
 Bracket matching over lexed tokens. The pairing is checked against its own
 requirements, and the warnings against a grammar of balanced words.
 */
module Delimiters {
  import opened Wrappers
  import opened RustLexer

  datatype Shape = Round | Square | Curly

  datatype Mark = Open(shape: Shape) | Close(shape: Shape)

  /** The bracket a token is, if it is one; brackets inside literals are not. */
  function MarkOf(t: Token): Option<Mark> {
    if t.kind != Punct then None
    else if t.text == "(" then Some(Open(Round))
    else if t.text == "[" then Some(Open(Square))
    else if t.text == "{" then Some(Open(Curly))
    else if t.text == ")" then Some(Close(Round))
    else if t.text == "]" then Some(Close(Square))
    else if t.text == "}" then Some(Close(Curly))
    else None
  }

  type Marks = seq<Option<Mark>>

  function MarksOf(tokens: seq<Token>): (ms: Marks)
    ensures |ms| == |tokens| && forall i :: 0 <= i < |tokens| ==> ms[i] == MarkOf(tokens[i])
  {
    seq(|tokens|, i requires 0 <= i < |tokens| => MarkOf(tokens[i]))
  }

  /** The brackets of the language, each with its partner. */
  const BRACKETS: seq<(string, string)> := [("(", ")"), ("[", "]"), ("{", "}")]

  /** Punctuation is marked as a bracket exactly if it is one of these. */
  lemma MarkExact(t: Token)
    ensures IsOpen(MarkOf(t)) <==> t.kind == Punct && exists b :: b in BRACKETS && b.0 == t.text
    ensures IsClose(MarkOf(t)) <==> t.kind == Punct && exists b :: b in BRACKETS && b.1 == t.text
  {
    assert BRACKETS[0] == ("(", ")") && BRACKETS[1] == ("[", "]") && BRACKETS[2] == ("{", "}");
    assert forall x: string :: |x| == 1 ==> x == [x[0]];
    assert "(" == ['('] && ")" == [')'] && "[" == ['['] && "]" == [']'] && "{" == ['{'] && "}" == ['}'];
  }

  /** Two marks fit exactly if their tokens are an opening bracket and its partner. */
  lemma FitExact(t: Token, u: Token)
    ensures Fit(MarkOf(t), MarkOf(u)) <==> t.kind == Punct && u.kind == Punct && (t.text, u.text) in BRACKETS
  {
    assert BRACKETS[0] == ("(", ")") && BRACKETS[1] == ("[", "]") && BRACKETS[2] == ("{", "}");
    assert "(" == ['('] && ")" == [')'] && "[" == ['['] && "]" == [']'] && "{" == ['{'] && "}" == ['}'];
  }

  predicate IsOpen(m: Option<Mark>) { m.Some? && m.value.Open? }
  predicate IsClose(m: Option<Mark>) { m.Some? && m.value.Close? }
  predicate Fit(m: Option<Mark>, n: Option<Mark>) { IsOpen(m) && IsClose(n) && m.value.shape == n.value.shape }

  type Pairs = map<nat, nat>

  predicate Mate(pairs: Pairs, i: nat, j: nat) { i in pairs && pairs[i] == j }

  ghost predicate Involution(n: nat, pairs: Pairs) {
    forall i: nat, j: nat :: Mate(pairs, i, j) ==> i < n && i != j && Mate(pairs, j, i)
  }

  ghost predicate JoinsFitting(ms: Marks, pairs: Pairs) {
    forall i: nat, j: nat :: Mate(pairs, i, j) && i < j ==> j < |ms| && Fit(ms[i], ms[j])
  }

  ghost predicate NeverCrosses(pairs: Pairs) {
    forall i: nat, j: nat, k: nat, l: nat :: Mate(pairs, i, j) && Mate(pairs, k, l) && i < k < j ==> i < l < j
  }

  /** A pairing: an involution without fixed points that joins matching brackets and never crosses. */
  ghost predicate Paired(ms: Marks, pairs: Pairs) {
    Involution(|ms|, pairs) && JoinsFitting(ms, pairs) && NeverCrosses(pairs)
  }

  // ---------------------------------------------------------------- balanced words

  /** A balanced word, as a tree: a bracket pair around one, followed by another. */
  datatype Forest = Empty | Node(shape: Shape, inner: Forest, rest: Forest)

  function Word(f: Forest): seq<Mark> {
    match f
    case Empty => []
    case Node(s, inner, rest) => [Open(s)] + Word(inner) + [Close(s)] + Word(rest)
  }

  ghost predicate Balanced(w: seq<Mark>) { exists f: Forest :: Word(f) == w }

  /** The brackets alone, in order. */
  function Brackets(ms: Marks): seq<Mark> {
    if ms == [] then [] else (if ms[0].Some? then [ms[0].value] else []) + Brackets(ms[1..])
  }

  /** The stack machine: what stays open after a word, and how many closers found no partner. */
  function Reduce(stack: seq<Shape>, w: seq<Mark>): (r: (seq<Shape>, nat))
    decreases |w|
  {
    if w == [] then (stack, 0)
    else if w[0].Open? then Reduce(stack + [w[0].shape], w[1..])
    else if stack != [] && stack[|stack| - 1] == w[0].shape then Reduce(stack[..|stack| - 1], w[1..])
    else var r := Reduce(stack, w[1..]); (r.0, r.1 + 1)
  }

  predicate Clean(stack: seq<Shape>, w: seq<Mark>) { Reduce(stack, w) == ([], 0) }

  lemma PushStep(stack: seq<Shape>, s: Shape, w: seq<Mark>)
    ensures Reduce(stack, [Open(s)] + w) == Reduce(stack + [s], w)
  {
    assert ([Open(s)] + w)[1..] == w;
  }

  lemma PopStep(stack: seq<Shape>, s: Shape, w: seq<Mark>)
    ensures Reduce(stack + [s], [Close(s)] + w) == Reduce(stack, w)
  {
    assert ([Close(s)] + w)[1..] == w;
    assert (stack + [s])[..|stack|] == stack;
  }

  lemma Regroup(a: seq<Mark>, b: seq<Mark>, c: seq<Mark>, d: seq<Mark>, e: seq<Mark>)
    ensures (a + b + c + d) + e == a + (b + (c + (d + e)))
  {}

  lemma {:induction false} WordReduces(stack: seq<Shape>, f: Forest, w: seq<Mark>)
    ensures Reduce(stack, Word(f) + w) == Reduce(stack, w)
    decreases f
  {
    if f.Empty? {
      assert Word(f) + w == w;
    } else {
      var after := Word(f.rest) + w;
      calc {
        Reduce(stack, Word(f) + w);
        { Regroup([Open(f.shape)], Word(f.inner), [Close(f.shape)], Word(f.rest), w); }
        Reduce(stack, [Open(f.shape)] + (Word(f.inner) + ([Close(f.shape)] + after)));
        { PushStep(stack, f.shape, Word(f.inner) + ([Close(f.shape)] + after)); }
        Reduce(stack + [f.shape], Word(f.inner) + ([Close(f.shape)] + after));
        { WordReduces(stack + [f.shape], f.inner, [Close(f.shape)] + after); }
        Reduce(stack + [f.shape], [Close(f.shape)] + after);
        { PopStep(stack, f.shape, after); }
        Reduce(stack, after);
        { WordReduces(stack, f.rest, w); }
        Reduce(stack, w);
      }
    }
  }

  /** A word that closes an open stack: balanced parts with the owed closers between them. */
  function Closing(stack: seq<Shape>, parts: seq<Forest>): seq<Mark>
    requires |parts| == |stack| + 1
    decreases |stack|
  {
    if stack == [] then Word(parts[0])
    else Word(parts[0]) + [Close(stack[|stack| - 1])] + Closing(stack[..|stack| - 1], parts[1..])
  }

  lemma {:induction false} CleanIsClosing(stack: seq<Shape>, w: seq<Mark>) returns (parts: seq<Forest>)
    requires Clean(stack, w)
    ensures |parts| == |stack| + 1 && w == Closing(stack, parts)
    decreases |w|
  {
    if w == [] {
      parts := [Empty];
    } else if w[0].Open? {
      var s := w[0].shape;
      var pushed := stack + [s];
      var ps := CleanIsClosing(pushed, w[1..]);
      parts := [Node(s, ps[0], ps[1])] + ps[2..];
      OpenStep(stack, s, ps, parts);
      assert w == [w[0]] + w[1..];
    } else {
      ErrorFree(stack, w);
      var popped := stack[..|stack| - 1];
      var ps := CleanIsClosing(popped, w[1..]);
      parts := [Empty] + ps;
      assert parts[1..] == ps;
      assert w == [w[0]] + w[1..];
      assert Closing(stack, parts) == [] + [w[0]] + Closing(popped, ps);
    }
  }

  /** Without errors a closer finds its partner on the stack. */
  lemma ErrorFree(stack: seq<Shape>, w: seq<Mark>)
    requires Clean(stack, w) && w != [] && w[0].Close?
    ensures stack != [] && stack[|stack| - 1] == w[0].shape && Clean(stack[..|stack| - 1], w[1..])
  {}

  /** What is owed after the first balanced part. */
  function Owed(stack: seq<Shape>, parts: seq<Forest>): seq<Mark>
    requires |parts| == |stack|
  {
    if stack == [] then [] else [Close(stack[|stack| - 1])] + Closing(stack[..|stack| - 1], parts)
  }

  lemma ClosingOwed(stack: seq<Shape>, parts: seq<Forest>)
    requires |parts| == |stack| + 1
    ensures Closing(stack, parts) == Word(parts[0]) + Owed(stack, parts[1..])
  {}

  lemma OpenStep(stack: seq<Shape>, s: Shape, ps: seq<Forest>, parts: seq<Forest>)
    requires |ps| == |stack| + 2 && parts == [Node(s, ps[0], ps[1])] + ps[2..]
    ensures |parts| == |stack| + 1 && [Open(s)] + Closing(stack + [s], ps) == Closing(stack, parts)
  {
    var owed := Owed(stack, ps[2..]);
    calc {
      [Open(s)] + Closing(stack + [s], ps);
      { ClosingOwed(stack + [s], ps); }
      [Open(s)] + (Word(ps[0]) + Owed(stack + [s], ps[1..]));
      { assert (stack + [s])[..|stack|] == stack; }
      [Open(s)] + (Word(ps[0]) + ([Close(s)] + Closing(stack, ps[1..])));
      { ClosingOwed(stack, ps[1..]); assert ps[1..][1..] == ps[2..]; }
      [Open(s)] + (Word(ps[0]) + ([Close(s)] + (Word(ps[1]) + owed)));
      { Regroup([Open(s)], Word(ps[0]), [Close(s)], Word(ps[1]), owed); }
      Word(parts[0]) + owed;
      { assert parts[1..] == ps[2..]; ClosingOwed(stack, parts); }
      Closing(stack, parts);
    }
  }

  /** The stack machine accepts exactly the balanced words. */
  lemma CleanExact(w: seq<Mark>)
    ensures Clean([], w) <==> Balanced(w)
  {
    if Clean([], w) {
      var parts := CleanIsClosing([], w);
      assert Word(parts[0]) == w;
    }
    if Balanced(w) {
      var f: Forest :| Word(f) == w;
      WordReduces([], f, []);
      assert Word(f) + [] == w;
    }
  }

  // ---------------------------------------------------------------- the code

  function ShapesAt(ms: Marks, stack: seq<nat>): (r: seq<Shape>)
    requires forall k :: 0 <= k < |stack| ==> stack[k] < |ms| && ms[stack[k]].Some?
    ensures |r| == |stack| && forall k :: 0 <= k < |stack| ==> r[k] == ms[stack[k]].value.shape
  {
    if stack == [] then [] else
      ShapesAt(ms, stack[..|stack| - 1]) + [ms[stack[|stack| - 1]].value.shape]
  }

  ghost predicate StackOpen(ms: Marks, i: nat, stack: seq<nat>) {
    && i <= |ms|
    && (forall k :: 0 <= k < |stack| ==> stack[k] < i && IsOpen(ms[stack[k]]))
    && (forall k, l :: 0 <= k < l < |stack| ==> stack[k] < stack[l])
  }

  /** Open brackets are unpaired and never inside a finished pair. */
  ghost predicate StackFree(i: nat, pairs: Pairs, stack: seq<nat>) {
    && (forall a :: a in pairs ==> a < i)
    && (forall k :: 0 <= k < |stack| ==> stack[k] !in pairs)
    && (forall a: nat, b: nat, k :: Mate(pairs, a, b) && a < b && 0 <= k < |stack| ==> stack[k] < a || b < stack[k])
  }

  /** Every bracket before `i` is paired, or reported, or still open. */
  ghost predicate Settled(ms: Marks, i: nat, pairs: Pairs, stack: seq<nat>, unmatched: seq<nat>) {
    && i <= |ms|
    && (forall k :: 0 <= k < i ==> (ms[k].Some? <==> k in pairs || k in stack || k in unmatched))
    && (forall k :: k in unmatched ==> k < i && k !in pairs)
  }

  lemma ClosePair(ms: Marks, i: nat, pairs: Pairs, stack: seq<nat>, o: nat, more: Pairs, rest: seq<nat>)
    requires Paired(ms, pairs) && StackOpen(ms, i, stack) && StackFree(i, pairs, stack) && i < |ms|
    requires stack != [] && o == stack[|stack| - 1] && Fit(ms[o], ms[i])
    requires more == pairs[o := i][i := o] && rest == stack[..|stack| - 1]
    ensures Paired(ms, more) && StackFree(i + 1, more, rest)
  {
    CloseJoins(ms, i, pairs, o, more);
    CloseCrosses(i, pairs, stack, o, more);
    CloseFrees(i, pairs, stack, o, more, rest);
  }

  lemma MoreMates(i: nat, pairs: Pairs, o: nat, more: Pairs)
    requires o != i && o !in pairs && i !in pairs && more == pairs[o := i][i := o]
    ensures forall a: nat, b: nat :: Mate(more, a, b) <==> Mate(pairs, a, b) || (a == o && b == i) || (a == i && b == o)
  {}

  lemma CloseJoins(ms: Marks, i: nat, pairs: Pairs, o: nat, more: Pairs)
    requires Involution(|ms|, pairs) && JoinsFitting(ms, pairs) && o < i < |ms| && Fit(ms[o], ms[i])
    requires o !in pairs && i !in pairs && more == pairs[o := i][i := o]
    ensures Involution(|ms|, more) && JoinsFitting(ms, more)
  {
    MoreMates(i, pairs, o, more);
  }

  lemma CloseCrosses(i: nat, pairs: Pairs, stack: seq<nat>, o: nat, more: Pairs)
    requires NeverCrosses(pairs) && StackFree(i, pairs, stack) && o < i
    requires stack != [] && o == stack[|stack| - 1] && more == pairs[o := i][i := o]
    requires forall a: nat, b: nat :: Mate(pairs, a, b) ==> Mate(pairs, b, a)
    ensures NeverCrosses(more)
  {
    MoreMates(i, pairs, o, more);
  }

  lemma CloseFrees(i: nat, pairs: Pairs, stack: seq<nat>, o: nat, more: Pairs, rest: seq<nat>)
    requires StackFree(i, pairs, stack) && o < i && (forall k, l :: 0 <= k < l < |stack| ==> stack[k] < stack[l])
    requires forall k :: 0 <= k < |stack| ==> stack[k] < i
    requires stack != [] && o == stack[|stack| - 1] && more == pairs[o := i][i := o] && rest == stack[..|stack| - 1]
    ensures StackFree(i + 1, more, rest)
  {
    MoreMates(i, pairs, o, more);
  }

  lemma SettlePair(ms: Marks, i: nat, pairs: Pairs, stack: seq<nat>, unmatched: seq<nat>, o: nat, more: Pairs,
      rest: seq<nat>)
    requires Settled(ms, i, pairs, stack, unmatched) && i < |ms| && ms[i].Some? && StackOpen(ms, i, stack)
    requires stack != [] && o == stack[|stack| - 1] && o !in unmatched
    requires more == pairs[o := i][i := o] && rest == stack[..|stack| - 1]
    ensures Settled(ms, i + 1, more, rest, unmatched)
  {
    Popped(stack, o, rest);
    forall k | 0 <= k < i + 1
      ensures ms[k].Some? <==> k in more || k in rest || k in unmatched
    {
      assert k in more <==> k in pairs || k == o || k == i;
    }
  }

  lemma Popped(stack: seq<nat>, o: nat, rest: seq<nat>)
    requires stack != [] && o == stack[|stack| - 1] && rest == stack[..|stack| - 1]
    ensures forall k :: k in stack <==> k in rest || k == o
  {
    assert stack == rest + [o];
  }

  /** What the stack machine makes of the rest, told from what it made of the start. */
  ghost predicate Tracks(ms: Marks, i: nat, shapes: seq<Shape>, errors: nat)
    requires i <= |ms|
  {
    forall e: nat {:trigger Told(e)} :: e == errors ==>
      var all, rest := Reduce([], Brackets(ms)), Reduce(shapes, Brackets(ms[i..]));
      all.0 == rest.0 && all.1 == rest.1 + e
  }

  /** Marks the counts that `Tracks` is used at. */
  ghost predicate Told(errors: nat) { true }

  lemma BracketsStep(ms: Marks, i: nat)
    requires i < |ms|
    ensures Brackets(ms[i..]) == if ms[i].Some? then [ms[i].value] + Brackets(ms[i + 1..]) else Brackets(ms[i + 1..])
  {
    assert ms[i..][0] == ms[i] && ms[i..][1..] == ms[i + 1..];
  }

  lemma TrackStep(ms: Marks, i: nat, shapes: seq<Shape>, errors: nat)
    requires i < |ms| && Tracks(ms, i, shapes, errors)
    ensures ms[i].None? ==> Tracks(ms, i + 1, shapes, errors)
    ensures IsOpen(ms[i]) ==> Tracks(ms, i + 1, shapes + [ms[i].value.shape], errors)
    ensures IsClose(ms[i]) ==>
      if shapes != [] && shapes[|shapes| - 1] == ms[i].value.shape
      then Tracks(ms, i + 1, shapes[..|shapes| - 1], errors)
      else Tracks(ms, i + 1, shapes, errors + 1)
  {
    BracketsStep(ms, i);
    assert Told(errors);
    if ms[i].Some? {
      assert ([ms[i].value] + Brackets(ms[i + 1..]))[1..] == Brackets(ms[i + 1..]);
    }
  }

  /** What holds before the `i`-th token is looked at. */
  ghost predicate Going(ms: Marks, i: nat, pairs: Pairs, stack: seq<nat>, unmatched: seq<nat>) {
    && Paired(ms, pairs) && StackOpen(ms, i, stack) && StackFree(i, pairs, stack)
    && Settled(ms, i, pairs, stack, unmatched)
    && (forall k :: 0 <= k < |stack| ==> stack[k] !in unmatched)
    && Tracks(ms, i, ShapesAt(ms, stack), |unmatched|)
  }

  lemma Pass(ms: Marks, i: nat, pairs: Pairs, stack: seq<nat>, unmatched: seq<nat>)
    requires Going(ms, i, pairs, stack, unmatched) && i < |ms| && ms[i].None?
    ensures Going(ms, i + 1, pairs, stack, unmatched)
  {
    TrackStep(ms, i, ShapesAt(ms, stack), |unmatched|);
  }

  lemma PushOpen(ms: Marks, i: nat, pairs: Pairs, stack: seq<nat>, unmatched: seq<nat>)
    requires Going(ms, i, pairs, stack, unmatched) && i < |ms| && IsOpen(ms[i])
    ensures Going(ms, i + 1, pairs, stack + [i], unmatched)
  {
    var pushed := stack + [i];
    PushTracks(ms, i, stack, |unmatched|, pushed);
    PushFree(|ms|, i, pairs, stack, pushed);
    assert forall k :: k in pushed <==> k in stack || k == i;
  }

  lemma PushTracks(ms: Marks, i: nat, stack: seq<nat>, errors: nat, pushed: seq<nat>)
    requires StackOpen(ms, i, stack) && i < |ms| && IsOpen(ms[i]) && Tracks(ms, i, ShapesAt(ms, stack), errors)
    requires pushed == stack + [i]
    ensures StackOpen(ms, i + 1, pushed) && Tracks(ms, i + 1, ShapesAt(ms, pushed), errors)
  {
    TrackStep(ms, i, ShapesAt(ms, stack), errors);
    ShapesPushed(ms, i, stack, pushed);
    OpenPushed(ms, i, stack, pushed);
  }

  lemma OpenPushed(ms: Marks, i: nat, stack: seq<nat>, pushed: seq<nat>)
    requires StackOpen(ms, i, stack) && i < |ms| && IsOpen(ms[i]) && pushed == stack + [i]
    ensures StackOpen(ms, i + 1, pushed)
  {}

  lemma ShapesPushed(ms: Marks, i: nat, stack: seq<nat>, pushed: seq<nat>)
    requires forall k :: 0 <= k < |stack| ==> stack[k] < |ms| && ms[stack[k]].Some?
    requires i < |ms| && ms[i].Some? && pushed == stack + [i]
    ensures forall k :: 0 <= k < |pushed| ==> pushed[k] < |ms| && ms[pushed[k]].Some?
    ensures ShapesAt(ms, pushed) == ShapesAt(ms, stack) + [ms[i].value.shape]
  {
    assert pushed[..|pushed| - 1] == stack;
  }

  lemma PushFree(n: nat, i: nat, pairs: Pairs, stack: seq<nat>, pushed: seq<nat>)
    requires Involution(n, pairs) && StackFree(i, pairs, stack) && pushed == stack + [i]
    ensures StackFree(i + 1, pairs, pushed)
  {
    assert forall a: nat, b: nat :: Mate(pairs, a, b) ==> b in pairs;
  }

  lemma Report(ms: Marks, i: nat, pairs: Pairs, stack: seq<nat>, unmatched: seq<nat>)
    requires Going(ms, i, pairs, stack, unmatched) && i < |ms| && IsClose(ms[i])
    requires stack == [] || ms[stack[|stack| - 1]].value.shape != ms[i].value.shape
    ensures Going(ms, i + 1, pairs, stack, unmatched + [i])
  {
    TrackStep(ms, i, ShapesAt(ms, stack), |unmatched|);
    assert forall k :: k in unmatched + [i] <==> k in unmatched || k == i;
  }

  lemma PopClose(ms: Marks, i: nat, pairs: Pairs, stack: seq<nat>, unmatched: seq<nat>, o: nat, more: Pairs,
      rest: seq<nat>)
    requires Going(ms, i, pairs, stack, unmatched) && i < |ms| && IsClose(ms[i])
    requires stack != [] && o == stack[|stack| - 1] && ms[o].value.shape == ms[i].value.shape
    requires more == pairs[o := i][i := o] && rest == stack[..|stack| - 1]
    ensures Going(ms, i + 1, more, rest, unmatched)
  {
    PopTracks(ms, i, stack, |unmatched|, rest);
    ClosePair(ms, i, pairs, stack, o, more, rest);
    SettlePair(ms, i, pairs, stack, unmatched, o, more, rest);
  }

  lemma PopTracks(ms: Marks, i: nat, stack: seq<nat>, errors: nat, rest: seq<nat>)
    requires StackOpen(ms, i, stack) && i < |ms| && IsClose(ms[i]) && Tracks(ms, i, ShapesAt(ms, stack), errors)
    requires stack != [] && ms[stack[|stack| - 1]].value.shape == ms[i].value.shape && rest == stack[..|stack| - 1]
    ensures StackOpen(ms, i + 1, rest) && Tracks(ms, i + 1, ShapesAt(ms, rest), errors)
  {
    TrackStep(ms, i, ShapesAt(ms, stack), errors);
    ShapesPopped(ms, stack, rest);
  }

  lemma ShapesPopped(ms: Marks, stack: seq<nat>, rest: seq<nat>)
    requires forall k :: 0 <= k < |stack| ==> stack[k] < |ms| && ms[stack[k]].Some?
    requires stack != [] && rest == stack[..|stack| - 1]
    ensures ShapesAt(ms, rest) == ShapesAt(ms, stack)[..|stack| - 1]
  {}

  lemma Finish(ms: Marks, pairs: Pairs, stack: seq<nat>, unmatched: seq<nat>)
    requires Going(ms, |ms|, pairs, stack, unmatched)
    ensures unmatched + stack == [] <==> Balanced(Brackets(ms))
    ensures forall k :: 0 <= k < |ms| ==> (ms[k].Some? <==> k in pairs || k in unmatched + stack)
    ensures forall k :: k in unmatched + stack ==> k !in pairs
  {
    assert ms[|ms|..] == [] && Told(|unmatched|);
    CleanExact(Brackets(ms));
  }

  /** A closer whose kind is on top of the stack takes it off; any other is reported. */
  method CloseBracket(ms: Marks, i: nat, pairs: Pairs, stack: seq<nat>, unmatched: seq<nat>)
    returns (more: Pairs, rest: seq<nat>, reported: seq<nat>)
    requires Going(ms, i, pairs, stack, unmatched) && i < |ms| && IsClose(ms[i])
    ensures Going(ms, i + 1, more, rest, reported)
  {
    if stack != [] && ms[stack[|stack| - 1]].value.shape == ms[i].value.shape {
      var open := stack[|stack| - 1];
      more, rest, reported := pairs[open := i][i := open], stack[..|stack| - 1], unmatched;
      PopClose(ms, i, pairs, stack, unmatched, open, more, rest);
    } else {
      Report(ms, i, pairs, stack, unmatched);
      more, rest, reported := pairs, stack, unmatched + [i];
    }
  }

  lemma Begin(ms: Marks)
    ensures Going(ms, 0, map[], [], [])
  {
    assert ms[0..] == ms;
  }

  /** `delimiter_pairs`: one stack, one dictionary changed in place, and the brackets left without a partner. */
  method DelimiterPairs(tokens: seq<Token>) returns (pairs: Pairs, warnings: seq<nat>)
    ensures Paired(MarksOf(tokens), pairs)
    ensures warnings == [] <==> Balanced(Brackets(MarksOf(tokens)))
    ensures forall k :: 0 <= k < |tokens| ==> (MarksOf(tokens)[k].Some? <==> k in pairs || k in warnings)
    ensures forall k :: k in warnings ==> k !in pairs
  {
    pairs := map[];
    var unmatched: seq<nat> := [];
    var stack: seq<nat> := [];
    var ms := MarksOf(tokens);
    Begin(ms);
    for i := 0 to |tokens|
      invariant Going(ms, i, pairs, stack, unmatched)
    {
      if ms[i].None? {
        Pass(ms, i, pairs, stack, unmatched);
      } else if ms[i].value.Open? {
        PushOpen(ms, i, pairs, stack, unmatched);
        stack := stack + [i];
      } else {
        pairs, stack, unmatched := CloseBracket(ms, i, pairs, stack, unmatched);
      }
    }
    Finish(ms, pairs, stack, unmatched);
    warnings := unmatched + stack;
  }
}
