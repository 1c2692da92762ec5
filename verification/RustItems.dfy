/**
 The inventory of top-level items: how deep every token is, where an item ends,
 and the spans that tile the file. Items start and end at the top level, so no
 bracket pair is ever cut.
 */
module RustItems {
  import opened Wrappers
  import opened RustLexer
  import opened Delimiters
  import opened Decimal

  // ---------------------------------------------------------------- depths

  /** `_depths`: brackets open before a token; a closer without an opener does not count below zero. */
  function Depth(ms: Marks, i: nat): nat
    requires i <= |ms|
  {
    if i == 0 then 0
    else
      var d := Depth(ms, i - 1);
      if IsOpen(ms[i - 1]) then d + 1 else if IsClose(ms[i - 1]) && d > 0 then d - 1 else d
  }

  method Depths(ms: Marks) returns (ds: seq<nat>)
    ensures DepthsOf(ms, ds)
  {
    ds := [];
    var depth := 0;
    for i := 0 to |ms|
      invariant |ds| == i && depth == Depth(ms, i)
      invariant forall k :: 0 <= k < i ==> ds[k] == Depth(ms, k)
    {
      ds := ds + [depth];
      if IsOpen(ms[i]) {
        depth := depth + 1;
      } else if IsClose(ms[i]) {
        depth := if depth == 0 then 0 else depth - 1;
      }
    }
  }

  predicate DepthsOf(ms: Marks, ds: seq<nat>) {
    |ds| == |ms| && forall i :: 0 <= i < |ds| ==> ds[i] == Depth(ms, i)
  }

  /** Every bracket has its partner: what is left when the matcher gave no warning. */
  ghost predicate AllPaired(ms: Marks, pairs: Pairs) {
    Paired(ms, pairs) && forall k: nat :: k < |ms| ==> (ms[k].Some? <==> k in pairs)
  }

  /** The openers whose pair encloses position `i`. */
  ghost function Enclosing(pairs: Pairs, i: nat): set<nat> { set o | o in pairs && o < i <= pairs[o] }

  ghost predicate AtTop(pairs: Pairs, i: nat) {
    forall o: nat, c: nat :: Mate(pairs, o, c) ==> !(o < i <= c)
  }

  lemma OpenGoesForward(ms: Marks, pairs: Pairs, o: nat)
    requires AllPaired(ms, pairs) && o < |ms| && ms[o].Some?
    ensures o in pairs && Mate(pairs, o, pairs[o]) && Mate(pairs, pairs[o], o) && pairs[o] < |ms|
    ensures if IsOpen(ms[o]) then o < pairs[o] else pairs[o] < o
  {
    assert Mate(pairs, o, pairs[o]) && Mate(pairs, pairs[o], o);
  }

  lemma EnclosingPlain(ms: Marks, pairs: Pairs, i: nat)
    requires AllPaired(ms, pairs) && i < |ms| && ms[i].None?
    ensures Enclosing(pairs, i + 1) == Enclosing(pairs, i)
  {
    forall o | o in pairs && o < i <= pairs[o] ensures i < pairs[o] { assert Mate(pairs, o, pairs[o]); }
  }

  lemma EnclosingOpen(ms: Marks, pairs: Pairs, i: nat)
    requires AllPaired(ms, pairs) && i < |ms| && IsOpen(ms[i])
    ensures i !in Enclosing(pairs, i) && Enclosing(pairs, i + 1) == Enclosing(pairs, i) + {i}
  {
    OpenGoesForward(ms, pairs, i);
    forall o | o in pairs && o < i <= pairs[o] ensures i < pairs[o] { assert Mate(pairs, o, pairs[o]); }
  }

  lemma EnclosingClose(ms: Marks, pairs: Pairs, i: nat)
    requires AllPaired(ms, pairs) && i < |ms| && IsClose(ms[i])
    ensures i in pairs && pairs[i] in Enclosing(pairs, i) && Enclosing(pairs, i + 1) == Enclosing(pairs, i) - {pairs[i]}
  {
    OpenGoesForward(ms, pairs, i);
    forall o | o in pairs && o < i <= pairs[o] && o != pairs[i]
      ensures i < pairs[o]
    {
      assert Mate(pairs, o, pairs[o]);
    }
  }

  /** One token on, the depth and the number of enclosing pairs move together. */
  lemma DepthStep(ms: Marks, pairs: Pairs, i: nat)
    requires AllPaired(ms, pairs) && i < |ms| && Depth(ms, i) == |Enclosing(pairs, i)|
    ensures Depth(ms, i + 1) == |Enclosing(pairs, i + 1)|
  {
    if ms[i].None? {
      EnclosingPlain(ms, pairs, i);
    } else if IsOpen(ms[i]) {
      EnclosingOpen(ms, pairs, i);
    } else {
      EnclosingClose(ms, pairs, i);
    }
  }

  /** Where all brackets pair up, the depth counts the pairs around a position. */
  lemma {:induction false} DepthCounts(ms: Marks, pairs: Pairs, i: nat)
    requires AllPaired(ms, pairs) && i <= |ms|
    ensures Depth(ms, i) == |Enclosing(pairs, i)|
  {
    if i == 0 {
      assert Enclosing(pairs, 0) == {};
    } else {
      DepthCounts(ms, pairs, i - 1);
      DepthStep(ms, pairs, i - 1);
    }
  }

  /** Depth zero is the top level: outside every bracket pair. */
  lemma DepthZeroIsTop(ms: Marks, pairs: Pairs, i: nat)
    requires AllPaired(ms, pairs) && i <= |ms|
    ensures Depth(ms, i) == 0 <==> AtTop(pairs, i)
  {
    DepthCounts(ms, pairs, i);
    if AtTop(pairs, i) {
      forall o | o in Enclosing(pairs, i) ensures false { assert Mate(pairs, o, pairs[o]); }
      assert Enclosing(pairs, i) == {};
    } else {
      var o: nat, c: nat :| Mate(pairs, o, c) && o < i <= c;
      assert o in Enclosing(pairs, i);
    }
  }

  lemma TopAfterPlain(ms: Marks, pairs: Pairs, i: nat)
    requires AllPaired(ms, pairs) && i < |ms| && ms[i].None? && AtTop(pairs, i)
    ensures AtTop(pairs, i + 1)
  {
    assert i !in pairs;
  }

  lemma TopAfterPair(ms: Marks, pairs: Pairs, i: nat)
    requires AllPaired(ms, pairs) && i < |ms| && IsOpen(ms[i]) && AtTop(pairs, i)
    ensures i < pairs[i] < |ms| && AtTop(pairs, pairs[i] + 1)
  {
    OpenGoesForward(ms, pairs, i);
    var e := pairs[i];
    assert Mate(pairs, i, e) && Mate(pairs, e, i);
  }

  // ---------------------------------------------------------------- where an item ends

  datatype ItemKind = Const | Enum | Fn | Mod | Static | Struct | Trait | Type | Union | Impl | Use | Extern | Macro

  /** Kinds that a brace block at the top level ends; the others run on to a semicolon. */
  predicate EndsAtBrace(k: ItemKind) { !k.Const? && !k.Static? && !k.Type? && !k.Use? }

  predicate Movable(k: ItemKind) { !k.Use? && !k.Extern? }

  function KindText(k: ItemKind): string {
    match k
    case Const => "const" case Enum => "enum" case Fn => "fn" case Mod => "mod" case Static => "static"
    case Struct => "struct" case Trait => "trait" case Type => "type" case Union => "union"
    case Impl => "impl" case Use => "use" case Extern => "extern" case Macro => "macro"
  }

  /** The kind that a leading keyword announces. */
  function Leading(text: string): Option<ItemKind> {
    if text == "const" then Some(Const) else if text == "enum" then Some(Enum) else if text == "fn" then Some(Fn)
    else if text == "mod" then Some(Mod) else if text == "static" then Some(Static)
    else if text == "struct" then Some(Struct) else if text == "trait" then Some(Trait)
    else if text == "type" then Some(Type) else if text == "union" then Some(Union)
    else if text == "impl" then Some(Impl) else if text == "use" then Some(Use) else None
  }

  const MOVABLE: seq<string> :=
    ["const", "enum", "fn", "mod", "static", "struct", "trait", "type", "union", "impl", "macro"]

  /** Everything can be moved but `use` and `extern` items. */
  lemma MovableExact(k: ItemKind)
    ensures Movable(k) <==> KindText(k) in MOVABLE
  {
    assert "use"[1] == 's' && "union"[1] == 'n' && "extern"[1] == 'x' && "enum"[1] == 'n';
  }

  predicate IsSemicolon(t: Token) { t.kind == Punct && t.text == ";" }
  predicate IsBrace(t: Token) { MarkOf(t) == Some(Open(Curly)) }

  lemma SemicolonIsPlain(t: Token)
    requires IsSemicolon(t)
    ensures MarkOf(t).None?
  {}

  /** A top-level token that stops the search: a semicolon, or a brace for the kinds that have a block. */
  predicate Stops(tokens: seq<Token>, ms: Marks, k: ItemKind, c: nat)
    requires c < |tokens| == |ms|
  {
    Depth(ms, c) == 0 && (IsSemicolon(tokens[c]) || (ms[c] == Some(Open(Curly)) && EndsAtBrace(k)))
  }

  ghost predicate FirstStop(tokens: seq<Token>, ms: Marks, k: ItemKind, i: nat, c: nat)
    requires |tokens| == |ms|
  {
    i < c < |tokens| && Stops(tokens, ms, k, c) && forall b: nat :: i < b < c ==> !Stops(tokens, ms, k, b)
  }

  /** The token that ends an item found at `i`: the first stop, or the partner of its brace. */
  ghost predicate EndsWith(tokens: seq<Token>, ms: Marks, pairs: Pairs, k: ItemKind, i: nat, e: nat)
    requires |tokens| == |ms|
  {
    exists c: nat :: FirstStop(tokens, ms, k, i, c) && if IsSemicolon(tokens[c]) then e == c else Mate(pairs, c, e)
  }

  method ItemEnd(k: ItemKind, i: nat, tokens: seq<Token>, ghost ms: Marks, ds: seq<nat>, pairs: Pairs)
      returns (r: Option<nat>)
    requires i < |tokens| && ms == MarksOf(tokens) && DepthsOf(ms, ds) && AllPaired(ms, pairs)
    ensures r.Some? ==> EndsWith(tokens, ms, pairs, k, i, r.value)
    ensures r.None? ==> forall c: nat :: i < c < |tokens| ==> !Stops(tokens, ms, k, c)
  {
    for c := i + 1 to |tokens|
      invariant forall b: nat :: i < b < c ==> !Stops(tokens, ms, k, b)
    {
      if ds[c] == 0 {
        if IsSemicolon(tokens[c]) {
          assert FirstStop(tokens, ms, k, i, c);
          return Some(c);
        }
        if IsBrace(tokens[c]) {
          OpenGoesForward(ms, pairs, c);
          if EndsAtBrace(k) {
            assert FirstStop(tokens, ms, k, i, c) && Mate(pairs, c, pairs[c]);
            return Some(pairs[c]);
          }
        }
      }
    }
    r := None;
  }

  /** An item's end is at the top level again. */
  lemma EndIsTop(tokens: seq<Token>, ms: Marks, pairs: Pairs, k: ItemKind, i: nat, e: nat)
    requires ms == MarksOf(tokens) && AllPaired(ms, pairs) && EndsWith(tokens, ms, pairs, k, i, e)
    ensures i < e < |tokens| && AtTop(pairs, e + 1)
  {
    var c: nat :| FirstStop(tokens, ms, k, i, c) && if IsSemicolon(tokens[c]) then e == c else Mate(pairs, c, e);
    DepthZeroIsTop(ms, pairs, c);
    if IsSemicolon(tokens[c]) {
      SemicolonIsPlain(tokens[c]);
      TopAfterPlain(ms, pairs, c);
    } else {
      TopAfterPair(ms, pairs, c);
    }
  }

  /** The end of an item is determined. */
  lemma EndIsUnique(tokens: seq<Token>, ms: Marks, pairs: Pairs, k: ItemKind, i: nat, e: nat, f: nat)
    requires |tokens| == |ms| && EndsWith(tokens, ms, pairs, k, i, e) && EndsWith(tokens, ms, pairs, k, i, f)
    ensures e == f
  {
    var c: nat :| FirstStop(tokens, ms, k, i, c) && if IsSemicolon(tokens[c]) then e == c else Mate(pairs, c, e);
    var d: nat :| FirstStop(tokens, ms, k, i, d) && if IsSemicolon(tokens[d]) then f == d else Mate(pairs, d, f);
    assert c == d;
  }

  // ---------------------------------------------------------------- macro invocations

  predicate IsBang(t: Token) { t.kind == Punct && t.text == "!" }

  lemma BangIsPlain(t: Token)
    requires IsBang(t)
    ensures MarkOf(t).None?
  {}

  /** `name ! ( ... )` and the semicolon that may follow. */
  predicate Invokes(tokens: seq<Token>, ms: Marks, i: nat)
    requires |tokens| == |ms|
  {
    i + 2 < |tokens| && IsBang(tokens[i + 1]) && IsOpen(ms[i + 2])
  }

  function InvocationEnd(tokens: seq<Token>, ms: Marks, pairs: Pairs, i: nat): (e: nat)
    requires |tokens| == |ms| && Invokes(tokens, ms, i) && i + 2 in pairs
  {
    var close := pairs[i + 2];
    if close + 1 < |tokens| && Depth(ms, close + 1) == 0 && IsSemicolon(tokens[close + 1]) then close + 1 else close
  }

  /** An invocation found at the top level ends at the top level. */
  lemma InvocationIsTop(tokens: seq<Token>, ms: Marks, pairs: Pairs, i: nat)
    requires ms == MarksOf(tokens) && AllPaired(ms, pairs) && Invokes(tokens, ms, i) && ms[i].None? && AtTop(pairs, i)
    ensures i + 2 in pairs && i < InvocationEnd(tokens, ms, pairs, i) < |tokens|
    ensures AtTop(pairs, InvocationEnd(tokens, ms, pairs, i) + 1)
  {
    TopAfterPlain(ms, pairs, i);
    BangIsPlain(tokens[i + 1]);
    TopAfterPlain(ms, pairs, i + 1);
    TopAfterPair(ms, pairs, i + 2);
    OpenGoesForward(ms, pairs, i + 2);
    var close := pairs[i + 2];
    if InvocationEnd(tokens, ms, pairs, i) == close + 1 {
      SemicolonIsPlain(tokens[close + 1]);
      TopAfterPlain(ms, pairs, close + 1);
    }
  }

  // ---------------------------------------------------------------- which tokens start an item

  datatype Head = Head(kind: ItemKind, name: string, invocation: bool)

  /** The next identifier before a semicolon or a brace. */
  function NextIdent(tokens: seq<Token>, i: nat): Option<string>
    requires i <= |tokens|
    decreases |tokens| - i
  {
    if i == |tokens| then None
    else if tokens[i].kind == Ident then Some(Unraw(tokens[i].text))
    else if IsSemicolon(tokens[i]) || IsBrace(tokens[i]) then None
    else NextIdent(tokens, i + 1)
  }

  /** One of the four tokens behind `i` has the text. */
  predicate Ahead(tokens: seq<Token>, i: nat, text: string) {
    exists j :: i < j < |tokens| && j < i + 5 && tokens[j].text == text
  }

  /** What the token at `i` announces, if anything. */
  function HeadAt(tokens: seq<Token>, ms: Marks, i: nat): Option<Head>
    requires i < |tokens| == |ms|
  {
    var text := Unraw(tokens[i].text);
    if text == "macro_rules" && i + 2 < |tokens| && IsBang(tokens[i + 1]) then
      Some(Head(Macro, Unraw(tokens[i + 2].text), false))
    else if Leading(text).Some? then
      var name := NextIdent(tokens, i + 1);
      Some(Head(Leading(text).value, if name.Some? then name.value else text, false))
    else if text == "extern" then
      if Ahead(tokens, i, "crate") then Some(Head(Extern, "crate", false))
      else if Ahead(tokens, i, "{") then Some(Head(Extern, "block", false))
      else None
    else if Invokes(tokens, ms, i) then Some(Head(Macro, text, true))
    else None
  }

  // Which words announce an item, and which items a block ends, as the language has it.

  const KEYWORDS: seq<string> :=
    ["const", "enum", "fn", "mod", "static", "struct", "trait", "type", "union", "impl", "use"]

  /** Items of these kinds end with a semicolon, whatever blocks they hold. */
  const SEMICOLON_KEYWORDS: seq<string> := ["const", "static", "type", "use"]

  /** `macro_rules!` with a name, an item's keyword, an extern block or crate, or a macro invocation. */
  predicate Announces(tokens: seq<Token>, ms: Marks, i: nat)
    requires i < |tokens| == |ms|
  {
    var text := Unraw(tokens[i].text);
    || (text == "macro_rules" && i + 2 < |tokens| && IsBang(tokens[i + 1]))
    || text in KEYWORDS
    || (text == "extern" && (Ahead(tokens, i, "crate") || Ahead(tokens, i, "{")))
    || (text != "extern" && Invokes(tokens, ms, i))
  }

  lemma LeadingExact(text: string)
    ensures Leading(text).Some? <==> text in KEYWORDS
    ensures Leading(text).Some? ==> KindText(Leading(text).value) == text
    ensures Leading(text).Some? ==> (EndsAtBrace(Leading(text).value) <==> text !in SEMICOLON_KEYWORDS)
  {}

  /** The table of kinds agrees: what announces an item, under which word, and whether a block ends it. */
  lemma HeadExact(tokens: seq<Token>, ms: Marks, i: nat)
    requires i < |tokens| == |ms|
    ensures HeadAt(tokens, ms, i).Some? <==> Announces(tokens, ms, i)
    ensures HeadAt(tokens, ms, i).Some? ==>
      var h, text := HeadAt(tokens, ms, i).value, Unraw(tokens[i].text);
      && (EndsAtBrace(h.kind) <==> text !in SEMICOLON_KEYWORDS)
      && (h.invocation ==> Invokes(tokens, ms, i) && text !in KEYWORDS && text != "extern" && h.name == text)
      && (text in KEYWORDS ==> KindText(h.kind) == text)
  {
    LeadingExact(Unraw(tokens[i].text));
    assert "macro_rules" !in KEYWORDS && "extern" !in KEYWORDS by {
      assert "macro_rules"[1] == 'a' && "mod"[1] == 'o';
      assert "extern"[1] == 'x' && "enum"[1] == 'n';
    }
  }

  /** An item is named by the first identifier behind its keyword, if no semicolon or brace comes before it. */
  lemma {:induction false} NameExact(tokens: seq<Token>, i: nat, j: nat)
    requires i <= j < |tokens| && tokens[j].kind == Ident
    requires forall k :: i <= k < j ==> tokens[k].kind != Ident
    ensures NextIdent(tokens, i) == if exists k :: i <= k < j && (IsSemicolon(tokens[k]) || IsBrace(tokens[k]))
      then None else Some(Unraw(tokens[j].text))
    decreases j - i
  {
    if i < j { NameExact(tokens, i + 1, j); }
  }

  /** A top-level identifier that announces an item. */
  predicate Starts(tokens: seq<Token>, ms: Marks, i: nat)
    requires |tokens| == |ms|
  {
    i < |tokens| && Depth(ms, i) == 0 && tokens[i].kind == Ident && HeadAt(tokens, ms, i).Some?
  }

  /** An item in terms of its first and last token. */
  datatype Raw = Raw(head: Head, first: nat, last: nat)

  /** The item announced at `i` runs up to token `e`. */
  ghost predicate RunsTo(tokens: seq<Token>, ms: Marks, pairs: Pairs, h: Head, i: nat, e: nat)
    requires |tokens| == |ms|
  {
    if h.invocation then Invokes(tokens, ms, i) && i + 2 in pairs && e == InvocationEnd(tokens, ms, pairs, i)
    else EndsWith(tokens, ms, pairs, h.kind, i, e)
  }

  ghost predicate IsItem(tokens: seq<Token>, ms: Marks, pairs: Pairs, w: Raw)
    requires |tokens| == |ms|
  {
    Starts(tokens, ms, w.first) && HeadAt(tokens, ms, w.first) == Some(w.head)
      && RunsTo(tokens, ms, pairs, w.head, w.first, w.last)
  }

  lemma IdentIsPlain(t: Token)
    requires t.kind == Ident
    ensures MarkOf(t).None?
  {}

  /** An item starts and ends at the top level. */
  lemma ItemIsTop(tokens: seq<Token>, ms: Marks, pairs: Pairs, w: Raw)
    requires ms == MarksOf(tokens) && AllPaired(ms, pairs) && IsItem(tokens, ms, pairs, w)
    ensures w.first < w.last < |tokens| && AtTop(pairs, w.first) && AtTop(pairs, w.last + 1)
  {
    DepthZeroIsTop(ms, pairs, w.first);
    if w.head.invocation {
      IdentIsPlain(tokens[w.first]);
      InvocationIsTop(tokens, ms, pairs, w.first);
    } else {
      EndIsTop(tokens, ms, pairs, w.head.kind, w.first, w.last);
    }
  }

  /** No bracket pair is cut by an item: a bracket is in it exactly when its partner is. */
  lemma ItemIsClosed(tokens: seq<Token>, ms: Marks, pairs: Pairs, w: Raw, o: nat, c: nat)
    requires ms == MarksOf(tokens) && AllPaired(ms, pairs) && IsItem(tokens, ms, pairs, w) && Mate(pairs, o, c)
    ensures w.first <= o <= w.last <==> w.first <= c <= w.last
  {
    ItemIsTop(tokens, ms, pairs, w);
    assert Mate(pairs, c, o);
  }

  ghost predicate Ascends(raw: seq<Raw>) { forall j, k :: 0 <= j < k < |raw| ==> raw[j].last < raw[k].first }

  /** The items found among the first `n` tokens: each is one, they ascend, and none is missed. */
  ghost predicate Inventoried(tokens: seq<Token>, ms: Marks, pairs: Pairs, raw: seq<Raw>, n: nat)
    requires |tokens| == |ms|
  {
    && (forall w :: w in raw ==> IsItem(tokens, ms, pairs, w) && w.first < w.last < |tokens| && w.first < n)
    && Ascends(raw)
    && (forall i: nat :: i < n && Starts(tokens, ms, i) ==> Taken(raw, i))
  }

  ghost predicate Taken(raw: seq<Raw>, i: nat) { exists w :: w in raw && w.first <= i <= w.last }

  lemma TakeOne(tokens: seq<Token>, ms: Marks, pairs: Pairs, raw: seq<Raw>, w: Raw)
    requires ms == MarksOf(tokens) && AllPaired(ms, pairs)
    requires Inventoried(tokens, ms, pairs, raw, w.first) && IsItem(tokens, ms, pairs, w)
    requires forall v :: v in raw ==> v.last < w.first
    ensures Inventoried(tokens, ms, pairs, raw + [w], w.first + 1)
  {
    ItemIsTop(tokens, ms, pairs, w);
    var more := raw + [w];
    forall v | v in more ensures IsItem(tokens, ms, pairs, v) && v.first < v.last < |tokens| && v.first < w.first + 1 {
      assert v in raw || v == w;
    }
    forall j, k | 0 <= j < k < |more| ensures more[j].last < more[k].first {
      if k == |raw| { assert raw[j] in raw; }
    }
    forall i: nat | i < w.first + 1 && Starts(tokens, ms, i) ensures Taken(more, i) {
      if i < w.first {
        var v :| v in raw && v.first <= i <= v.last;
        assert v in more;
      } else {
        assert w in more;
      }
    }
  }

  lemma SkipOne(tokens: seq<Token>, ms: Marks, pairs: Pairs, raw: seq<Raw>, i: nat)
    requires |tokens| == |ms| && Inventoried(tokens, ms, pairs, raw, i) && (Starts(tokens, ms, i) ==> Taken(raw, i))
    ensures Inventoried(tokens, ms, pairs, raw, i + 1)
  {}

  /** The end of the item that the token at `i` announces, or nothing where the item never ends. */
  method LastToken(h: Head, i: nat, tokens: seq<Token>, ms: Marks, ds: seq<nat>, pairs: Pairs) returns (r: Option<nat>)
    requires ms == MarksOf(tokens) && DepthsOf(ms, ds) && AllPaired(ms, pairs)
    requires i < |tokens| && (h.invocation ==> Invokes(tokens, ms, i))
    ensures r.Some? ==> RunsTo(tokens, ms, pairs, h, i, r.value)
    ensures r.None? ==> !h.invocation && forall c: nat :: i < c < |tokens| ==> !Stops(tokens, ms, h.kind, c)
  {
    if h.invocation {
      OpenGoesForward(ms, pairs, i + 2);
      var close := pairs[i + 2];
      if close + 1 < |tokens| && ds[close + 1] == 0 && IsSemicolon(tokens[close + 1]) {
        return Some(close + 1);
      }
      r := Some(close);
    } else {
      r := ItemEnd(h.kind, i, tokens, ms, ds, pairs);
    }
  }

  lemma Occupied(tokens: seq<Token>, source: string, raw: seq<Raw>, i: nat)
    requires Ordered(tokens, source) && raw != [] && i < |tokens| && Ascends(raw)
    requires forall w :: w in raw ==> w.first < w.last < |tokens| && w.first < i
    ensures tokens[i].start < tokens[raw[|raw| - 1].last].end <==> Taken(raw, i)
    ensures !Taken(raw, i) ==> forall w :: w in raw ==> w.last < i
  {
    var z := raw[|raw| - 1];
    assert z in raw;
    assert tokens[z.last].start < tokens[z.last].end;
    forall w | w in raw ensures w.last <= z.last {
      var k :| 0 <= k < |raw| && raw[k] == w;
    }
    if i <= z.last {
      assert i < z.last ==> tokens[i].end <= tokens[z.last].start;
      assert tokens[i].start < tokens[i].end;
    }
  }

  /** One turn of the first loop: the item that the token at `i` starts, if it starts one. */
  method ConsiderToken(tokens: seq<Token>, ms: Marks, ds: seq<nat>, pairs: Pairs, i: nat, occupied: bool)
    returns (found: Option<Raw>, unended: bool)
    requires i < |tokens| && ms == MarksOf(tokens) && DepthsOf(ms, ds) && AllPaired(ms, pairs)
    ensures found.Some? ==> !occupied && !unended && found.value.first == i && IsItem(tokens, ms, pairs, found.value)
    ensures found.None? && !unended ==> occupied || !Starts(tokens, ms, i)
    ensures unended ==> !occupied && Starts(tokens, ms, i) && NeverEnds(tokens, ms, i)
  {
    found, unended := None, false;
    if occupied || ds[i] != 0 || tokens[i].kind != Ident {
      return;
    }
    var head := HeadAt(tokens, ms, i);
    if head.Some? {
      var last := LastToken(head.value, i, tokens, ms, ds, pairs);
      if last.None? {
        return None, true;
      }
      found := Some(Raw(head.value, i, last.value));
    }
  }

  /** An announced item behind which nothing at the top level could end it. */
  ghost predicate NeverEnds(tokens: seq<Token>, ms: Marks, i: nat)
    requires |tokens| == |ms| && Starts(tokens, ms, i)
  {
    var h := HeadAt(tokens, ms, i).value;
    !h.invocation && forall c: nat :: i < c < |tokens| ==> !Stops(tokens, ms, h.kind, c)
  }

  /** Behind the items so far, an announced item that never ends. */
  ghost predicate StuckAt(tokens: seq<Token>, ms: Marks, pairs: Pairs, raw: seq<Raw>, i: nat)
    requires |tokens| == |ms|
  {
    Inventoried(tokens, ms, pairs, raw, i) && !Taken(raw, i) && Starts(tokens, ms, i) && NeverEnds(tokens, ms, i)
  }

  ghost predicate Stuck(tokens: seq<Token>, ms: Marks, pairs: Pairs)
    requires |tokens| == |ms|
  {
    exists raw: seq<Raw>, i: nat :: StuckAt(tokens, ms, pairs, raw, i)
  }

  lemma GetsStuck(tokens: seq<Token>, ms: Marks, pairs: Pairs, raw: seq<Raw>, i: nat)
    requires |tokens| == |ms| && StuckAt(tokens, ms, pairs, raw, i)
    ensures Stuck(tokens, ms, pairs)
  {}

  lemma Separate(raw: seq<Raw>, u: Raw, w: Raw)
    requires Ascends(raw) && u in raw && w in raw && u.first < w.first < w.last
    ensures u.last < w.first
  {
    var j, k :| 0 <= j < |raw| && 0 <= k < |raw| && raw[j] == u && raw[k] == w;
  }

  /** Inventories of two beginnings of a file agree where both reach. */
  lemma {:induction false} SameItem(tokens: seq<Token>, ms: Marks, pairs: Pairs, raw: seq<Raw>, n: nat,
      more: seq<Raw>, m: nat, w: Raw)
    requires |tokens| == |ms| && Inventoried(tokens, ms, pairs, raw, n) && Inventoried(tokens, ms, pairs, more, m)
    requires w in more && w.first < n
    ensures exists v :: v in raw && v.first == w.first && v.last == w.last
    decreases w.first
  {
    assert IsItem(tokens, ms, pairs, w) && Taken(raw, w.first);
    var v :| v in raw && v.first <= w.first <= v.last;
    if v.first == w.first {
      RunIsUnique(tokens, ms, pairs, w.head, w.first, v.last, w.last);
    } else {
      SameItem(tokens, ms, pairs, more, m, raw, n, v);
      var u :| u in more && u.first == v.first && u.last == v.last;
      Separate(more, u, w);
    }
  }

  /** A file with an inventory does not get stuck. */
  lemma NotStuck(tokens: seq<Token>, ms: Marks, pairs: Pairs, raw: seq<Raw>)
    requires |tokens| == |ms| && Inventoried(tokens, ms, pairs, raw, |tokens|)
    ensures !Stuck(tokens, ms, pairs)
  {
    forall before: seq<Raw>, i: nat ensures !StuckAt(tokens, ms, pairs, before, i) {
      if StuckAt(tokens, ms, pairs, before, i) { NoneStuckAt(tokens, ms, pairs, raw, before, i); }
    }
  }

  lemma ItemEnds(tokens: seq<Token>, ms: Marks, pairs: Pairs, w: Raw)
    requires |tokens| == |ms| && IsItem(tokens, ms, pairs, w)
    ensures !NeverEnds(tokens, ms, w.first)
  {}

  lemma ItemAround(tokens: seq<Token>, ms: Marks, pairs: Pairs, raw: seq<Raw>, i: nat) returns (w: Raw)
    requires |tokens| == |ms| && Inventoried(tokens, ms, pairs, raw, |tokens|) && Starts(tokens, ms, i)
    ensures w in raw && w.first <= i <= w.last && IsItem(tokens, ms, pairs, w)
  {
    assert Taken(raw, i);
    w :| w in raw && w.first <= i <= w.last;
  }

  lemma TakenBefore(tokens: seq<Token>, ms: Marks, pairs: Pairs, raw: seq<Raw>, before: seq<Raw>, i: nat, w: Raw)
    requires |tokens| == |ms| && Inventoried(tokens, ms, pairs, raw, |tokens|)
    requires Inventoried(tokens, ms, pairs, before, i) && w in raw && w.first < i <= w.last
    ensures Taken(before, i)
  {
    SameItem(tokens, ms, pairs, before, i, raw, |tokens|, w);
  }

  lemma TakenOrEnds(tokens: seq<Token>, ms: Marks, pairs: Pairs, raw: seq<Raw>, before: seq<Raw>, i: nat)
    requires |tokens| == |ms| && Inventoried(tokens, ms, pairs, raw, |tokens|)
    requires Inventoried(tokens, ms, pairs, before, i) && Starts(tokens, ms, i)
    ensures Taken(before, i) || !NeverEnds(tokens, ms, i)
  {
    var w := ItemAround(tokens, ms, pairs, raw, i);
    if w.first < i {
      TakenBefore(tokens, ms, pairs, raw, before, i, w);
    } else {
      ItemEnds(tokens, ms, pairs, w);
    }
  }

  lemma NoneStuckAt(tokens: seq<Token>, ms: Marks, pairs: Pairs, raw: seq<Raw>, before: seq<Raw>, i: nat)
    requires |tokens| == |ms| && Inventoried(tokens, ms, pairs, raw, |tokens|)
    ensures !StuckAt(tokens, ms, pairs, before, i)
  {
    if Inventoried(tokens, ms, pairs, before, i) && Starts(tokens, ms, i) {
      TakenOrEnds(tokens, ms, pairs, raw, before, i);
    }
  }

  /** Where the items so far end: `occupied_until`. */
  function Until(tokens: seq<Token>, raw: seq<Raw>): int
    requires forall w :: w in raw ==> w.last < |tokens|
  {
    if raw == [] then -1 else assert raw[|raw| - 1] in raw; tokens[raw[|raw| - 1].last].end
  }

  /** The first loop of `inventory`, over the tokens in order. */
  method ScanItems(source: string, tokens: seq<Token>, ms: Marks, ds: seq<nat>, pairs: Pairs)
      returns (r: Option<seq<Raw>>)
    requires Ordered(tokens, source) && ms == MarksOf(tokens) && DepthsOf(ms, ds) && AllPaired(ms, pairs)
    ensures r.Some? ==> Inventoried(tokens, ms, pairs, r.value, |tokens|)
    ensures r.None? <==> Stuck(tokens, ms, pairs)
  {
    var raw: seq<Raw> := [];
    for i := 0 to |tokens|
      invariant Inventoried(tokens, ms, pairs, raw, i)
    {
      var more := ScanOne(source, tokens, ms, ds, pairs, raw, i);
      if more.None? { return None; }
      raw := more.value;
    }
    NotStuck(tokens, ms, pairs, raw);
    r := Some(raw);
  }

  method IsOccupied(source: string, tokens: seq<Token>, raw: seq<Raw>, i: nat) returns (occupied: bool)
    requires Ordered(tokens, source) && i < |tokens| && Ascends(raw)
    requires forall w :: w in raw ==> w.first < w.last < |tokens| && w.first < i
    ensures occupied <==> Taken(raw, i)
    ensures !occupied ==> forall w :: w in raw ==> w.last < i
  {
    if raw != [] { Occupied(tokens, source, raw, i); }
    occupied := tokens[i].start < Until(tokens, raw);
  }

  /** One turn of that loop; nothing where the item announced never ends. */
  method ScanOne(source: string, tokens: seq<Token>, ms: Marks, ds: seq<nat>, pairs: Pairs, raw: seq<Raw>, i: nat)
      returns (more: Option<seq<Raw>>)
    requires Ordered(tokens, source) && ms == MarksOf(tokens) && DepthsOf(ms, ds) && AllPaired(ms, pairs)
    requires i < |tokens| && Inventoried(tokens, ms, pairs, raw, i)
    ensures more.Some? ==> Inventoried(tokens, ms, pairs, more.value, i + 1)
    ensures more.None? ==> Stuck(tokens, ms, pairs)
  {
    var occupied := IsOccupied(source, tokens, raw, i);
    var found, unended := ConsiderToken(tokens, ms, ds, pairs, i, occupied);
    if unended {
      GetsStuck(tokens, ms, pairs, raw, i);
      return None;
    }
    if found.Some? {
      TakeOne(tokens, ms, pairs, raw, found.value);
      return Some(raw + [found.value]);
    }
    SkipOne(tokens, ms, pairs, raw, i);
    more := Some(raw);
  }

  // ---------------------------------------------------------------- the items as written

  /** An item as it is written: the token that announces it, and its last token, wherever that is. */
  datatype Intended = Intended(first: nat, last: nat)

  /** Where an item's last part begins: its semicolon, or the opener of its closing block. */
  function LastPart(tokens: seq<Token>, pairs: Pairs, e: nat): nat
    requires e < |tokens|
  {
    if !IsSemicolon(tokens[e]) && e in pairs then pairs[e] else e
  }

  /** At the top level, a semicolon, or a block and the brace that closes it. */
  predicate Closes(tokens: seq<Token>, ms: Marks, pairs: Pairs, c: nat, e: nat)
    requires |tokens| == |ms|
  {
    && c < |tokens| && Depth(ms, c) == 0
    && if IsSemicolon(tokens[c]) then e == c else ms[c] == Some(Open(Curly)) && Mate(pairs, c, e)
  }

  /** `name ! ( ... )` ends at its bracket's partner, or at the semicolon right behind that. */
  predicate InvocationCloses(tokens: seq<Token>, ms: Marks, pairs: Pairs, i: nat, e: nat)
    requires |tokens| == |ms|
  {
    && Invokes(tokens, ms, i) && e < |tokens|
    && if IsSemicolon(tokens[e]) then e > 0 && Mate(pairs, i + 2, e - 1)
       else Mate(pairs, i + 2, e) && (e + 1 < |tokens| ==> !IsSemicolon(tokens[e + 1]))
  }

  /** That is where the inventory ends an invocation at the top level. */
  lemma InvocationExact(tokens: seq<Token>, ms: Marks, pairs: Pairs, i: nat, e: nat)
    requires ms == MarksOf(tokens) && AllPaired(ms, pairs) && Invokes(tokens, ms, i) && ms[i].None? && AtTop(pairs, i)
    ensures i + 2 in pairs && (InvocationEnd(tokens, ms, pairs, i) == e <==> InvocationCloses(tokens, ms, pairs, i, e))
  {
    TopAfterPlain(ms, pairs, i);
    BangIsPlain(tokens[i + 1]);
    TopAfterPlain(ms, pairs, i + 1);
    TopAfterPair(ms, pairs, i + 2);
    OpenGoesForward(ms, pairs, i + 2);
    var close := pairs[i + 2];
    DepthZeroIsTop(ms, pairs, close + 1);
    NoSemicolon(tokens[close]);
  }

  lemma NoSemicolon(t: Token)
    ensures MarkOf(t).Some? ==> !IsSemicolon(t)
  {}

  /**
   A macro invocation ends as it looks; any other item ends with some top-level
   semicolon or block, whatever stands in its head.
   */
  ghost predicate Complete(tokens: seq<Token>, ms: Marks, pairs: Pairs, t: Intended)
    requires |tokens| == |ms|
  {
    Starts(tokens, ms, t.first) && t.last < |tokens| &&
    var h, c := HeadAt(tokens, ms, t.first).value, LastPart(tokens, pairs, t.last);
    if h.invocation then InvocationCloses(tokens, ms, pairs, t.first, t.last)
    else t.first < c && Closes(tokens, ms, pairs, c, t.last)
  }

  /** A file written as a list of items: in order, each complete, and nothing announced outside them. */
  ghost predicate WrittenAs(tokens: seq<Token>, ms: Marks, pairs: Pairs, items: seq<Intended>)
    requires |tokens| == |ms|
  {
    && (forall t :: t in items ==> Complete(tokens, ms, pairs, t) && t.first < t.last < |tokens|)
    && (forall j, k :: 0 <= j < k < |items| ==> items[j].last < items[k].first)
    && (forall i: nat {:trigger Meets(items, i)} :: Starts(tokens, ms, i) ==> Meets(items, i))
  }

  ghost predicate Meets(items: seq<Intended>, i: nat) { exists t :: t in items && t.first <= i <= t.last }

  predicate StopsWithin(tokens: seq<Token>, ms: Marks, k: ItemKind, i: nat, c: nat)
    requires |tokens| == |ms|
  {
    exists b: nat :: i < b < c && b < |tokens| && Stops(tokens, ms, k, b)
  }

  /**
   An item under a keyword whose kind runs on to a semicolon, that ends with a block
   instead, or one whose head already holds, at the top level, what ends its kind.
   In the language: `const fn` with a body, and blocks as const arguments or defaults.
   */
  ghost predicate Misread(tokens: seq<Token>, ms: Marks, pairs: Pairs, t: Intended)
    requires |tokens| == |ms| && Complete(tokens, ms, pairs, t)
  {
    var h, c := HeadAt(tokens, ms, t.first).value, LastPart(tokens, pairs, t.last);
    && !h.invocation
    && ((!IsSemicolon(tokens[c]) && !EndsAtBrace(h.kind)) || StopsWithin(tokens, ms, h.kind, t.first, c))
  }

  /** `const fn f() { ... }`: announced as a constant, so it is taken to run on behind its body. */
  lemma ConstFnIsMisread(tokens: seq<Token>, ms: Marks, pairs: Pairs, t: Intended)
    requires ms == MarksOf(tokens) && AllPaired(ms, pairs) && Complete(tokens, ms, pairs, t)
    requires tokens[t.first].text == "const" && !IsSemicolon(tokens[t.last])
    ensures Misread(tokens, ms, pairs, t)
  {
    assert Unraw("const") == "const" by { assert "const"[..2][0] != "r#"[0]; }
    LastIsBlock(tokens, ms, pairs, t);
  }

  lemma LastIsBlock(tokens: seq<Token>, ms: Marks, pairs: Pairs, t: Intended)
    requires ms == MarksOf(tokens) && AllPaired(ms, pairs) && Complete(tokens, ms, pairs, t)
    requires !HeadAt(tokens, ms, t.first).value.invocation
    ensures var c := LastPart(tokens, pairs, t.last);
      c < |tokens| && (IsSemicolon(tokens[c]) <==> IsSemicolon(tokens[t.last]))
  {}

  lemma RunIsUnique(tokens: seq<Token>, ms: Marks, pairs: Pairs, h: Head, i: nat, e: nat, f: nat)
    requires |tokens| == |ms| && RunsTo(tokens, ms, pairs, h, i, e) && RunsTo(tokens, ms, pairs, h, i, f)
    ensures e == f
  {
    if !h.invocation { EndIsUnique(tokens, ms, pairs, h.kind, i, e, f); }
  }

  /** The tokens of `impl F<{ N }> for B { }`. */
  function ConstArgument(): (tokens: seq<Token>)
    ensures |tokens| == 11
  {
    [Token(Ident, "impl", 0, 4), Token(Ident, "F", 5, 6), Token(Punct, "<", 6, 7), Token(Punct, "{", 7, 8),
     Token(Ident, "N", 9, 10), Token(Punct, "}", 11, 12), Token(Punct, ">", 12, 13), Token(Ident, "for", 14, 17),
     Token(Ident, "B", 18, 19), Token(Punct, "{", 20, 21), Token(Punct, "}", 22, 23)]
  }

  function ConstArgumentPairs(): Pairs { map[3 := 5, 5 := 3, 9 := 10, 10 := 9] }

  lemma CurlyMarks(a: nat, b: nat)
    ensures MarkOf(Token(Punct, "{", a, b)) == Some(Open(Curly))
    ensures MarkOf(Token(Punct, "}", a, b)) == Some(Close(Curly))
    ensures MarkOf(Token(Punct, "<", a, b)) == None && MarkOf(Token(Punct, ">", a, b)) == None
  {
    assert "{"[0] == '{' && "}"[0] == '}' && "<"[0] == '<' && ">"[0] == '>';
    assert "("[0] == '(' && ")"[0] == ')' && "["[0] == '[' && "]"[0] == ']';
  }

  /** The eleven marks: braces at 3 and 5, and at 9 and 10. */
  predicate TwoBlocks(ms: Marks) {
    |ms| == 11 && forall k :: 0 <= k < 11 ==>
      ms[k] == if k in {3, 9} then Some(Open(Curly)) else if k in {5, 10} then Some(Close(Curly)) else None
  }

  lemma ConstArgumentMarks(ms: Marks)
    requires ms == MarksOf(ConstArgument())
    ensures TwoBlocks(ms)
  {
    CurlyMarks(6, 7);
    CurlyMarks(7, 8);
    CurlyMarks(11, 12);
    CurlyMarks(12, 13);
    CurlyMarks(20, 21);
    CurlyMarks(22, 23);
  }

  lemma DepthNext(ms: Marks, k: nat)
    requires k < |ms|
    ensures ms[k].None? ==> Depth(ms, k + 1) == Depth(ms, k)
    ensures IsOpen(ms[k]) ==> Depth(ms, k + 1) == Depth(ms, k) + 1
    ensures IsClose(ms[k]) && Depth(ms, k) > 0 ==> Depth(ms, k + 1) == Depth(ms, k) - 1
  {}

  lemma {:induction false} TwoBlocksDepth(ms: Marks, k: nat)
    requires TwoBlocks(ms) && k <= 11
    ensures Depth(ms, k) == if k in {4, 5, 10} then 1 else 0
  {
    if k > 0 {
      TwoBlocksDepth(ms, k - 1);
      DepthNext(ms, k - 1);
    }
  }

  lemma TwoBlocksPaired(ms: Marks)
    requires TwoBlocks(ms)
    ensures AllPaired(ms, ConstArgumentPairs())
  {
    var pairs := ConstArgumentPairs();
    assert pairs.Keys == {3, 5, 9, 10};
    assert forall i: nat, j: nat :: Mate(pairs, i, j) <==> (i, j) in {(3, 5), (5, 3), (9, 10), (10, 9)};
  }

  /** Only `impl` announces an item, a block kind, which stops at the brace of the argument. */
  lemma ConstArgumentStarts(ms: Marks)
    requires ms == MarksOf(ConstArgument()) && TwoBlocks(ms)
    ensures forall i: nat :: Starts(ConstArgument(), ms, i) <==> i == 0
    ensures HeadAt(ConstArgument(), ms, 0) == Some(Head(Impl, "F", false))
  {
    TwoBlocksDepth(ms, 0);
    ConstArgumentHead(ms);
    forall i: nat | 0 < i < 11 ensures !Starts(ConstArgument(), ms, i) {
      HeadExact(ConstArgument(), ms, i);
      ConstArgumentNone(ms, i);
    }
  }

  lemma ConstArgumentHead(ms: Marks)
    requires |ms| == 11
    ensures HeadAt(ConstArgument(), ms, 0) == Some(Head(Impl, "F", false))
  {
    assert Unraw("impl") == "impl" by { assert "impl"[..2][0] != "r#"[0]; }
    assert NextIdent(ConstArgument(), 1) == Some("F");
  }

  lemma ConstArgumentNone(ms: Marks, i: nat)
    requires |ms| == 11 && 0 < i < 11
    ensures !Announces(ConstArgument(), ms, i) || ConstArgument()[i].kind != Ident
  {
    assert Unraw("for") == "for" by { assert "for"[..2][0] != "r#"[0]; }
    if i in {1, 4, 8} { assert |ConstArgument()[i].text| == 1; }
  }

  lemma ConstArgumentStops(ms: Marks)
    requires ms == MarksOf(ConstArgument()) && TwoBlocks(ms)
    ensures FirstStop(ConstArgument(), ms, Impl, 0, 3) && Closes(ConstArgument(), ms, ConstArgumentPairs(), 9, 10)
    ensures !IsSemicolon(ConstArgument()[3])
  {
    TwoBlocksDepth(ms, 3);
    TwoBlocksDepth(ms, 9);
    assert ";"[0] == ';' && "{"[0] == '{' && "<"[0] == '<';
  }

  /** A block as a const argument: the item written up to token 10 is taken to end at token 5. */
  lemma ConstArgumentIsMisread(ms: Marks)
    requires ms == MarksOf(ConstArgument())
    ensures AllPaired(ms, ConstArgumentPairs())
    ensures WrittenAs(ConstArgument(), ms, ConstArgumentPairs(), [Intended(0, 10)])
    ensures Misread(ConstArgument(), ms, ConstArgumentPairs(), Intended(0, 10))
    ensures Inventoried(ConstArgument(), ms, ConstArgumentPairs(), [Raw(Head(Impl, "F", false), 0, 5)], 11)
  {
    ConstArgumentMarks(ms);
    TwoBlocksPaired(ms);
    ConstArgumentStarts(ms);
    ConstArgumentStops(ms);
    assert LastPart(ConstArgument(), ConstArgumentPairs(), 10) == 9;
    var t, w := Intended(0, 10), Raw(Head(Impl, "F", false), 0, 5);
    assert t in [t] && Meets([t], 0);
    assert w in [w] && Taken([w], 0);
    assert Mate(ConstArgumentPairs(), 3, 5);
  }

  /** The inventory reads an item to its last token exactly when it is not misread. */
  lemma ReadExactly(tokens: seq<Token>, ms: Marks, pairs: Pairs, t: Intended)
    requires ms == MarksOf(tokens) && AllPaired(ms, pairs) && Complete(tokens, ms, pairs, t)
    ensures RunsTo(tokens, ms, pairs, HeadAt(tokens, ms, t.first).value, t.first, t.last) <==>
      !Misread(tokens, ms, pairs, t)
  {
    var h := HeadAt(tokens, ms, t.first).value;
    if h.invocation {
      IdentIsPlain(tokens[t.first]);
      DepthZeroIsTop(ms, pairs, t.first);
      InvocationExact(tokens, ms, pairs, t.first, t.last);
    } else {
      EndsExactly(tokens, ms, pairs, h.kind, t.first, LastPart(tokens, pairs, t.last), t.last);
    }
  }

  /** Where an item closes there, its kind ends it there exactly if it stops there and not before. */
  lemma EndsExactly(tokens: seq<Token>, ms: Marks, pairs: Pairs, k: ItemKind, i: nat, c: nat, e: nat)
    requires ms == MarksOf(tokens) && AllPaired(ms, pairs) && i < c && Closes(tokens, ms, pairs, c, e)
    ensures EndsWith(tokens, ms, pairs, k, i, e) <==>
      (IsSemicolon(tokens[c]) || EndsAtBrace(k)) && !StopsWithin(tokens, ms, k, i, c)
  {
    if EndsWith(tokens, ms, pairs, k, i, e) {
      var d: nat :| FirstStop(tokens, ms, k, i, d) && if IsSemicolon(tokens[d]) then e == d else Mate(pairs, d, e);
      SamePart(tokens, ms, pairs, c, d, e);
    }
    if (IsSemicolon(tokens[c]) || EndsAtBrace(k)) && !StopsWithin(tokens, ms, k, i, c) {
      assert FirstStop(tokens, ms, k, i, c);
    }
  }

  lemma SamePart(tokens: seq<Token>, ms: Marks, pairs: Pairs, c: nat, d: nat, e: nat)
    requires ms == MarksOf(tokens) && AllPaired(ms, pairs) && c < |tokens| && d < |tokens|
    requires if IsSemicolon(tokens[c]) then e == c else Mate(pairs, c, e)
    requires if IsSemicolon(tokens[d]) then e == d else Mate(pairs, d, e)
    ensures c == d
  {
    SemicolonApart(tokens, ms, pairs, c);
    SemicolonApart(tokens, ms, pairs, d);
    assert Mate(pairs, c, e) ==> Mate(pairs, e, c);
    assert Mate(pairs, d, e) ==> Mate(pairs, e, d);
  }

  lemma SemicolonApart(tokens: seq<Token>, ms: Marks, pairs: Pairs, c: nat)
    requires ms == MarksOf(tokens) && AllPaired(ms, pairs) && c < |tokens|
    ensures IsSemicolon(tokens[c]) ==> c !in pairs
  {}

  // Two lists of spans that hold the same starting places.

  ghost predicate Holds(x: Span, i: nat) { x.start <= i <= x.end }

  /** Ascending spans, each from one of the places, that hold all of them. */
  ghost predicate Hold(xs: seq<Span>, places: set<nat>) {
    && (forall k :: 0 <= k < |xs| ==> xs[k].start <= xs[k].end && xs[k].start in places)
    && (forall j, k :: 0 <= j < k < |xs| ==> xs[j].end < xs[k].start)
    && (forall i {:trigger Held(xs, i)} :: i in places ==> Held(xs, i))
  }

  ghost predicate Held(xs: seq<Span>, i: nat) { exists k :: 0 <= k < |xs| && Holds(xs[k], i) }

  ghost predicate Agree(xs: seq<Span>, ys: seq<Span>) {
    forall j, k :: 0 <= j < |xs| && 0 <= k < |ys| && xs[j].start == ys[k].start ==> xs[j].end == ys[k].end
  }

  /** Behind equal spans, the next place of one list is not before the next span of the other. */
  lemma NotBefore(xs: seq<Span>, ys: seq<Span>, places: set<nat>, k: nat)
    requires Hold(xs, places) && Hold(ys, places) && k < |xs| && k <= |ys|
    requires forall j :: 0 <= j < k ==> xs[j] == ys[j]
    ensures k < |ys| && ys[k].start <= xs[k].start
  {
    assert Held(ys, xs[k].start);
  }

  lemma {:induction false} SameSpans(xs: seq<Span>, ys: seq<Span>, places: set<nat>, k: nat)
    requires Hold(xs, places) && Hold(ys, places) && Agree(xs, ys) && k <= |xs| && k <= |ys|
    ensures forall j :: 0 <= j < k ==> xs[j] == ys[j]
  {
    if k > 0 {
      SameSpans(xs, ys, places, k - 1);
      NotBefore(xs, ys, places, k - 1);
      NotBefore(ys, xs, places, k - 1);
    }
  }

  /** Two such lists that agree on the ends are the same list. */
  lemma SameLists(xs: seq<Span>, ys: seq<Span>, places: set<nat>)
    requires Hold(xs, places) && Hold(ys, places) && Agree(xs, ys)
    ensures xs == ys
  {
    var n := if |xs| < |ys| then |xs| else |ys|;
    SameSpans(xs, ys, places, n);
    if n < |xs| { NotBefore(xs, ys, places, n); }
    if n < |ys| { NotBefore(ys, xs, places, n); }
  }

  /**
   Ends that are determined: the first list has them, and the lists are equal exactly when the second
   has them too.
   */
  lemma EqualExactly(xs: seq<Span>, ys: seq<Span>, places: set<nat>, ends: (nat, nat) -> bool)
    requires Hold(xs, places) && Hold(ys, places) && forall x :: x in xs ==> ends(x.start, x.end)
    requires forall i, e, f :: ends(i, e) && ends(i, f) ==> e == f
    ensures xs == ys <==> forall y :: y in ys ==> ends(y.start, y.end)
  {
    if forall y :: y in ys ==> ends(y.start, y.end) {
      forall j, k | 0 <= j < |xs| && 0 <= k < |ys| && xs[j].start == ys[k].start ensures xs[j].end == ys[k].end {
        assert xs[j] in xs && ys[k] in ys;
      }
      SameLists(xs, ys, places);
    }
  }

  // The round trip.

  function Found(raw: seq<Raw>): (xs: seq<Span>)
    ensures |xs| == |raw| && forall k :: 0 <= k < |xs| ==> xs[k] == Span(raw[k].first, raw[k].last)
  {
    seq(|raw|, k requires 0 <= k < |raw| => Span(raw[k].first, raw[k].last))
  }

  function Meant(items: seq<Intended>): (xs: seq<Span>)
    ensures |xs| == |items| && forall k :: 0 <= k < |xs| ==> xs[k] == Span(items[k].first, items[k].last)
  {
    seq(|items|, k requires 0 <= k < |items| => Span(items[k].first, items[k].last))
  }

  lemma TakenIsHeld(raw: seq<Raw>, i: nat)
    requires Taken(raw, i)
    ensures Held(Found(raw), i)
  {
    var w :| w in raw && w.first <= i <= w.last;
    var k :| 0 <= k < |raw| && raw[k] == w;
    assert Holds(Found(raw)[k], i);
  }

  lemma FoundHolds(raw: seq<Raw>, places: set<nat>)
    requires Ascends(raw) && forall w :: w in raw ==> w.first < w.last && w.first in places
    requires forall i {:trigger Taken(raw, i)} :: i in places ==> Taken(raw, i)
    ensures Hold(Found(raw), places)
  {
    forall k | 0 <= k < |raw| ensures raw[k].first < raw[k].last && raw[k].first in places { assert raw[k] in raw; }
    forall i | i in places ensures Held(Found(raw), i) {
      assert Taken(raw, i);
      TakenIsHeld(raw, i);
    }
  }

  lemma MetIsHeld(items: seq<Intended>, i: nat)
    requires Meets(items, i)
    ensures Held(Meant(items), i)
  {
    var t :| t in items && t.first <= i <= t.last;
    var k :| 0 <= k < |items| && items[k] == t;
    assert Holds(Meant(items)[k], i);
  }

  lemma MeantHolds(items: seq<Intended>, places: set<nat>)
    requires forall t :: t in items ==> t.first < t.last && t.first in places
    requires forall j, k :: 0 <= j < k < |items| ==> items[j].last < items[k].first
    requires forall i {:trigger Meets(items, i)} :: i in places ==> Meets(items, i)
    ensures Hold(Meant(items), places)
  {
    forall k | 0 <= k < |items|
      ensures items[k].first < items[k].last && items[k].first in places
    {
      assert items[k] in items;
    }
    forall i | i in places ensures Held(Meant(items), i) {
      assert Meets(items, i);
      MetIsHeld(items, i);
    }
  }

  ghost predicate Reads(tokens: seq<Token>, ms: Marks, pairs: Pairs, i: nat, e: nat)
    requires |tokens| == |ms|
  {
    Starts(tokens, ms, i) && RunsTo(tokens, ms, pairs, HeadAt(tokens, ms, i).value, i, e)
  }

  function Places(tokens: seq<Token>, ms: Marks): set<nat>
    requires |tokens| == |ms|
  {
    set i: nat | i < |tokens| && Starts(tokens, ms, i)
  }

  lemma ReadsOnce(tokens: seq<Token>, ms: Marks, pairs: Pairs, i: nat, e: nat, f: nat)
    requires |tokens| == |ms| && Reads(tokens, ms, pairs, i, e) && Reads(tokens, ms, pairs, i, f)
    ensures e == f
  {
    RunIsUnique(tokens, ms, pairs, HeadAt(tokens, ms, i).value, i, e, f);
  }

  lemma FoundReads(tokens: seq<Token>, ms: Marks, pairs: Pairs, raw: seq<Raw>)
    requires |tokens| == |ms| && Inventoried(tokens, ms, pairs, raw, |tokens|)
    ensures Hold(Found(raw), Places(tokens, ms))
    ensures forall x :: x in Found(raw) ==> Reads(tokens, ms, pairs, x.start, x.end)
  {
    forall w | w in raw ensures w.first in Places(tokens, ms) && Reads(tokens, ms, pairs, w.first, w.last) {
      assert IsItem(tokens, ms, pairs, w);
    }
    FoundHolds(raw, Places(tokens, ms));
    forall x | x in Found(raw) ensures Reads(tokens, ms, pairs, x.start, x.end) {
      var k :| 0 <= k < |raw| && Found(raw)[k] == x;
      assert raw[k] in raw;
    }
  }

  lemma MeantIsHeld(tokens: seq<Token>, ms: Marks, pairs: Pairs, items: seq<Intended>)
    requires |tokens| == |ms| && WrittenAs(tokens, ms, pairs, items)
    ensures Hold(Meant(items), Places(tokens, ms))
  {
    forall t | t in items ensures t.first in Places(tokens, ms) { assert Complete(tokens, ms, pairs, t); }
    MeantHolds(items, Places(tokens, ms));
  }

  ghost predicate NoneMisread(tokens: seq<Token>, ms: Marks, pairs: Pairs, items: seq<Intended>)
    requires |tokens| == |ms| && WrittenAs(tokens, ms, pairs, items)
  {
    forall t :: t in items ==> !Misread(tokens, ms, pairs, t)
  }

  lemma ReadsOne(tokens: seq<Token>, ms: Marks, pairs: Pairs, t: Intended)
    requires ms == MarksOf(tokens) && AllPaired(ms, pairs) && Complete(tokens, ms, pairs, t)
    ensures Reads(tokens, ms, pairs, t.first, t.last) <==> !Misread(tokens, ms, pairs, t)
  {
    ReadExactly(tokens, ms, pairs, t);
  }

  lemma MeantAre(items: seq<Intended>, ends: (nat, nat) -> bool)
    ensures (forall y :: y in Meant(items) ==> ends(y.start, y.end)) <==>
      forall t :: t in items ==> ends(t.first, t.last)
  {
    var ys := Meant(items);
    if forall y :: y in ys ==> ends(y.start, y.end) {
      forall t | t in items ensures ends(t.first, t.last) {
        var k :| 0 <= k < |items| && items[k] == t;
        assert ys[k] in ys;
      }
    }
    if forall t :: t in items ==> ends(t.first, t.last) {
      forall y | y in ys ensures ends(y.start, y.end) {
        var k :| 0 <= k < |ys| && ys[k] == y;
        assert items[k] in items;
      }
    }
  }

  /** The items found are the items meant exactly when each of these is read to its end. */
  lemma FoundIsMeant(tokens: seq<Token>, ms: Marks, pairs: Pairs, raw: seq<Raw>, items: seq<Intended>)
    requires |tokens| == |ms| && Inventoried(tokens, ms, pairs, raw, |tokens|) && WrittenAs(tokens, ms, pairs, items)
    ensures Found(raw) == Meant(items) <==> forall t :: t in items ==> Reads(tokens, ms, pairs, t.first, t.last)
  {
    FoundReads(tokens, ms, pairs, raw);
    MeantIsHeld(tokens, ms, pairs, items);
    var ends := (i: nat, e: nat) => Reads(tokens, ms, pairs, i, e);
    forall i, e, f | ends(i, e) && ends(i, f) ensures e == f { ReadsOnce(tokens, ms, pairs, i, e, f); }
    EqualExactly(Found(raw), Meant(items), Places(tokens, ms), ends);
    MeantAre(items, ends);
  }

  lemma ReadsAll(tokens: seq<Token>, ms: Marks, pairs: Pairs, items: seq<Intended>)
    requires ms == MarksOf(tokens) && AllPaired(ms, pairs) && WrittenAs(tokens, ms, pairs, items)
    ensures NoneMisread(tokens, ms, pairs, items) <==>
      forall t :: t in items ==> Reads(tokens, ms, pairs, t.first, t.last)
  {
    forall t | t in items ensures Reads(tokens, ms, pairs, t.first, t.last) <==> !Misread(tokens, ms, pairs, t) {
      ReadsOne(tokens, ms, pairs, t);
    }
  }

  /**
   The round trip of the inventory: for a file written as a list of items, it finds
   exactly these, to their true ends, if and only if none is misread.
   */
  lemma InventoryExact(tokens: seq<Token>, ms: Marks, pairs: Pairs, raw: seq<Raw>, items: seq<Intended>)
    requires ms == MarksOf(tokens) && AllPaired(ms, pairs)
    requires Inventoried(tokens, ms, pairs, raw, |tokens|) && WrittenAs(tokens, ms, pairs, items)
    ensures Found(raw) == Meant(items) <==> NoneMisread(tokens, ms, pairs, items)
  {
    FoundIsMeant(tokens, ms, pairs, raw, items);
    ReadsAll(tokens, ms, pairs, items);
  }

  // ---------------------------------------------------------------- selectors

  function Base(h: Head): string { if h.kind.Impl? then "impl" else KindText(h.kind) + ":" + h.name }

  function Bases(raw: seq<Raw>): (bs: seq<string>)
    ensures |bs| == |raw| && forall k :: 0 <= k < |bs| ==> bs[k] == Base(raw[k].head)
  {
    seq(|raw|, k requires 0 <= k < |raw| => Base(raw[k].head))
  }

  /** How often `b` occurs among the first `n`. */
  function Tally(bs: seq<string>, n: nat, b: string): nat
    requires n <= |bs|
  {
    if n == 0 then 0 else Tally(bs, n - 1, b) + if bs[n - 1] == b then 1 else 0
  }

  /** How an item is called: by its base, with its number where the base is shared. */
  function Selector(bs: seq<string>, k: nat): string
    requires k < |bs|
  {
    var nth := Tally(bs, k + 1, bs[k]);
    if bs[k] == "impl" then "impl@" + Render(nth)
    else if Tally(bs, |bs|, bs[k]) == 1 then bs[k]
    else bs[k] + "#" + Render(nth)
  }

  ghost function Occurrences(bs: seq<string>, n: nat, b: string): set<nat>
    requires n <= |bs|
  {
    set j: nat | j < n && bs[j] == b
  }

  lemma {:induction false} TallyCounts(bs: seq<string>, n: nat, b: string)
    requires n <= |bs|
    ensures Tally(bs, n, b) == |Occurrences(bs, n, b)|
  {
    if n == 0 {
      assert Occurrences(bs, 0, b) == {};
    } else {
      TallyCounts(bs, n - 1, b);
      var few, more := Occurrences(bs, n - 1, b), Occurrences(bs, n, b);
      assert more == if bs[n - 1] == b then few + {n - 1} else few;
    }
  }

  /** The n-th `impl` is `impl@n`; another base is its own selector where it is alone, and else the n-th is `base#n`. */
  lemma SelectorExact(bs: seq<string>, k: nat)
    requires k < |bs|
    ensures var nth, all := |Occurrences(bs, k + 1, bs[k])|, |Occurrences(bs, |bs|, bs[k])|;
      Selector(bs, k) ==
        if bs[k] == "impl" then "impl@" + Render(nth) else if all == 1 then bs[k] else bs[k] + "#" + Render(nth)
  {
    TallyCounts(bs, k + 1, bs[k]);
    TallyCounts(bs, |bs|, bs[k]);
  }

  lemma {:induction false} TallyGrows(bs: seq<string>, m: nat, n: nat, b: string)
    requires m <= n <= |bs|
    ensures Tally(bs, m, b) <= Tally(bs, n, b)
    decreases n
  {
    if m < n { TallyGrows(bs, m, n - 1, b); }
  }

  lemma TallyLater(bs: seq<string>, i: nat, j: nat)
    requires i < j < |bs| && bs[i] == bs[j]
    ensures 1 <= Tally(bs, i + 1, bs[i]) < Tally(bs, j + 1, bs[j]) <= Tally(bs, |bs|, bs[j])
  {
    TallyGrows(bs, i + 1, j, bs[i]);
    TallyGrows(bs, j + 1, |bs|, bs[j]);
  }

  predicate Lacks(s: string, c: char) { c !in s }

  /** The part before the first `c` is determined. */
  lemma FirstPart(a: string, x: string, b: string, y: string, c: char)
    requires Lacks(a, c) && Lacks(b, c) && a + [c] + x == b + [c] + y
    ensures a == b && x == y
  {
    var s, t := a + [c] + x, b + [c] + y;
    assert s[|a|] == c && t[|b|] == c;
    assert a == s[..|a|] && b == t[..|b|];
    assert x == s[|a| + 1..] && y == t[|b| + 1..];
  }

  /** A base the inventory can form: `impl`, or a kind, a colon and a name without a hash sign. */
  predicate ProperBase(b: string) { b == "impl" || (':' in b && Lacks(b, '#')) }

  lemma NumberedDiffer(a: string, m: nat, b: string, n: nat)
    requires Lacks(a, '#') && Lacks(b, '#') && a + "#" + Render(m) == b + "#" + Render(n)
    ensures a == b && m == n
  {
    assert "#" == ['#'];
    FirstPart(a, Render(m), b, Render(n), '#');
    RenderInjective(m, n);
  }

  lemma ImplSelector(b: string, m: nat, n: nat)
    requires ':' in b
    ensures "impl@" + Render(m) != b && "impl@" + Render(m) != b + "#" + Render(n)
  {
    RenderNoColon(m);
    var s := "impl@" + Render(m);
    assert ':' !in "impl@";
    assert ':' !in s;
    assert ':' in b + "#" + Render(n);
  }

  /** Selectors identify items, so looking one up finds the only item of that name. */
  lemma SelectorsDiffer(bs: seq<string>, i: nat, j: nat)
    requires i < j < |bs| && forall k :: 0 <= k < |bs| ==> ProperBase(bs[k])
    ensures Selector(bs, i) != Selector(bs, j)
  {
    var m, n := Tally(bs, i + 1, bs[i]), Tally(bs, j + 1, bs[j]);
    if bs[i] == bs[j] {
      TallyLater(bs, i, j);
      SharedDiffer(bs[i], m, n);
    } else if bs[i] == "impl" {
      ImplSelector(bs[j], m, n);
    } else if bs[j] == "impl" {
      ImplSelector(bs[i], n, m);
    } else {
      OthersDiffer(bs[i], bs[j], m, n);
    }
  }

  lemma SharedDiffer(b: string, m: nat, n: nat)
    requires m < n && ProperBase(b)
    ensures "impl@" + Render(m) != "impl@" + Render(n) && (b != "impl" ==> b + "#" + Render(m) != b + "#" + Render(n))
  {
    if "impl@" + Render(m) == "impl@" + Render(n) {
      assert Render(m) == ("impl@" + Render(m))[5..] && Render(n) == ("impl@" + Render(n))[5..];
      RenderInjective(m, n);
    }
    if b != "impl" && b + "#" + Render(m) == b + "#" + Render(n) { NumberedDiffer(b, m, b, n); }
  }

  lemma OthersDiffer(a: string, b: string, m: nat, n: nat)
    requires Lacks(a, '#') && Lacks(b, '#') && a != b
    ensures a + "#" + Render(m) != b && a != b + "#" + Render(n) && a + "#" + Render(m) != b + "#" + Render(n)
  {
    assert '#' in a + "#" + Render(m) && '#' in b + "#" + Render(n);
    if a + "#" + Render(m) == b + "#" + Render(n) { NumberedDiffer(a, m, b, n); }
  }

  lemma BaseIsProper(h: Head)
    requires Lacks(h.name, '#')
    ensures ProperBase(Base(h)) && (Base(h) == "impl" <==> h.kind.Impl?)
  {
    if !h.kind.Impl? {
      assert Lacks(KindText(h.kind), '#');
      var b := KindText(h.kind) + ":" + h.name;
      assert b[|KindText(h.kind)|] == ':';
      assert ':' in b && ':' !in "impl";
    }
  }

  lemma ImplBase(h: Head)
    ensures Base(h) == "impl" <==> h.kind.Impl?
  {
    if !h.kind.Impl? {
      var b := KindText(h.kind) + ":" + h.name;
      assert b[|KindText(h.kind)|] == ':';
      assert ':' in b && ':' !in "impl";
    }
  }

  ghost predicate Counted(bs: seq<string>, k: nat, seen: map<string, nat>, impls: nat)
    requires k <= |bs|
  {
    impls == Tally(bs, k, "impl") && forall b :: b != "impl" ==> Seen(seen, b) == Tally(bs, k, b)
  }

  method LabelOne(bs: seq<string>, k: nat, seen: map<string, nat>, impls: nat, isImpl: bool)
    returns (selector: string, seenNow: map<string, nat>, implsNow: nat)
    requires k < |bs| && Counted(bs, k, seen, impls) && (isImpl <==> bs[k] == "impl")
    ensures selector == Selector(bs, k) && Counted(bs, k + 1, seenNow, implsNow)
  {
    seenNow, implsNow := seen, impls;
    if isImpl {
      implsNow := impls + 1;
      selector := "impl@" + Render(implsNow);
    } else {
      seenNow := seen[bs[k] := Seen(seen, bs[k]) + 1];
      selector := if Tally(bs, |bs|, bs[k]) == 1 then bs[k] else bs[k] + "#" + Render(seenNow[bs[k]]);
    }
    forall b | b != "impl" ensures Seen(seenNow, b) == Tally(bs, k + 1, b) {
      assert Seen(seen, b) == Tally(bs, k, b);
    }
  }

  predicate Labelled(bs: seq<string>, selectors: seq<string>) {
    |selectors| <= |bs| && forall j :: 0 <= j < |selectors| ==> selectors[j] == Selector(bs, j)
  }

  lemma LabelledMore(bs: seq<string>, selectors: seq<string>, selector: string)
    requires Labelled(bs, selectors) && |selectors| < |bs| && selector == Selector(bs, |selectors|)
    ensures Labelled(bs, selectors + [selector])
  {
    var more := selectors + [selector];
    forall j | 0 <= j < |more| ensures more[j] == Selector(bs, j) {
      assert j < |selectors| ==> more[j] == selectors[j];
    }
  }

  ghost predicate HashFree(raw: seq<Raw>) { forall w :: w in raw ==> Lacks(w.head.name, '#') }

  lemma InventoryDiffers(raw: seq<Raw>, items: seq<RustItem>)
    requires |items| == |raw| && forall k :: 0 <= k < |items| ==> items[k].selector == Selector(Bases(raw), k)
    ensures HashFree(raw) ==> forall i, j :: 0 <= i < j < |items| ==> items[i].selector != items[j].selector
  {
    if HashFree(raw) {
      var bs := Bases(raw);
      forall k | 0 <= k < |bs| ensures ProperBase(bs[k]) {
        assert raw[k] in raw;
        BaseIsProper(raw[k].head);
      }
      forall i, j | 0 <= i < j < |items| ensures items[i].selector != items[j].selector { SelectorsDiffer(bs, i, j); }
    }
  }

  /** The second loop of `inventory`, with its two counters. */
  method Label(raw: seq<Raw>) returns (selectors: seq<string>)
    ensures |selectors| == |raw| && Labelled(Bases(raw), selectors)
  {
    selectors := [];
    var bs := Bases(raw);
    var seen: map<string, nat> := map[];
    var impls: nat := 0;
    for k := 0 to |raw|
      invariant |selectors| == k && Labelled(bs, selectors) && Counted(bs, k, seen, impls)
    {
      ImplBase(raw[k].head);
      var selector;
      selector, seen, impls := LabelOne(bs, k, seen, impls, raw[k].head.kind.Impl?);
      LabelledMore(bs, selectors, selector);
      selectors := selectors + [selector];
    }
  }

  function Seen(seen: map<string, nat>, b: string): nat { if b in seen then seen[b] else 0 }

  // ---------------------------------------------------------------- spans

  datatype RustItem = RustItem(selector: string, kind: ItemKind, name: string, start: nat, coreStart: nat, end: nat)

  /** Where an item's span begins: at the end of the one before it. */
  function Previous(items: seq<RustItem>, k: nat, headerEnd: nat): nat
    requires k <= |items|
  {
    if k == 0 then headerEnd else items[k - 1].end
  }

  predicate Follows(items: seq<RustItem>, k: nat, headerEnd: nat) {
    k < |items| && items[k].start == Previous(items, k, headerEnd)
  }

  predicate SpanOf(tokens: seq<Token>, w: Raw, item: RustItem) {
    && w.first < w.last < |tokens| && item.kind == w.head.kind && item.name == w.head.name
    && item.coreStart == tokens[w.first].start && item.end == tokens[w.last].end
  }

  /** An item's core holds exactly the tokens from its first to its last. */
  lemma CoreHolds(source: string, tokens: seq<Token>, w: Raw, item: RustItem, j: nat)
    requires Ordered(tokens, source) && SpanOf(tokens, w, item) && j < |tokens|
    ensures item.coreStart <= tokens[j].start && tokens[j].end <= item.end <==> w.first <= j <= w.last
    ensures !(w.first <= j <= w.last) ==> tokens[j].end <= item.coreStart || item.end <= tokens[j].start
  {
    assert tokens[j].start < tokens[j].end && tokens[w.first].start < tokens[w.first].end;
    assert tokens[w.last].start < tokens[w.last].end;
    assert w.first < j ==> tokens[w.first].end <= tokens[j].start;
    assert j < w.last ==> tokens[j].end <= tokens[w.last].start;
  }

  /** The items' spans, each from the end of the one before it. */
  ghost predicate Spans(tokens: seq<Token>, raw: seq<Raw>, items: seq<RustItem>, headerEnd: nat) {
    && |items| <= |raw|
    && (forall k :: 0 <= k < |items| ==> SpanOf(tokens, raw[k], items[k]))
    && (forall k: nat :: k < |items| ==> Follows(items, k, headerEnd))
  }

  lemma SpansMore(tokens: seq<Token>, raw: seq<Raw>, items: seq<RustItem>, headerEnd: nat, item: RustItem)
    requires Spans(tokens, raw, items, headerEnd) && |items| < |raw| && SpanOf(tokens, raw[|items|], item)
    requires item.start == Previous(items, |items|, headerEnd)
    ensures Spans(tokens, raw, items + [item], headerEnd)
  {
    var more := items + [item];
    forall k: nat | k < |more| ensures Follows(more, k, headerEnd) {
      if k < |items| { assert Follows(items, k, headerEnd); }
    }
  }

  method Assemble(tokens: seq<Token>, raw: seq<Raw>, selectors: seq<string>, headerEnd: nat)
      returns (items: seq<RustItem>)
    requires |selectors| == |raw| && forall w :: w in raw ==> w.first < w.last < |tokens|
    ensures |items| == |raw| && Spans(tokens, raw, items, headerEnd)
    ensures forall k :: 0 <= k < |items| ==> items[k].selector == selectors[k]
  {
    items := [];
    var previous := headerEnd;
    for k := 0 to |raw|
      invariant |items| == k && previous == Previous(items, k, headerEnd) && Spans(tokens, raw, items, headerEnd)
      invariant forall j :: 0 <= j < k ==> items[j].selector == selectors[j]
    {
      var w := raw[k];
      assert w in raw;
      var item := RustItem(selectors[k], w.head.kind, w.head.name, previous, tokens[w.first].start, tokens[w.last].end);
      SpansMore(tokens, raw, items, headerEnd, item);
      items := items + [item];
      previous := item.end;
    }
  }

  predicate Within(item: RustItem, p: nat) { item.start <= p < item.end }

  ghost predicate Tiled(items: seq<RustItem>, headerEnd: nat) {
    && (forall k :: 0 <= k < |items| ==> items[k].start <= items[k].coreStart < items[k].end)
    && (forall k: nat :: k < |items| ==> Follows(items, k, headerEnd))
  }

  lemma CoreFollows(source: string, tokens: seq<Token>, raw: seq<Raw>, items: seq<RustItem>, headerEnd: nat, k: nat)
    requires Ordered(tokens, source) && Ascends(raw) && Spans(tokens, raw, items, headerEnd) && k < |items|
    ensures items[k].coreStart < items[k].end <= |source| && (k > 0 ==> items[k].start <= items[k].coreStart)
  {
    assert SpanOf(tokens, raw[k], items[k]);
    assert tokens[raw[k].first].end <= tokens[raw[k].last].start;
    if k > 0 {
      assert SpanOf(tokens, raw[k - 1], items[k - 1]) && raw[k - 1].last < raw[k].first;
      assert Follows(items, k, headerEnd);
    }
  }

  /** The spans tile the file behind the header exactly when the header ends before the first item. */
  lemma TilesExactly(source: string, tokens: seq<Token>, raw: seq<Raw>, items: seq<RustItem>, headerEnd: nat)
    requires Ordered(tokens, source) && Ascends(raw) && Spans(tokens, raw, items, headerEnd)
    ensures Tiled(items, headerEnd) <==> (items != [] ==> headerEnd <= items[0].coreStart)
  {
    forall k | 0 <= k < |items|
      ensures items[k].coreStart < items[k].end && (k > 0 ==> items[k].start <= items[k].coreStart)
    {
      CoreFollows(source, tokens, raw, items, headerEnd, k);
    }
    if items != [] { assert Follows(items, 0, headerEnd); }
  }

  /**
   Wherever the header ends, each span begins where the one before it ended, and holds its core from
   the second on.
   */
  ghost predicate Chained(items: seq<RustItem>, headerEnd: nat) {
    && (forall k :: 0 <= k < |items| ==>
          items[k].coreStart < items[k].end && (k > 0 ==> items[k].start <= items[k].coreStart))
    && (forall k: nat :: k < |items| ==> Follows(items, k, headerEnd))
  }

  lemma SpansAreChained(source: string, tokens: seq<Token>, raw: seq<Raw>, items: seq<RustItem>, headerEnd: nat)
    requires Ordered(tokens, source) && Ascends(raw) && Spans(tokens, raw, items, headerEnd)
    ensures Chained(items, headerEnd)
  {
    forall k | 0 <= k < |items|
      ensures items[k].coreStart < items[k].end && (k > 0 ==> items[k].start <= items[k].coreStart)
    {
      CoreFollows(source, tokens, raw, items, headerEnd, k);
    }
  }

  lemma {:induction false} ChainAscends(items: seq<RustItem>, headerEnd: nat, i: nat, j: nat)
    requires Chained(items, headerEnd) && i < j < |items|
    ensures items[i].end <= items[j].start
    decreases j
  {
    assert Follows(items, j, headerEnd);
    if i + 1 < j { ChainAscends(items, headerEnd, i, j - 1); }
  }

  /** Tiling: every position from the header to the last end is in one span, and in no other. */
  lemma {:induction false} TileCovers(items: seq<RustItem>, headerEnd: nat, n: nat, p: nat)
    requires Tiled(items, headerEnd) && 0 < n <= |items| && headerEnd <= p < items[n - 1].end
    ensures exists k :: 0 <= k < n && Within(items[k], p)
    ensures forall j, k :: 0 <= j < |items| && 0 <= k < |items| && Within(items[j], p) && Within(items[k], p) ==> j == k
  {
    assert Follows(items, n - 1, headerEnd);
    if items[n - 1].start <= p {
      assert Within(items[n - 1], p);
    } else {
      TileCovers(items, headerEnd, n - 1, p);
    }
    forall j, k | 0 <= j < |items| && 0 <= k < |items| && Within(items[j], p) && Within(items[k], p) ensures j == k {
      if j < k { ChainAscends(items, headerEnd, j, k); }
      if k < j { ChainAscends(items, headerEnd, k, j); }
    }
  }

  /** Every item's span holds a character that is not white space. */
  lemma CoreIsText(source: string, cls: Classes, pieces: seq<Piece>, tokens: seq<Token>, i: nat)
    requires Lexed(source, cls, pieces, |source|) && InSource(source, pieces) && tokens == TokensOf(source, pieces)
      && i < |tokens|
    ensures tokens[i].start < |source| && !cls.isSpace(source[tokens[i].start])
  {
    var sites := TokenSites(source, pieces);
    var p := pieces[sites[i]];
    assert p in pieces && IsNext(source, cls, p);
  }

  datatype Refusal = LexerWarnings | UnendedItem

  /** What holds of the finished list: selectors, spans, and cores outside white space. */
  ghost predicate Finished(source: string, cls: Classes, raw: seq<Raw>, items: seq<RustItem>, headerEnd: nat) {
    && |items| == |raw| && (forall k :: 0 <= k < |items| ==> items[k].selector == Selector(Bases(raw), k))
    // Selectors identify the items, unless a macro is defined under a token with a hash sign.
    && (HashFree(raw) ==> forall i, j :: 0 <= i < j < |items| ==> items[i].selector != items[j].selector)
    && Chained(items, headerEnd) && (Tiled(items, headerEnd) <==> (items != [] ==> headerEnd <= items[0].coreStart))
    && (forall k :: 0 <= k < |items| ==> items[k].end <= |source| && !cls.isSpace(source[items[k].coreStart]))
  }

  lemma FinishedList(source: string, cls: Classes, pieces: seq<Piece>, tokens: seq<Token>, raw: seq<Raw>,
      items: seq<RustItem>, headerEnd: nat)
    requires Lexed(source, cls, pieces, |source|) && InSource(source, pieces) && tokens == TokensOf(source, pieces)
    requires Ordered(tokens, source) && Ascends(raw) && Spans(tokens, raw, items, headerEnd) && |items| == |raw|
    requires forall k :: 0 <= k < |items| ==> items[k].selector == Selector(Bases(raw), k)
    ensures Finished(source, cls, raw, items, headerEnd)
  {
    TilesExactly(source, tokens, raw, items, headerEnd);
    SpansAreChained(source, tokens, raw, items, headerEnd);
    InventoryDiffers(raw, items);
    CoresAreText(source, cls, pieces, tokens, raw, items, headerEnd);
  }

  /** `inventory`; where the inner header ends is an input. */
  method Inventory(source: string, cls: Classes, headerEnd: nat)
    returns (r: Result<seq<RustItem>, Refusal>, ghost pieces: seq<Piece>, ghost pairs: Pairs, ghost raw: seq<Raw>)
    ensures Lexed(source, cls, pieces, |source|) && InSource(source, pieces)
    ensures r.Err? <==> Unclean(source, pieces) || Unended(source, pieces, pairs)
    ensures r == Err(LexerWarnings) <==> Unclean(source, pieces)
    ensures !Unclean(source, pieces) ==> AllPaired(MarksOf(TokensOf(source, pieces)), pairs)
    ensures r.Ok? ==> Listed(source, cls, pieces, pairs, raw, r.value, headerEnd)
  {
    var tokens, comments, warnings, lexed := LexRust(source, cls);
    pieces, pairs, raw := lexed, map[], [];
    var paired, unpaired := DelimiterPairs(tokens);
    pairs := paired;
    if warnings != [] || unpaired != [] { return Err(LexerWarnings), pieces, pairs, raw; }
    var ms := MarksOf(tokens);
    var ds := Depths(ms);
    var found := ScanItems(source, tokens, ms, ds, paired);
    if found.None? { return Err(UnendedItem), pieces, pairs, raw; }
    raw := found.value;
    var selectors := Label(found.value);
    var items := Assemble(tokens, found.value, selectors, headerEnd);
    FinishedList(source, cls, pieces, tokens, raw, items, headerEnd);
    r := Ok(items);
  }

  /** The lexer or the bracket matching has something to report. */
  ghost predicate Unclean(source: string, pieces: seq<Piece>)
    requires InSource(source, pieces)
  {
    WarningsOf(pieces) != [] || !Balanced(Brackets(MarksOf(TokensOf(source, pieces))))
  }

  ghost predicate Unended(source: string, pieces: seq<Piece>, pairs: Pairs)
    requires InSource(source, pieces)
  {
    Stuck(TokensOf(source, pieces), MarksOf(TokensOf(source, pieces)), pairs)
  }

  /** What an inventory that is not refused lists. */
  ghost predicate Listed(source: string, cls: Classes, pieces: seq<Piece>, pairs: Pairs, raw: seq<Raw>,
      items: seq<RustItem>, headerEnd: nat)
    requires InSource(source, pieces)
  {
    var tokens := TokensOf(source, pieces);
    && Inventoried(tokens, MarksOf(tokens), pairs, raw, |tokens|)
    && |items| == |raw| && Spans(tokens, raw, items, headerEnd) && Finished(source, cls, raw, items, headerEnd)
  }

  lemma CoresAreText(source: string, cls: Classes, pieces: seq<Piece>, tokens: seq<Token>, raw: seq<Raw>,
      items: seq<RustItem>, headerEnd: nat)
    requires Lexed(source, cls, pieces, |source|) && InSource(source, pieces) && tokens == TokensOf(source, pieces)
    requires Ordered(tokens, source) && Ascends(raw) && Spans(tokens, raw, items, headerEnd)
    ensures forall k :: 0 <= k < |items| ==>
      items[k].coreStart < items[k].end <= |source| && !cls.isSpace(source[items[k].coreStart])
  {
    forall k | 0 <= k < |items|
      ensures items[k].coreStart < items[k].end <= |source| && !cls.isSpace(source[items[k].coreStart])
    {
      CoreFollows(source, tokens, raw, items, headerEnd, k);
      assert SpanOf(tokens, raw[k], items[k]);
      CoreIsText(source, cls, pieces, tokens, raw[k].first);
    }
  }
}
