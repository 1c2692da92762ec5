/**
 Expanding `use` declarations. The token scans are functions of positions; a
 `use` tree is spelled by the tokens at a position, and expanding the tokens
 gives the leaves of the tree.
 */
module UseTree {
  import opened Wrappers
  import opened RustLexer
  import opened Delimiters

  /** What the scans see of a token; `Delimiters.Shape` tells the brackets apart. */
  datatype Word = Name(text: string) | As | Star | Colon | Comma | Opening(shape: Shape) | Closing(shape: Shape) | Other

  /** An identifier is a name even where it is spelled like a keyword, except for `as`. */
  function WordOf(t: Token): Word {
    if t.kind == Ident then (if t.text == "as" then As else Name(t.text))
    else if t.text == "*" then Star
    else if t.text == ":" then Colon
    else if t.text == "," then Comma
    else if t.text == "(" then Opening(Round)
    else if t.text == "[" then Opening(Square)
    else if t.text == "{" then Opening(Curly)
    else if t.text == ")" then Closing(Round)
    else if t.text == "]" then Closing(Square)
    else if t.text == "}" then Closing(Curly)
    else Other
  }

  function Words(tokens: seq<Token>): (ws: seq<Word>)
    ensures |ws| == |tokens| && forall i :: 0 <= i < |ws| ==> ws[i] == WordOf(tokens[i])
  {
    seq(|tokens|, i requires 0 <= i < |tokens| => WordOf(tokens[i]))
  }

  datatype Range = Range(left: nat, right: nat)

  type Names = seq<string>

  // ---------------------------------------------------------------- the scans

  function Stack(stack: seq<Shape>, w: Word): seq<Shape> {
    if w.Opening? then stack + [w.shape]
    else if w.Closing? && stack != [] && w.shape == stack[|stack| - 1] then stack[..|stack| - 1]
    else stack
  }

  function NonEmpty(left: nat, right: nat): seq<Range> { if left < right then [Range(left, right)] else [] }

  /** The non-empty pieces between the commas that stand outside every bracket. */
  function Splits(ws: seq<Word>, i: nat, end: nat, segment: nat, stack: seq<Shape>): (r: seq<Range>)
    requires i <= end <= |ws| && segment <= i
    ensures forall p :: p in r ==> segment <= p.left < p.right <= end
    decreases end - i
  {
    if i == end then NonEmpty(segment, end)
    else if ws[i].Comma? && stack == [] then NonEmpty(segment, i) + Splits(ws, i + 1, end, i + 1, [])
    else Splits(ws, i + 1, end, segment, Stack(stack, ws[i]))
  }

  /** The first opening brace outside every bracket. */
  function FindOpen(ws: seq<Word>, i: nat, right: nat, stack: seq<Shape>): (r: Option<nat>)
    requires i <= right <= |ws|
    ensures r.Some? ==> i <= r.value < right
    decreases right - i
  {
    if i == right then None
    else if ws[i] == Opening(Curly) && stack == [] then Some(i)
    else FindOpen(ws, i + 1, right, Stack(stack, ws[i]))
  }

  /** Behind the brace that closes `depth` open ones, or the end and what is still open there. */
  function Braces(ws: seq<Word>, c: nat, right: nat, depth: nat): (r: (nat, nat))
    requires c <= right <= |ws|
    ensures c <= r.0 <= right && (r.1 > 0 ==> r.0 == right) && (depth > 0 && r.1 == 0 ==> c < r.0)
    decreases right - c
  {
    if c == right || depth == 0 then (c, depth)
    else if ws[c] == Opening(Curly) then Braces(ws, c + 1, right, depth + 1)
    else Braces(ws, c + 1, right, if ws[c] == Closing(Curly) then depth - 1 else depth)
  }

  function GroupClose(ws: seq<Word>, open: nat, right: nat): (close: nat)
    requires open < right <= |ws|
    ensures open + 1 <= close <= right
  {
    var b := Braces(ws, open + 1, right, 1);
    if b.1 == 0 then b.0 - 1 else right
  }

  /** The segments of a path, up to an alias. */
  function PathFrom(ws: seq<Word>, i: nat, end: nat, wanting: bool): Names
    requires i <= end <= |ws|
    decreases end - i
  {
    if i == end || ws[i].As? then []
    else if wanting && ws[i].Name? then [Unraw(ws[i].text)] + PathFrom(ws, i + 1, end, false)
    else if ws[i].Star? && wanting then PathFrom(ws, i + 1, end, false)
    else if ws[i].Colon? && i + 1 < end && ws[i + 1].Colon? then PathFrom(ws, i + 2, end, true)
    else PathFrom(ws, i + 1, end, wanting)
  }

  /** A leaf path: a final `self` names the prefix, and an empty path is nothing. */
  function Finished(p: Names): seq<Names> {
    var q := if p != [] && p[|p| - 1] == "self" then p[..|p| - 1] else p;
    if q == [] then [] else [q]
  }

  function Expand(ws: seq<Word>, start: nat, end: nat, prefix: Names): seq<Names>
    requires start <= end <= |ws|
    decreases end - start, 2, 0
  {
    ExpandEach(ws, Splits(ws, start, end, start, []), end - start, prefix)
  }

  function ExpandEach(ws: seq<Word>, pieces: seq<Range>, n: nat, prefix: Names): seq<Names>
    requires forall p :: p in pieces ==> p.left < p.right <= |ws| && p.right - p.left <= n
    decreases n, 1, |pieces|
  {
    if pieces == [] then []
    else ExpandPiece(ws, pieces[0].left, pieces[0].right, prefix) + ExpandEach(ws, pieces[1..], n, prefix)
  }

  function ExpandPiece(ws: seq<Word>, left: nat, right: nat, prefix: Names): seq<Names>
    requires left < right <= |ws|
    decreases right - left, 0, 0
  {
    var open := FindOpen(ws, left, right, []);
    if open.Some? then
      Expand(ws, open.value + 1, GroupClose(ws, open.value, right), prefix + PathFrom(ws, left, open.value, true))
    else Finished(prefix + PathFrom(ws, left, right, true))
  }

  // ---------------------------------------------------------------- use trees

  datatype Tree = Tree(rooted: bool, path: Names, tail: Tail)

  datatype Tail = Leaf | Alias(name: string) | Glob | Group(trees: Trees, trailing: bool)

  datatype Trees = Nil | Cons(head: Tree, rest: Trees)

  /** Trees the grammar allows: a leaf has a path, and a trailing comma follows something. */
  predicate Proper(t: Tree) {
    && (t.tail.Leaf? || t.tail.Alias? ==> t.path != [])
    && (t.tail.Group? ==> ProperAll(t.tail.trees) && (t.tail.trailing ==> t.tail.trees.Cons?))
  }

  predicate ProperAll(ts: Trees) { ts.Cons? ==> Proper(ts.head) && ProperAll(ts.rest) }

  function Colons(): seq<Word> { [Colon, Colon] }

  function PrintPath(path: Names): seq<Word> {
    if path == [] then []
    else if |path| == 1 then [Name(path[0])]
    else [Name(path[0])] + Colons() + PrintPath(path[1..])
  }

  /** A path and the separator before a glob or a group. */
  function PrintHead(t: Tree): seq<Word> {
    (if t.rooted then Colons() else []) + PrintPath(t.path) +
    (if (t.tail.Glob? || t.tail.Group?) && t.path != [] then Colons() else [])
  }

  function Print(t: Tree): seq<Word> {
    PrintHead(t) + PrintTail(t.tail)
  }

  function PrintTail(tail: Tail): seq<Word> {
    match tail
    case Leaf => []
    case Alias(name) => [As, Name(name)]
    case Glob => [Star]
    case Group(trees, trailing) => [Opening(Curly)] + PrintAll(trees, trailing) + [Closing(Curly)]
  }

  function PrintAll(ts: Trees, trailing: bool): seq<Word> {
    match ts
    case Nil => []
    case Cons(t, rest) => Print(t) + PrintMore(rest, trailing)
  }

  function PrintMore(ts: Trees, trailing: bool): seq<Word> {
    match ts
    case Nil => if trailing then [Comma] else []
    case Cons(t, rest) => [Comma] + Print(t) + PrintMore(rest, trailing)
  }

  function Bare(path: Names): Names {
    if path == [] then [] else [Unraw(path[0])] + Bare(path[1..])
  }

  /** The full paths a tree brings into scope, in order. */
  function Leaves(t: Tree, prefix: Names): seq<Names> {
    var p := prefix + Bare(t.path);
    if t.tail.Group? then LeavesAll(t.tail.trees, p) else Finished(p)
  }

  function LeavesAll(ts: Trees, prefix: Names): seq<Names> {
    match ts
    case Nil => []
    case Cons(t, rest) => Leaves(t, prefix) + LeavesAll(rest, prefix)
  }

  // ---------------------------------------------------------------- trees at a position

  function PathSize(path: Names): nat { if path == [] then 0 else 3 * |path| - 2 }

  predicate Parted(t: Tree) { (t.tail.Glob? || t.tail.Group?) && t.path != [] }

  function RootSize(t: Tree): nat { if t.rooted then 2 else 0 }

  function HeadSize(t: Tree): nat { RootSize(t) + PathSize(t.path) + if Parted(t) then 2 else 0 }

  function Size(t: Tree): nat { HeadSize(t) + TailSize(t.tail) }

  function TailSize(tail: Tail): nat {
    match tail
    case Leaf => 0
    case Alias(_) => 2
    case Glob => 1
    case Group(trees, trailing) => 2 + AllSize(trees, trailing)
  }

  function AllSize(ts: Trees, trailing: bool): nat {
    match ts
    case Nil => 0
    case Cons(t, rest) => Size(t) + MoreSize(rest, trailing)
  }

  function MoreSize(ts: Trees, trailing: bool): nat {
    match ts
    case Nil => if trailing then 1 else 0
    case Cons(t, rest) => 1 + Size(t) + MoreSize(rest, trailing)
  }

  predicate ColonsAt(ws: seq<Word>, a: nat) { a + 2 <= |ws| && ws[a] == Colon && ws[a + 1] == Colon }

  predicate PathAt(ws: seq<Word>, a: nat, path: Names)
    decreases |path|
  {
    path != [] ==>
      && a < |ws| && ws[a] == Name(path[0])
      && (|path| > 1 ==> ColonsAt(ws, a + 1) && PathAt(ws, a + 3, path[1..]))
  }

  predicate HeadAt(ws: seq<Word>, a: nat, t: Tree) {
    && (t.rooted ==> ColonsAt(ws, a)) && PathAt(ws, a + RootSize(t), t.path)
    && (Parted(t) ==> ColonsAt(ws, a + RootSize(t) + PathSize(t.path)))
  }

  /** The words from `a` on spell the tree. */
  predicate TreeAt(ws: seq<Word>, a: nat, t: Tree)
    decreases t
  {
    HeadAt(ws, a, t) && TailAt(ws, a + HeadSize(t), t.tail)
  }

  predicate TailAt(ws: seq<Word>, a: nat, tail: Tail)
    decreases tail
  {
    match tail
    case Leaf => a <= |ws|
    case Alias(name) => a + 2 <= |ws| && ws[a] == As && ws[a + 1] == Name(name)
    case Glob => a < |ws| && ws[a] == Star
    case Group(trees, trailing) =>
      var c := a + 1 + AllSize(trees, trailing);
      c < |ws| && ws[a] == Opening(Curly) && AllAt(ws, a + 1, trees, trailing) && ws[c] == Closing(Curly)
  }

  predicate AllAt(ws: seq<Word>, a: nat, ts: Trees, trailing: bool)
    decreases ts
  {
    match ts
    case Nil => a <= |ws|
    case Cons(t, rest) => TreeAt(ws, a, t) && MoreAt(ws, a + Size(t), rest, trailing)
  }

  predicate MoreAt(ws: seq<Word>, a: nat, ts: Trees, trailing: bool)
    decreases ts
  {
    match ts
    case Nil => a <= |ws| && (trailing ==> a < |ws| && ws[a] == Comma)
    case Cons(t, rest) =>
      a < |ws| && ws[a] == Comma && TreeAt(ws, a + 1, t) && MoreAt(ws, a + 1 + Size(t), rest, trailing)
  }

  predicate Plain(w: Word) { !w.Comma? && !w.Opening? && !w.Closing? }

  predicate Quiet(ws: seq<Word>, a: nat, b: nat) {
    a <= b <= |ws| && forall k :: a <= k < b ==> Plain(ws[k])
  }

  lemma {:induction false} PathIsQuiet(ws: seq<Word>, a: nat, path: Names)
    requires PathAt(ws, a, path) && a <= |ws|
    ensures Quiet(ws, a, a + PathSize(path))
    decreases |path|
  {
    if |path| > 1 {
      PathIsQuiet(ws, a + 3, path[1..]);
      assert PathSize(path) == 3 + PathSize(path[1..]);
    }
  }

  lemma HeadIsQuiet(ws: seq<Word>, a: nat, t: Tree)
    requires HeadAt(ws, a, t) && a <= |ws|
    ensures Quiet(ws, a, a + HeadSize(t))
  {
    PathIsQuiet(ws, a + RootSize(t), t.path);
  }

  lemma LeafIsQuiet(ws: seq<Word>, a: nat, t: Tree)
    requires TreeAt(ws, a, t) && a <= |ws| && !t.tail.Group?
    ensures Quiet(ws, a, a + Size(t))
  {
    HeadIsQuiet(ws, a, t);
    QuietTail(ws, a + HeadSize(t), t.tail);
  }

  lemma QuietTail(ws: seq<Word>, h: nat, tail: Tail)
    requires TailAt(ws, h, tail) && !tail.Group?
    ensures Quiet(ws, h, h + TailSize(tail))
  {}

  // ---------------------------------------------------------------- what the bracket scans pass over

  /** Marks the positions that the statements below are used at. */
  ghost predicate UpTo(end: nat) { true }

  /** Inside the range no piece ends, and the brackets open before it are those open behind it. */
  ghost predicate Skips(ws: seq<Word>, r: Range, stack: seq<Shape>) {
    match r case Range(a, b) =>
      a <= b <= |ws|
      && forall end: nat, segment: nat {:trigger UpTo(end), UpTo(segment)} :: b <= end <= |ws| && segment <= a ==>
        Splits(ws, a, end, segment, stack) == Splits(ws, b, end, segment, stack)
  }

  /** Inside the range every brace that opens is closed. */
  ghost predicate Nests(ws: seq<Word>, r: Range, depth: nat) {
    match r case Range(a, b) =>
      a <= b <= |ws| && forall right: nat {:trigger UpTo(right)} :: b <= right <= |ws| ==>
        Braces(ws, a, right, depth) == Braces(ws, b, right, depth)
  }

  lemma SkipsTwice(ws: seq<Word>, a: nat, b: nat, c: nat, stack: seq<Shape>)
    requires Skips(ws, Range(a, b), stack) && Skips(ws, Range(b, c), stack)
    ensures Skips(ws, Range(a, c), stack)
  {
    forall end: nat, segment: nat | c <= end <= |ws| && segment <= a
      ensures Splits(ws, a, end, segment, stack) == Splits(ws, c, end, segment, stack)
    {
      assert UpTo(end) && UpTo(segment);
    }
  }

  lemma NestsTwice(ws: seq<Word>, a: nat, b: nat, c: nat, depth: nat)
    requires Nests(ws, Range(a, b), depth) && Nests(ws, Range(b, c), depth)
    ensures Nests(ws, Range(a, c), depth)
  {
    forall right: nat | c <= right <= |ws| ensures Braces(ws, a, right, depth) == Braces(ws, c, right, depth) {
      assert UpTo(right);
    }
  }

  lemma {:induction false} SplitsQuiet(ws: seq<Word>, a: nat, b: nat, end: nat, segment: nat, stack: seq<Shape>)
    requires Quiet(ws, a, b) && b <= end <= |ws| && segment <= a
    ensures Splits(ws, a, end, segment, stack) == Splits(ws, b, end, segment, stack)
    decreases b - a
  {
    if a < b { SplitsQuiet(ws, a + 1, b, end, segment, stack); }
  }

  lemma {:induction false} BracesQuiet(ws: seq<Word>, a: nat, b: nat, right: nat, depth: nat)
    requires Quiet(ws, a, b) && b <= right <= |ws| && depth > 0
    ensures Braces(ws, a, right, depth) == Braces(ws, b, right, depth)
    decreases b - a
  {
    if a < b { BracesQuiet(ws, a + 1, b, right, depth); }
  }

  lemma SkipsQuiet(ws: seq<Word>, a: nat, b: nat, stack: seq<Shape>)
    requires Quiet(ws, a, b)
    ensures Skips(ws, Range(a, b), stack)
  {
    forall end: nat, segment: nat | b <= end <= |ws| && segment <= a
      ensures Splits(ws, a, end, segment, stack) == Splits(ws, b, end, segment, stack)
    {
      SplitsQuiet(ws, a, b, end, segment, stack);
    }
  }

  lemma NestsQuiet(ws: seq<Word>, a: nat, b: nat, depth: nat)
    requires Quiet(ws, a, b) && depth > 0
    ensures Nests(ws, Range(a, b), depth)
  {
    forall right: nat | b <= right <= |ws| ensures Braces(ws, a, right, depth) == Braces(ws, b, right, depth) {
      BracesQuiet(ws, a, b, right, depth);
    }
  }

  lemma OpenStep(ws: seq<Word>, a: nat, right: nat)
    requires a < right <= |ws| && Plain(ws[a])
    ensures FindOpen(ws, a, right, []) == FindOpen(ws, a + 1, right, [])
  {}

  lemma {:induction false} OpenQuiet(ws: seq<Word>, a: nat, b: nat, right: nat)
    requires Quiet(ws, a, b) && b <= right <= |ws|
    ensures FindOpen(ws, a, right, []) == FindOpen(ws, b, right, [])
    decreases b - a
  {
    if a < b {
      OpenStep(ws, a, right);
      OpenQuiet(ws, a + 1, b, right);
    }
  }

  lemma SkipsComma(ws: seq<Word>, a: nat, stack: seq<Shape>)
    requires a < |ws| && ws[a] == Comma && stack != []
    ensures Skips(ws, Range(a, a + 1), stack)
  {
    forall end: nat, segment: nat | a + 1 <= end <= |ws| && segment <= a
      ensures Splits(ws, a, end, segment, stack) == Splits(ws, a + 1, end, segment, stack) {}
  }

  lemma NestsComma(ws: seq<Word>, a: nat, depth: nat)
    requires a < |ws| && ws[a] == Comma && depth > 0
    ensures Nests(ws, Range(a, a + 1), depth)
  {
    forall right: nat | a + 1 <= right <= |ws| ensures Braces(ws, a, right, depth) == Braces(ws, a + 1, right, depth) {}
  }

  lemma SkipsWrap(ws: seq<Word>, g: nat, c: nat, stack: seq<Shape>)
    requires g < c < |ws| && ws[g] == Opening(Curly) && ws[c] == Closing(Curly)
      && Skips(ws, Range(g + 1, c), stack + [Curly])
    ensures Skips(ws, Range(g, c + 1), stack)
  {
    assert Stack(stack + [Curly], Closing(Curly)) == stack;
    forall end: nat, segment: nat | c + 1 <= end <= |ws| && segment <= g
      ensures Splits(ws, g, end, segment, stack) == Splits(ws, c + 1, end, segment, stack)
    {
      assert UpTo(end) && UpTo(segment);
      assert Splits(ws, g, end, segment, stack) == Splits(ws, g + 1, end, segment, stack + [Curly]);
      assert Splits(ws, c, end, segment, stack + [Curly]) == Splits(ws, c + 1, end, segment, stack);
    }
  }

  lemma BraceStep(ws: seq<Word>, i: nat, right: nat, depth: nat)
    requires i < right <= |ws| && depth > 0
    ensures ws[i] == Opening(Curly) ==> Braces(ws, i, right, depth) == Braces(ws, i + 1, right, depth + 1)
    ensures ws[i] == Closing(Curly) ==> Braces(ws, i, right, depth) == Braces(ws, i + 1, right, depth - 1)
  {}

  lemma NestsWrap(ws: seq<Word>, g: nat, c: nat, depth: nat)
    requires g < c < |ws| && ws[g] == Opening(Curly) && ws[c] == Closing(Curly) && depth > 0
      && Nests(ws, Range(g + 1, c), depth + 1)
    ensures Nests(ws, Range(g, c + 1), depth)
  {
    forall right: nat | c + 1 <= right <= |ws| ensures Braces(ws, g, right, depth) == Braces(ws, c + 1, right, depth) {
      assert UpTo(right);
      BraceStep(ws, g, right, depth);
      BraceStep(ws, c, right, depth + 1);
    }
  }

  // ---------------------------------------------------------------- a tree closes every bracket it opens

  lemma TailInside(ws: seq<Word>, a: nat, tail: Tail)
    requires TailAt(ws, a, tail)
    ensures a + TailSize(tail) <= |ws|
  {}

  lemma HeadSkips(ws: seq<Word>, a: nat, t: Tree, stack: seq<Shape>)
    requires HeadAt(ws, a, t) && a <= |ws|
    ensures Skips(ws, Range(a, a + HeadSize(t)), stack)
  {
    HeadIsQuiet(ws, a, t);
    SkipsQuiet(ws, a, a + HeadSize(t), stack);
  }

  lemma {:induction false} TreeSkips(ws: seq<Word>, a: nat, t: Tree, stack: seq<Shape>)
    requires TreeAt(ws, a, t)
    ensures Skips(ws, Range(a, a + Size(t)), stack)
    decreases t
  {
    var g := a + HeadSize(t);
    TailInside(ws, g, t.tail);
    HeadSkips(ws, a, t, stack);
    TailSkips(ws, g, t.tail, stack);
    SkipsTwice(ws, a, g, g + TailSize(t.tail), stack);
  }

  lemma {:induction false} TailSkips(ws: seq<Word>, g: nat, tail: Tail, stack: seq<Shape>)
    requires TailAt(ws, g, tail)
    ensures Skips(ws, Range(g, g + TailSize(tail)), stack)
    decreases tail
  {
    if tail.Group? {
      AllSkips(ws, g + 1, tail.trees, tail.trailing, stack + [Curly]);
      SkipsWrap(ws, g, g + 1 + AllSize(tail.trees, tail.trailing), stack);
    } else {
      QuietTail(ws, g, tail);
      SkipsQuiet(ws, g, g + TailSize(tail), stack);
    }
  }

  lemma {:induction false} AllSkips(ws: seq<Word>, a: nat, ts: Trees, trailing: bool, stack: seq<Shape>)
    requires AllAt(ws, a, ts, trailing) && stack != []
    ensures Skips(ws, Range(a, a + AllSize(ts, trailing)), stack)
    decreases ts
  {
    if ts.Cons? {
      TreeSkips(ws, a, ts.head, stack);
      MoreSkips(ws, a + Size(ts.head), ts.rest, trailing, stack);
      SkipsTwice(ws, a, a + Size(ts.head), a + AllSize(ts, trailing), stack);
    }
  }

  lemma {:induction false} MoreSkips(ws: seq<Word>, a: nat, ts: Trees, trailing: bool, stack: seq<Shape>)
    requires MoreAt(ws, a, ts, trailing) && stack != []
    ensures Skips(ws, Range(a, a + MoreSize(ts, trailing)), stack)
    decreases ts
  {
    if ts.Cons? {
      var m := a + 1 + Size(ts.head);
      SkipsComma(ws, a, stack);
      TreeSkips(ws, a + 1, ts.head, stack);
      MoreSkips(ws, m, ts.rest, trailing, stack);
      SkipsTwice(ws, a, a + 1, m, stack);
      SkipsTwice(ws, a, m, a + MoreSize(ts, trailing), stack);
    } else if trailing {
      SkipsComma(ws, a, stack);
    }
  }

  lemma HeadNests(ws: seq<Word>, a: nat, t: Tree, depth: nat)
    requires HeadAt(ws, a, t) && a <= |ws| && depth > 0
    ensures Nests(ws, Range(a, a + HeadSize(t)), depth)
  {
    HeadIsQuiet(ws, a, t);
    NestsQuiet(ws, a, a + HeadSize(t), depth);
  }

  lemma {:induction false} TreeNests(ws: seq<Word>, a: nat, t: Tree, depth: nat)
    requires TreeAt(ws, a, t) && depth > 0
    ensures Nests(ws, Range(a, a + Size(t)), depth)
    decreases t
  {
    var g := a + HeadSize(t);
    TailInside(ws, g, t.tail);
    HeadNests(ws, a, t, depth);
    TailNests(ws, g, t.tail, depth);
    NestsTwice(ws, a, g, g + TailSize(t.tail), depth);
  }

  lemma {:induction false} TailNests(ws: seq<Word>, g: nat, tail: Tail, depth: nat)
    requires TailAt(ws, g, tail) && depth > 0
    ensures Nests(ws, Range(g, g + TailSize(tail)), depth)
    decreases tail
  {
    if tail.Group? {
      AllNests(ws, g + 1, tail.trees, tail.trailing, depth + 1);
      NestsWrap(ws, g, g + 1 + AllSize(tail.trees, tail.trailing), depth);
    } else {
      QuietTail(ws, g, tail);
      NestsQuiet(ws, g, g + TailSize(tail), depth);
    }
  }

  lemma {:induction false} AllNests(ws: seq<Word>, a: nat, ts: Trees, trailing: bool, depth: nat)
    requires AllAt(ws, a, ts, trailing) && depth > 0
    ensures Nests(ws, Range(a, a + AllSize(ts, trailing)), depth)
    decreases ts
  {
    if ts.Cons? {
      TreeNests(ws, a, ts.head, depth);
      MoreNests(ws, a + Size(ts.head), ts.rest, trailing, depth);
      NestsTwice(ws, a, a + Size(ts.head), a + AllSize(ts, trailing), depth);
    }
  }

  lemma {:induction false} MoreNests(ws: seq<Word>, a: nat, ts: Trees, trailing: bool, depth: nat)
    requires MoreAt(ws, a, ts, trailing) && depth > 0
    ensures Nests(ws, Range(a, a + MoreSize(ts, trailing)), depth)
    decreases ts
  {
    if ts.Cons? {
      var m := a + 1 + Size(ts.head);
      NestsComma(ws, a, depth);
      TreeNests(ws, a + 1, ts.head, depth);
      MoreNests(ws, m, ts.rest, trailing, depth);
      NestsTwice(ws, a, a + 1, m, depth);
      NestsTwice(ws, a, m, a + MoreSize(ts, trailing), depth);
    } else if trailing {
      NestsComma(ws, a, depth);
    }
  }

  // ---------------------------------------------------------------- the segments of a path

  lemma ColonsRead(ws: seq<Word>, a: nat, end: nat, wanting: bool)
    requires ColonsAt(ws, a) && a + 2 <= end <= |ws|
    ensures PathFrom(ws, a, end, wanting) == PathFrom(ws, a + 2, end, true)
  {}

  lemma NameRead(ws: seq<Word>, a: nat, end: nat, x: string)
    requires a < end <= |ws| && ws[a] == Name(x)
    ensures PathFrom(ws, a, end, true) == [Unraw(x)] + PathFrom(ws, a + 1, end, false)
  {}

  lemma Glue(x: string, u: Names, v: Names)
    ensures [x] + (u + v) == ([x] + u) + v
  {}

  lemma {:induction false} PathRead(ws: seq<Word>, a: nat, path: Names, end: nat)
    requires PathAt(ws, a, path) && a + PathSize(path) <= end <= |ws| && path != []
    ensures PathFrom(ws, a, end, true) == Bare(path) + PathFrom(ws, a + PathSize(path), end, false)
    decreases |path|
  {
    var x := Unraw(path[0]);
    NameRead(ws, a, end, path[0]);
    if |path| == 1 {
      assert Bare(path) == [x] + Bare(path[1..]) == [x];
    } else {
      var behind := PathFrom(ws, a + PathSize(path), end, false);
      assert PathSize(path) == 3 + PathSize(path[1..]);
      ColonsRead(ws, a + 1, end, false);
      PathRead(ws, a + 3, path[1..], end);
      Glue(x, Bare(path[1..]), behind);
    }
  }

  /** Past the head of a tree the scan has its segments, and waits for one exactly before a glob or a group. */
  lemma HeadRead(ws: seq<Word>, a: nat, t: Tree, end: nat)
    requires HeadAt(ws, a, t) && a + HeadSize(t) <= end <= |ws| && (t.path == [] ==> t.tail.Glob? || t.tail.Group?)
    ensures PathFrom(ws, a, end, true)
      == Bare(t.path) + PathFrom(ws, a + HeadSize(t), end, t.tail.Glob? || t.tail.Group?)
  {
    var b := a + RootSize(t);
    if t.rooted { ColonsRead(ws, a, end, true); }
    if t.path != [] {
      PathRead(ws, b, t.path, end);
      if Parted(t) { ColonsRead(ws, b + PathSize(t.path), end, false); }
    }
  }

  lemma TailReads(ws: seq<Word>, h: nat, tail: Tail)
    requires !tail.Group? && TailAt(ws, h, tail) && h + TailSize(tail) <= |ws|
    ensures PathFrom(ws, h, h + TailSize(tail), tail.Glob?) == []
  {}

  lemma PieceIsLeaf(ws: seq<Word>, a: nat, t: Tree, prefix: Names)
    requires Proper(t) && !t.tail.Group? && TreeAt(ws, a, t) && Size(t) > 0 && a + Size(t) <= |ws|
    ensures ExpandPiece(ws, a, a + Size(t), prefix) == Leaves(t, prefix)
  {
    var h, end := a + HeadSize(t), a + Size(t);
    LeafIsQuiet(ws, a, t);
    OpenQuiet(ws, a, end, end);
    HeadRead(ws, a, t, end);
    TailReads(ws, h, t.tail);
    assert Bare(t.path) + [] == Bare(t.path);
  }

  // ---------------------------------------------------------------- the round trip

  /** The ranges of the trees of a list. */
  function RangesMore(a: nat, ts: Trees): seq<Range>
    decreases ts
  {
    match ts
    case Nil => []
    case Cons(t, rest) => [Range(a + 1, a + 1 + Size(t))] + RangesMore(a + 1 + Size(t), rest)
  }

  lemma SizePositive(t: Tree)
    requires Proper(t)
    ensures Size(t) > 0
  {}

  /** With the piece begun at `segment` still open at `a`, the rest of the range yields these pieces. */
  ghost predicate Cuts(ws: seq<Word>, segment: nat, a: nat, end: nat, pieces: seq<Range>) {
    segment < a <= end <= |ws| &&
    forall q: nat {:trigger UpTo(q)} :: q == segment ==> Splits(ws, a, end, q, []) == pieces
  }

  /** A comma outside every bracket ends a piece, and one tree makes the next. */
  lemma CutsNext(ws: seq<Word>, segment: nat, a: nat, m: nat, end: nat, rest: seq<Range>)
    requires segment < a && a + 1 < m <= end <= |ws| && ws[a] == Comma
    requires Skips(ws, Range(a + 1, m), []) && Cuts(ws, a + 1, m, end, rest)
    ensures Cuts(ws, segment, a, end, [Range(segment, a)] + rest)
  {
    forall q: nat | q == segment ensures Splits(ws, a, end, q, []) == [Range(segment, a)] + rest {
      SkipsTo(ws, a + 1, m, end);
      assert UpTo(a + 1);
    }
  }

  /** A piece that starts where words are passed over is still open behind them. */
  lemma SkipsTo(ws: seq<Word>, a: nat, m: nat, end: nat)
    requires Skips(ws, Range(a, m), []) && m <= end <= |ws|
    ensures Splits(ws, a, end, a, []) == Splits(ws, m, end, a, [])
  {
    assert UpTo(end) && UpTo(a);
  }

  lemma CutsLast(ws: seq<Word>, segment: nat, a: nat, end: nat)
    requires segment < a <= end <= |ws| && (a == end || (a + 1 == end && ws[a] == Comma))
    ensures Cuts(ws, segment, a, end, [Range(segment, a)])
  {
    forall q: nat | q == segment ensures Splits(ws, a, end, q, []) == [Range(segment, a)] {
      if a < end { assert Splits(ws, a, end, q, []) == [Range(q, a)] + Splits(ws, a + 1, end, a + 1, []); }
    }
  }

  lemma {:induction false} SplitsAreTrees(ws: seq<Word>, segment: nat, a: nat, ts: Trees, trailing: bool, end: nat)
    requires ProperAll(ts) && MoreAt(ws, a, ts, trailing) && segment < a && end == a + MoreSize(ts, trailing) <= |ws|
    ensures Cuts(ws, segment, a, end, [Range(segment, a)] + RangesMore(a, ts))
    decreases ts
  {
    if ts.Cons? {
      var m := a + 1 + Size(ts.head);
      SizePositive(ts.head);
      TreeSkips(ws, a + 1, ts.head, []);
      SplitsAreTrees(ws, a + 1, m, ts.rest, trailing, end);
      CutsNext(ws, segment, a, m, end, [Range(a + 1, m)] + RangesMore(m, ts.rest));
      assert RangesMore(a, ts) == [Range(a + 1, m)] + RangesMore(m, ts.rest);
    } else {
      CutsLast(ws, segment, a, end);
      assert [Range(segment, a)] + RangesMore(a, ts) == [Range(segment, a)];
    }
  }

  lemma {:induction false} RangesFit(a: nat, ts: Trees, trailing: bool)
    requires ProperAll(ts)
    ensures forall p :: p in RangesMore(a, ts) ==> a < p.left < p.right <= a + MoreSize(ts, trailing)
    decreases ts
  {
    if ts.Cons? {
      SizePositive(ts.head);
      RangesFit(a + 1 + Size(ts.head), ts.rest, trailing);
    }
  }

  ghost predicate Fit(ws: seq<Word>, pieces: seq<Range>, n: nat) {
    forall p :: p in pieces ==> p.left < p.right <= |ws| && p.right - p.left <= n
  }

  /** Marks the prefixes that the statements below are used at. */
  ghost predicate Under(prefix: Names) { true }

  /** The piece from `a` to `m` expands to the leaves of `t`. */
  ghost predicate Gives(ws: seq<Word>, r: Range, t: Tree) {
    match r case Range(a, m) =>
      a < m <= |ws| && forall prefix {:trigger Under(prefix)} :: ExpandPiece(ws, a, m, prefix) == Leaves(t, prefix)
  }

  ghost predicate GivesEach(ws: seq<Word>, pieces: seq<Range>, n: nat, ts: Trees) {
    Fit(ws, pieces, n) &&
    forall prefix {:trigger Under(prefix)} :: ExpandEach(ws, pieces, n, prefix) == LeavesAll(ts, prefix)
  }

  ghost predicate GivesAll(ws: seq<Word>, r: Range, ts: Trees) {
    match r case Range(a, end) =>
      a <= end <= |ws| &&
      forall prefix {:trigger Under(prefix)} :: Expand(ws, a, end, prefix) == LeavesAll(ts, prefix)
  }

  lemma EachFirst(ws: seq<Word>, a: nat, m: nat, rest: seq<Range>, n: nat, ts: Trees)
    requires ts.Cons? && Gives(ws, Range(a, m), ts.head) && GivesEach(ws, rest, n, ts.rest) && m - a <= n
    ensures GivesEach(ws, [Range(a, m)] + rest, n, ts)
  {
    var pieces := [Range(a, m)] + rest;
    assert pieces[0] == Range(a, m) && pieces[1..] == rest;
    forall prefix ensures ExpandEach(ws, pieces, n, prefix) == LeavesAll(ts, prefix) { assert Under(prefix); }
  }

  /** The pieces of a list of trees are the trees. */
  lemma ListSplits(ws: seq<Word>, a: nat, ts: Trees, trailing: bool, m: nat, end: nat)
    requires ts.Cons? && ProperAll(ts) && AllAt(ws, a, ts, trailing)
    requires m == a + Size(ts.head) && end == a + AllSize(ts, trailing) <= |ws|
    ensures a < m <= end && Splits(ws, a, end, a, []) == [Range(a, m)] + RangesMore(m, ts.rest)
  {
    SizePositive(ts.head);
    TreeSkips(ws, a, ts.head, []);
    SkipsTo(ws, a, m, end);
    SplitsAreTrees(ws, a, m, ts.rest, trailing, end);
    assert UpTo(a);
  }

  lemma ExpandIsEach(ws: seq<Word>, a: nat, end: nat, pieces: seq<Range>, ts: Trees)
    requires a <= end <= |ws| && Splits(ws, a, end, a, []) == pieces && GivesEach(ws, pieces, end - a, ts)
    ensures GivesAll(ws, Range(a, end), ts)
  {
    forall prefix ensures Expand(ws, a, end, prefix) == LeavesAll(ts, prefix) { assert Under(prefix); }
  }

  lemma AllParts(ws: seq<Word>, a: nat, ts: Trees, trailing: bool)
    requires ts.Cons? && ProperAll(ts) && AllAt(ws, a, ts, trailing) && a + AllSize(ts, trailing) <= |ws|
    ensures Proper(ts.head) && ProperAll(ts.rest) && TreeAt(ws, a, ts.head) && a + Size(ts.head) <= |ws|
    ensures MoreAt(ws, a + Size(ts.head), ts.rest, trailing)
    ensures AllSize(ts, trailing) == Size(ts.head) + MoreSize(ts.rest, trailing)
  {}

  lemma MoreParts(ws: seq<Word>, a: nat, ts: Trees, trailing: bool)
    requires ts.Cons? && ProperAll(ts) && MoreAt(ws, a, ts, trailing) && a + MoreSize(ts, trailing) <= |ws|
    ensures Proper(ts.head) && ProperAll(ts.rest) && TreeAt(ws, a + 1, ts.head) && a + 1 + Size(ts.head) <= |ws|
    ensures MoreAt(ws, a + 1 + Size(ts.head), ts.rest, trailing)
    ensures MoreSize(ts, trailing) == 1 + Size(ts.head) + MoreSize(ts.rest, trailing)
    ensures RangesMore(a, ts) == [Range(a + 1, a + 1 + Size(ts.head))] + RangesMore(a + 1 + Size(ts.head), ts.rest)
  {}

  /** Expanding the words of a list of trees gives their leaves. */
  lemma {:induction false} ExpandsAll(ws: seq<Word>, a: nat, ts: Trees, trailing: bool)
    requires ProperAll(ts) && AllAt(ws, a, ts, trailing) && a + AllSize(ts, trailing) <= |ws|
    ensures GivesAll(ws, Range(a, a + AllSize(ts, trailing)), ts)
    decreases ts, 1
  {
    if ts.Cons? {
      ExpandsCons(ws, a, ts, trailing, a + Size(ts.head), a + AllSize(ts, trailing));
    } else {
      forall prefix ensures Expand(ws, a, a, prefix) == LeavesAll(ts, prefix) {}
    }
  }

  lemma {:induction false} ExpandsCons(ws: seq<Word>, a: nat, ts: Trees, trailing: bool, m: nat, end: nat)
    requires ts.Cons? && ProperAll(ts) && AllAt(ws, a, ts, trailing)
    requires m == a + Size(ts.head) && end == a + AllSize(ts, trailing) <= |ws|
    ensures GivesAll(ws, Range(a, end), ts)
    decreases ts, 0
  {
    AllParts(ws, a, ts, trailing);
    ExpandsTree(ws, a, ts.head);
    ExpandsMore(ws, m, ts.rest, trailing, end - a);
    ListSplits(ws, a, ts, trailing, m, end);
    ListGives(ws, a, m, end, RangesMore(m, ts.rest), ts);
  }

  lemma ListGives(ws: seq<Word>, a: nat, m: nat, end: nat, rest: seq<Range>, ts: Trees)
    requires ts.Cons? && a < m <= end <= |ws| && Splits(ws, a, end, a, []) == [Range(a, m)] + rest
    requires Gives(ws, Range(a, m), ts.head) && GivesEach(ws, rest, end - a, ts.rest)
    ensures GivesAll(ws, Range(a, end), ts)
  {
    EachFirst(ws, a, m, rest, end - a, ts);
    ExpandIsEach(ws, a, end, [Range(a, m)] + rest, ts);
  }

  lemma {:induction false} ExpandsMore(ws: seq<Word>, a: nat, ts: Trees, trailing: bool, n: nat)
    requires ProperAll(ts) && MoreAt(ws, a, ts, trailing) && a + MoreSize(ts, trailing) <= |ws|
      && MoreSize(ts, trailing) <= n
    ensures GivesEach(ws, RangesMore(a, ts), n, ts)
    decreases ts
  {
    if ts.Cons? {
      var m := a + 1 + Size(ts.head);
      MoreParts(ws, a, ts, trailing);
      ExpandsTree(ws, a + 1, ts.head);
      ExpandsMore(ws, m, ts.rest, trailing, n);
      EachFirst(ws, a + 1, m, RangesMore(m, ts.rest), n, ts);
    } else {
      forall prefix ensures ExpandEach(ws, [], n, prefix) == LeavesAll(ts, prefix) {}
    }
  }

  lemma {:induction false} ExpandsTree(ws: seq<Word>, a: nat, t: Tree)
    requires Proper(t) && TreeAt(ws, a, t) && a + Size(t) <= |ws|
    ensures Gives(ws, Range(a, a + Size(t)), t)
    decreases t
  {
    SizePositive(t);
    if t.tail.Group? {
      var g := a + HeadSize(t);
      ExpandsAll(ws, g + 1, t.tail.trees, t.tail.trailing);
      GroupRead(ws, a, t, g);
      GroupFound(ws, a, t, g, a + Size(t));
      GroupGives(ws, a, g, a + Size(t), t);
    } else {
      LeafGives(ws, a, t);
    }
  }

  lemma LeafGives(ws: seq<Word>, a: nat, t: Tree)
    requires Proper(t) && !t.tail.Group? && TreeAt(ws, a, t) && Size(t) > 0 && a + Size(t) <= |ws|
    ensures Gives(ws, Range(a, a + Size(t)), t)
  {
    forall prefix
      ensures ExpandPiece(ws, a, a + Size(t), prefix) == Leaves(t, prefix)
    {
      PieceIsLeaf(ws, a, t, prefix);
    }
  }

  lemma GroupRead(ws: seq<Word>, a: nat, t: Tree, g: nat)
    requires HeadAt(ws, a, t) && t.tail.Group? && g == a + HeadSize(t) <= |ws|
    ensures PathFrom(ws, a, g, true) == Bare(t.path)
  {
    HeadRead(ws, a, t, g);
    assert Bare(t.path) + [] == Bare(t.path);
  }

  lemma GroupGives(ws: seq<Word>, a: nat, g: nat, right: nat, t: Tree)
    requires t.tail.Group? && a <= g && g + 1 < right <= |ws| && FindOpen(ws, a, right, []) == Some(g)
    requires GroupClose(ws, g, right) == right - 1 && PathFrom(ws, a, g, true) == Bare(t.path)
    requires GivesAll(ws, Range(g + 1, right - 1), t.tail.trees)
    ensures Gives(ws, Range(a, right), t)
  {
    forall prefix ensures ExpandPiece(ws, a, right, prefix) == Leaves(t, prefix) {
      assert Under(prefix + Bare(t.path));
    }
  }

  lemma OpenFound(ws: seq<Word>, a: nat, t: Tree, g: nat, right: nat)
    requires HeadAt(ws, a, t) && g == a + HeadSize(t) < right <= |ws| && ws[g] == Opening(Curly)
    ensures FindOpen(ws, a, right, []) == Some(g)
  {
    HeadIsQuiet(ws, a, t);
    OpenQuiet(ws, a, g, right);
  }

  lemma CloseFound(ws: seq<Word>, g: nat, c: nat)
    requires g < c < |ws| && ws[c] == Closing(Curly) && Nests(ws, Range(g + 1, c), 1)
    ensures GroupClose(ws, g, c + 1) == c
  {
    assert UpTo(c + 1);
    BraceStep(ws, c, c + 1, 1);
  }

  lemma GroupFound(ws: seq<Word>, a: nat, t: Tree, g: nat, right: nat)
    requires t.tail.Group? && TreeAt(ws, a, t) && g == a + HeadSize(t) && right == a + Size(t) <= |ws|
    ensures FindOpen(ws, a, right, []) == Some(g) && GroupClose(ws, g, right) == right - 1
  {
    OpenFound(ws, a, t, g, right);
    AllNests(ws, g + 1, t.tail.trees, t.tail.trailing, 1);
    CloseFound(ws, g, right - 1);
  }

  // ---------------------------------------------------------------- printed trees

  ghost predicate Has(ws: seq<Word>, a: nat, w: seq<Word>) { a + |w| <= |ws| && ws[a..a + |w|] == w }

  lemma HasSplit(ws: seq<Word>, a: nat, u: seq<Word>, v: seq<Word>)
    requires Has(ws, a, u + v)
    ensures Has(ws, a, u) && Has(ws, a + |u|, v)
  {
    assert ws[a..a + |u|] == ws[a..a + |u + v|][..|u|];
    assert ws[a + |u|..a + |u| + |v|] == ws[a..a + |u + v|][|u|..];
  }

  lemma HasOne(ws: seq<Word>, a: nat, w: Word)
    requires Has(ws, a, [w])
    ensures a < |ws| && ws[a] == w
  {
    assert ws[a] == ws[a..a + 1][0];
  }

  lemma HasColons(ws: seq<Word>, a: nat)
    requires Has(ws, a, Colons())
    ensures ColonsAt(ws, a)
  {
    HasSplit(ws, a, [Colon], [Colon]);
    HasOne(ws, a, Colon);
    HasOne(ws, a + 1, Colon);
  }

  lemma {:induction false} PrintedPath(ws: seq<Word>, a: nat, path: Names)
    requires Has(ws, a, PrintPath(path))
    ensures PathAt(ws, a, path) && |PrintPath(path)| == PathSize(path)
    decreases |path|
  {
    if |path| == 1 {
      HasOne(ws, a, Name(path[0]));
    } else if |path| > 1 {
      var rest := PrintPath(path[1..]);
      HasSplit(ws, a, [Name(path[0])] + Colons(), rest);
      HasSplit(ws, a, [Name(path[0])], Colons());
      HasOne(ws, a, Name(path[0]));
      HasColons(ws, a + 1);
      PrintedPath(ws, a + 3, path[1..]);
    }
  }

  function RootWords(t: Tree): seq<Word> { if t.rooted then Colons() else [] }

  function PartWords(t: Tree): seq<Word> { if Parted(t) then Colons() else [] }

  lemma HeadWords(t: Tree)
    ensures PrintHead(t) == RootWords(t) + PrintPath(t.path) + PartWords(t)
    ensures |RootWords(t)| == RootSize(t) && |PartWords(t)| == if Parted(t) then 2 else 0
  {}

  lemma PrintedHead(ws: seq<Word>, a: nat, t: Tree)
    requires Has(ws, a, PrintHead(t))
    ensures HeadAt(ws, a, t) && |PrintHead(t)| == HeadSize(t)
  {
    HeadWords(t);
    ThreeStand(ws, a, PrintHead(t), RootWords(t), PrintPath(t.path), PartWords(t));
    PrintedPath(ws, a + RootSize(t), t.path);
    if t.rooted { HasColons(ws, a); }
    if Parted(t) { HasColons(ws, a + RootSize(t) + PathSize(t.path)); }
  }

  /** A printed tree stands where its words stand. */
  lemma {:induction false} PrintedTree(ws: seq<Word>, a: nat, t: Tree)
    requires Has(ws, a, Print(t))
    ensures TreeAt(ws, a, t) && |Print(t)| == Size(t)
    decreases t
  {
    HasSplit(ws, a, PrintHead(t), PrintTail(t.tail));
    PrintedHead(ws, a, t);
    PrintedTail(ws, a + HeadSize(t), t.tail);
  }

  lemma HasWrapped(ws: seq<Word>, a: nat, inner: seq<Word>)
    requires Has(ws, a, [Opening(Curly)] + inner + [Closing(Curly)])
    ensures a + 1 + |inner| < |ws| && ws[a] == Opening(Curly) && ws[a + 1 + |inner|] == Closing(Curly)
    ensures Has(ws, a + 1, inner)
  {
    HasSplit(ws, a, [Opening(Curly)] + inner, [Closing(Curly)]);
    HasSplit(ws, a, [Opening(Curly)], inner);
    HasOne(ws, a, Opening(Curly));
    HasOne(ws, a + 1 + |inner|, Closing(Curly));
  }

  lemma {:induction false} PrintedTail(ws: seq<Word>, a: nat, tail: Tail)
    requires Has(ws, a, PrintTail(tail))
    ensures TailAt(ws, a, tail) && |PrintTail(tail)| == TailSize(tail)
    decreases tail
  {
    if tail.Alias? {
      HasSplit(ws, a, [As], [Name(tail.name)]);
      HasOne(ws, a, As);
      HasOne(ws, a + 1, Name(tail.name));
    } else if tail.Glob? {
      HasOne(ws, a, Star);
    } else if tail.Group? {
      HasWrapped(ws, a, PrintAll(tail.trees, tail.trailing));
      PrintedAll(ws, a + 1, tail.trees, tail.trailing);
    }
  }

  lemma {:induction false} PrintedAll(ws: seq<Word>, a: nat, ts: Trees, trailing: bool)
    requires Has(ws, a, PrintAll(ts, trailing))
    ensures AllAt(ws, a, ts, trailing) && |PrintAll(ts, trailing)| == AllSize(ts, trailing)
    decreases ts
  {
    if ts.Cons? {
      AllStands(ws, a, ts, trailing);
      PrintedTree(ws, a, ts.head);
      PrintedMore(ws, a + Size(ts.head), ts.rest, trailing);
    }
  }

  lemma ThreeStand(ws: seq<Word>, a: nat, all: seq<Word>, u: seq<Word>, v: seq<Word>, w: seq<Word>)
    requires Has(ws, a, all) && all == u + v + w
    ensures Has(ws, a, u) && Has(ws, a + |u|, v) && Has(ws, a + |u| + |v|, w) && |all| == |u| + |v| + |w|
  {
    HasSplit(ws, a, u + v, w);
    HasSplit(ws, a, u, v);
  }

  lemma TwoStand(ws: seq<Word>, a: nat, all: seq<Word>, u: seq<Word>, v: seq<Word>)
    requires Has(ws, a, all) && all == u + v
    ensures Has(ws, a, u) && Has(ws, a + |u|, v) && |all| == |u| + |v|
  {
    HasSplit(ws, a, u, v);
  }

  lemma MoreWords(ts: Trees, trailing: bool)
    requires ts.Cons?
    ensures PrintMore(ts, trailing) == [Comma] + Print(ts.head) + PrintMore(ts.rest, trailing)
  {}

  lemma MoreStands(ws: seq<Word>, a: nat, ts: Trees, trailing: bool)
    requires ts.Cons? && Has(ws, a, PrintMore(ts, trailing))
    ensures a < |ws| && ws[a] == Comma && Has(ws, a + 1, Print(ts.head))
    ensures Has(ws, a + 1 + |Print(ts.head)|, PrintMore(ts.rest, trailing))
    ensures |PrintMore(ts, trailing)| == 1 + |Print(ts.head)| + |PrintMore(ts.rest, trailing)|
  {
    MoreWords(ts, trailing);
    ThreeStand(ws, a, PrintMore(ts, trailing), [Comma], Print(ts.head), PrintMore(ts.rest, trailing));
    HasOne(ws, a, Comma);
  }

  lemma AllWords(ts: Trees, trailing: bool)
    requires ts.Cons?
    ensures PrintAll(ts, trailing) == Print(ts.head) + PrintMore(ts.rest, trailing)
  {}

  lemma AllStands(ws: seq<Word>, a: nat, ts: Trees, trailing: bool)
    requires ts.Cons? && Has(ws, a, PrintAll(ts, trailing))
    ensures Has(ws, a, Print(ts.head)) && Has(ws, a + |Print(ts.head)|, PrintMore(ts.rest, trailing))
    ensures |PrintAll(ts, trailing)| == |Print(ts.head)| + |PrintMore(ts.rest, trailing)|
  {
    AllWords(ts, trailing);
    TwoStand(ws, a, PrintAll(ts, trailing), Print(ts.head), PrintMore(ts.rest, trailing));
  }

  lemma {:induction false} PrintedMore(ws: seq<Word>, a: nat, ts: Trees, trailing: bool)
    requires Has(ws, a, PrintMore(ts, trailing))
    ensures MoreAt(ws, a, ts, trailing) && |PrintMore(ts, trailing)| == MoreSize(ts, trailing)
    decreases ts
  {
    if ts.Cons? {
      MoreStands(ws, a, ts, trailing);
      PrintedTree(ws, a + 1, ts.head);
      PrintedMore(ws, a + 1 + Size(ts.head), ts.rest, trailing);
    } else if trailing {
      HasOne(ws, a, Comma);
    }
  }

  lemma OneTree(ws: seq<Word>, a: nat, t: Tree)
    requires TreeAt(ws, a, t) && a + Size(t) <= |ws|
    ensures AllAt(ws, a, Cons(t, Nil), false) && AllSize(Cons(t, Nil), false) == Size(t)
  {
    assert MoreAt(ws, a + Size(t), Nil, false) && MoreSize(Nil, false) == 0;
  }

  lemma OneLeaves(t: Tree, prefix: Names)
    ensures LeavesAll(Cons(t, Nil), prefix) == Leaves(t, prefix)
  {
    assert LeavesAll(Nil, prefix) == [];
  }

  lemma ExpandsOne(ws: seq<Word>, a: nat, t: Tree)
    requires Proper(t) && TreeAt(ws, a, t) && a + Size(t) <= |ws|
    ensures GivesAll(ws, Range(a, a + Size(t)), Cons(t, Nil))
  {
    OneTree(ws, a, t);
    assert ProperAll(Nil);
    ExpandsAll(ws, a, Cons(t, Nil), false);
  }

  /** The round trip: tokens that print a `use` tree expand to exactly its leaf paths, in order. */
  lemma RoundTrip(ws: seq<Word>, a: nat, t: Tree, prefix: Names)
    requires Proper(t) && Has(ws, a, Print(t))
    ensures Expand(ws, a, a + |Print(t)|, prefix) == Leaves(t, prefix)
  {
    PrintedTree(ws, a, t);
    ExpandsOne(ws, a, t);
    OneLeaves(t, prefix);
    assert Under(prefix);
  }

  /** The same for a comma-separated list, such as the inside of a group. */
  lemma RoundTripAll(ws: seq<Word>, a: nat, ts: Trees, trailing: bool, prefix: Names)
    requires ProperAll(ts) && Has(ws, a, PrintAll(ts, trailing))
    ensures Expand(ws, a, a + |PrintAll(ts, trailing)|, prefix) == LeavesAll(ts, prefix)
  {
    PrintedAll(ws, a, ts, trailing);
    ExpandsAll(ws, a, ts, trailing);
    assert Under(prefix);
  }

  /** A final `self` stands for its prefix, in a glob too: `use self::*` alone names nothing. */
  lemma SelfIsPrefix(t: Tree, prefix: Names)
    requires t.path == ["self"] && !t.tail.Group?
    ensures Leaves(t, prefix) == if prefix == [] then [] else [prefix]
  {
    assert "self"[..2][0] != "r#"[0];
    assert t.path[1..] == [] && Bare([]) == [] && Unraw("self") == "self";
    assert Bare(t.path) == ["self"];
    assert (prefix + ["self"])[..|prefix|] == prefix;
  }

  // ---------------------------------------------------------------- the loops

  /** What the loop has found, and what is left to find, are all the pieces. */
  ghost predicate Splitting(ws: seq<Word>, start: nat, end: nat, i: nat, segment: nat, stack: seq<Shape>,
      splits: seq<Range>) {
    && start <= segment <= i <= end <= |ws|
    && Splits(ws, start, end, start, []) == splits + Splits(ws, i, end, segment, stack)
  }

  lemma SplittingOn(ws: seq<Word>, start: nat, end: nat, i: nat, segment: nat, stack: seq<Shape>, splits: seq<Range>)
    requires Splitting(ws, start, end, i, segment, stack, splits) && i < end
    ensures if ws[i].Comma? && stack == []
            then Splitting(ws, start, end, i + 1, i + 1, [], splits + NonEmpty(segment, i))
            else Splitting(ws, start, end, i + 1, segment, Stack(stack, ws[i]), splits)
  {}

  method TopLevelSplits(ws: seq<Word>, start: nat, end: nat) returns (pieces: seq<Range>)
    requires start <= end <= |ws|
    ensures pieces == Splits(ws, start, end, start, [])
  {
    var stack: seq<Shape> := [];
    var segment := start;
    var splits: seq<Range> := [];
    for i := start to end
      invariant Splitting(ws, start, end, i, segment, stack, splits)
    {
      var w := ws[i];
      SplittingOn(ws, start, end, i, segment, stack, splits);
      if w.Opening? {
        stack := stack + [w.shape];
      } else if stack != [] && w == Closing(stack[|stack| - 1]) {
        stack := stack[..|stack| - 1];
      } else if w.Comma? && stack == [] {
        splits := splits + NonEmpty(segment, i);
        segment := i + 1;
      }
    }
    pieces := splits + NonEmpty(segment, end);
  }

  method PathSegments(ws: seq<Word>, start: nat, end: nat) returns (segments: Names)
    requires start <= end <= |ws|
    ensures segments == PathFrom(ws, start, end, true)
  {
    segments := [];
    var wanting, index := true, start;
    while index < end
      invariant start <= index <= end
      invariant PathFrom(ws, start, end, true) == segments + PathFrom(ws, index, end, wanting)
    {
      var w := ws[index];
      if w.As? {
        break;
      }
      if wanting && w.Name? {
        segments := segments + [Unraw(w.text)];
        wanting := false;
      } else if w.Star? && wanting {
        wanting := false;
      } else if w.Colon? && index + 1 < end && ws[index + 1].Colon? {
        wanting := true;
        index := index + 1;
      }
      index := index + 1;
    }
  }

  /** From an opening brace to the end of its group's inside. */
  method CloseGroup(ws: seq<Word>, open: nat, right: nat) returns (close: nat)
    requires open < right <= |ws|
    ensures close == GroupClose(ws, open, right)
  {
    var depth: nat, cursor := 1, open + 1;
    while cursor < right && depth > 0
      invariant open < cursor <= right
      invariant Braces(ws, open + 1, right, 1) == Braces(ws, cursor, right, depth)
    {
      if ws[cursor] == Opening(Curly) {
        depth := depth + 1;
      } else if ws[cursor] == Closing(Curly) {
        depth := depth - 1;
      }
      cursor := cursor + 1;
    }
    close := if depth == 0 then cursor - 1 else right;
  }

  /** The group of one piece: its opening brace and where its inside ends. */
  method FindGroup(ws: seq<Word>, left: nat, right: nat) returns (group: Option<Range>)
    requires left < right <= |ws|
    ensures group.Some? <==> FindOpen(ws, left, right, []).Some?
    ensures group.Some? ==> left <= group.value.left && FindOpen(ws, left, right, []) == Some(group.value.left)
    ensures group.Some? ==> group.value.left < right && group.value.right == GroupClose(ws, group.value.left, right)
  {
    var stack: seq<Shape> := [];
    for i := left to right
      invariant FindOpen(ws, left, right, []) == FindOpen(ws, i, right, stack)
    {
      var w := ws[i];
      if w == Opening(Curly) && stack == [] {
        var close := CloseGroup(ws, i, right);
        return Some(Range(i, close));
      }
      if w.Opening? {
        stack := stack + [w.shape];
      } else if stack != [] && w == Closing(stack[|stack| - 1]) {
        stack := stack[..|stack| - 1];
      }
    }
    group := None;
  }

  method ExpandRange(ws: seq<Word>, left: nat, right: nat, prefix: Names) returns (paths: seq<Names>)
    requires left < right <= |ws|
    ensures paths == ExpandPiece(ws, left, right, prefix)
    decreases right - left, 0
  {
    var group := FindGroup(ws, left, right);
    if group.Some? {
      var head := PathSegments(ws, left, group.value.left);
      paths := ExpandUseTree(ws, group.value.left + 1, group.value.right, prefix + head);
    } else {
      var segments := PathSegments(ws, left, right);
      paths := Finished(prefix + segments);
    }
  }

  lemma NextPiece(ws: seq<Word>, pieces: seq<Range>, i: nat, n: nat, prefix: Names)
    requires Fit(ws, pieces, n) && i < |pieces|
    ensures pieces[i] in pieces && Fit(ws, pieces[i..], n) && Fit(ws, pieces[i + 1..], n)
    ensures ExpandEach(ws, pieces[i..], n, prefix) ==
      ExpandPiece(ws, pieces[i].left, pieces[i].right, prefix) + ExpandEach(ws, pieces[i + 1..], n, prefix)
  {
    assert pieces[i..][0] == pieces[i] && pieces[i..][1..] == pieces[i + 1..];
  }

  lemma Regroup(all: seq<Names>, u: seq<Names>, v: seq<Names>, w: seq<Names>, x: seq<Names>)
    requires all == u + x && x == v + w
    ensures all == (u + v) + w
  {}

  /** `expand_use_tree`. */
  method ExpandUseTree(ws: seq<Word>, start: nat, end: nat, prefix: Names) returns (paths: seq<Names>)
    requires start <= end <= |ws|
    ensures paths == Expand(ws, start, end, prefix)
    decreases end - start, 1
  {
    var pieces := TopLevelSplits(ws, start, end);
    ghost var n := end - start;
    paths := [];
    assert pieces[0..] == pieces;
    for i := 0 to |pieces|
      invariant Fit(ws, pieces, n) && Fit(ws, pieces[i..], n)
      invariant Expand(ws, start, end, prefix) == paths + ExpandEach(ws, pieces[i..], n, prefix)
    {
      NextPiece(ws, pieces, i, n, prefix);
      var more := ExpandRange(ws, pieces[i].left, pieces[i].right, prefix);
      Regroup(Expand(ws, start, end, prefix), paths, more, ExpandEach(ws, pieces[i + 1..], n, prefix),
        ExpandEach(ws, pieces[i..], n, prefix));
      paths := paths + more;
    }
  }

  /** The tokens of one `use` declaration, spelled by a tree, come out as the leaves of the tree. */
  method ExpandDeclaration(tokens: seq<Token>, ghost t: Tree) returns (paths: seq<Names>)
    requires Proper(t) && Words(tokens) == Print(t)
    ensures paths == Leaves(t, [])
  {
    var ws := Words(tokens);
    HasWhole(ws, Print(t));
    RoundTripWhole(ws, t);
    paths := ExpandUseTree(ws, 0, |ws|, []);
  }

  /** The token spells the word, as a source file would have it. */
  predicate Spells(t: Token, w: Word) {
    match w
    case Name(x) => t.kind == Ident && t.text == x && x != "as"
    case As => t.kind == Ident && t.text == "as"
    case Star => t.kind == Punct && t.text == "*"
    case Colon => t.kind == Punct && t.text == ":"
    case Comma => t.kind == Punct && t.text == ","
    case Opening(shape) =>
      t.kind == Punct && t.text == (match shape case Round => "(" case Square => "[" case Curly => "{")
    case Closing(shape) =>
      t.kind == Punct && t.text == (match shape case Round => ")" case Square => "]" case Curly => "}")
    case Other => false
  }

  lemma SpelledIsRead(t: Token, w: Word)
    requires Spells(t, w)
    ensures WordOf(t) == w
  {
    if w.Closing? || w.Opening? || w.Comma? || w.Colon? || w.Star? { assert |t.text| == 1; }
  }

  /** Tokens that spell a printed tree are what the expansion is promised for. */
  lemma SpelledDeclaration(tokens: seq<Token>, t: Tree)
    requires |tokens| == |Print(t)| && forall k :: 0 <= k < |tokens| ==> Spells(tokens[k], Print(t)[k])
    ensures Words(tokens) == Print(t)
  {
    forall k | 0 <= k < |tokens| ensures Words(tokens)[k] == Print(t)[k] { SpelledIsRead(tokens[k], Print(t)[k]); }
  }

  lemma HasWhole(ws: seq<Word>, w: seq<Word>)
    requires ws == w
    ensures Has(ws, 0, w)
  {
    assert ws[0..|w|] == ws;
  }

  /** `n` words that print a tree expand to its leaves. */
  lemma RoundTripFor(ws: seq<Word>, a: nat, t: Tree, prefix: Names, n: nat)
    requires Proper(t) && Has(ws, a, Print(t)) && n == |Print(t)|
    ensures a + n <= |ws| && Expand(ws, a, a + n, prefix) == Leaves(t, prefix)
  {
    RoundTrip(ws, a, t, prefix);
  }

  lemma RoundTripWhole(ws: seq<Word>, t: Tree)
    requires Proper(t) && Has(ws, 0, Print(t)) && |ws| == |Print(t)|
    ensures Expand(ws, 0, |ws|, []) == Leaves(t, [])
  {
    RoundTripFor(ws, 0, t, [], |ws|);
  }
}
