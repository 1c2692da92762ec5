/**
 Splitting a file: the chosen items' spans are removed from the source and their
 texts go to new files. Nothing but white space is lost or duplicated.
 */
module SplitFile {
  import opened Wrappers
  import opened Sorting
  import opened RustItems
  import opened RustLexer
  import Delimiters

  type Path = string

  // ---------------------------------------------------------------- removing spans

  /** The language's slices never fail: bounds beyond the end are clamped. */
  function Upto(s: string, n: nat): string { if n <= |s| then s[..n] else s }
  function Onward(s: string, n: nat): string { if n <= |s| then s[n..] else "" }
  function Slice(s: string, a: nat, b: nat): string { Onward(Upto(s, b), a) }

  predicate Cut(items: seq<RustItem>, p: nat) { exists x :: x in items && Within(x, p) }

  /** What is left from position `i` on: the characters in no span, in order. */
  function Rest(s: string, items: seq<RustItem>, i: nat): string
    decreases |s| - i
  {
    if i >= |s| then "" else (if Cut(items, i) then "" else [s[i]]) + Rest(s, items, i + 1)
  }

  lemma {:induction false} RestCut(s: string, items: seq<RustItem>, a: nat, b: nat)
    requires a <= b <= |s| && forall p: nat :: a <= p < b ==> Cut(items, p)
    ensures Rest(s, items, a) == Rest(s, items, b)
    decreases b - a
  {
    if a < b { RestCut(s, items, a + 1, b); }
  }

  lemma {:induction false} RestKept(s: string, items: seq<RustItem>, a: nat, b: nat)
    requires a <= b <= |s| && forall p: nat :: a <= p < b ==> !Cut(items, p)
    ensures Rest(s, items, a) == s[a..b] + Rest(s, items, b)
    decreases b - a
  {
    if a < b {
      RestKept(s, items, a + 1, b);
      OneMore(s, a, b, Rest(s, items, b));
    }
  }

  lemma OneMore(s: string, a: nat, b: nat, tail: string)
    requires a < b <= |s|
    ensures [s[a]] + (s[a + 1..b] + tail) == s[a..b] + tail
  {
    assert s[a..b] == [s[a]] + s[a + 1..b];
  }

  /** Spans inside the source, none of them empty or reversed. */
  predicate Upright(s: string, items: seq<RustItem>) {
    forall x :: x in items ==> x.start < x.end <= |s|
  }

  /** No span reaches into the next one, in ascending order of their starts. */
  predicate Apart(asc: seq<RustItem>) {
    forall i, j :: 0 <= i < j < |asc| ==> asc[i].end <= asc[j].start
  }

  predicate Downward(desc: seq<RustItem>) {
    forall i, j :: 0 <= i < j < |desc| ==> desc[j].end <= desc[i].start
  }

  /** Upright spans, each before the one that precedes it in the list. */
  ghost predicate Orderly(s: string, desc: seq<RustItem>) { Upright(s, desc) && Downward(desc) }

  /** The part of the source not yet looked at when the first `k` spans are removed, downwards. */
  function Reach(s: string, desc: seq<RustItem>, k: nat): nat
    requires k <= |desc|
  {
    if k == 0 then |s| else desc[k - 1].start
  }

  ghost predicate Removed(s: string, desc: seq<RustItem>, k: nat, result: string) {
    k <= |desc| && Reach(s, desc, k) <= |s| && result == s[..Reach(s, desc, k)] + Rest(s, desc, Reach(s, desc, k))
  }

  lemma CutGap(s: string, desc: seq<RustItem>, k: nat, to: nat)
    requires Orderly(s, desc) && k <= |desc| && to == Reach(s, desc, k) <= |s|
    ensures var a := if k < |desc| then desc[k].end else 0; a <= to && forall p: nat :: a <= p < to ==> !Cut(desc, p)
  {
    var a := if k < |desc| then desc[k].end else 0;
    if k < |desc| { assert desc[k] in desc; }
    forall p: nat, x | a <= p < to && x in desc ensures !Within(x, p) {
      var j :| 0 <= j < |desc| && desc[j] == x;
      if k < j { assert desc[j].end <= desc[k].start && desc[k] in desc; }
    }
  }

  lemma CutSpan(desc: seq<RustItem>, x: RustItem)
    requires x in desc
    ensures forall p: nat :: x.start <= p < x.end ==> Cut(desc, p)
  {
    forall p: nat | x.start <= p < x.end ensures Cut(desc, p) { assert Within(x, p); }
  }

  /** Removing the next span downwards. */
  lemma RemoveStep(s: string, desc: seq<RustItem>, k: nat, result: string)
    requires Orderly(s, desc) && k < |desc| && Removed(s, desc, k, result)
    ensures Removed(s, desc, k + 1, Upto(result, desc[k].start) + Onward(result, desc[k].end))
  {
    var x, to := desc[k], Reach(s, desc, k);
    assert x in desc;
    CutGap(s, desc, k, to);
    CutSpan(desc, x);
    RestCut(s, desc, x.start, x.end);
    RestKept(s, desc, x.end, to);
    CutOut(s, x.start, x.end, to, Rest(s, desc, to), result);
  }

  lemma CutOut(s: string, a: nat, b: nat, to: nat, tail: string, result: string)
    requires a <= b <= to <= |s| && result == s[..to] + tail
    ensures Upto(result, a) + Onward(result, b) == s[..a] + (s[b..to] + tail)
  {
    assert result[..a] == s[..a];
    assert result[b..] == s[b..to] + tail;
  }

  lemma RemoveEnd(s: string, desc: seq<RustItem>, result: string)
    requires Orderly(s, desc) && Removed(s, desc, |desc|, result)
    ensures result == Rest(s, desc, 0)
  {
    var to := Reach(s, desc, |desc|);
    CutGap(s, desc, |desc|, to);
    RestKept(s, desc, 0, to);
    assert s[0..to] == s[..to];
  }

  lemma RemoveBegin(s: string, desc: seq<RustItem>)
    ensures Removed(s, desc, 0, s)
  {
    assert Rest(s, desc, |s|) == "" && s[..|s|] == s;
  }

  predicate StartGe(x: RustItem, y: RustItem) { x.start >= y.start }
  predicate StartLe(x: RustItem, y: RustItem) { x.start <= y.start }
  predicate CoreLe(x: RustItem, y: RustItem) { x.coreStart <= y.coreStart }

  lemma {:induction false} RestSame(s: string, a: seq<RustItem>, b: seq<RustItem>, i: nat)
    requires forall x :: x in a <==> x in b
    ensures Rest(s, a, i) == Rest(s, b, i)
    decreases |s| - i
  {
    if i < |s| {
      RestSame(s, a, b, i + 1);
      assert Cut(a, i) <==> Cut(b, i);
    }
  }

  lemma RemovedAll(s: string, selected: seq<RustItem>, desc: seq<RustItem>, result: string)
    requires desc == Sort(StartGe, selected) && Orderly(s, desc) && Removed(s, desc, |desc|, result)
    ensures result == Rest(s, selected, 0)
  {
    SortSorts(StartGe, selected);
    RemoveEnd(s, desc, result);
    RestSame(s, desc, selected, 0);
  }

  /** `_remove_spans`: with spans that are upright and apart, exactly their positions go. */
  method RemoveSpans(s: string, selected: seq<RustItem>) returns (result: string)
    ensures Orderly(s, Sort(StartGe, selected)) ==> result == Rest(s, selected, 0)
  {
    result := s;
    var desc := Sort(StartGe, selected);
    RemoveBegin(s, desc);
    for k := 0 to |desc|
      invariant Orderly(s, desc) ==> Removed(s, desc, k, result)
    {
      if Orderly(s, desc) { RemoveStep(s, desc, k, result); }
      result := Upto(result, desc[k].start) + Onward(result, desc[k].end);
    }
    if Orderly(s, desc) { RemovedAll(s, selected, desc, result); }
  }

  // ---------------------------------------------------------------- putting spans back

  /** The check of `split_command`: no span of the sorted list reaches into the next. */
  predicate Adjacent(asc: seq<RustItem>) {
    forall k :: 0 <= k < |asc| - 1 ==> asc[k].end <= asc[k + 1].start
  }

  lemma {:induction false} AdjacentBy(s: string, asc: seq<RustItem>, i: nat, j: nat)
    requires Upright(s, asc) && Adjacent(asc) && i < j < |asc|
    ensures asc[i].end <= asc[j].start
    decreases j
  {
    if i + 1 < j {
      AdjacentBy(s, asc, i, j - 1);
      assert asc[j - 1] in asc && asc[j - 1].end <= asc[j - 1 + 1].start;
    }
  }

  /** The neighbours' check is enough: upright spans that pass it are apart. */
  lemma AdjacentIsApart(s: string, asc: seq<RustItem>)
    requires Upright(s, asc)
    ensures Adjacent(asc) <==> Apart(asc)
  {
    if Adjacent(asc) {
      forall i, j | 0 <= i < j < |asc| ensures asc[i].end <= asc[j].start { AdjacentBy(s, asc, i, j); }
    }
  }

  lemma SameItems(selected: seq<RustItem>)
    ensures multiset(Sort(StartLe, selected)) == multiset(Sort(StartGe, selected)) == multiset(selected)
    ensures forall x :: x in Sort(StartLe, selected) <==> x in selected
    ensures forall x :: x in Sort(StartGe, selected) <==> x in selected
    ensures SortedBy(StartLe, Sort(StartLe, selected)) && SortedBy(StartGe, Sort(StartGe, selected))
  {
    SortSorts(StartLe, selected);
    SortSorts(StartGe, selected);
  }

  /** Spans apart in ascending order are in order for the removal. */
  lemma ApartIsOrderly(s: string, selected: seq<RustItem>)
    requires Upright(s, selected) && Apart(Sort(StartLe, selected))
    ensures Orderly(s, Sort(StartGe, selected))
  {
    var asc, desc := Sort(StartLe, selected), Sort(StartGe, selected);
    SameItems(selected);
    forall i, j | 0 <= i < j < |asc| ensures asc[i] != asc[j] { assert asc[i] in asc && asc[i].end <= asc[j].start; }
    DistinctSorted(asc, desc);
    forall i, j | 0 <= i < j < |desc| ensures desc[j].end <= desc[i].start {
      assert desc[i] in desc && desc[j] in desc && StartGe(desc[i], desc[j]);
      ApartPair(s, asc, desc[i], desc[j]);
    }
  }

  lemma ApartPair(s: string, asc: seq<RustItem>, x: RustItem, y: RustItem)
    requires Upright(s, asc) && Apart(asc) && x in asc && y in asc && x != y && StartGe(x, y)
    ensures y.end <= x.start
  {
    var a :| 0 <= a < |asc| && asc[a] == x;
    var b :| 0 <= b < |asc| && asc[b] == y;
  }

  /** Inserting the removed texts again, from the first to the last. */
  function Reinsert(s: string, r: string, asc: seq<RustItem>): string
    decreases |asc|
  {
    if asc == [] then r
    else
      var x := asc[|asc| - 1];
      var q := Reinsert(s, r, asc[..|asc| - 1]);
      Upto(q, x.start) + Slice(s, x.start, x.end) + Onward(q, x.start)
  }

  function Covered(asc: seq<RustItem>, k: nat): nat
    requires k <= |asc|
  {
    if k == 0 then 0 else asc[k - 1].end
  }

  lemma ApartGap(s: string, asc: seq<RustItem>, k: nat)
    requires Upright(s, asc) && Apart(asc) && k <= |asc|
    ensures var b := if k < |asc| then asc[k].start else |s|;
      Covered(asc, k) <= b <= |s| && forall p: nat :: Covered(asc, k) <= p < b ==> !Cut(asc, p)
  {
    var b := if k < |asc| then asc[k].start else |s|;
    if k < |asc| { assert asc[k] in asc; }
    if k > 0 { assert asc[k - 1] in asc; }
    forall p: nat, x | Covered(asc, k) <= p < b && x in asc ensures !Within(x, p) {
      var j :| 0 <= j < |asc| && asc[j] == x;
      if j < k - 1 { assert asc[j].end <= asc[k - 1].start && asc[k - 1] in asc; }
    }
  }

  lemma PutBack(s: string, e: nat, a: nat, b: nat, tail: string, q: string)
    requires e <= a <= b <= |s| && q == s[..e] + (s[e..a] + tail)
    ensures Upto(q, a) + Slice(s, a, b) + Onward(q, a) == s[..b] + tail
  {
    assert q == s[..a] + tail;
    assert q[..a] == s[..a] && q[a..] == tail;
    assert s[..b][a..] == s[a..b];
    assert s[..a] + s[a..b] == s[..b];
  }

  lemma RestOverSpan(s: string, asc: seq<RustItem>, k: nat, e: nat)
    requires Upright(s, asc) && Apart(asc) && k < |asc| && e == Covered(asc, k)
    ensures e <= asc[k].start < asc[k].end <= |s|
    ensures Rest(s, asc, e) == s[e..asc[k].start] + Rest(s, asc, asc[k].end)
  {
    var x := asc[k];
    assert x in asc;
    ApartGap(s, asc, k);
    CutSpan(asc, x);
    RestKept(s, asc, e, x.start);
    RestCut(s, asc, x.start, x.end);
  }

  lemma ReinsertLast(s: string, r: string, asc: seq<RustItem>, k: nat)
    requires 0 < k <= |asc|
    ensures var x := asc[k - 1]; var q := Reinsert(s, r, asc[..k - 1]);
      Reinsert(s, r, asc[..k]) == Upto(q, x.start) + Slice(s, x.start, x.end) + Onward(q, x.start)
  {
    assert asc[..k][..k - 1] == asc[..k - 1];
  }

  lemma {:induction false} ReinsertSome(s: string, asc: seq<RustItem>, k: nat)
    requires Upright(s, asc) && Apart(asc) && k <= |asc|
    ensures Covered(asc, k) <= |s|
    ensures Reinsert(s, Rest(s, asc, 0), asc[..k]) == s[..Covered(asc, k)] + Rest(s, asc, Covered(asc, k))
  {
    if k > 0 {
      var x, e := asc[k - 1], Covered(asc, k - 1);
      ReinsertSome(s, asc, k - 1);
      RestOverSpan(s, asc, k - 1, e);
      ReinsertLast(s, Rest(s, asc, 0), asc, k);
      PutBack(s, e, x.start, x.end, Rest(s, asc, x.end), Reinsert(s, Rest(s, asc, 0), asc[..k - 1]));
    }
  }

  /** Removing the spans and reinserting the moved texts rebuilds the source. */
  lemma RebuildsSource(s: string, asc: seq<RustItem>)
    requires Upright(s, asc) && Apart(asc)
    ensures Reinsert(s, Rest(s, asc, 0), asc) == s
  {
    ReinsertSome(s, asc, |asc|);
    ApartGap(s, asc, |asc|);
    assert asc[..|asc|] == asc;
    KeptToEnd(s, asc, Covered(asc, |asc|));
  }

  lemma KeptToEnd(s: string, items: seq<RustItem>, e: nat)
    requires e <= |s| && forall p: nat :: e <= p < |s| ==> !Cut(items, p)
    ensures s[..e] + Rest(s, items, e) == s
  {
    RestKept(s, items, e, |s|);
    assert Rest(s, items, |s|) == "";
    assert s[..e] + (s[e..|s|] + "") == s;
  }

  // ---------------------------------------------------------------- text without white space

  type Space = char -> bool

  /** The characters that are not white space, in order. */
  function Solid(sp: Space, s: string): string {
    if s == "" then "" else (if sp(s[0]) then "" else [s[0]]) + Solid(sp, s[1..])
  }

  lemma {:induction false} SolidConcat(sp: Space, a: string, b: string)
    ensures Solid(sp, a + b) == Solid(sp, a) + Solid(sp, b)
    decreases |a|
  {
    if a == "" {
      assert a + b == b;
    } else {
      assert (a + b)[0] == a[0] && (a + b)[1..] == a[1..] + b;
      SolidConcat(sp, a[1..], b);
    }
  }

  function TrimEnd(sp: Space, s: string): (r: string)
    ensures r <= s && (r != "" ==> !sp(r[|r| - 1]))
  {
    if s != "" && sp(s[|s| - 1]) then TrimEnd(sp, s[..|s| - 1]) else s
  }

  function TrimStart(sp: Space, s: string): (r: string)
    ensures |r| <= |s| && (r != "" ==> !sp(r[0]))
  {
    if s != "" && sp(s[0]) then TrimStart(sp, s[1..]) else s
  }

  function Trim(sp: Space, s: string): string { TrimStart(sp, TrimEnd(sp, s)) }

  lemma {:induction false} SolidTrimEnd(sp: Space, s: string)
    ensures Solid(sp, TrimEnd(sp, s)) == Solid(sp, s)
    decreases |s|
  {
    if s != "" && sp(s[|s| - 1]) {
      var init := s[..|s| - 1];
      SolidTrimEnd(sp, init);
      assert s == init + [s[|s| - 1]];
      SolidConcat(sp, init, [s[|s| - 1]]);
      assert [s[|s| - 1]][1..] == "";
    }
  }

  lemma {:induction false} SolidTrimStart(sp: Space, s: string)
    ensures Solid(sp, TrimStart(sp, s)) == Solid(sp, s)
    decreases |s|
  {
    if s != "" && sp(s[0]) { SolidTrimStart(sp, s[1..]); }
  }

  /** Trimming loses white space only, and leaves nothing exactly when there is nothing else. */
  lemma SolidTrim(sp: Space, s: string)
    ensures Solid(sp, Trim(sp, s)) == Solid(sp, s)
    ensures Trim(sp, s) == "" <==> Solid(sp, s) == ""
  {
    SolidTrimEnd(sp, s);
    SolidTrimStart(sp, TrimEnd(sp, s));
    if Trim(sp, s) != "" { assert Solid(sp, Trim(sp, s))[0] == Trim(sp, s)[0]; }
  }

  lemma SolidBlankLine(sp: Space)
    requires sp('\n')
    ensures Solid(sp, "\n") == "" && Solid(sp, "\n\n") == ""
  {
    assert "\n\n"[1..] == "\n" && "\n"[1..] == "";
  }

  function Join(parts: seq<string>): string {
    if parts == [] then "" else if |parts| == 1 then parts[0] else parts[0] + ("\n\n" + Join(parts[1..]))
  }

  function SolidAll(sp: Space, parts: seq<string>): string {
    if parts == [] then "" else Solid(sp, parts[0]) + SolidAll(sp, parts[1..])
  }

  lemma {:induction false} SolidJoin(sp: Space, parts: seq<string>)
    requires sp('\n')
    ensures Solid(sp, Join(parts)) == SolidAll(sp, parts)
    decreases |parts|
  {
    if |parts| == 1 {
      assert parts[1..] == [] && SolidAll(sp, []) == "";
    } else if |parts| > 1 {
      SolidJoin(sp, parts[1..]);
      SolidBlankLine(sp);
      SolidConcat(sp, "\n\n", Join(parts[1..]));
      SolidConcat(sp, parts[0], "\n\n" + Join(parts[1..]));
    }
  }

  lemma {:induction false} SolidAllConcat(sp: Space, a: seq<string>, b: seq<string>)
    ensures SolidAll(sp, a + b) == SolidAll(sp, a) + SolidAll(sp, b)
    decreases |a|
  {
    if a == [] {
      assert a + b == b;
    } else {
      assert (a + b)[0] == a[0] && (a + b)[1..] == a[1..] + b;
      SolidAllConcat(sp, a[1..], b);
    }
  }

  // ---------------------------------------------------------------- the new files

  function Texts(source: string, items: seq<RustItem>): (ts: seq<string>)
    ensures |ts| == |items| && forall k :: 0 <= k < |ts| ==> ts[k] == Slice(source, items[k].start, items[k].end)
  {
    seq(|items|, k requires 0 <= k < |items| => Slice(source, items[k].start, items[k].end))
  }

  predicate Blank(sp: Space, source: string, x: RustItem) { Trim(sp, Slice(source, x.start, x.end)) == "" }

  function Trimmed(sp: Space, source: string, items: seq<RustItem>): (ts: seq<string>)
    ensures |ts| == |items| && forall k :: 0 <= k < |ts| ==>
      ts[k] == Trim(sp, Slice(source, items[k].start, items[k].end))
  {
    seq(|items|, k requires 0 <= k < |items| => Trim(sp, Slice(source, items[k].start, items[k].end)))
  }

  function HeaderPart(sp: Space, header: string): seq<string> {
    if Trim(sp, header) == "" then [] else [TrimEnd(sp, header)]
  }

  /** What `_destination_content` writes. */
  function Content(sp: Space, source: string, selected: seq<RustItem>, header: string): string {
    TrimEnd(sp, Join(HeaderPart(sp, header) + Trimmed(sp, source, Sort(CoreLe, selected)))) + "\n"
  }

  /** Whether some text is empty. */
  method HasEmpty(texts: seq<string>) returns (empty: bool)
    ensures empty <==> "" in texts
  {
    for k := 0 to |texts|
      invariant forall j :: 0 <= j < k ==> texts[j] != ""
    {
      if texts[k] == "" { return true; }
    }
    empty := false;
  }

  ghost predicate NoBlank(sp: Space, source: string, items: seq<RustItem>) {
    forall x :: x in items ==> !Blank(sp, source, x)
  }

  lemma NoBlankSorted(sp: Space, source: string, selected: seq<RustItem>, texts: seq<string>)
    requires texts == Trimmed(sp, source, Sort(CoreLe, selected))
    ensures NoBlank(sp, source, selected) <==> "" !in texts
  {
    SortSorts(CoreLe, selected);
    var ordered := Sort(CoreLe, selected);
    if "" in texts {
      var k :| 0 <= k < |texts| && texts[k] == "";
      assert ordered[k] in ordered && Blank(sp, source, ordered[k]);
    }
    if x :| x in selected && Blank(sp, source, x) {
      assert x in ordered;
      var k :| 0 <= k < |ordered| && ordered[k] == x;
      assert texts[k] == "";
    }
  }

  /** `_destination_content`: header, then the items' texts in the order of the source; a blank item is refused. */
  method DestinationContent(sp: Space, source: string, selected: seq<RustItem>, header: string)
      returns (r: Option<string>)
    ensures r.Some? <==> NoBlank(sp, source, selected)
    ensures r.Some? ==> r.value == Content(sp, source, selected, header)
  {
    var texts := Trimmed(sp, source, Sort(CoreLe, selected));
    NoBlankSorted(sp, source, selected, texts);
    var empty := HasEmpty(texts);
    if empty { return None; }
    var parts := HeaderPart(sp, header) + texts;
    r := Some(TrimEnd(sp, Join(parts)) + "\n");
  }

  lemma {:induction false} SolidTrimmed(sp: Space, source: string, items: seq<RustItem>)
    ensures SolidAll(sp, Trimmed(sp, source, items)) == SolidAll(sp, Texts(source, items))
    decreases |items|
  {
    if items != [] {
      SolidTrim(sp, Slice(source, items[0].start, items[0].end));
      assert Trimmed(sp, source, items)[1..] == Trimmed(sp, source, items[1..]);
      assert Texts(source, items)[1..] == Texts(source, items[1..]);
      SolidTrimmed(sp, source, items[1..]);
    }
  }

  lemma SolidHeader(sp: Space, header: string)
    ensures SolidAll(sp, HeaderPart(sp, header)) == Solid(sp, header)
  {
    SolidTrim(sp, header);
    SolidTrimEnd(sp, header);
    assert [TrimEnd(sp, header)][1..] == [];
  }

  /** A new file holds its header and its items' texts: up to white space, nothing else and in order. */
  lemma ContentIsSolid(sp: Space, source: string, selected: seq<RustItem>, header: string)
    requires sp('\n')
    ensures Solid(sp, Content(sp, source, selected, header)) ==
      Solid(sp, header) + SolidAll(sp, Texts(source, Sort(CoreLe, selected)))
  {
    var items := Sort(CoreLe, selected);
    var parts := HeaderPart(sp, header) + Trimmed(sp, source, items);
    SolidConcat(sp, TrimEnd(sp, Join(parts)), "\n");
    SolidBlankLine(sp);
    SolidTrimEnd(sp, Join(parts));
    SolidJoin(sp, parts);
    SolidAllConcat(sp, HeaderPart(sp, header), Trimmed(sp, source, items));
    SolidHeader(sp, header);
    SolidTrimmed(sp, source, items);
  }

  // ---------------------------------------------------------------- weights

  function Weight(sp: Space, s: string): multiset<char> { multiset(Solid(sp, s)) }

  function WeightAll(sp: Space, s: string, items: seq<RustItem>): multiset<char> {
    if items == [] then multiset{}
    else Weight(sp, Slice(s, items[0].start, items[0].end)) + WeightAll(sp, s, items[1..])
  }

  lemma WeightConcat(sp: Space, a: string, b: string)
    ensures Weight(sp, a + b) == Weight(sp, a) + Weight(sp, b)
  {
    SolidConcat(sp, a, b);
  }

  lemma {:induction false} WeightAllConcat(sp: Space, s: string, a: seq<RustItem>, b: seq<RustItem>)
    ensures WeightAll(sp, s, a + b) == WeightAll(sp, s, a) + WeightAll(sp, s, b)
    decreases |a|
  {
    if a == [] {
      assert a + b == b;
    } else {
      assert (a + b)[0] == a[0] && (a + b)[1..] == a[1..] + b;
      WeightAllConcat(sp, s, a[1..], b);
    }
  }

  lemma {:induction false} WeightInsert(sp: Space, s: string, le: (RustItem, RustItem) -> bool, x: RustItem,
      l: seq<RustItem>)
    ensures WeightAll(sp, s, Insert(le, x, l)) == Weight(sp, Slice(s, x.start, x.end)) + WeightAll(sp, s, l)
    decreases |l|
  {
    if l == [] || le(x, l[0]) {
      assert ([x] + l)[1..] == l && [x] + l == [x] + l;
    } else {
      WeightInsert(sp, s, le, x, l[1..]);
      assert ([l[0]] + Insert(le, x, l[1..]))[1..] == Insert(le, x, l[1..]);
    }
  }

  /** The order of the items does not change what they weigh. */
  lemma {:induction false} WeightSort(sp: Space, s: string, le: (RustItem, RustItem) -> bool, l: seq<RustItem>)
    ensures WeightAll(sp, s, Sort(le, l)) == WeightAll(sp, s, l)
    decreases |l|
  {
    if l != [] {
      WeightSort(sp, s, le, l[1..]);
      WeightInsert(sp, s, le, l[0], Sort(le, l[1..]));
    }
  }

  lemma {:induction false} WeightTexts(sp: Space, s: string, items: seq<RustItem>)
    ensures multiset(SolidAll(sp, Texts(s, items))) == WeightAll(sp, s, items)
    decreases |items|
  {
    if items != [] {
      assert Texts(s, items)[1..] == Texts(s, items[1..]);
      WeightTexts(sp, s, items[1..]);
    }
  }

  lemma {:induction false} WeightReinsert(sp: Space, s: string, r: string, asc: seq<RustItem>)
    ensures Weight(sp, Reinsert(s, r, asc)) == Weight(sp, r) + WeightAll(sp, s, asc)
    decreases |asc|
  {
    if asc != [] {
      var init, x := asc[..|asc| - 1], asc[|asc| - 1];
      var q, text := Reinsert(s, r, init), Slice(s, x.start, x.end);
      WeightReinsert(sp, s, r, init);
      InsertedWeight(sp, q, x.start, text);
      WeightLast(sp, s, asc);
    }
  }

  lemma WeightLast(sp: Space, s: string, asc: seq<RustItem>)
    requires asc != []
    ensures var x := asc[|asc| - 1];
      WeightAll(sp, s, asc) == WeightAll(sp, s, asc[..|asc| - 1]) + Weight(sp, Slice(s, x.start, x.end))
  {
    var init, x := asc[..|asc| - 1], asc[|asc| - 1];
    assert asc == init + [x];
    WeightAllConcat(sp, s, init, [x]);
    assert [x][1..] == [];
    assert WeightAll(sp, s, [x]) == Weight(sp, Slice(s, x.start, x.end)) + WeightAll(sp, s, []);
  }

  lemma InsertedWeight(sp: Space, q: string, n: nat, text: string)
    ensures Weight(sp, Upto(q, n) + text + Onward(q, n)) == Weight(sp, q) + Weight(sp, text)
  {
    assert q == Upto(q, n) + Onward(q, n);
    WeightConcat(sp, Upto(q, n), Onward(q, n));
    WeightConcat(sp, Upto(q, n), text);
    WeightConcat(sp, Upto(q, n) + text, Onward(q, n));
  }

  /** What stays and what moves together weigh what the source weighed. */
  lemma RemovalConserves(sp: Space, s: string, selected: seq<RustItem>)
    requires Upright(s, selected) && Apart(Sort(StartLe, selected))
    ensures Weight(sp, Rest(s, selected, 0)) + WeightAll(sp, s, selected) == Weight(sp, s)
  {
    var asc := Sort(StartLe, selected);
    SameItems(selected);
    RebuildsSource(s, asc);
    WeightReinsert(sp, s, Rest(s, asc, 0), asc);
    WeightSort(sp, s, StartLe, selected);
    RestSame(s, asc, selected, 0);
  }

  lemma ContentWeight(sp: Space, s: string, selected: seq<RustItem>, header: string)
    requires sp('\n')
    ensures Weight(sp, Content(sp, s, selected, header)) == Weight(sp, header) + WeightAll(sp, s, selected)
  {
    ContentIsSolid(sp, s, selected, header);
    WeightTexts(sp, s, Sort(CoreLe, selected));
    WeightSort(sp, s, CoreLe, selected);
  }

  // ---------------------------------------------------------------- split_command

  datatype Destination = Destination(path: Path, selectors: seq<string>, header: string)

  type Index = map<string, RustItem>

  /** `by_selector`: the last item of a selector wins. */
  function IndexOf(items: seq<RustItem>): (ix: Index)
    ensures forall q :: q in ix ==> ix[q] in items && ix[q].selector == q
    ensures forall x :: x in items ==> x.selector in ix
  {
    if items == [] then map[]
    else
      var ix := IndexOf(items[..|items| - 1]);
      assert items == items[..|items| - 1] + [items[|items| - 1]];
      ix[items[|items| - 1].selector := items[|items| - 1]]
  }

  /** The selectors the first `n` destinations ask for, in order. */
  function Requests(dests: seq<Destination>, n: nat): seq<string>
    requires n <= |dests|
  {
    if n == 0 then [] else Requests(dests, n - 1) + dests[n - 1].selectors
  }

  ghost predicate Known(ix: Index, qs: seq<string>) { forall q :: q in qs ==> q in ix }

  ghost predicate NoRepeats(qs: seq<string>) { forall i, j :: 0 <= i < j < |qs| ==> qs[i] != qs[j] }

  function Picked(ix: Index, qs: seq<string>): (xs: seq<RustItem>)
    ensures |xs| == |qs| && forall k :: 0 <= k < |qs| && qs[k] in ix ==> xs[k] == ix[qs[k]]
  {
    seq(|qs|, k requires 0 <= k < |qs| => if qs[k] in ix then ix[qs[k]] else RustItem("", Use, "", 0, 0, 0))
  }

  lemma NoRepeatsSnoc(qs: seq<string>, q: string)
    ensures NoRepeats(qs + [q]) <==> NoRepeats(qs) && q !in qs
  {
    var more := qs + [q];
    if NoRepeats(more) {
      forall i, j | 0 <= i < j < |qs| ensures qs[i] != qs[j] { assert more[i] != more[j]; }
      forall i | 0 <= i < |qs| ensures qs[i] != q { assert more[i] != more[|qs|]; }
    }
  }

  lemma NoRepeatsPrefix(qs: seq<string>, rs: seq<string>)
    requires NoRepeats(qs + rs)
    ensures NoRepeats(qs)
  {
    forall i, j | 0 <= i < j < |qs| ensures qs[i] != qs[j] { assert (qs + rs)[i] == qs[i] && (qs + rs)[j] == qs[j]; }
  }

  /** The inner loop: every selector of one destination, none asked for before. */
  method PickItems(ix: Index, asked: seq<string>, qs: seq<string>) returns (r: Option<seq<RustItem>>)
    requires NoRepeats(asked)
    ensures r.Some? <==> Known(ix, qs) && NoRepeats(asked + qs)
    ensures r.Some? ==> r.value == Picked(ix, qs)
  {
    var requested := set q | q in asked;
    var selected: seq<RustItem> := [];
    assert asked + qs[..0] == asked;
    for k := 0 to |qs|
      invariant requested == set q | q in asked + qs[..k]
      invariant Known(ix, qs[..k]) && NoRepeats(asked + qs[..k])
      invariant selected == Picked(ix, qs[..k])
    {
      var q := qs[k];
      PickStep(ix, asked, qs, k);
      if q in requested { return None; }
      if q !in ix { return None; }
      requested := requested + {q};
      selected := selected + [ix[q]];
    }
    assert qs[..|qs|] == qs;
    r := Some(selected);
  }

  lemma PickStep(ix: Index, asked: seq<string>, qs: seq<string>, k: nat)
    requires k < |qs|
    ensures asked + qs[..k + 1] == (asked + qs[..k]) + [qs[k]]
    ensures NoRepeats(asked + qs[..k + 1]) <==> NoRepeats(asked + qs[..k]) && qs[k] !in asked + qs[..k]
    ensures NoRepeats(asked + qs) ==> NoRepeats(asked + qs[..k + 1])
    ensures Known(ix, qs[..k + 1]) <==> Known(ix, qs[..k]) && qs[k] in ix
    ensures qs[k] in ix ==> Picked(ix, qs[..k + 1]) == Picked(ix, qs[..k]) + [ix[qs[k]]]
    ensures Known(ix, qs) ==> qs[k] in ix
  {
    assert qs[..k + 1] == qs[..k] + [qs[k]];
    assert asked + qs[..k + 1] == (asked + qs[..k]) + [qs[k]];
    NoRepeatsSnoc(asked + qs[..k], qs[k]);
    assert asked + qs == (asked + qs[..k + 1]) + qs[k + 1..];
    if NoRepeats(asked + qs) { NoRepeatsPrefix(asked + qs[..k + 1], qs[k + 1..]); }
  }

  /** What the source asks of one destination, apart from the other destinations. */
  ghost predicate OneFine(sp: Space, source: string, home: Path, ix: Index, d: Destination, existing: set<Path>) {
    d.path != home && d.path !in existing && d.selectors != [] && NoBlank(sp, source, Picked(ix, d.selectors))
  }

  /** What it asks of the first `n` together: different paths, known selectors, each asked for once. */
  ghost predicate Fine(sp: Space, source: string, home: Path, ix: Index, dests: seq<Destination>, n: nat,
      existing: set<Path>)
    requires n <= |dests|
  {
    && (forall i :: 0 <= i < n ==> OneFine(sp, source, home, ix, dests[i], existing))
    && (forall i, j :: 0 <= i < j < n ==> dests[i].path != dests[j].path)
    && Known(ix, Requests(dests, n)) && NoRepeats(Requests(dests, n))
  }

  /** The content of every new file. */
  function Contents(sp: Space, source: string, ix: Index, dests: seq<Destination>): (cs: seq<string>)
    ensures |cs| == |dests|
    ensures forall i :: 0 <= i < |dests| ==>
      cs[i] == Content(sp, source, Picked(ix, dests[i].selectors), dests[i].header)
  {
    seq(|dests|, i requires 0 <= i < |dests| => Content(sp, source, Picked(ix, dests[i].selectors), dests[i].header))
  }

  /** The changes hold the contents of the first `n` destinations, and nothing else. */
  ghost predicate Planned(dests: seq<Destination>, contents: seq<string>, n: nat, changes: map<Path, string>) {
    && n <= |dests| == |contents|
    && (forall p :: p in changes ==> exists i :: 0 <= i < n && dests[i].path == p)
    && (forall i :: 0 <= i < n ==> dests[i].path in changes && changes[dests[i].path] == contents[i])
  }

  lemma KnownConcat(ix: Index, a: seq<string>, b: seq<string>)
    ensures Known(ix, a + b) <==> Known(ix, a) && Known(ix, b)
  {
    assert forall q :: q in a || q in b ==> q in a + b;
  }

  lemma FineStep(sp: Space, source: string, home: Path, ix: Index, dests: seq<Destination>, n: nat, existing: set<Path>)
    requires n < |dests| && Fine(sp, source, home, ix, dests, n, existing)
    ensures Fine(sp, source, home, ix, dests, n + 1, existing) <==>
      && OneFine(sp, source, home, ix, dests[n], existing)
      && (forall i :: 0 <= i < n ==> dests[i].path != dests[n].path)
      && Known(ix, dests[n].selectors) && NoRepeats(Requests(dests, n) + dests[n].selectors)
  {
    KnownConcat(ix, Requests(dests, n), dests[n].selectors);
  }

  /** A condition that fails for some destinations fails for all of them. */
  lemma {:induction false} FineBefore(sp: Space, source: string, home: Path, ix: Index, dests: seq<Destination>,
      n: nat, m: nat, existing: set<Path>)
    requires n <= m <= |dests| && Fine(sp, source, home, ix, dests, m, existing)
    ensures Fine(sp, source, home, ix, dests, n, existing)
    decreases m
  {
    if n < m {
      KnownConcat(ix, Requests(dests, m - 1), dests[m - 1].selectors);
      NoRepeatsPrefix(Requests(dests, m - 1), dests[m - 1].selectors);
      FineBefore(sp, source, home, ix, dests, n, m - 1, existing);
    }
  }

  /** One turn of the outer loop. */
  method TakeDestination(sp: Space, source: string, home: Path, ix: Index, asked: seq<string>, d: Destination,
                         taken: set<Path>, existing: set<Path>) returns (r: Option<string>)
    requires NoRepeats(asked)
    ensures r.Some? <==>
      && OneFine(sp, source, home, ix, d, existing) && d.path !in taken
      && Known(ix, d.selectors) && NoRepeats(asked + d.selectors)
    ensures r.Some? ==> r.value == Content(sp, source, Picked(ix, d.selectors), d.header)
  {
    if d.path == home || d.path in taken || d.path in existing || d.selectors == [] {
      return None;
    }
    var selected := PickItems(ix, asked, d.selectors);
    if selected.None? {
      return None;
    }
    r := DestinationContent(sp, source, selected.value, d.header);
  }

  lemma TakenPaths(dests: seq<Destination>, contents: seq<string>, n: nat, changes: map<Path, string>, p: Path)
    requires Planned(dests, contents, n, changes)
    ensures p !in changes <==> forall i :: 0 <= i < n ==> dests[i].path != p
  {}

  lemma PlanStep(dests: seq<Destination>, contents: seq<string>, n: nat, changes: map<Path, string>)
    requires n < |dests| && Planned(dests, contents, n, changes) && dests[n].path !in changes
    ensures Planned(dests, contents, n + 1, changes[dests[n].path := contents[n]])
  {
    var more := changes[dests[n].path := contents[n]];
    forall p | p in more ensures exists i :: 0 <= i < n + 1 && dests[i].path == p {
      if p == dests[n].path { assert dests[n].path == p; } else { assert p in changes; }
    }
  }

  /** One turn of the outer loop, with what it keeps. */
  method TakeNext(sp: Space, source: string, home: Path, ix: Index, dests: seq<Destination>, n: nat,
                  existing: set<Path>, changes: map<Path, string>, ghost contents: seq<string>)
    returns (r: Option<map<Path, string>>)
    requires n < |dests| && contents == Contents(sp, source, ix, dests)
    requires Fine(sp, source, home, ix, dests, n, existing) && Planned(dests, contents, n, changes)
    ensures r.Some? <==> Fine(sp, source, home, ix, dests, n + 1, existing)
    ensures r.Some? ==> Planned(dests, contents, n + 1, r.value)
  {
    FineStep(sp, source, home, ix, dests, n, existing);
    TakenPaths(dests, contents, n, changes, dests[n].path);
    var content := TakeDestination(sp, source, home, ix, Requests(dests, n), dests[n], changes.Keys, existing);
    if content.None? {
      return None;
    }
    PlanStep(dests, contents, n, changes);
    r := Some(changes[dests[n].path := content.value]);
  }

  method TakeAll(sp: Space, source: string, home: Path, ix: Index, dests: seq<Destination>, existing: set<Path>)
    returns (r: Option<map<Path, string>>)
    ensures r.Some? <==> Fine(sp, source, home, ix, dests, |dests|, existing)
    ensures r.Some? ==> Planned(dests, Contents(sp, source, ix, dests), |dests|, r.value)
  {
    var changes: map<Path, string> := map[];
    ghost var contents := Contents(sp, source, ix, dests);
    for n := 0 to |dests|
      invariant Fine(sp, source, home, ix, dests, n, existing) && Planned(dests, contents, n, changes)
    {
      var more := TakeNext(sp, source, home, ix, dests, n, existing, changes, contents);
      if more.None? {
        NotFine(sp, source, home, ix, dests, n, existing);
        return None;
      }
      changes := more.value;
    }
    r := Some(changes);
  }

  lemma NotFine(sp: Space, source: string, home: Path, ix: Index, dests: seq<Destination>, n: nat, existing: set<Path>)
    requires n < |dests| && !Fine(sp, source, home, ix, dests, n + 1, existing)
    ensures !Fine(sp, source, home, ix, dests, |dests|, existing)
  {
    if Fine(sp, source, home, ix, dests, |dests|, existing) {
      FineBefore(sp, source, home, ix, dests, n + 1, |dests|, existing);
    }
  }

  method SpansOverlap(asc: seq<RustItem>) returns (overlap: bool)
    ensures overlap <==> !Adjacent(asc)
  {
    if |asc| > 1 {
      for k := 0 to |asc| - 1
        invariant forall j :: 0 <= j < k ==> asc[j].end <= asc[j + 1].start
      {
        if asc[k].end > asc[k + 1].start { return true; }
      }
    }
    overlap := false;
  }

  /** A text that is not blank comes from an upright span: a reversed or empty one is always refused. */
  lemma TextIsUpright(sp: Space, source: string, x: RustItem)
    requires !Blank(sp, source, x) && x.end <= |source|
    ensures x.start < x.end <= |source|
  {}

  lemma {:induction false} RequestsNotBlank(sp: Space, source: string, home: Path, ix: Index, dests: seq<Destination>,
      n: nat, existing: set<Path>)
    requires n <= |dests| && Fine(sp, source, home, ix, dests, n, existing)
    ensures NoBlank(sp, source, Picked(ix, Requests(dests, n)))
  {
    if n > 0 {
      FineBefore(sp, source, home, ix, dests, n - 1, n, existing);
      RequestsNotBlank(sp, source, home, ix, dests, n - 1, existing);
      PickedConcat(ix, Requests(dests, n - 1), dests[n - 1].selectors);
      assert OneFine(sp, source, home, ix, dests[n - 1], existing);
    }
  }

  ghost predicate Inside(source: string, items: seq<RustItem>) { forall x :: x in items ==> x.end <= |source| }

  lemma PickedInside(source: string, items: seq<RustItem>, qs: seq<string>)
    requires Inside(source, items) && Known(IndexOf(items), qs)
    ensures Inside(source, Picked(IndexOf(items), qs))
  {
    var xs := Picked(IndexOf(items), qs);
    forall x | x in xs ensures x.end <= |source| {
      var k :| 0 <= k < |xs| && xs[k] == x;
      assert qs[k] in qs;
    }
  }

  /** Whatever is accepted has upright spans, wherever the inner header ends. */
  lemma AcceptedIsUpright(sp: Space, source: string, home: Path, items: seq<RustItem>, dests: seq<Destination>,
      existing: set<Path>)
    requires Inside(source, items) && Fine(sp, source, home, IndexOf(items), dests, |dests|, existing)
    ensures Upright(source, Picked(IndexOf(items), Requests(dests, |dests|)))
  {
    var ix := IndexOf(items);
    var selected := Picked(ix, Requests(dests, |dests|));
    RequestsNotBlank(sp, source, home, ix, dests, |dests|, existing);
    PickedInside(source, items, Requests(dests, |dests|));
    forall x | x in selected ensures x.start < x.end <= |source| { TextIsUpright(sp, source, x); }
  }

  /**
   `split_command` up to the write, for items that were found in the source: accepted
   exactly when every check passes, and then the new contents of every file.
   */
  method SplitCommand(sp: Space, source: string, home: Path, items: seq<RustItem>, dests: seq<Destination>,
      existing: set<Path>)
    returns (r: Option<map<Path, string>>)
    requires Inside(source, items)
    ensures r.Some? <==> Accepted(sp, source, home, IndexOf(items), dests, existing)
    ensures r.Some? ==>
      && home in r.value
      && Planned(dests, Contents(sp, source, IndexOf(items), dests), |dests|, r.value - {home})
    ensures r.Some? ==> r.value[home] == Rest(source, Picked(IndexOf(items), Requests(dests, |dests|)), 0)
  {
    var ix := IndexOf(items);
    if dests == [] {
      return None;
    }
    var changes := TakeAll(sp, source, home, ix, dests, existing);
    if changes.None? {
      return None;
    }
    var selected := Picked(ix, Requests(dests, |dests|));
    var overlap := SpansOverlap(Sort(StartLe, selected));
    if overlap {
      return None;
    }
    var rest := RemoveSpans(source, selected);
    AcceptedIsUpright(sp, source, home, items, dests, existing);
    AcceptedIsOrderly(source, selected);
    FineIsAway(sp, source, home, ix, dests, existing);
    HomeIsNew(dests, Contents(sp, source, ix, dests), home, changes.value, rest);
    r := Some(changes.value[home := rest]);
  }

  /** Every check of the source passes. */
  ghost predicate Accepted(sp: Space, source: string, home: Path, ix: Index, dests: seq<Destination>,
      existing: set<Path>) {
    dests != [] && Fine(sp, source, home, ix, dests, |dests|, existing) &&
    Adjacent(Sort(StartLe, Picked(ix, Requests(dests, |dests|))))
  }

  /** An accepted plan overwrites no file but the source, which is no destination, and writes each destination once. */
  lemma PlanOverwritesNothing(sp: Space, source: string, home: Path, ix: Index, dests: seq<Destination>,
      existing: set<Path>, plan: map<Path, string>)
    requires Accepted(sp, source, home, ix, dests, existing)
    requires home in plan && Planned(dests, Contents(sp, source, ix, dests), |dests|, plan - {home})
    ensures forall p :: p in plan && p != home ==> p !in existing && exists i :: 0 <= i < |dests| && dests[i].path == p
    ensures forall i :: 0 <= i < |dests| ==> dests[i].path != home && dests[i].path in plan
    ensures forall i, j :: 0 <= i < j < |dests| ==> dests[i].path != dests[j].path
  {
    forall i | 0 <= i < |dests| ensures dests[i].path != home && dests[i].path !in existing && dests[i].path in plan {
      assert OneFine(sp, source, home, ix, dests[i], existing);
    }
    forall p | p in plan && p != home
      ensures p !in existing && exists i :: 0 <= i < |dests| && dests[i].path == p
    {
      assert p in plan - {home};
    }
  }

  lemma AcceptedIsOrderly(source: string, selected: seq<RustItem>)
    requires Upright(source, selected) && Adjacent(Sort(StartLe, selected))
    ensures Apart(Sort(StartLe, selected)) && Orderly(source, Sort(StartGe, selected))
  {
    SameItems(selected);
    AdjacentIsApart(source, Sort(StartLe, selected));
    ApartIsOrderly(source, selected);
  }

  lemma FineIsAway(sp: Space, source: string, home: Path, ix: Index, dests: seq<Destination>, existing: set<Path>)
    requires Fine(sp, source, home, ix, dests, |dests|, existing)
    ensures forall i :: 0 <= i < |dests| ==> dests[i].path != home
  {
    forall i | 0 <= i < |dests|
      ensures dests[i].path != home
    {
      assert OneFine(sp, source, home, ix, dests[i], existing);
    }
  }

  lemma HomeIsNew(dests: seq<Destination>, contents: seq<string>, home: Path, changes: map<Path, string>, rest: string)
    requires Planned(dests, contents, |dests|, changes) && forall i :: 0 <= i < |dests| ==> dests[i].path != home
    ensures changes[home := rest] - {home} == changes
  {
    assert home !in changes;
  }

  // ---------------------------------------------------------------- the whole split

  function Sum(ms: seq<multiset<char>>): multiset<char> {
    if ms == [] then multiset{} else Sum(ms[..|ms| - 1]) + ms[|ms| - 1]
  }

  lemma {:induction false} SumSplits(a: seq<multiset<char>>, b: seq<multiset<char>>, c: seq<multiset<char>>)
    requires |a| == |b| == |c| && forall i :: 0 <= i < |a| ==> a[i] == b[i] + c[i]
    ensures Sum(a) == Sum(b) + Sum(c)
    decreases |a|
  {
    if a != [] { SumSplits(a[..|a| - 1], b[..|b| - 1], c[..|c| - 1]); }
  }

  /** What the new files weigh together. */
  function Written(sp: Space, contents: seq<string>): multiset<char> {
    Sum(seq(|contents|, i requires 0 <= i < |contents| => Weight(sp, contents[i])))
  }

  function Headers(sp: Space, dests: seq<Destination>): multiset<char> {
    Sum(seq(|dests|, i requires 0 <= i < |dests| => Weight(sp, dests[i].header)))
  }

  function Shares(sp: Space, source: string, ix: Index, dests: seq<Destination>, n: nat): (ms: seq<multiset<char>>)
    requires n <= |dests|
    ensures |ms| == n && forall i :: 0 <= i < n ==> ms[i] == WeightAll(sp, source, Picked(ix, dests[i].selectors))
  {
    seq(n, i requires 0 <= i < n => WeightAll(sp, source, Picked(ix, dests[i].selectors)))
  }

  lemma PickedConcat(ix: Index, a: seq<string>, b: seq<string>)
    ensures Picked(ix, a + b) == Picked(ix, a) + Picked(ix, b)
  {}

  lemma PickedWeight(sp: Space, source: string, ix: Index, a: seq<string>, b: seq<string>)
    ensures WeightAll(sp, source, Picked(ix, a + b)) ==
      WeightAll(sp, source, Picked(ix, a)) + WeightAll(sp, source, Picked(ix, b))
  {
    PickedConcat(ix, a, b);
    WeightAllConcat(sp, source, Picked(ix, a), Picked(ix, b));
  }

  lemma {:induction false} Telescopes(totals: seq<multiset<char>>, ms: seq<multiset<char>>)
    requires |totals| == |ms| + 1 && totals[0] == multiset{}
    requires forall i :: 0 <= i < |ms| ==> totals[i + 1] == totals[i] + ms[i]
    ensures Sum(ms) == totals[|ms|]
    decreases |ms|
  {
    if ms != [] { Telescopes(totals[..|ms|], ms[..|ms| - 1]); }
  }

  function Totals(sp: Space, source: string, ix: Index, dests: seq<Destination>): (ts: seq<multiset<char>>)
    ensures |ts| == |dests| + 1
    ensures forall i :: 0 <= i <= |dests| ==> ts[i] == WeightAll(sp, source, Picked(ix, Requests(dests, i)))
  {
    seq(|dests| + 1, i requires 0 <= i < |dests| + 1 => WeightAll(sp, source, Picked(ix, Requests(dests, i))))
  }

  lemma TotalStep(sp: Space, source: string, ix: Index, dests: seq<Destination>, ts: seq<multiset<char>>,
      ms: seq<multiset<char>>, i: nat)
    requires ts == Totals(sp, source, ix, dests) && ms == Shares(sp, source, ix, dests, |dests|) && i < |dests|
    ensures ts[i + 1] == ts[i] + ms[i]
  {
    PickedWeight(sp, source, ix, Requests(dests, i), dests[i].selectors);
  }

  lemma TotalStart(sp: Space, source: string, ix: Index, dests: seq<Destination>, ts: seq<multiset<char>>)
    requires ts == Totals(sp, source, ix, dests)
    ensures ts[0] == multiset{}
  {
    assert Picked(ix, []) == [];
  }

  lemma SharesAreAll(sp: Space, source: string, ix: Index, dests: seq<Destination>)
    ensures Sum(Shares(sp, source, ix, dests, |dests|)) == WeightAll(sp, source, Picked(ix, Requests(dests, |dests|)))
  {
    var ts, ms := Totals(sp, source, ix, dests), Shares(sp, source, ix, dests, |dests|);
    TotalStart(sp, source, ix, dests, ts);
    forall i | 0 <= i < |dests| ensures ts[i + 1] == ts[i] + ms[i] { TotalStep(sp, source, ix, dests, ts, ms, i); }
    Telescopes(ts, ms);
  }

  lemma WrittenWeight(sp: Space, source: string, ix: Index, dests: seq<Destination>)
    requires sp('\n')
    ensures Written(sp, Contents(sp, source, ix, dests)) ==
      Headers(sp, dests) + WeightAll(sp, source, Picked(ix, Requests(dests, |dests|)))
  {
    var cs := Contents(sp, source, ix, dests);
    var a := seq(|cs|, i requires 0 <= i < |cs| => Weight(sp, cs[i]));
    var b := seq(|dests|, i requires 0 <= i < |dests| => Weight(sp, dests[i].header));
    var c := Shares(sp, source, ix, dests, |dests|);
    forall i | 0 <= i < |a| ensures a[i] == b[i] + c[i] {
      ContentWeight(sp, source, Picked(ix, dests[i].selectors), dests[i].header);
    }
    SumSplits(a, b, c);
    SharesAreAll(sp, source, ix, dests);
  }

  /**
   Every accepted split conserves the source: apart from white space and the given headers, no
   character is lost or doubled.
   */
  lemma SplitConserves(sp: Space, source: string, home: Path, items: seq<RustItem>, dests: seq<Destination>,
      existing: set<Path>)
    requires sp('\n') && Inside(source, items) && Accepted(sp, source, home, IndexOf(items), dests, existing)
    ensures var ix := IndexOf(items); var selected := Picked(ix, Requests(dests, |dests|));
      Weight(sp, Rest(source, selected, 0)) + Written(sp, Contents(sp, source, ix, dests)) ==
        Weight(sp, source) + Headers(sp, dests)
  {
    var selected := Picked(IndexOf(items), Requests(dests, |dests|));
    AcceptedIsUpright(sp, source, home, items, dests, existing);
    AcceptedIsOrderly(source, selected);
    RemovalConserves(sp, source, selected);
    WrittenWeight(sp, source, IndexOf(items), dests);
  }

  // ---------------------------------------------------------------- items of an inventory

  /** `movable_items`. */
  function MovableItems(items: seq<RustItem>): (xs: seq<RustItem>)
    ensures forall x :: x in xs <==> x in items && Movable(x.kind)
  {
    if items == [] then []
    else
      assert items == items[..|items| - 1] + [items[|items| - 1]];
      var init, last := items[..|items| - 1], items[|items| - 1];
      if Movable(last.kind) then MovableItems(init) + [last] else MovableItems(init)
  }

  ghost predicate PairwiseApart(items: seq<RustItem>) {
    forall x, y :: x in items && y in items && x != y ==> x.end <= y.start || y.end <= x.start
  }

  lemma ChainPair(items: seq<RustItem>, headerEnd: nat, i: nat, j: nat)
    requires Chained(items, headerEnd) && i < |items| && j < |items| && i != j
    ensures items[i].end <= items[j].start || items[j].end <= items[i].start
  {
    if i < j { ChainAscends(items, headerEnd, i, j); } else { ChainAscends(items, headerEnd, j, i); }
  }

  /** The spans of an inventory are pairwise apart, wherever the inner header ends. */
  lemma ChainedIsApart(items: seq<RustItem>, headerEnd: nat)
    requires Chained(items, headerEnd)
    ensures PairwiseApart(items) && PairwiseApart(MovableItems(items))
  {
    forall x, y | x in items && y in items && x != y ensures x.end <= y.start || y.end <= x.start {
      var i: nat :| i < |items| && items[i] == x;
      var j: nat :| j < |items| && items[j] == y;
      ChainPair(items, headerEnd, i, j);
    }
  }

  lemma PickedDistinct(ix: Index, qs: seq<string>, items: seq<RustItem>)
    requires Known(ix, qs) && NoRepeats(qs) && forall q :: q in ix ==> ix[q] in items && ix[q].selector == q
    ensures forall x :: x in Picked(ix, qs) ==> x in items
    ensures forall i, j :: 0 <= i < j < |qs| ==> Picked(ix, qs)[i] != Picked(ix, qs)[j]
  {
    var xs := Picked(ix, qs);
    forall k | 0 <= k < |qs| ensures xs[k] in items && xs[k].selector == qs[k] { assert qs[k] in qs; }
    forall x | x in xs ensures x in items { var k :| 0 <= k < |xs| && xs[k] == x; }
  }

  /** On an inventory's items the overlap check never fires, as the source's own remark says. */
  lemma OverlapNeverFires(source: string, items: seq<RustItem>, qs: seq<string>)
    requires PairwiseApart(items) && Known(IndexOf(items), qs) && NoRepeats(qs)
    requires Upright(source, Picked(IndexOf(items), qs))
    ensures Adjacent(Sort(StartLe, Picked(IndexOf(items), qs)))
  {
    var selected := Picked(IndexOf(items), qs);
    var asc := Sort(StartLe, selected);
    PickedDistinct(IndexOf(items), qs, items);
    SameItems(selected);
    DistinctSorted(selected, asc);
    forall k | 0 <= k < |asc| - 1 ensures asc[k].end <= asc[k + 1].start {
      var x, y := asc[k], asc[k + 1];
      assert x in asc && y in asc && x != y && StartLe(x, y);
      assert x in items && y in items;
    }
  }

  /** Nor does the check for blank texts: an item's span holds its first token. */
  lemma ItemsAreNotBlank(sp: Space, source: string, x: RustItem)
    requires x.start <= x.coreStart < x.end <= |source| && !sp(source[x.coreStart])
    ensures !Blank(sp, source, x)
  {
    var t := source[x.start..x.end];
    assert Slice(source, x.start, x.end) == t;
    var k := x.coreStart - x.start;
    assert t == t[..k] + ([t[k]] + t[k + 1..]);
    SolidConcat(sp, t[..k], [t[k]] + t[k + 1..]);
    assert ([t[k]] + t[k + 1..])[0] == t[k] && t[k] == source[x.coreStart];
    SolidTrim(sp, t);
  }

  lemma InventoryAccepts(sp: Space, source: string, home: Path, items: seq<RustItem>, headerEnd: nat,
      dests: seq<Destination>, existing: set<Path>)
    requires Chained(items, headerEnd) && Inside(source, items)
    requires dests != [] && Fine(sp, source, home, IndexOf(MovableItems(items)), dests, |dests|, existing)
    ensures Accepted(sp, source, home, IndexOf(MovableItems(items)), dests, existing)
  {
    ChainedIsApart(items, headerEnd);
    AcceptedIsUpright(sp, source, home, MovableItems(items), dests, existing);
    OverlapNeverFires(source, MovableItems(items), Requests(dests, |dests|));
  }

  /** The plan for a source: every file's new content, with nothing of the source lost or doubled. */
  ghost predicate Conserving(sp: Space, source: string, home: Path, ix: Index, dests: seq<Destination>,
      plan: map<Path, string>) {
    && home in plan && Planned(dests, Contents(sp, source, ix, dests), |dests|, plan - {home})
    && Weight(sp, plan[home]) + Written(sp, Contents(sp, source, ix, dests)) == Weight(sp, source) + Headers(sp, dests)
  }

  /**
   The whole tool, from the text of a source file on: a manifest is accepted exactly
   when its own checks pass, and every accepted one conserves the source, wherever the
   inner header ends.
   */
  method SplitSource(cls: Classes, source: string, headerEnd: nat, home: Path, dests: seq<Destination>,
      existing: set<Path>)
    returns (r: Option<map<Path, string>>, ghost listed: Option<seq<RustItem>>,
      ghost pieces: seq<Piece>, ghost pairs: Delimiters.Pairs)
    requires cls.isSpace('\n')
    ensures Lexed(source, cls, pieces, |source|) && InSource(source, pieces)
    ensures listed.None? <==> Unclean(source, pieces) || Unended(source, pieces, pairs)
    ensures listed.None? ==> r.None?
    ensures listed.Some? ==> Chained(listed.value, headerEnd)
    ensures listed.Some? ==>
      (r.Some? <==>
        dests != [] && Fine(cls.isSpace, source, home, IndexOf(MovableItems(listed.value)), dests, |dests|, existing))
    ensures r.Some? ==> Conserving(cls.isSpace, source, home, IndexOf(MovableItems(listed.value)), dests, r.value)
  {
    var found, read, mates, raw := Inventory(source, cls, headerEnd);
    pieces, pairs := read, mates;
    if found.Err? {
      return None, None, read, mates;
    }
    var all := found.value;
    var items := MovableItems(all);
    r := SplitCommand(cls.isSpace, source, home, items, dests, existing);
    listed := Some(all);
    if dests != [] && Fine(cls.isSpace, source, home, IndexOf(items), dests, |dests|, existing) {
      InventoryAccepts(cls.isSpace, source, home, all, headerEnd, dests, existing);
    }
    if r.Some? { SplitConserves(cls.isSpace, source, home, items, dests, existing); }
  }
}
