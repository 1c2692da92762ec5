/**
 The dependency graph of the architecture report: what a package reaches, and
 the level of every package. Both loops are compared with walks in the graph.
 */
module Graph {
  import opened Sorting

  type Name = string
  type Adjacency = map<Name, set<Name>>

  /** `adjacency.get(name, set())`. */
  function Deps(adj: Adjacency, n: Name): set<Name> { if n in adj then adj[n] else {} }

  // ---------------------------------------------------------------- walks

  predicate StepAt(adj: Adjacency, within: set<Name>, p: seq<Name>, i: nat) {
    i + 1 < |p| && p[i] in within && p[i + 1] in Deps(adj, p[i])
  }

  /** A walk along dependencies that leaves only nodes of `within`. */
  predicate Walk(adj: Adjacency, within: set<Name>, p: seq<Name>) {
    |p| > 0 && forall i: nat :: i + 1 < |p| ==> StepAt(adj, within, p, i)
  }

  ghost predicate Reaches(adj: Adjacency, a: Name, b: Name) {
    exists p :: Walk(adj, adj.Keys, p) && |p| >= 2 && p[0] == a && p[|p| - 1] == b
  }

  /** No walk through the given names returns to where it began. */
  ghost predicate Acyclic(adj: Adjacency, names: set<Name>) {
    forall p :: Walk(adj, names, p) && |p| >= 2 ==> p[0] != p[|p| - 1]
  }

  /** The longest walk from `n` through the given names has `k` edges. */
  ghost predicate Longest(adj: Adjacency, names: set<Name>, n: Name, k: nat) {
    && (exists p :: Walk(adj, names, p) && p[0] == n && |p| == k + 1)
    && (forall p :: Walk(adj, names, p) && p[0] == n ==> |p| <= k + 1)
  }

  lemma WalkTail(adj: Adjacency, within: set<Name>, p: seq<Name>)
    requires Walk(adj, within, p) && |p| >= 2
    ensures Walk(adj, within, p[1..]) && p[0] in within && p[1] in Deps(adj, p[0])
  {
    assert StepAt(adj, within, p, 0);
    forall i: nat | i + 1 < |p[1..]| ensures StepAt(adj, within, p[1..], i) { assert StepAt(adj, within, p, i + 1); }
  }

  lemma WalkCons(adj: Adjacency, within: set<Name>, a: Name, p: seq<Name>)
    requires Walk(adj, within, p) && a in within && p[0] in Deps(adj, a)
    ensures Walk(adj, within, [a] + p)
  {
    var q := [a] + p;
    forall i: nat | i + 1 < |q| ensures StepAt(adj, within, q, i) {
      if i > 0 { assert StepAt(adj, within, p, i - 1); }
    }
  }

  lemma WalkSnoc(adj: Adjacency, within: set<Name>, p: seq<Name>, b: Name)
    requires Walk(adj, within, p) && p[|p| - 1] in within && b in Deps(adj, p[|p| - 1])
    ensures Walk(adj, within, p + [b])
  {
    var q := p + [b];
    forall i: nat | i + 1 < |q| ensures StepAt(adj, within, q, i) {
      if i + 1 < |p| { assert StepAt(adj, within, p, i); }
    }
  }

  lemma WalkSlice(adj: Adjacency, within: set<Name>, p: seq<Name>, i: nat, j: nat)
    requires Walk(adj, within, p) && i < j <= |p|
    ensures Walk(adj, within, p[i..j])
  {
    forall k: nat | k + 1 < j - i ensures StepAt(adj, within, p[i..j], k) { assert StepAt(adj, within, p, i + k); }
  }

  lemma ReachesDirect(adj: Adjacency, a: Name)
    ensures forall b :: b in Deps(adj, a) ==> Reaches(adj, a, b)
  {
    forall b | b in Deps(adj, a) ensures Reaches(adj, a, b) {
      assert StepAt(adj, adj.Keys, [a, b], 0);
      assert Walk(adj, adj.Keys, [a, b]);
    }
  }

  lemma ReachesFurther(adj: Adjacency, a: Name, b: Name)
    requires Reaches(adj, a, b)
    ensures forall c :: c in Deps(adj, b) ==> Reaches(adj, a, c)
  {
    var p :| Walk(adj, adj.Keys, p) && |p| >= 2 && p[0] == a && p[|p| - 1] == b;
    forall c | c in Deps(adj, b) ensures Reaches(adj, a, c) {
      WalkSnoc(adj, adj.Keys, p, c);
      assert (p + [c])[|p + [c]| - 1] == c;
    }
  }

  // ---------------------------------------------------------------- closure

  ghost predicate Lists<T(!new)>(l: seq<T>, s: set<T>) {
    (forall x :: x in l <==> x in s) && (forall i, j :: 0 <= i < j < |l| ==> l[i] != l[j])
  }

  /** A set's elements in some order. */
  method Elements<T(==, !new)>(s: set<T>) returns (l: seq<T>)
    ensures Lists(l, s)
  {
    l := [];
    var rest := s;
    while rest != {}
      invariant rest <= s && Lists(l, s - rest)
      decreases |rest|
    {
      var x :| x in rest;
      rest := rest - {x};
      l := l + [x];
    }
    assert s - rest == s;
  }

  ghost function Targets(adj: Adjacency): set<Name> { set k, v | k in adj && v in adj[k] :: v }

  /** A set closed under dependencies holds whatever a walk from its members meets. */
  lemma {:induction false} ClosedHoldsWalks(adj: Adjacency, found: set<Name>, p: seq<Name>)
    requires forall x :: x in found ==> Deps(adj, x) <= found
    requires Walk(adj, adj.Keys, p) && p[0] in found
    ensures p[|p| - 1] in found
    decreases |p|
  {
    if |p| >= 2 {
      WalkTail(adj, adj.Keys, p);
      ClosedHoldsWalks(adj, found, p[1..]);
    }
  }

  /** What the work list keeps: everything met is reachable, and only pending nodes are unexplored. */
  ghost predicate Exploring(start: Name, adj: Adjacency, found: set<Name>, pending: seq<Name>) {
    && (forall x :: x in found ==> x in Targets(adj) && Reaches(adj, start, x))
    && (forall x :: x in pending ==> x in Targets(adj) && Reaches(adj, start, x))
    && (forall x :: x in Deps(adj, start) ==> x in found || x in pending)
    && (forall x, y :: x in found && y in Deps(adj, x) ==> y in found || y in pending)
  }

  lemma ExploreBegin(start: Name, adj: Adjacency, pending: seq<Name>)
    requires Lists(pending, Deps(adj, start))
    ensures Exploring(start, adj, {}, pending)
  {
    ReachesDirect(adj, start);
  }

  lemma ExploreSkip(start: Name, adj: Adjacency, found: set<Name>, pending: seq<Name>, current: Name)
    requires Exploring(start, adj, found, pending + [current]) && current in found
    ensures Exploring(start, adj, found, pending)
  {
    assert forall x :: x in pending ==> x in pending + [current];
    assert forall x :: x in pending + [current] ==> x in pending || x == current;
  }

  lemma ExploreNode(start: Name, adj: Adjacency, found: set<Name>, pending: seq<Name>, current: Name, more: seq<Name>)
    requires Exploring(start, adj, found, pending + [current]) && Lists(more, Deps(adj, current))
    ensures Exploring(start, adj, found + {current}, pending + more) && current in Targets(adj)
  {
    assert current in pending + [current];
    ReachesFurther(adj, start, current);
    assert forall x :: x in pending ==> x in pending + [current];
    assert forall x :: x in pending + [current] ==> x in pending || x == current;
    assert forall x :: x in pending + more <==> x in pending || x in more;
  }

  lemma ExploreEnd(start: Name, adj: Adjacency, found: set<Name>)
    requires Exploring(start, adj, found, [])
    ensures forall x :: x in found <==> Reaches(adj, start, x)
  {
    forall x | Reaches(adj, start, x) ensures x in found {
      var p :| Walk(adj, adj.Keys, p) && |p| >= 2 && p[0] == start && p[|p| - 1] == x;
      WalkTail(adj, adj.Keys, p);
      ClosedHoldsWalks(adj, found, p[1..]);
    }
  }

  lemma Shrinks(all: set<Name>, found: set<Name>, x: Name)
    requires x in all && x !in found
    ensures |all - (found + {x})| < |all - found|
  {
    assert all - (found + {x}) == (all - found) - {x};
  }

  /** The work list finds exactly what is reachable, on any finite graph, and leaves out the start. */
  method TransitiveClosure(start: Name, adj: Adjacency) returns (found: set<Name>)
    ensures forall x :: x in found <==> x != start && Reaches(adj, start, x)
  {
    found := {};
    var pending := Elements(Deps(adj, start));
    ExploreBegin(start, adj, pending);
    while pending != []
      invariant Exploring(start, adj, found, pending)
      decreases |Targets(adj) - found|, |pending|
    {
      var rest, current := pending[..|pending| - 1], pending[|pending| - 1];
      assert pending == rest + [current];
      if current in found {
        ExploreSkip(start, adj, found, rest, current);
        pending := rest;
      } else {
        var more := Elements(Deps(adj, current));
        ExploreNode(start, adj, found, rest, current, more);
        Shrinks(Targets(adj), found, current);
        found := found + {current};
        pending := rest + more;
      }
    }
    ExploreEnd(start, adj, found);
    found := found - {start};
  }

  // ---------------------------------------------------------------- cycles

  lemma {:induction false} Pigeonhole(p: seq<Name>, s: set<Name>)
    requires |p| > |s| && StaysIn(p, s)
    ensures exists i, j :: 0 <= i < j < |p| && p[i] == p[j]
    decreases |p|
  {
    var last := p[|p| - 1];
    if i :| 0 <= i < |p| - 1 && p[i] == last {
      assert p[i] == p[|p| - 1];
    } else {
      var q, t := p[..|p| - 1], s - {last};
      assert StaysIn(q, t);
      Pigeonhole(q, t);
      var i, j :| 0 <= i < j < |q| && q[i] == q[j];
      assert p[i] == p[j];
    }
  }

  /** Some dependency of `n` is in `s`. */
  predicate Into(adj: Adjacency, n: Name, s: set<Name>) { exists d :: d in Deps(adj, n) && d in s }

  /** Where every node of a set has a dependency in it, walks inside it go on for ever. */
  predicate StaysIn(p: seq<Name>, s: set<Name>) { forall i :: 0 <= i < |p| ==> p[i] in s }

  lemma WalkOn(adj: Adjacency, names: set<Name>, stuck: set<Name>, q: seq<Name>) returns (p: seq<Name>)
    requires stuck <= names && Walk(adj, names, q) && StaysIn(q, stuck) && Into(adj, q[|q| - 1], stuck)
    ensures Walk(adj, names, p) && |p| == |q| + 1 && StaysIn(p, stuck)
  {
    var b :| b in Deps(adj, q[|q| - 1]) && b in stuck;
    assert q[|q| - 1] in stuck;
    WalkSnoc(adj, names, q, b);
    p := q + [b];
  }

  lemma IntoAt(adj: Adjacency, stuck: set<Name>, n: Name)
    requires n in stuck && forall m :: m in stuck ==> Into(adj, m, stuck)
    ensures Into(adj, n, stuck)
  {}

  lemma {:induction false} EndlessWalk(adj: Adjacency, names: set<Name>, stuck: set<Name>, k: nat)
      returns (p: seq<Name>)
    requires stuck <= names && stuck != {} && forall n :: n in stuck ==> Into(adj, n, stuck)
    ensures Walk(adj, names, p) && |p| == k + 1 && StaysIn(p, stuck)
  {
    if k == 0 {
      var n :| n in stuck;
      p := [n];
    } else {
      var q := EndlessWalk(adj, names, stuck, k - 1);
      IntoAt(adj, stuck, q[|q| - 1]);
      p := WalkOn(adj, names, stuck, q);
    }
  }

  lemma RepeatIsCyclic(adj: Adjacency, names: set<Name>, p: seq<Name>, i: nat, j: nat)
    requires Walk(adj, names, p) && i < j < |p| && p[i] == p[j]
    ensures !Acyclic(adj, names)
  {
    WalkSlice(adj, names, p, i, j + 1);
    var q := p[i..j + 1];
    assert q[0] == p[i] && q[|q| - 1] == p[j] && |q| >= 2;
  }

  lemma StuckIsCyclic(adj: Adjacency, names: set<Name>, stuck: set<Name>)
    requires stuck <= names && stuck != {} && forall n :: n in stuck ==> Into(adj, n, stuck)
    ensures !Acyclic(adj, names)
  {
    var p := EndlessWalk(adj, names, stuck, |stuck|);
    Pigeonhole(p, stuck);
    var i: nat, j: nat :| i < j < |p| && p[i] == p[j];
    RepeatIsCyclic(adj, names, p, i, j);
  }

  /** Every dependency between the names goes to a lower level. */
  ghost predicate Descends(adj: Adjacency, names: set<Name>, levels: map<Name, nat>) {
    forall n, d :: n in names && d in names && d in Deps(adj, n) ==>
      n in levels && d in levels && levels[d] < levels[n]
  }

  lemma {:induction false} WalkDescends(adj: Adjacency, names: set<Name>, levels: map<Name, nat>, p: seq<Name>)
    requires Descends(adj, names, levels) && names <= levels.Keys
    requires Walk(adj, names, p) && |p| >= 2 && p[|p| - 1] in names
    ensures p[0] in names && levels[p[|p| - 1]] < levels[p[0]]
    decreases |p|
  {
    WalkTail(adj, names, p);
    if |p| > 2 { WalkDescends(adj, names, levels, p[1..]); }
  }

  lemma DescendingIsAcyclic(adj: Adjacency, names: set<Name>, levels: map<Name, nat>)
    requires Descends(adj, names, levels) && names <= levels.Keys
    ensures Acyclic(adj, names)
  {
    forall p | Walk(adj, names, p) && |p| >= 2 ensures p[0] != p[|p| - 1] {
      WalkTail(adj, names, p);
      if p[|p| - 1] in names { WalkDescends(adj, names, levels, p); }
    }
  }

  // ---------------------------------------------------------------- levels

  function LevelOf(levels: map<Name, nat>, d: Name): nat { if d in levels then levels[d] else 0 }

  /** `max(levels.get(d, 0) for d in deps)`, 0 for no dependency. */
  method Highest(levels: map<Name, nat>, deps: set<Name>) returns (m: nat)
    ensures forall d :: d in deps ==> LevelOf(levels, d) <= m
    ensures if deps == {} then m == 0 else exists d :: d in deps && LevelOf(levels, d) == m
  {
    var l := Elements(deps);
    m := 0;
    for i := 0 to |l|
      invariant forall k :: 0 <= k < i ==> LevelOf(levels, l[k]) <= m
      invariant if i == 0 then m == 0 else exists k :: 0 <= k < i && LevelOf(levels, l[k]) == m
    {
      if i == 0 || LevelOf(levels, l[i]) > m {
        m := LevelOf(levels, l[i]);
      }
    }
    forall d | d in deps ensures LevelOf(levels, d) <= m { assert d in l; }
    if |l| > 0 { assert l[0] in deps; }
    if deps != {} {
      var d :| d in deps;
      assert d in l;
      var k :| 0 <= k < |l| && LevelOf(levels, l[k]) == m;
      assert l[k] in deps;
    }
  }

  lemma LongestHere(adj: Adjacency, names: set<Name>, n: Name)
    requires n !in names || Deps(adj, n) == {}
    ensures Longest(adj, names, n, 0)
  {
    assert Walk(adj, names, [n]);
    forall p | Walk(adj, names, p) && p[0] == n ensures |p| <= 1 {
      if |p| >= 2 { WalkTail(adj, names, p); }
    }
  }

  lemma LongestStep(adj: Adjacency, names: set<Name>, levels: map<Name, nat>, n: Name, m: nat)
    requires n in names && Deps(adj, n) != {}
    requires forall d :: d in Deps(adj, n) ==> Longest(adj, names, d, LevelOf(levels, d)) && LevelOf(levels, d) <= m
    requires exists d :: d in Deps(adj, n) && LevelOf(levels, d) == m
    ensures Longest(adj, names, n, m + 1)
  {
    var d :| d in Deps(adj, n) && LevelOf(levels, d) == m;
    var q :| Walk(adj, names, q) && q[0] == d && |q| == m + 1;
    WalkCons(adj, names, n, q);
    assert ([n] + q)[0] == n && |[n] + q| == m + 2;
    forall p | Walk(adj, names, p) && p[0] == n ensures |p| <= m + 2 {
      if |p| >= 2 { WalkTail(adj, names, p); }
    }
  }

  /** What the loop keeps until it ever has to break a cycle. */
  ghost predicate Settled(adj: Adjacency, names: set<Name>, levels: map<Name, nat>) {
    forall n :: n in levels ==>
      n in names && Deps(adj, n) * names <= levels.Keys && Longest(adj, names, n, levels[n])
  }

  lemma DepsAreSettled(adj: Adjacency, names: set<Name>, levels: map<Name, nat>, n: Name)
    requires Settled(adj, names, levels) && Deps(adj, n) * names <= levels.Keys
    ensures forall d :: d in Deps(adj, n) ==> Longest(adj, names, d, LevelOf(levels, d))
  {
    forall d | d in Deps(adj, n) ensures Longest(adj, names, d, LevelOf(levels, d)) {
      if d in names { assert d in Deps(adj, n) * names; } else { LongestHere(adj, names, d); }
    }
  }

  /** Longest walks shrink along an edge. */
  lemma LongestDescends(adj: Adjacency, names: set<Name>, n: Name, k: nat, d: Name, l: nat)
    requires n in names && d in Deps(adj, n) && Longest(adj, names, n, k) && Longest(adj, names, d, l)
    ensures l < k
  {
    var q :| Walk(adj, names, q) && q[0] == d && |q| == l + 1;
    WalkCons(adj, names, n, q);
    assert ([n] + q)[0] == n;
  }

  lemma SettledDescends(adj: Adjacency, names: set<Name>, levels: map<Name, nat>)
    requires Settled(adj, names, levels) && names <= levels.Keys
    ensures Descends(adj, names, levels) && Acyclic(adj, names)
  {
    forall n, d | n in names && d in names && d in Deps(adj, n)
      ensures n in levels && d in levels && levels[d] < levels[n]
    {
      LongestDescends(adj, names, n, levels[n], d, levels[d]);
    }
    DescendingIsAcyclic(adj, names, levels);
  }

  /** The level of one name, from the levels found so far. */
  method LevelFor(adj: Adjacency, levels: map<Name, nat>, n: Name) returns (level: nat)
    ensures level == 0 <==> Deps(adj, n) == {}
    ensures forall d :: d in Deps(adj, n) ==> LevelOf(levels, d) < level
    ensures level > 0 ==> exists d :: d in Deps(adj, n) && LevelOf(levels, d) == level - 1
  {
    if Deps(adj, n) == {} {
      level := 0;
    } else {
      var m := Highest(levels, Deps(adj, n));
      level := 1 + m;
    }
  }

  lemma LevelForIsLongest(adj: Adjacency, names: set<Name>, levels: map<Name, nat>, n: Name, level: nat)
    requires Settled(adj, names, levels) && n in names && Deps(adj, n) * names <= levels.Keys
    requires level == 0 <==> Deps(adj, n) == {}
    requires forall d :: d in Deps(adj, n) ==> LevelOf(levels, d) < level
    requires level > 0 ==> exists d :: d in Deps(adj, n) && LevelOf(levels, d) == level - 1
    ensures Longest(adj, names, n, level)
  {
    if level == 0 {
      LongestHere(adj, names, n);
    } else {
      DepsAreSettled(adj, names, levels, n);
      LongestStep(adj, names, levels, n, level - 1);
    }
  }

  ghost predicate ZeroExact(adj: Adjacency, levels: map<Name, nat>) {
    forall n :: n in levels ==> (levels[n] == 0 <==> Deps(adj, n) == {})
  }

  lemma SettleOne(adj: Adjacency, names: set<Name>, levels: map<Name, nat>, n: Name, level: nat)
    requires Settled(adj, names, levels) && n in names && Deps(adj, n) * names <= levels.Keys
    requires n !in levels && Longest(adj, names, n, level)
    ensures Settled(adj, names, levels[n := level])
  {}

  /** One round: the ready names in turn get their level and leave the remaining ones. */
  method AssignReady(names: set<Name>, adj: Adjacency, before: map<Name, nat>, todo: set<Name>, ready: seq<Name>,
      ghost broke: bool)
    returns (levels: map<Name, nat>, remaining: set<Name>)
    requires before.Keys == names - todo && todo <= names && ZeroExact(adj, before)
    requires forall x :: x in ready ==> x in todo
    requires forall i, j :: 0 <= i < j < |ready| ==> ready[i] != ready[j]
    requires !broke ==> Settled(adj, names, before) && forall x :: x in ready ==> Deps(adj, x) * names <= before.Keys
    requires broke ==> GroundedExact(adj, names, before) && NoneGrounded(adj, names, todo)
    ensures remaining == todo - (set x | x in ready)
    ensures levels.Keys == names - remaining && ZeroExact(adj, levels)
    ensures !broke ==> Settled(adj, names, levels)
    ensures broke ==> GroundedExact(adj, names, levels)
  {
    levels, remaining := before, todo;
    for i := 0 to |ready|
      invariant remaining == todo - (set x | x in ready[..i])
      invariant levels.Keys == names - remaining && ZeroExact(adj, levels) && before.Keys <= levels.Keys
      invariant !broke ==> Settled(adj, names, levels)
      invariant broke ==> GroundedExact(adj, names, levels)
    {
      var n := ready[i];
      assert n in ready && n !in ready[..i];
      assert ready[..i + 1] == ready[..i] + [n];
      var level := LevelFor(adj, levels, n);
      if !broke {
        LevelForIsLongest(adj, names, levels, n, level);
        SettleOne(adj, names, levels, n, level);
      }
      levels := levels[n := level];
      remaining := remaining - {n};
    }
    assert ready[..|ready|] == ready;
  }

  lemma SortLists(l: seq<Name>, s: set<Name>)
    requires Lists(l, s)
    ensures Lists(Sort(NameLe, l), s) && SortedBy(NameLe, Sort(NameLe, l))
  {
    NameOrders();
    SortSorts(NameLe, l);
    DistinctSorted(l, Sort(NameLe, l));
  }

  method SortedNames(s: set<Name>) returns (l: seq<Name>)
    ensures Lists(l, s) && SortedBy(NameLe, l)
  {
    var unordered := Elements(s);
    SortLists(unordered, s);
    l := Sort(NameLe, unordered);
  }

  // Names that reach no cycle have a longest walk, on any graph.

  ghost predicate Grounded(adj: Adjacency, names: set<Name>, n: Name) { exists k: nat :: Longest(adj, names, n, k) }

  lemma {:induction false} HasLongest(adj: Adjacency, names: set<Name>, n: Name, bound: nat) returns (k: nat)
    requires forall p :: Walk(adj, names, p) && p[0] == n ==> |p| <= bound + 1
    ensures k <= bound && Longest(adj, names, n, k)
  {
    assert Walk(adj, names, [n]);
    if bound == 0 || exists p :: Walk(adj, names, p) && p[0] == n && |p| == bound + 1 {
      k := bound;
    } else {
      k := HasLongest(adj, names, n, bound - 1);
    }
  }

  /** A dependency of a grounded name is grounded, with a shorter longest walk. */
  lemma DependencyIsGrounded(adj: Adjacency, names: set<Name>, n: Name, k: nat, d: Name) returns (l: nat)
    requires n in names && d in Deps(adj, n) && Longest(adj, names, n, k)
    ensures l < k && Longest(adj, names, d, l)
  {
    forall p | Walk(adj, names, p) && p[0] == d ensures |p| <= k {
      WalkCons(adj, names, n, p);
      assert ([n] + p)[0] == n;
    }
    assert Walk(adj, names, [d]);
    l := HasLongest(adj, names, d, k - 1);
  }

  /** Names that all wait for one another are not grounded. */
  lemma {:induction false} StuckIsUngrounded(adj: Adjacency, names: set<Name>, stuck: set<Name>, n: Name, k: nat)
    requires stuck <= names && n in stuck && forall m :: m in stuck ==> Into(adj, m, stuck)
    ensures !Longest(adj, names, n, k)
    decreases k
  {
    if Longest(adj, names, n, k) {
      assert Into(adj, n, stuck);
      var d :| d in Deps(adj, n) && d in stuck;
      var l := DependencyIsGrounded(adj, names, n, k, d);
      StuckIsUngrounded(adj, names, stuck, d, l);
    }
  }

  ghost predicate NoneGrounded(adj: Adjacency, names: set<Name>, s: set<Name>) {
    forall n :: n in s ==> !Grounded(adj, names, n)
  }

  /** Grounded names have their longest walk as level. */
  ghost predicate GroundedExact(adj: Adjacency, names: set<Name>, levels: map<Name, nat>) {
    forall n :: n in levels && Grounded(adj, names, n) ==> Longest(adj, names, n, levels[n])
  }

  lemma SettledIsExact(adj: Adjacency, names: set<Name>, levels: map<Name, nat>)
    requires Settled(adj, names, levels)
    ensures GroundedExact(adj, names, levels)
  {}

  lemma NoneReady(names: set<Name>, adj: Adjacency, levels: map<Name, nat>, remaining: set<Name>)
    requires remaining <= names && remaining != {} && levels.Keys == names - remaining
    requires forall n :: n in remaining ==> Into(adj, n, names - levels.Keys)
    ensures !Acyclic(adj, names) && NoneGrounded(adj, names, remaining)
  {
    assert names - levels.Keys == remaining;
    StuckIsCyclic(adj, names, remaining);
    forall n, k: nat | n in remaining
      ensures !Longest(adj, names, n, k)
    {
      StuckIsUngrounded(adj, names, remaining, n, k);
    }
  }

  lemma LevelsDone(names: set<Name>, adj: Adjacency, levels: map<Name, nat>, broke: bool)
    requires levels.Keys == names && (broke ==> !Acyclic(adj, names)) && (!broke ==> Settled(adj, names, levels))
    ensures (broke <==> !Acyclic(adj, names)) && (!broke <==> Descends(adj, names, levels))
    ensures !broke ==> GroundedExact(adj, names, levels) && forall n :: n in names ==> Longest(adj, names, n, levels[n])
  {
    if !broke { SettledDescends(adj, names, levels); }
    if Descends(adj, names, levels) { DescendingIsAcyclic(adj, names, levels); }
  }

  lemma Fewer(a: set<Name>, l: seq<Name>, s: set<Name>)
    requires Lists(l, s) && s <= a && s != {}
    ensures |a - (set x | x in l)| < |a|
  {
    assert (set x | x in l) == s;
    var x :| x in s;
    assert a - s <= a - {x};
    SubsetSize(a - s, a - {x});
  }

  lemma {:induction false} SubsetSize(a: set<Name>, b: set<Name>)
    requires a <= b
    ensures |a| <= |b|
    decreases a
  {
    if a != {} {
      var x :| x in a;
      SubsetSize(a - {x}, b - {x});
    }
  }

  /** The names left whose dependencies all have a level. */
  function Free(names: set<Name>, adj: Adjacency, levels: map<Name, nat>, remaining: set<Name>): set<Name> {
    set n | n in remaining && !Into(adj, n, names - levels.Keys)
  }

  /** The ready names in order, or every name left when none is ready. */
  method ChooseReady(names: set<Name>, adj: Adjacency, levels: map<Name, nat>, remaining: set<Name>)
    returns (ready: seq<Name>, ghost cyclic: bool)
    requires remaining <= names && remaining != {} && levels.Keys == names - remaining
    ensures (forall x :: x in ready ==> x in remaining) && |remaining - (set x | x in ready)| < |remaining|
    ensures forall i, j :: 0 <= i < j < |ready| ==> ready[i] != ready[j]
    ensures if cyclic then !Acyclic(adj, names) && NoneGrounded(adj, names, remaining)
            else forall x :: x in ready ==> Deps(adj, x) * names <= levels.Keys
  {
    var choice := Free(names, adj, levels, remaining);
    cyclic := choice == {};
    if choice == {} {
      assert forall n :: n in remaining && !Into(adj, n, names - levels.Keys) ==> n in choice;
      NoneReady(names, adj, levels, remaining);
      choice := remaining;
    }
    ready := SortedNames(choice);
    Fewer(remaining, ready, choice);
  }

  /** What the rounds keep. */
  ghost predicate Leveling(names: set<Name>, adj: Adjacency, levels: map<Name, nat>, remaining: set<Name>,
      broke: bool) {
    && remaining <= names && levels.Keys == names - remaining && ZeroExact(adj, levels)
    && (if broke then !Acyclic(adj, names) && GroundedExact(adj, names, levels) && NoneGrounded(adj, names, remaining)
        else Settled(adj, names, levels))
  }

  /**
   Levels. On an acyclic graph each is the longest walk and every dependency
   descends; the cycle breaker acts exactly on cyclic graphs, which are the ones
   no assignment of levels could serve.
   */
  method DependencyLevels(names: set<Name>, adj: Adjacency) returns (levels: map<Name, nat>, ghost broke: bool)
    ensures levels.Keys == names && ZeroExact(adj, levels)
    ensures broke <==> !Acyclic(adj, names)
    ensures !broke <==> Descends(adj, names, levels)
    ensures !broke ==> forall n :: n in names ==> Longest(adj, names, n, levels[n])
    ensures GroundedExact(adj, names, levels)
  {
    levels := map[];
    broke := false;
    var remaining := names;
    while remaining != {}
      invariant Leveling(names, adj, levels, remaining, broke)
      decreases |remaining|
    {
      var ready, cyclic := ChooseReady(names, adj, levels, remaining);
      if cyclic && !broke { SettledIsExact(adj, names, levels); }
      broke := broke || cyclic;
      levels, remaining := AssignReady(names, adj, levels, remaining, ready, broke);
    }
    LevelsDone(names, adj, levels, broke);
  }

  // ---------------------------------------------------------------- order of names and groups

  /** Lexicographic order by code point. */
  predicate NameLe(a: Name, b: Name) {
    a == [] || (b != [] && (a[0] < b[0] || (a[0] == b[0] && NameLe(a[1..], b[1..]))))
  }

  lemma NameTotal(a: Name, b: Name)
    ensures NameLe(a, b) || NameLe(b, a)
  {}

  lemma {:induction false} NameTransitive(a: Name, b: Name, c: Name)
    requires NameLe(a, b) && NameLe(b, c)
    ensures NameLe(a, c)
  {
    if a != [] && a[0] == b[0] && b[0] == c[0] { NameTransitive(a[1..], b[1..], c[1..]); }
  }

  lemma NameOrders()
    ensures TotalPreorder(NameLe)
  {
    forall a, b ensures NameLe(a, b) || NameLe(b, a) { NameTotal(a, b); }
    forall a, b, c | NameLe(a, b) && NameLe(b, c) ensures NameLe(a, c) { NameTransitive(a, b, c); }
  }

  ghost predicate Gathered(levels: map<Name, nat>, done: seq<Name>, grouped: map<nat, seq<Name>>) {
    && (forall n :: n in done ==> n in levels)
    && (forall n :: n in done ==> levels[n] in grouped)
    && (forall l :: l in grouped ==>
          grouped[l] != [] && Lists(grouped[l], set n | n in done && n in levels && levels[n] == l))
  }

  lemma GatherOne(levels: map<Name, nat>, done: seq<Name>, grouped: map<nat, seq<Name>>, n: Name, members: seq<Name>)
    requires Gathered(levels, done, grouped) && n in levels && n !in done
    requires members == if levels[n] in grouped then grouped[levels[n]] else []
    ensures Gathered(levels, done + [n], grouped[levels[n] := members + [n]])
  {
    var after, all := grouped[levels[n] := members + [n]], done + [n];
    forall l | l in after ensures after[l] != [] && Lists(after[l], set m | m in all && m in levels && levels[m] == l) {
      if l == levels[n] {
        assert forall m :: m in members <==> m in done && levels[m] == l;
      } else {
        assert (set m | m in all && m in levels && levels[m] == l) ==
          (set m | m in done && m in levels && levels[m] == l);
      }
    }
  }

  predicate NatLe(a: nat, b: nat) { a <= b }

  ghost predicate Ascending(ls: seq<nat>) { forall i, j :: 0 <= i < j < |ls| ==> ls[i] < ls[j] }

  ghost function AtLevel(levels: map<Name, nat>, l: nat): set<Name> { set n | n in levels && levels[n] == l }

  /** The names under their level. */
  method GatherLevels(levels: map<Name, nat>) returns (grouped: map<nat, seq<Name>>)
    ensures forall l :: l in grouped ==> Lists(grouped[l], AtLevel(levels, l))
    ensures forall l :: l in grouped <==> AtLevel(levels, l) != {}
  {
    var names := Elements(levels.Keys);
    grouped := map[];
    for i := 0 to |names|
      invariant Gathered(levels, names[..i], grouped)
    {
      var n := names[i];
      assert n in names && n !in names[..i];
      assert names[..i + 1] == names[..i] + [n];
      var members := if levels[n] in grouped then grouped[levels[n]] else [];
      GatherOne(levels, names[..i], grouped, n, members);
      grouped := grouped[levels[n] := members + [n]];
    }
    assert names[..|names|] == names;
    GatheredAll(levels, names, grouped);
  }

  method SortedLevels(keys: set<nat>) returns (ls: seq<nat>)
    ensures Ascending(ls) && forall l :: l in ls <==> l in keys
  {
    var unordered := Elements(keys);
    SortSorts(NatLe, unordered);
    ls := Sort(NatLe, unordered);
    DistinctSorted(unordered, ls);
  }

  /** The names level by level: each level in use once, in ascending order, with its names sorted. */
  method GroupLevels(levels: map<Name, nat>) returns (ls: seq<nat>, groups: seq<seq<Name>>)
    ensures |ls| == |groups| && Ascending(ls)
    ensures forall l :: l in ls <==> AtLevel(levels, l) != {}
    ensures forall i :: 0 <= i < |ls| ==> Lists(groups[i], AtLevel(levels, ls[i])) && SortedBy(NameLe, groups[i])
  {
    var grouped := GatherLevels(levels);
    ls := SortedLevels(grouped.Keys);
    groups := [];
    for i := 0 to |ls|
      invariant |groups| == i
      invariant forall k :: 0 <= k < i ==> Lists(groups[k], AtLevel(levels, ls[k])) && SortedBy(NameLe, groups[k])
    {
      assert ls[i] in ls;
      SortLists(grouped[ls[i]], AtLevel(levels, ls[i]));
      groups := groups + [Sort(NameLe, grouped[ls[i]])];
    }
  }

  lemma GatheredAll(levels: map<Name, nat>, names: seq<Name>, grouped: map<nat, seq<Name>>)
    requires Gathered(levels, names, grouped) && Lists(names, levels.Keys)
    ensures forall l :: l in grouped ==> Lists(grouped[l], AtLevel(levels, l))
    ensures forall l :: l in grouped <==> AtLevel(levels, l) != {}
  {
    forall l | l in grouped ensures Lists(grouped[l], AtLevel(levels, l)) && AtLevel(levels, l) != {} {
      assert (set n | n in names && n in levels && levels[n] == l) == AtLevel(levels, l);
      assert grouped[l][0] in AtLevel(levels, l);
    }
    forall l: nat | AtLevel(levels, l) != {} ensures l in grouped {
      var n :| n in AtLevel(levels, l);
      assert n in names;
    }
  }

  /**
   Where no dependency leaves the names and none is cyclic, the levels in use are
   0, 1, 2, ... without a hole: the i-th group is level i.
   */
  lemma LevelsHaveNoHoles(names: set<Name>, adj: Adjacency, levels: map<Name, nat>, ls: seq<nat>)
    requires levels.Keys == names && forall n :: n in names ==> Deps(adj, n) <= names
    requires forall n :: n in names ==> Longest(adj, names, n, levels[n])
    requires Ascending(ls) && forall l :: l in ls <==> AtLevel(levels, l) != {}
    ensures forall i :: 0 <= i < |ls| ==> ls[i] == i
  {
    forall i | 0 <= i < |ls| ensures ls[i] == i { LevelAt(names, adj, levels, ls, i); }
  }

  lemma LevelBelow(names: set<Name>, adj: Adjacency, levels: map<Name, nat>, l: nat)
    requires levels.Keys == names && forall n :: n in names ==> Deps(adj, n) <= names
    requires forall n :: n in names ==> Longest(adj, names, n, levels[n])
    requires AtLevel(levels, l) != {} && l > 0
    ensures AtLevel(levels, l - 1) != {}
  {
    var n :| n in AtLevel(levels, l);
    var p :| Walk(adj, names, p) && p[0] == n && |p| == l + 1;
    WalkTail(adj, names, p);
    var d := p[1];
    LongestDescends(adj, names, n, l, d, levels[d]);
    assert |p[1..]| <= levels[d] + 1;
    assert d in AtLevel(levels, l - 1);
  }

  lemma {:induction false} LevelAt(names: set<Name>, adj: Adjacency, levels: map<Name, nat>, ls: seq<nat>, i: nat)
    requires levels.Keys == names && forall n :: n in names ==> Deps(adj, n) <= names
    requires forall n :: n in names ==> Longest(adj, names, n, levels[n])
    requires Ascending(ls) && forall l :: l in ls <==> AtLevel(levels, l) != {}
    requires i < |ls|
    ensures ls[i] == i
  {
    if i > 0 { LevelAt(names, adj, levels, ls, i - 1); }
    assert ls[i] in ls;
    if ls[i] > i {
      LevelBelow(names, adj, levels, ls[i]);
      assert ls[i] - 1 in ls;
      var j :| 0 <= j < |ls| && ls[j] == ls[i] - 1;
    }
  }
}
