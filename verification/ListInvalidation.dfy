/**
 From one session row's change to the listing resources it invalidates.

 The reference side of this module is what the storage queries serve: the rows of
 each listing with their child counts, the bucket counts and the summed workspace
 statistics. The computed key set is compared with the resources whose served
 contents differ, with the exact condition wherever the two part.
 */
module ListInvalidation {
  import opened Wrappers
  import opened ResourceKeys

  datatype StateKind = Creating | Ready | Executing | AwaitingInteraction | Failed {
    predicate IsAttention() { AwaitingInteraction? || Failed? }
  }

  datatype Row = Row(
    session: int,
    workspace: int,
    parent: Option<int>,
    favorite: bool,
    pinned: bool,
    listed: bool,               // `include_in_lists`
    subagent: bool,
    state: StateKind,
    queued: nat,
    running: nat,
    metadataVersion: int,
    updatedAt: int,
    userMessages: nat,
    lastMessageAt: Option<int>
  )

  datatype Change = Change(before: Option<Row>, after: Option<Row>, parents: seq<Row>)

  predicate Member(row: Option<Row>, bucket: Bucket) {
    row.Some? && row.value.listed &&
    match bucket
    case Pinned => row.value.pinned
    case Favorite => row.value.favorite
    case Running => row.value.state.Executing? || row.value.state.Creating?
    case Attention => row.value.state.IsAttention()
    case Recent => row.value.state.Ready?
  }

  /** A row's five yes/no contributions to the statistics of a workspace. */
  function Contribution(row: Option<Row>, workspace: int): (c: seq<bool>)
    ensures |c| == 5
  {
    if row.None? || !row.value.listed || row.value.workspace != workspace then
      [false, false, false, false, false]
    else
      [true,
       row.value.parent.None?,
       row.value.pinned,
       row.value.queued > 0 || row.value.running > 0,
       row.value.state.IsAttention()]
  }

  // ---------------------------------------------------------------- the code

  /** The bucket listings a listed row appears in, over the first `n` buckets. */
  function BucketListings(row: Row, n: nat): (rs: set<Resource>)
    requires n <= |BUCKETS|
    ensures forall r :: r in rs ==> r.WellFormed()
  {
    if n == 0 then {} else
      BucketListings(row, n - 1) +
      (if Member(Some(row), BUCKETS[n - 1])
       then {InBucket(BUCKETS[n - 1]), WorkspaceBucket(row.workspace, BUCKETS[n - 1])} else {})
  }

  function Placement(row: Row): Resource {
    if row.parent.Some? then Children(row.workspace, row.parent.value) else Roots(row.workspace)
  }

  /** The listings a row appears in. */
  function RowListings(row: Row): (rs: set<Resource>)
    ensures forall r :: r in rs ==> r.WellFormed()
  {
    if !row.listed then {} else
      {AllSessions, WorkspaceSessions(row.workspace), Placement(row)} + BucketListings(row, |BUCKETS|)
  }

  /** `list_row_keys`: inserts one row's listings into a key set. */
  method ListRowKeys(row: Row, into: set<Resource>) returns (keys: set<Resource>)
    ensures keys == into + RowListings(row)
  {
    keys := into;
    if !row.listed { return; }
    keys := keys + {AllSessions, WorkspaceSessions(row.workspace), Placement(row)};
    ghost var base := keys;
    for i := 0 to |BUCKETS|
      invariant keys == base + BucketListings(row, i)
    {
      if Member(Some(row), BUCKETS[i]) {
        keys := keys + {InBucket(BUCKETS[i]), WorkspaceBucket(row.workspace, BUCKETS[i])};
      }
    }
  }

  function ChangedCounts(c: Change, n: nat): (rs: set<Resource>)
    requires n <= |BUCKETS|
    ensures forall r :: r in rs ==> r.WellFormed()
  {
    if n == 0 then {} else
      ChangedCounts(c, n - 1) +
      (if Member(c.before, BUCKETS[n - 1]) != Member(c.after, BUCKETS[n - 1])
       then {BucketCount(BUCKETS[n - 1])} else {})
  }

  function Workspaces(c: Change): set<int> {
    (if c.before.Some? then {c.before.value.workspace} else {})
    + (if c.after.Some? then {c.after.value.workspace} else {})
  }

  predicate StatisticsMove(c: Change, w: int) { Contribution(c.before, w) != Contribution(c.after, w) }

  function ChangedStatistics(c: Change): (rs: set<Resource>)
    ensures forall r :: r in rs ==> r.WellFormed()
  {
    (set w | w in Workspaces(c) && StatisticsMove(c, w) :: Statistics(w))
    + (if exists w :: w in Workspaces(c) && StatisticsMove(c, w) then {Directory} else {})
  }

  function OwnListings(row: Option<Row>): (rs: set<Resource>)
    ensures forall r :: r in rs ==> r.WellFormed()
  {
    if row.Some? then RowListings(row.value) else {}
  }

  function ParentListings(parents: seq<Row>): (rs: set<Resource>)
    ensures forall r :: r in rs ==> r.WellFormed()
  {
    if parents == [] then {} else
      ParentListings(parents[..|parents| - 1]) + RowListings(parents[|parents| - 1])
  }

  /** The resources that one change invalidates. */
  function Invalidated(c: Change): (rs: set<Resource>)
    ensures forall r :: r in rs ==> r.WellFormed()
  {
    (if c.before == c.after then {} else
      OwnListings(c.before) + OwnListings(c.after) + ChangedCounts(c, |BUCKETS|) + ChangedStatistics(c))
    + ParentListings(c.parents)
  }

  /** `list_change_keys`, which accumulates into one set. */
  method ListChangeKeys(c: Change) returns (keys: set<Resource>)
    ensures keys == Invalidated(c)
  {
    keys := {};
    if c.before != c.after {
      if c.before.Some? { keys := ListRowKeys(c.before.value, keys); }
      if c.after.Some? { keys := ListRowKeys(c.after.value, keys); }
      keys := AddCounts(c, keys);
      keys := AddStatistics(c, keys);
    }
    keys := AddParents(c.parents, keys);
  }

  method AddCounts(c: Change, into: set<Resource>) returns (keys: set<Resource>)
    ensures keys == into + ChangedCounts(c, |BUCKETS|)
  {
    keys := into;
    for i := 0 to |BUCKETS|
      invariant keys == into + ChangedCounts(c, i)
    {
      if Member(c.before, BUCKETS[i]) != Member(c.after, BUCKETS[i]) {
        keys := keys + {BucketCount(BUCKETS[i])};
      }
    }
  }

  method AddParents(parents: seq<Row>, into: set<Resource>) returns (keys: set<Resource>)
    ensures keys == into + ParentListings(parents)
  {
    keys := into;
    for i := 0 to |parents|
      invariant keys == into + ParentListings(parents[..i])
    {
      assert parents[..i + 1][..i] == parents[..i];
      keys := ListRowKeys(parents[i], keys);
    }
    assert parents[..|parents|] == parents;
  }

  method AddStatistics(c: Change, into: set<Resource>) returns (keys: set<Resource>)
    ensures keys == into + ChangedStatistics(c)
  {
    keys := into;
    var todo := Workspaces(c);
    ghost var done: set<int> := {};
    while todo != {}
      invariant todo + done == Workspaces(c)
      invariant keys == into
        + (set w | w in done && StatisticsMove(c, w) :: Statistics(w))
        + (if exists w :: w in done && StatisticsMove(c, w) then {Directory} else {})
      decreases todo
    {
      var w :| w in todo;
      todo := todo - {w};
      done := done + {w};
      if Contribution(c.before, w) != Contribution(c.after, w) {
        assert StatisticsMove(c, w);
        keys := keys + {Statistics(w), Directory};
      }
    }
  }

  // ---------------------------------------------------------------- what clients see

  type Rows = map<int, Row>

  /** Sessions are stored under their own identity. */
  predicate Keyed(rows: Rows) { forall id :: id in rows ==> rows[id].session == id }

  function Lookup(rows: Rows, id: int): Option<Row> { if id in rows then Some(rows[id]) else None }

  function Apply(rows: Rows, id: int, after: Option<Row>): Rows {
    if after.Some? then rows[id := after.value] else rows - {id}
  }

  /** The processing states that a bucket's query asks for; none means any. */
  function StatesOf(b: Bucket): set<StateKind> {
    match b
    case Running => {Executing, Creating}
    case Attention => {AwaitingInteraction, Failed}
    case Recent => {Ready}
    case _ => {}
  }

  /** The query of a bucket: listed rows with the flag or the states it asks for. */
  predicate Queried(b: Bucket, row: Row) {
    row.listed && (b.Favorite? ==> row.favorite) && (b.Pinned? ==> row.pinned)
    && (StatesOf(b) == {} || row.state in StatesOf(b))
  }

  /** Bucket membership agrees with the query that serves the bucket. */
  lemma MemberIsQueried(b: Bucket, row: Row)
    ensures Member(Some(row), b) <==> Queried(b, row)
  {}

  /** Which rows a listing's query serves. */
  predicate Shows(r: Resource, row: Row) {
    row.listed &&
    match r
    case AllSessions => true
    case WorkspaceSessions(w) => row.workspace == w
    case Roots(w) => row.workspace == w && row.parent.None?
    case Children(w, p) => row.workspace == w && row.parent == Some(p)
    case InBucket(b) => Queried(b, row)
    case WorkspaceBucket(w, b) => row.workspace == w && Queried(b, row)
    case _ => false
  }

  predicate IsListing(r: Resource) {
    r.AllSessions? || r.WorkspaceSessions? || r.Roots? || r.Children? || r.InBucket? || r.WorkspaceBucket?
  }

  ghost function Count(rows: Rows, p: Row -> bool): nat {
    |set id | id in rows && p(rows[id])|
  }

  /** A listed session directly under `p`; temporary children are not counted. */
  predicate ChildOf(row: Row, p: int) { row.listed && row.parent == Some(p) }

  ghost function ChildCount(rows: Rows, p: int): nat { Count(rows, row => ChildOf(row, p)) }

  /** A listing's contents under a further filter: its rows, each with its displayed child count. */
  ghost function Contents(rows: Rows, r: Resource, f: Row -> bool): set<(Row, nat)> {
    set id | id in rows && Shows(r, rows[id]) && f(rows[id]) :: (rows[id], ChildCount(rows, id))
  }

  /** Without a further filter. */
  function All(): Row -> bool { (row: Row) => true }

  ghost function BucketSize(rows: Rows, b: Bucket, f: Row -> bool): nat {
    Count(rows, row => Queried(b, row) && f(row))
  }

  /** What a row adds to its workspace's served statistics; running is told by the processing state. */
  function Served(row: Option<Row>, workspace: int): (c: seq<bool>)
    ensures |c| == 5
  {
    if row.None? || !row.value.listed || row.value.workspace != workspace then
      [false, false, false, false, false]
    else
      [true,
       row.value.parent.None?,
       row.value.pinned,
       row.value.state in {Executing, AwaitingInteraction},
       row.value.state in {AwaitingInteraction, Failed}]
  }

  /** The i-th served number of a workspace: total, roots, pinned, running, attention. */
  ghost function StatisticsOf(rows: Rows, workspace: int, i: nat): nat
    requires i < 5
  {
    Count(rows, row => Served(Some(row), workspace)[i])
  }

  // ---------------------------------------------------------------- what the storage hands over

  function ParentOf(row: Option<Row>): Option<int> { if row.Some? then row.value.parent else None }
  function ListedOf(row: Option<Row>): Option<bool> { if row.Some? then Some(row.value.listed) else None }

  /** Commits that may move a parent's child count, as the storage decides it. */
  predicate HierarchyMoves(before: Option<Row>, after: Option<Row>) {
    before.None? != after.None? || ParentOf(before) != ParentOf(after) || ListedOf(before) != ListedOf(after)
  }

  function ParentRow(p: Option<int>, rows: Rows): seq<Row> {
    if p.Some? && p.value in rows then [rows[p.value]] else []
  }

  /** The parent rows handed over with a commit: the old and the new one, as they stand after it. */
  function Supplied(before: Option<Row>, after: Option<Row>, rows: Rows): seq<Row> {
    if !HierarchyMoves(before, after) then []
    else if ParentOf(before) == ParentOf(after) then ParentRow(ParentOf(before), rows)
    else ParentRow(ParentOf(before), rows) + ParentRow(ParentOf(after), rows)
  }

  /** The change handed to the clock describes the step from `rows` to `after` of row `id`. */
  ghost predicate Describes(c: Change, rows: Rows, id: int) {
    var rows' := Apply(rows, id, c.after);
    Keyed(rows) && Keyed(rows') && c.before == Lookup(rows, id) && c.parents == Supplied(c.before, c.after, rows')
  }

  lemma ShowsListed(r: Resource, row: Row)
    ensures r in RowListings(row) <==> IsListing(r) && Shows(r, row)
  {
    BucketListed(r, row, |BUCKETS|);
    assert BUCKETS[..|BUCKETS|] == BUCKETS;
    AllBuckets();
    forall b: Bucket ensures Member(Some(row), b) <==> Queried(b, row) { MemberIsQueried(b, row); }
  }

  lemma AllBuckets()
    ensures forall b: Bucket :: b in BUCKETS
  {
    forall b: Bucket ensures b in BUCKETS {
      match b
      case Pinned => assert BUCKETS[0] == b;
      case Favorite => assert BUCKETS[1] == b;
      case Running => assert BUCKETS[2] == b;
      case Attention => assert BUCKETS[3] == b;
      case Recent => assert BUCKETS[4] == b;
    }
  }

  lemma {:induction false} BucketListed(r: Resource, row: Row, n: nat)
    requires n <= |BUCKETS|
    ensures r in BucketListings(row, n) <==>
      || (r.InBucket? && r.bucket in BUCKETS[..n] && Member(Some(row), r.bucket))
      || (r.WorkspaceBucket? && r.workspace == row.workspace && r.bucket in BUCKETS[..n] && Member(Some(row), r.bucket))
  {
    if n > 0 {
      BucketListed(r, row, n - 1);
      assert BUCKETS[..n] == BUCKETS[..n - 1] + [BUCKETS[n - 1]];
    } else {
      assert BUCKETS[..0] == [];
    }
  }

  lemma {:induction false} CountsMoved(c: Change, r: Resource, n: nat)
    requires n <= |BUCKETS|
    ensures r in ChangedCounts(c, n) <==>
      r.BucketCount? && r.bucket in BUCKETS[..n] && Member(c.before, r.bucket) != Member(c.after, r.bucket)
  {
    if n > 0 {
      CountsMoved(c, r, n - 1);
      assert BUCKETS[..n] == BUCKETS[..n - 1] + [BUCKETS[n - 1]];
    }
  }

  lemma {:induction false} ParentListed(parents: seq<Row>, r: Resource)
    ensures r in ParentListings(parents) <==> IsListing(r) && exists p :: p in parents && Shows(r, p)
  {
    if parents != [] {
      var init, last := parents[..|parents| - 1], parents[|parents| - 1];
      ParentListed(init, r);
      ShowsListed(r, last);
      assert parents == init + [last];
    }
  }

  /** What the computed set contains, one kind of resource at a time. */
  lemma InvalidatedKinds(c: Change, r: Resource)
    ensures r in Invalidated(c) <==>
      || (IsListing(r) && exists p :: p in c.parents && Shows(r, p))
      || (IsListing(r) && c.before != c.after
          && ((c.before.Some? && Shows(r, c.before.value)) || (c.after.Some? && Shows(r, c.after.value))))
      || (r.BucketCount? && Member(c.before, r.bucket) != Member(c.after, r.bucket))
      || (r.Statistics? && StatisticsMove(c, r.workspace))
      || (r.Directory? && exists w :: StatisticsMove(c, w))
  {
    AllBuckets();
    assert BUCKETS[..|BUCKETS|] == BUCKETS;
    CountsMoved(c, r, |BUCKETS|);
    ParentListed(c.parents, r);
    if c.before.Some? { ShowsListed(r, c.before.value); }
    if c.after.Some? { ShowsListed(r, c.after.value); }
    forall w | StatisticsMove(c, w) ensures w in Workspaces(c) {}
  }

  /** Changing one row moves a count exactly when the row's own vote changes. */
  lemma CountChange(rows: Rows, id: int, after: Option<Row>, p: Row -> bool)
    ensures Count(Apply(rows, id, after), p) ==
      Count(rows, p) - (if id in rows && p(rows[id]) then 1 else 0) + (if after.Some? && p(after.value) then 1 else 0)
  {
    var rows' := Apply(rows, id, after);
    var a := set k | k in rows && p(rows[k]);
    var b := set k | k in rows' && p(rows'[k]);
    assert a - {id} == b - {id};
    Toggle(a, b, id);
  }

  lemma Toggle(a: set<int>, b: set<int>, id: int)
    requires a - {id} == b - {id}
    ensures |b| == |a| - (if id in a then 1 else 0) + (if id in b then 1 else 0)
  {
    assert id in a ==> a == (a - {id}) + {id};
    assert id !in a ==> a == a - {id};
    assert id in b ==> b == (b - {id}) + {id};
    assert id !in b ==> b == b - {id};
  }

  // ---------------------------------------------------------------- listings

  predicate IsChild(row: Option<Row>, p: int) { row.Some? && ChildOf(row.value, p) }

  /** A parent's child count moves exactly when the row's own vote for it does. */
  predicate ChildMoves(c: Change, p: int) { IsChild(c.before, p) != IsChild(c.after, p) }

  lemma ChildCountMoves(c: Change, rows: Rows, id: int, p: int)
    requires c.before == Lookup(rows, id)
    ensures ChildCount(Apply(rows, id, c.after), p) != ChildCount(rows, p) <==> ChildMoves(c, p)
  {
    CountChange(rows, id, c.after, row => ChildOf(row, p));
  }

  /** Every parent whose child count moved is handed over. */
  lemma MovedIsSupplied(c: Change, rows: Rows, id: int, p: int)
    requires Describes(c, rows, id) && ChildMoves(c, p) && p in Apply(rows, id, c.after)
    ensures Apply(rows, id, c.after)[p] in c.parents
  {
    var rows' := Apply(rows, id, c.after);
    assert rows'[p] in ParentRow(Some(p), rows');
  }

  lemma ParentRowIs(q: Option<int>, rows: Rows, p: Row)
    requires Keyed(rows) && p in ParentRow(q, rows)
    ensures p.session in rows && rows[p.session] == p
  {
    assert q.Some? && q.value in rows && p == rows[q.value] && rows[q.value].session == q.value;
  }

  lemma SuppliedIsRow(c: Change, rows: Rows, id: int, p: Row)
    requires Describes(c, rows, id) && p in c.parents
    ensures p.session in Apply(rows, id, c.after) && Apply(rows, id, c.after)[p.session] == p
    ensures c.before != c.after
  {
    var rows' := Apply(rows, id, c.after);
    if p in ParentRow(ParentOf(c.before), rows') {
      ParentRowIs(ParentOf(c.before), rows', p);
    } else {
      ParentRowIs(ParentOf(c.after), rows', p);
    }
  }

  /** The changed row itself appears in the listing, before or after. */
  predicate OwnShown(c: Change, r: Resource) {
    c.before != c.after && ((c.before.Some? && Shows(r, c.before.value)) || (c.after.Some? && Shows(r, c.after.value)))
  }

  predicate ParentShown(c: Change, r: Resource) { exists p :: p in c.parents && Shows(r, p) }

  predicate MovedParentShown(c: Change, r: Resource) {
    exists p :: p in c.parents && Shows(r, p) && ChildMoves(c, p.session)
  }

  lemma InvalidatedListing(c: Change, r: Resource)
    requires IsListing(r)
    ensures r in Invalidated(c) <==> OwnShown(c, r) || ParentShown(c, r)
  {
    InvalidatedKinds(c, r);
  }

  /** Rows that keep their facts and their child count keep their place in a listing. */
  lemma SameElsewhere(c: Change, rows: Rows, id: int, r: Resource, k: int)
    requires Describes(c, rows, id) && IsListing(r) && !OwnShown(c, r) && !MovedParentShown(c, r)
    requires (k in rows && Shows(r, rows[k]))
      || (k in Apply(rows, id, c.after) && Shows(r, Apply(rows, id, c.after)[k]))
    ensures k in rows && k in Apply(rows, id, c.after) && rows[k] == Apply(rows, id, c.after)[k]
    ensures ChildCount(rows, k) == ChildCount(Apply(rows, id, c.after), k)
  {
    ChildCountMoves(c, rows, id, k);
    if ChildMoves(c, k) { MovedIsSupplied(c, rows, id, k); }
  }

  lemma SameContents(c: Change, rows: Rows, id: int, r: Resource, f: Row -> bool)
    requires Describes(c, rows, id) && IsListing(r) && !OwnShown(c, r) && !MovedParentShown(c, r)
    ensures Contents(rows, r, f) == Contents(Apply(rows, id, c.after), r, f)
  {
    var rows' := Apply(rows, id, c.after);
    forall x ensures x in Contents(rows, r, f) <==> x in Contents(rows', r, f) {
      if x in Contents(rows, r, f) {
        var k :| k in rows && Shows(r, rows[k]) && f(rows[k]) && x == (rows[k], ChildCount(rows, k));
        SameElsewhere(c, rows, id, r, k);
      }
      if x in Contents(rows', r, f) {
        var k :| k in rows' && Shows(r, rows'[k]) && f(rows'[k]) && x == (rows'[k], ChildCount(rows', k));
        SameElsewhere(c, rows, id, r, k);
      }
    }
  }

  lemma OwnDiffers(c: Change, rows: Rows, id: int, r: Resource)
    requires Describes(c, rows, id) && OwnShown(c, r)
    ensures Contents(rows, r, All()) != Contents(Apply(rows, id, c.after), r, All())
  {
    var rows' := Apply(rows, id, c.after);
    if c.before.Some? && Shows(r, c.before.value) {
      assert (c.before.value, ChildCount(rows, id)) in Contents(rows, r, All());
      assert (c.before.value, ChildCount(rows, id)) !in Contents(rows', r, All());
    } else {
      assert (c.after.value, ChildCount(rows', id)) in Contents(rows', r, All());
      assert (c.after.value, ChildCount(rows', id)) !in Contents(rows, r, All());
    }
  }

  lemma ParentDiffers(c: Change, rows: Rows, id: int, r: Resource, p: Row)
    requires Describes(c, rows, id) && p in c.parents && Shows(r, p) && ChildMoves(c, p.session)
    ensures Contents(rows, r, All()) != Contents(Apply(rows, id, c.after), r, All())
  {
    var rows' := Apply(rows, id, c.after);
    SuppliedIsRow(c, rows, id, p);
    ChildCountMoves(c, rows, id, p.session);
    if p.session == id {
      OwnDiffers(c, rows, id, r);
    } else {
      assert (p, ChildCount(rows', p.session)) in Contents(rows', r, All());
      assert (p, ChildCount(rows', p.session)) !in Contents(rows, r, All());
    }
  }

  /** A listing's contents change exactly when the row is shown in it, or a parent whose child count moves is. */
  lemma ContentsChange(c: Change, rows: Rows, id: int, r: Resource)
    requires Describes(c, rows, id) && IsListing(r)
    ensures Contents(rows, r, All()) != Contents(Apply(rows, id, c.after), r, All())
            <==> OwnShown(c, r) || MovedParentShown(c, r)
  {
    if OwnShown(c, r) {
      OwnDiffers(c, rows, id, r);
    } else if p :| p in c.parents && Shows(r, p) && ChildMoves(c, p.session) {
      ParentDiffers(c, rows, id, r, p);
    } else {
      SameContents(c, rows, id, r, All());
    }
  }

  /** Soundness: a listing whose contents changed, under any further filter, has its key computed. */
  lemma ListingSound(c: Change, rows: Rows, id: int, r: Resource, f: Row -> bool)
    requires Describes(c, rows, id) && IsListing(r)
    requires Contents(rows, r, f) != Contents(Apply(rows, id, c.after), r, f)
    ensures r in Invalidated(c)
  {
    InvalidatedListing(c, r);
    if !OwnShown(c, r) && !MovedParentShown(c, r) { SameContents(c, rows, id, r, f); }
  }

  /** Scope: a key is computed for a changed listing, or for one that shows a parent handed over. */
  lemma ListingScoped(c: Change, rows: Rows, id: int, r: Resource)
    requires Describes(c, rows, id) && IsListing(r) && r in Invalidated(c)
    ensures Contents(rows, r, All()) != Contents(Apply(rows, id, c.after), r, All()) || ParentShown(c, r)
  {
    InvalidatedListing(c, r);
    ContentsChange(c, rows, id, r);
  }

  /** The listing shows a parent handed over, but none whose child count moves, and not the row itself. */
  predicate Needless(c: Change, r: Resource) { !OwnShown(c, r) && ParentShown(c, r) && !MovedParentShown(c, r) }

  /**
   For every commit: a listing's key is computed if and only if its contents changed, except exactly
   when needless.
   */
  lemma ListingExact(c: Change, rows: Rows, id: int, r: Resource)
    requires Describes(c, rows, id) && IsListing(r)
    ensures (r in Invalidated(c) <==> Contents(rows, r, All()) != Contents(Apply(rows, id, c.after), r, All()))
            <==> !Needless(c, r)
  {
    InvalidatedListing(c, r);
    ContentsChange(c, rows, id, r);
  }

  /** A temporary child: its parent is handed over although no displayed count moves. */
  lemma TemporaryChildIsNeedless(parent: Row, child: Row)
    requires parent.session != child.session && parent.listed && !child.listed && child.parent == Some(parent.session)
    ensures var rows: Rows := map[parent.session := parent]; var c := Change(None, Some(child), [parent]);
      && Describes(c, rows, child.session) && AllSessions in Invalidated(c)
      && Contents(rows, AllSessions, All()) == Contents(Apply(rows, child.session, c.after), AllSessions, All())
  {
    var rows: Rows := map[parent.session := parent];
    var c := Change(None, Some(child), [parent]);
    assert ParentRow(Some(parent.session), Apply(rows, child.session, c.after)) == [parent];
    assert parent in c.parents && Shows(AllSessions, parent);
    InvalidatedListing(c, AllSessions);
    ContentsChange(c, rows, child.session, AllSessions);
  }

  // ---------------------------------------------------------------- bucket counts

  /** A bucket's count key is computed if and only if its number changed. */
  lemma BucketCountExact(c: Change, rows: Rows, id: int, b: Bucket)
    requires c.before == Lookup(rows, id)
    ensures BucketCount(b) in Invalidated(c) <==>
            BucketSize(rows, b, All()) != BucketSize(Apply(rows, id, c.after), b, All())
  {
    CountChange(rows, id, c.after, row => Queried(b, row) && All()(row));
    InvalidatedKinds(c, BucketCount(b));
    if c.before.Some? { MemberIsQueried(b, c.before.value); }
    if c.after.Some? { MemberIsQueried(b, c.after.value); }
  }

  /**
   The count key also serves counts under a further filter, such as roots only. Such
   a count changes unnoticed exactly when the row stays in the bucket and only the
   filter's answer changes.
   */
  lemma FilteredCountMissed(c: Change, rows: Rows, id: int, b: Bucket, f: Row -> bool)
    requires c.before == Lookup(rows, id)
    ensures BucketCount(b) !in Invalidated(c) && BucketSize(rows, b, f) != BucketSize(Apply(rows, id, c.after), b, f)
            <==> Member(c.before, b) && Member(c.after, b) && f(c.before.value) != f(c.after.value)
  {
    CountChange(rows, id, c.after, row => Queried(b, row) && f(row));
    InvalidatedKinds(c, BucketCount(b));
    if c.before.Some? { MemberIsQueried(b, c.before.value); }
    if c.after.Some? { MemberIsQueried(b, c.after.value); }
  }

  /** The filter of the root listings. */
  function IsRoot(): Row -> bool { (row: Row) => row.parent.None? }

  /** Such an input: a pinned root that is given a parent leaves the count of pinned roots without a key. */
  lemma AdoptedRootIsMissed(row: Row, parent: int, rows: Rows)
    requires row.listed && row.pinned && row.parent.None? && Lookup(rows, row.session) == Some(row)
    ensures var after := Some(row.(parent := Some(parent)));
      var later := Apply(rows, row.session, after);
      var c := Change(Some(row), after, Supplied(Some(row), after, later));
      && BucketCount(Pinned) !in Invalidated(c)
      && BucketSize(rows, Pinned, IsRoot()) != BucketSize(later, Pinned, IsRoot())
  {
    var after := Some(row.(parent := Some(parent)));
    var c := Change(Some(row), after, Supplied(Some(row), after, Apply(rows, row.session, after)));
    FilteredCountMissed(c, rows, row.session, Pinned, IsRoot());
  }

  // ---------------------------------------------------------------- statistics

  predicate ServedMove(c: Change, w: int) { Served(c.before, w) != Served(c.after, w) }

  /** Some served number of the workspace changed. */
  ghost predicate SumsChange(c: Change, rows: Rows, id: int, w: int) {
    exists i: nat :: i < 5 && StatisticsOf(rows, w, i) != StatisticsOf(Apply(rows, id, c.after), w, i)
  }

  /** The served numbers change exactly when the row's served part does. */
  lemma SumsFollow(c: Change, rows: Rows, id: int, w: int)
    requires c.before == Lookup(rows, id)
    ensures SumsChange(c, rows, id, w) <==> ServedMove(c, w)
  {
    forall i: nat | i < 5
      ensures StatisticsOf(rows, w, i) != StatisticsOf(Apply(rows, id, c.after), w, i)
              <==> Served(c.before, w)[i] != Served(c.after, w)[i]
    {
      StatisticMoves(c, rows, id, w, i);
    }
    FirstDifference(Served(c.before, w), Served(c.after, w));
  }

  lemma StatisticMoves(c: Change, rows: Rows, id: int, w: int, i: nat)
    requires c.before == Lookup(rows, id) && i < 5
    ensures StatisticsOf(rows, w, i) != StatisticsOf(Apply(rows, id, c.after), w, i)
            <==> Served(c.before, w)[i] != Served(c.after, w)[i]
  {
    CountChange(rows, id, c.after, row => Served(Some(row), w)[i]);
  }

  lemma FirstDifference(x: seq<bool>, y: seq<bool>)
    requires |x| == |y| == 5
    ensures x != y <==> exists i: nat :: i < 5 && x[i] != y[i]
  {}

  /** The code tells a running session by its executions. */
  predicate ActivityMoves(c: Change, w: int) { Contribution(c.before, w)[3] != Contribution(c.after, w)[3] }

  /** The served number tells it by its processing state. */
  predicate RunningMoves(c: Change, w: int) { Served(c.before, w)[3] != Served(c.after, w)[3] }

  /** Total, roots, pinned or attention move; on these both sides agree. */
  predicate OthersMove(c: Change, w: int) {
    exists i: nat :: i in [0, 1, 2, 4] && Contribution(c.before, w)[i] != Contribution(c.after, w)[i]
  }

  lemma MovesAgree(c: Change, w: int)
    ensures StatisticsMove(c, w) <==> ActivityMoves(c, w) || OthersMove(c, w)
    ensures ServedMove(c, w) <==> RunningMoves(c, w) || OthersMove(c, w)
  {
    var x, y, u, v := Contribution(c.before, w), Contribution(c.after, w), Served(c.before, w), Served(c.after, w);
    assert forall i: nat :: i in [0, 1, 2, 4] ==> x[i] == u[i] && y[i] == v[i];
    FirstDifference(x, y);
    FirstDifference(u, v);
    assert forall i: nat :: i < 5 ==> i == 3 || i in [0, 1, 2, 4];
  }

  /**
   For every change: the statistics key is computed if and only if a served number
   changed, except exactly when nothing else moves and one of the two ways of
   telling a running session moves without the other.
   */
  lemma StatisticsExact(c: Change, rows: Rows, id: int, w: int)
    requires c.before == Lookup(rows, id)
    ensures (Statistics(w) in Invalidated(c) <==> SumsChange(c, rows, id, w))
            <==> OthersMove(c, w) || (ActivityMoves(c, w) <==> RunningMoves(c, w))
    ensures Statistics(w) in Invalidated(c) ==> Directory in Invalidated(c)
  {
    InvalidatedKinds(c, Statistics(w));
    InvalidatedKinds(c, Directory);
    SumsFollow(c, rows, id, w);
    MovesAgree(c, w);
  }

  /** Pausing a queue, seen at its row: the state becomes ready and nothing else moves. */
  function Paused(row: Row): Change { Change(Some(row), Some(row.(state := Ready)), []) }

  /** Pausing the queue of a session that only waits in it: no statistics key is computed. */
  lemma PauseKeepsKeys(row: Row, w: int)
    requires row.listed && row.state == Executing && row.queued > 0
    ensures Statistics(w) !in Invalidated(Paused(row)) && Directory !in Invalidated(Paused(row))
  {
    InvalidatedKinds(Paused(row), Statistics(w));
    InvalidatedKinds(Paused(row), Directory);
    forall v ensures !StatisticsMove(Paused(row), v) {}
  }

  /** Yet the served number of running sessions drops, so the statistics read before stay answered as current. */
  lemma PausedQueueIsMissed(row: Row, rows: Rows)
    requires row.listed && row.state == Executing && row.queued > 0 && Lookup(rows, row.session) == Some(row)
    ensures var c := Paused(row);
      && StatisticsOf(Apply(rows, row.session, c.after), row.workspace, 3) == StatisticsOf(rows, row.workspace, 3) - 1
      && Statistics(row.workspace) !in Invalidated(c) && Directory !in Invalidated(c)
  {
    var c := Paused(row);
    CountChange(rows, row.session, c.after, x => Served(Some(x), row.workspace)[3]);
    PauseKeepsKeys(row, row.workspace);
  }

  /** How storage derives the processing state from the execution counts and the pause flag. */
  predicate Derived(row: Row, paused: bool) {
    && (row.state == AwaitingInteraction ==> row.running > 0)
    && (row.state == Executing ==> row.queued + row.running > 0)
    && (row.queued + row.running > 0 && !(paused && row.running == 0) ==> row.state in {Executing, AwaitingInteraction})
    && (paused && row.running == 0 && row.queued > 0 ==> row.state == Ready)
  }

  /**
   On derived rows the two ways of telling a running session differ exactly for a paused queue with
   nothing running.
   */
  lemma PausedQueueDisagrees(row: Row, paused: bool)
    requires Derived(row, paused) && row.listed
    ensures Contribution(Some(row), row.workspace)[3] != Served(Some(row), row.workspace)[3]
            <==> paused && row.running == 0 && row.queued > 0
  {}

  /** A listed session of the workspace that waits in a paused queue with nothing running. */
  predicate Idle(row: Option<Row>, paused: bool, w: int) {
    && row.Some? && row.value.listed && row.value.workspace == w
    && paused && row.value.running == 0 && row.value.queued > 0
  }

  /** Both rows are as storage derives them, under the pause flags before and after. */
  predicate DerivedBoth(c: Change, p0: bool, p1: bool) {
    (c.before.Some? ==> Derived(c.before.value, p0)) && (c.after.Some? ==> Derived(c.after.value, p1))
  }

  predicate IdleKept(c: Change, p0: bool, p1: bool, w: int) { Idle(c.before, p0, w) <==> Idle(c.after, p1, w) }

  lemma IdleTells(row: Option<Row>, paused: bool, w: int)
    requires row.Some? ==> Derived(row.value, paused)
    ensures Contribution(row, w)[3] != Served(row, w)[3] <==> Idle(row, paused, w)
  {
    if row.Some? && row.value.listed && row.value.workspace == w { PausedQueueDisagrees(row.value, paused); }
  }

  lemma MoveTogether(c: Change, p0: bool, p1: bool, w: int)
    requires DerivedBoth(c, p0, p1)
    ensures (ActivityMoves(c, w) <==> RunningMoves(c, w)) <==> IdleKept(c, p0, p1, w)
  {
    IdleTells(c.before, p0, w);
    IdleTells(c.after, p1, w);
  }

  /**
   What a caller can check, on rows as storage derives them: the statistics key is
   computed if and only if a served number changed, except exactly when nothing else
   moves and the session becomes, or ceases to be, idle in a paused queue.
   */
  lemma StatisticsDerived(c: Change, rows: Rows, id: int, w: int, p0: bool, p1: bool)
    requires c.before == Lookup(rows, id) && DerivedBoth(c, p0, p1)
    ensures (Statistics(w) in Invalidated(c) <==> SumsChange(c, rows, id, w))
            <==> OthersMove(c, w) || IdleKept(c, p0, p1, w)
  {
    StatisticsExact(c, rows, id, w);
    MoveTogether(c, p0, p1, w);
  }

  // ---------------------------------------------------------------- the directory

  ghost predicate DirectoryChange(c: Change, rows: Rows, id: int) { exists w :: SumsChange(c, rows, id, w) }

  predicate AnyVote(c: Change) { exists w :: w in Workspaces(c) && StatisticsMove(c, w) }
  predicate AnyServed(c: Change) { exists w :: w in Workspaces(c) && ServedMove(c, w) }

  /** The directory shows every workspace's numbers; its key follows them with the same exception. */
  lemma DirectoryExact(c: Change, rows: Rows, id: int)
    requires c.before == Lookup(rows, id)
    ensures (Directory in Invalidated(c) <==> DirectoryChange(c, rows, id)) <==> (AnyVote(c) <==> AnyServed(c))
  {
    InvalidatedKinds(c, Directory);
    forall w ensures SumsChange(c, rows, id, w) <==> ServedMove(c, w) { SumsFollow(c, rows, id, w); }
    forall w | StatisticsMove(c, w) || ServedMove(c, w) ensures w in Workspaces(c) {}
  }

  predicate SomeOthersMove(c: Change) { exists w :: w in Workspaces(c) && OthersMove(c, w) }

  /** Where no total moves, both rows are in one workspace or not listed. */
  lemma OneWorkspace(c: Change, v: int, w: int)
    requires v in Workspaces(c) && w in Workspaces(c) && v != w && !SomeOthersMove(c)
    ensures Contribution(c.before, w) == Contribution(c.after, w) && Served(c.before, w) == Served(c.after, w)
  {
    TotalMoves(c, v);
    TotalMoves(c, w);
  }

  lemma TotalMoves(c: Change, w: int)
    ensures Contribution(c.before, w)[0] != Contribution(c.after, w)[0] ==> OthersMove(c, w)
  {
    assert 0 in [0, 1, 2, 4];
  }

  /** The same for the directory's key. */
  lemma DirectoryDerived(c: Change, rows: Rows, id: int, p0: bool, p1: bool)
    requires c.before == Lookup(rows, id) && DerivedBoth(c, p0, p1)
    ensures (Directory in Invalidated(c) <==> DirectoryChange(c, rows, id))
            <==> SomeOthersMove(c) || forall w :: w in Workspaces(c) ==> IdleKept(c, p0, p1, w)
  {
    DirectoryExact(c, rows, id);
    forall w ensures StatisticsMove(c, w) <==> ActivityMoves(c, w) || OthersMove(c, w) { MovesAgree(c, w); }
    forall w ensures ServedMove(c, w) <==> RunningMoves(c, w) || OthersMove(c, w) { MovesAgree(c, w); }
    forall w ensures (ActivityMoves(c, w) <==> RunningMoves(c, w)) <==> IdleKept(c, p0, p1, w) {
      MoveTogether(c, p0, p1, w);
    }
    if !SomeOthersMove(c) {
      forall v, w | v in Workspaces(c) && w in Workspaces(c) && v != w
        ensures !StatisticsMove(c, w) && !ServedMove(c, w)
      {
        OneWorkspace(c, v, w);
      }
    }
  }

  /** The key strings handed to the clock. */
  function Texts(rs: set<Resource>): set<string>
    requires forall r :: r in rs ==> r.WellFormed()
  {
    set r | r in rs :: r.Text()
  }

  /** A key string is handed over only on behalf of its own resource. */
  lemma TextsExact(rs: set<Resource>, r: Resource)
    requires r.WellFormed() && forall q :: q in rs ==> q.WellFormed()
    ensures r.Text() in Texts(rs) <==> r in rs
  {
    if r.Text() in Texts(rs) {
      var q :| q in rs && q.Text() == r.Text();
      TextInjective(q, r);
    }
  }
}
