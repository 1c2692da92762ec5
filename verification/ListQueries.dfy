/**
 The requests that the revisions answer for: the key text each handler asks for,
 written as the handlers format it, and the rows a listing request serves. The key
 texts of `ResourceKeys` are the same, and what a request serves never changes
 without the key it asked for.
 */
module ListQueries {
  import opened Wrappers
  import opened Decimal
  import opened ResourceKeys
  import opened ListInvalidation

  /** A bucket as the API spells it. */
  function Spelled(b: Bucket): string {
    match b
    case Pinned => "pinned"
    case Favorite => "favorite"
    case Running => "running"
    case Attention => "attention"
    case Recent => "recent"
  }

  /** The segments behind an identity, each behind its colon. */
  function Suffix(tail: seq<string>): string {
    if tail == [] then "" else ":" + tail[0] + Suffix(tail[1..])
  }

  /** The key text that the handler of a resource formats. */
  function Requested(r: Resource): string {
    match r
    case AllSessions => "sessions"
    case InBucket(b) => "sessions:bucket:" + Spelled(b)
    case BucketCount(b) => "sessions:bucket:" + Spelled(b) + ":count"
    case WorkspaceSessions(w) => "workspace:" + Render(w) + ":sessions"
    case Roots(w) => "workspace:" + Render(w) + ":sessions:roots"
    case Children(w, p) => "workspace:" + Render(w) + ":sessions:parent:" + Render(p)
    case WorkspaceBucket(w, b) => "workspace:" + Render(w) + ":sessions:bucket:" + Spelled(b)
    case Statistics(w) => "workspace:" + Render(w) + ":stats"
    case Directory => "workspaces"
    case Catalog => "workspaces:catalog"
    case Session(id, tail) => "session:" + Render(id) + Suffix(tail)
    case Part(e) => "part:" + Render(e)
    case PartDetail(e, tail) => "part:" + Render(e) + Suffix(tail)
    case Activities => "activities"
    case Activity(id) => "activity:" + id
    case ActivityLogs(id) => "activity:" + id + ":logs"
  }

  lemma {:induction false} JoinIsSuffix(s: Segments)
    ensures Join(s) == s[0] + Suffix(s[1..])
    decreases |s|
  {
    if |s| > 1 { JoinIsSuffix(s[1..]); }
  }

  lemma Two(a: string, b: string)
    ensures Suffix([a]) == ":" + a && Suffix([a, b]) == ":" + a + ":" + b
  {
    assert [a, b][1..] == [b] && [a][1..] == [];
    assert Suffix([b]) == ":" + b;
  }

  lemma Three(a: string, b: string, c: string)
    ensures Suffix([a, b, c]) == ":" + a + ":" + b + ":" + c
  {
    Two(b, c);
    assert [a, b, c][1..] == [b, c];
  }

  lemma Four(a: string, b: string, c: string, d: string)
    ensures Suffix([a, b, c, d]) == ":" + a + ":" + b + ":" + c + ":" + d
  {
    Three(b, c, d);
    assert [a, b, c, d][1..] == [b, c, d];
  }

  lemma PathOf(r: Resource, path: seq<string>)
    requires r.WellFormed() && path != [] && r.Path() == path
    ensures r.Text() == path[0] + Suffix(path[1..])
  {
    JoinIsSuffix(r.Path());
  }

  // Regrouping what the segments join to.

  lemma Key2(a: string, b: string)
    ensures Suffix([a, b][1..]) == ":" + b && a + Suffix([a, b][1..]) == (a + ":") + b
  {
    Two(b, "");
    assert [a, b][1..] == [b];
  }

  lemma Key3(a: string, b: string, c: string)
    ensures a + Suffix([a, b, c][1..]) == (a + ":") + b + (":" + c)
    ensures a + Suffix([a, b, c][1..]) == (a + ":" + b + ":") + c
  {
    Two(b, c);
    assert [a, b, c][1..] == [b, c];
  }

  lemma Key4(a: string, b: string, c: string, d: string)
    ensures a + Suffix([a, b, c, d][1..]) == (a + ":") + b + (":" + c + ":" + d)
    ensures a + Suffix([a, b, c, d][1..]) == (a + ":" + b + ":") + c + (":" + d)
  {
    Three(b, c, d);
    assert [a, b, c, d][1..] == [b, c, d];
  }

  lemma Key5(a: string, b: string, c: string, d: string, e: string)
    ensures a + Suffix([a, b, c, d, e][1..]) == (a + ":") + b + (":" + c + ":" + d + ":") + e
  {
    Four(b, c, d, e);
    assert [a, b, c, d, e][1..] == [b, c, d, e];
  }

  lemma Literals()
    ensures "workspace" + ":" == "workspace:" && "sessions" + ":" + "bucket" + ":" == "sessions:bucket:"
    ensures ":" + "sessions" == ":sessions" && ":" + "stats" == ":stats" && ":" + "count" == ":count"
    ensures ":" + "sessions" + ":" + "roots" == ":sessions:roots"
    ensures ":" + "sessions" + ":" + "parent" + ":" == ":sessions:parent:"
    ensures ":" + "sessions" + ":" + "bucket" + ":" == ":sessions:bucket:"
    ensures ("workspaces" + ":") + "catalog" == "workspaces:catalog"
  {}

  lemma PlainWorkspaceRequested(w: int)
    ensures WorkspaceSessions(w).Text() == Requested(WorkspaceSessions(w))
    ensures Statistics(w).Text() == Requested(Statistics(w))
  {
    PathOf(WorkspaceSessions(w), ["workspace", Render(w), "sessions"]);
    Key3("workspace", Render(w), "sessions");
    PathOf(Statistics(w), ["workspace", Render(w), "stats"]);
    Key3("workspace", Render(w), "stats");
    Literals();
  }

  lemma RootsRequested(w: int)
    ensures Roots(w).Text() == Requested(Roots(w))
  {
    PathOf(Roots(w), ["workspace", Render(w), "sessions", "roots"]);
    Key4("workspace", Render(w), "sessions", "roots");
    Literals();
  }

  lemma ChildrenRequested(w: int, p: int)
    ensures Children(w, p).Text() == Requested(Children(w, p))
  {
    PathOf(Children(w, p), ["workspace", Render(w), "sessions", "parent", Render(p)]);
    Key5("workspace", Render(w), "sessions", "parent", Render(p));
    Literals();
  }

  lemma WorkspaceBucketRequested(w: int, b: Bucket)
    ensures WorkspaceBucket(w, b).Text() == Requested(WorkspaceBucket(w, b))
  {
    PathOf(WorkspaceBucket(w, b), ["workspace", Render(w), "sessions", "bucket", b.Name()]);
    Key5("workspace", Render(w), "sessions", "bucket", b.Name());
    Literals();
  }

  lemma BucketRequested(b: Bucket)
    ensures InBucket(b).Text() == Requested(InBucket(b)) && BucketCount(b).Text() == Requested(BucketCount(b))
  {
    PathOf(InBucket(b), ["sessions", "bucket", b.Name()]);
    Key3("sessions", "bucket", b.Name());
    PathOf(BucketCount(b), ["sessions", "bucket", b.Name(), "count"]);
    Key4("sessions", "bucket", b.Name(), "count");
    Literals();
  }

  lemma CatalogRequested()
    ensures Catalog.Text() == Requested(Catalog)
  {
    PathOf(Catalog, ["workspaces", "catalog"]);
    Key2("workspaces", "catalog");
    Literals();
  }

  lemma SuffixMore(a: string, tail: seq<string>)
    ensures Suffix([a] + tail) == ":" + a + Suffix(tail)
  {
    assert ([a] + tail)[1..] == tail;
  }

  lemma Regrouped(a: string, b: string, c: string)
    ensures a + (":" + b + c) == (a + ":") + b + c
  {}

  lemma OwnedRequested(r: Resource)
    requires r.Session? || r.Part? || r.PartDetail?
    ensures r.Text() == Requested(r)
  {
    JoinIsSuffix(r.Path());
    assert "session" + ":" == "session:" && "part" + ":" == "part:";
    match r
    case Session(id, tail) =>
      SuffixMore(Render(id), tail);
      assert r.Path()[1..] == [Render(id)] + tail;
      Regrouped("session", Render(id), Suffix(tail));
    case PartDetail(e, tail) =>
      SuffixMore(Render(e), tail);
      assert r.Path()[1..] == [Render(e)] + tail;
      Regrouped("part", Render(e), Suffix(tail));
    case Part(e) => Key2("part", Render(e));
  }

  lemma ActivityRequested(r: Resource)
    requires r.WellFormed() && (r.Activity? || r.ActivityLogs?)
    ensures r.Text() == Requested(r)
  {
    assert "activity" + ":" == "activity:" && ":" + "logs" == ":logs";
    if r.Activity? {
      PathOf(r, ["activity", r.activity]);
      Key2("activity", r.activity);
    } else {
      PathOf(r, ["activity", r.activity, "logs"]);
      Key3("activity", r.activity, "logs");
    }
  }

  /** The keys that are invalidated are spelled as the handlers ask for them. */
  lemma KeyAsRequested(r: Resource)
    requires r.WellFormed()
    ensures r.Text() == Requested(r)
  {
    match r
    case AllSessions => assert Join(["sessions"]) == "sessions";
    case InBucket(b) => BucketRequested(b);
    case BucketCount(b) => BucketRequested(b);
    case WorkspaceSessions(w) => PlainWorkspaceRequested(w);
    case Roots(w) => RootsRequested(w);
    case Children(w, p) => ChildrenRequested(w, p);
    case WorkspaceBucket(w, b) => WorkspaceBucketRequested(w, b);
    case Statistics(w) => PlainWorkspaceRequested(w);
    case Directory =>
    case Catalog => CatalogRequested();
    case Session(_, _) => OwnedRequested(r);
    case Part(_) => OwnedRequested(r);
    case PartDetail(_, _) => OwnedRequested(r);
    case Activities =>
    case Activity(_) => ActivityRequested(r);
    case ActivityLogs(_) => ActivityRequested(r);
  }

  // ---------------------------------------------------------------- listing requests

  datatype Query = Query(
    workspace: Option<int>,
    bucket: Option<Bucket>,
    countOnly: bool,
    parent: Option<int>,
    roots: bool
  )

  /** The resource a listing request captures its revision of. */
  function Captured(q: Query): Resource {
    match q.workspace
    case None =>
      if q.bucket.None? then AllSessions
      else if q.countOnly then BucketCount(q.bucket.value) else InBucket(q.bucket.value)
    case Some(w) =>
      if q.bucket.Some? then WorkspaceBucket(w, q.bucket.value)
      else if q.parent.Some? then Children(w, q.parent.value)
      else if q.roots then Roots(w)
      else WorkspaceSessions(w)
  }

  /** The rows a listing request asks storage for, before any search or paging. */
  predicate Asked(q: Query, row: Row) {
    && row.listed
    && (q.workspace.Some? ==> row.workspace == q.workspace.value)
    && (q.parent.Some? ==> row.parent == q.parent)
    && (q.roots ==> row.parent.None?)
    && (q.bucket.Some? ==> Queried(q.bucket.value, row))
  }

  /** The rows a request is answered from, with their child counts; `f` is its search or page. */
  ghost function Answer(rows: Rows, q: Query, f: Row -> bool): set<(Row, nat)> {
    set id | id in rows && Asked(q, rows[id]) && f(rows[id]) :: (rows[id], ChildCount(rows, id))
  }

  /** A count only. */
  predicate CountsBucket(q: Query) { q.workspace.None? && q.bucket.Some? && q.countOnly }

  lemma AskedIsShown(q: Query, row: Row)
    requires !CountsBucket(q) && Asked(q, row)
    ensures IsListing(Captured(q)) && Shows(Captured(q), row)
  {}

  /** From request to key text: whatever changes the answer of a request invalidates the key it asked for. */
  lemma RequestSound(c: Change, rows: Rows, id: int, q: Query, f: Row -> bool)
    requires Describes(c, rows, id) && !CountsBucket(q)
    requires Answer(rows, q, f) != Answer(Apply(rows, id, c.after), q, f)
    ensures Requested(Captured(q)) in Texts(Invalidated(c))
  {
    var rows' := Apply(rows, id, c.after);
    var g := (row: Row) => Asked(q, row) && f(row);
    forall row | Asked(q, row) ensures Shows(Captured(q), row) { AskedIsShown(q, row); }
    assert Answer(rows, q, f) == Contents(rows, Captured(q), g);
    assert Answer(rows', q, f) == Contents(rows', Captured(q), g);
    assert IsListing(Captured(q));
    ListingSound(c, rows, id, Captured(q), g);
    KeyAsRequested(Captured(q));
    TextsExact(Invalidated(c), Captured(q));
  }

  /** A plain count of a bucket is exact; with a further filter it is as `FilteredCountMissed` tells. */
  lemma CountRequestExact(c: Change, rows: Rows, id: int, b: Bucket)
    requires c.before == Lookup(rows, id)
    ensures Requested(Captured(Query(None, Some(b), true, None, false))) in Texts(Invalidated(c))
            <==> BucketSize(rows, b, All()) != BucketSize(Apply(rows, id, c.after), b, All())
  {
    BucketCountExact(c, rows, id, b);
    KeyAsRequested(BucketCount(b));
    TextsExact(Invalidated(c), BucketCount(b));
  }
}
