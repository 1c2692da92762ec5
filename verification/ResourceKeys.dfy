/**
 Resource keys. Every key is a list of segments joined by ':', such as
 "session:7:state" or "workspace:3:sessions:roots"; no segment contains ':'.
 */
module ResourceKeys {
  import opened Decimal

  type Segments = s: seq<string> | 0 < |s| && forall i :: 0 <= i < |s| ==> NoColon(s[i]) witness [""]

  function Join(s: Segments): string {
    if |s| == 1 then s[0] else s[0] + ":" + Join(s[1..])
  }

  lemma {:induction false} JoinColon(s: Segments)
    ensures NoColon(Join(s)) <==> |s| == 1
  {
    if |s| > 1 { assert Join(s)[|s[0]|] == ':'; }
  }

  /** A joined key determines its segments. */
  lemma {:induction false} JoinInjective(a: Segments, b: Segments)
    requires Join(a) == Join(b)
    ensures a == b
  {
    JoinColon(a);
    JoinColon(b);
    if |a| > 1 {
      SegmentUnique(a[0], Join(a[1..]), b[0], Join(b[1..]));
      JoinInjective(a[1..], b[1..]);
      assert a == [a[0]] + a[1..] && b == [b[0]] + b[1..];
    }
  }

  lemma ColonInside(p: string, s: string)
    ensures p + ":" <= s ==> ':' in s
  {
    if p + ":" <= s { assert s[|p|] == (p + ":")[|p|]; }
  }

  /** `key.starts_with("a:b:")` holds exactly when the segments [a, b] properly begin the key's. */
  lemma {:induction false} JoinPrefix(a: Segments, b: Segments)
    ensures Join(a) + ":" <= Join(b) <==> |a| < |b| && a <= b
  {
    if |b| == 1 {
      JoinColon(b);
      ColonInside(Join(a), Join(b));
    } else if |a| == 1 {
      SegmentPrefix(a[0], b[0], Join(b[1..]));
    } else {
      var x, y := Join(a[1..]) + ":", Join(b[1..]);
      assert Join(a) + ":" == a[0] + ":" + x;
      JoinPrefix(a[1..], b[1..]);
      if Join(a) + ":" <= Join(b) {
        var rest := Join(b)[|Join(a)| + 1..];
        assert a[0] + ":" + (x + rest) == b[0] + ":" + y;
        SegmentUnique(a[0], x + rest, b[0], y);
        assert a == [a[0]] + a[1..] && b == [b[0]] + b[1..];
      }
    }
  }

  // The keys the server serves, by what they name.

  datatype Bucket = Pinned | Favorite | Running | Attention | Recent {
    function Name(): (s: string)
      ensures NoColon(s)
    {
      match this
      case Pinned => "pinned"
      case Favorite => "favorite"
      case Running => "running"
      case Attention => "attention"
      case Recent => "recent"
    }
  }

  const BUCKETS: seq<Bucket> := [Pinned, Favorite, Running, Attention, Recent]

  function Sessions(tail: seq<string>): Segments
    requires forall i :: 0 <= i < |tail| ==> NoColon(tail[i])
  {
    ["sessions"] + tail
  }

  function InWorkspace(w: int, tail: Segments): Segments {
    RenderNoColon(w);
    ["workspace", Render(w)] + tail
  }

  datatype Resource =
    | AllSessions
    | WorkspaceSessions(workspace: int)
    | Roots(workspace: int)
    | Children(workspace: int, parent: int)
    | InBucket(bucket: Bucket)
    | WorkspaceBucket(workspace: int, bucket: Bucket)
    | BucketCount(bucket: Bucket)
    | Statistics(workspace: int)
    | Directory
    | Catalog
    | Session(session: int, tail: Segments)
    | Part(entry: int)
    | PartDetail(entry: int, tail: Segments)
    | Activities
    | Activity(activity: string)
    | ActivityLogs(activity: string)
  {
    /** Activity identifiers are opaque; they must not contain the separator. */
    predicate WellFormed() {
      Activity? || ActivityLogs? ==> NoColon(activity)
    }

    function Path(): Segments
      requires WellFormed()
    {
      match this
      case AllSessions => Sessions([])
      case InBucket(b) => Sessions(["bucket", b.Name()])
      case BucketCount(b) => Sessions(["bucket", b.Name(), "count"])
      case WorkspaceSessions(w) => InWorkspace(w, ["sessions"])
      case Roots(w) => InWorkspace(w, ["sessions", "roots"])
      case Children(w, p) => RenderNoColon(p); InWorkspace(w, ["sessions", "parent", Render(p)])
      case WorkspaceBucket(w, b) => InWorkspace(w, ["sessions", "bucket", b.Name()])
      case Statistics(w) => InWorkspace(w, ["stats"])
      case Directory => ["workspaces"]
      case Catalog => ["workspaces", "catalog"]
      case Session(id, tail) => RenderNoColon(id); ["session", Render(id)] + tail
      case Part(e) => RenderNoColon(e); ["part", Render(e)]
      case PartDetail(e, tail) => RenderNoColon(e); ["part", Render(e)] + tail
      case Activities => ["activities"]
      case Activity(id) => ["activity", id]
      case ActivityLogs(id) => ["activity", id, "logs"]
    }

    function Text(): string
      requires WellFormed()
    {
      Join(Path())
    }
  }

  lemma BucketNames(a: Bucket, b: Bucket)
    requires a.Name() == b.Name()
    ensures a == b
  {
    assert a.Name()[0] == b.Name()[0];
    assert a.Name()[|a.Name()| - 1] == b.Name()[|b.Name()| - 1];
  }

  /** Two resources share a key only when they are the same resource. */
  lemma TextInjective(a: Resource, b: Resource)
    requires a.WellFormed() && b.WellFormed() && a.Text() == b.Text()
    ensures a == b
  {
    JoinInjective(a.Path(), b.Path());
    PathInjective(a, b);
  }

  lemma PathInjective(a: Resource, b: Resource)
    requires a.WellFormed() && b.WellFormed() && a.Path() == b.Path()
    ensures a == b
  {
    var p := a.Path();
    assert p[0] == b.Path()[0];
    if p[0] == "workspace" {
      WorkspacePath(a, b);
    } else if p[0] == "sessions" {
      if |p| > 1 {
        assert p[2] == b.Path()[2];
        BucketNames(a.bucket, b.bucket);
      }
    } else if |p| > 1 {
      assert p[1] == b.Path()[1];
      assert p[2..] == b.Path()[2..];
      if a.Session? || a.PartDetail? { assert p[2..] == a.tail; }
      if b.Session? || b.PartDetail? { assert b.Path()[2..] == b.tail; }
      if a.Session? { RenderInjective(a.session, b.session); }
      if a.Part? || a.PartDetail? { RenderInjective(a.entry, b.entry); }
    }
  }

  lemma WorkspacePath(a: Resource, b: Resource)
    requires a.WellFormed() && b.WellFormed() && a.Path() == b.Path() && a.Path()[0] == "workspace"
    ensures a == b
  {
    var p, q := a.Path(), b.Path();
    assert p[1] == q[1] && p[2] == q[2];
    RenderInjective(a.workspace, b.workspace);
    if |p| > 3 { assert p[3] == q[3]; }
    if |p| > 4 {
      assert p[4] == q[4];
      if a.Children? { RenderInjective(a.parent, b.parent); } else { BucketNames(a.bucket, b.bucket); }
    }
  }
}
