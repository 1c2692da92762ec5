/**
 Resource revisions: which keys each observed event invalidates, and cache
 coherence over every run of the clock.
 */
module Revisions {
  import opened Wrappers
  import opened Decimal
  import opened ResourceKeys
  import opened RevisionClock
  import ListInvalidation

  datatype ChangeKind = Metadata | Membership | Execution | Round | Tool | Interaction | Content | ActivityChange

  datatype KernelChange = KernelChange(
    cursor: Cursor,
    session: int,
    kind: ChangeKind,
    listChange: Option<ListInvalidation.Change>,
    affected: seq<int>          // entry identities
  ) {
    /** Kinds that can change file evidence. */
    predicate TouchesFiles() { kind.Tool? || kind.Membership? || kind.Execution? || kind.Interaction? }
  }

  datatype Signal =
    | Plugin(session: Option<int>, topic: string)
    | ActivitySignal(activity: string, parentSession: Option<int>, ownSession: Option<int>)
    | ToolRegistryChanged
  {
    predicate WellFormed() { ActivitySignal? ==> NoColon(activity) }
  }

  /** What the clock cannot control: time, and the cache's iteration order. */
  datatype World = World(wall: Wall, iter: set<string> -> seq<string>)

  function Elements(s: seq<string>): set<string> { set k | k in s }

  ghost predicate Enumerates(w: World) {
    forall keys: set<string> :: Elements(w.iter(keys)) == keys
  }

  // ---------------------------------------------------------------- keys of an event

  function SessionKey(id: int, tail: Segments): string { Session(id, tail).Text() }

  lemma Tails()
    ensures NoColon("state") && NoColon("parts") && NoColon("plan") && NoColon("files")
  {}

  function StateKey(id: int): string { Tails(); SessionKey(id, ["state"]) }
  function PartsKey(id: int): string { Tails(); SessionKey(id, ["parts"]) }
  function PlanKey(id: int): string { Tails(); SessionKey(id, ["plan"]) }
  function FilesKey(id: int): string { Tails(); SessionKey(id, ["files"]) }

  function SessionPrefix(id: int): string { SessionPathPrefix(id); Join(["session", Render(id)]) + ":" }
  function PartText(entry: int): string { Part(entry).Text() }

  lemma SessionPathPrefix(id: int)
    ensures NoColon("session") && NoColon(Render(id)) && NoColon("part")
  {
    RenderNoColon(id);
  }

  /** The test applied to each cached key. */
  predicate Selected(key: string, c: KernelChange) {
    || (SessionPrefix(c.session) <= key && key != FilesKey(c.session))
    || exists i :: 0 <= i < |c.affected| &&
         (key == PartText(c.affected[i]) || PartText(c.affected[i]) + ":" <= key)
  }

  /** Keys set whether or not they are cached. */
  function Explicit(c: KernelChange): seq<string> {
    [StateKey(c.session), PartsKey(c.session), PlanKey(c.session)]
    + (if c.TouchesFiles() then [FilesKey(c.session)] else [])
  }

  function ListingKeys(c: KernelChange): set<string>
    requires c.listChange.Some?
  {
    ListInvalidation.Texts(ListInvalidation.Invalidated(c.listChange.value))
  }

  function KeyOrder(cached: set<string>, c: KernelChange, w: World): seq<string>
    requires c.listChange.Some?
  {
    w.iter(set k | k in cached && Selected(k, c)) + Explicit(c) + w.iter(ListingKeys(c))
  }

  /** The keys a commit with known scope affects, cached or not. */
  predicate Affects(c: KernelChange, key: string)
    requires c.listChange.Some?
  {
    Selected(key, c) || key in Explicit(c) || key in ListingKeys(c)
  }

  /** The prefix tests pick exactly the resources of that session and of those entries. */
  lemma SelectedExact(c: KernelChange, r: Resource)
    requires r.WellFormed()
    ensures Selected(r.Text(), c) <==>
      || (r.Session? && r.session == c.session && r.tail != ["files"])
      || ((r.Part? || r.PartDetail?) && r.entry in c.affected)
  {
    SessionPathPrefix(c.session);
    Tails();
    SessionTest(c, r);
    forall i | 0 <= i < |c.affected|
      ensures r.Text() == PartText(c.affected[i]) || PartText(c.affected[i]) + ":" <= r.Text()
              <==> (r.Part? || r.PartDetail?) && r.entry == c.affected[i]
    {
      PartTest(c.affected[i], r);
    }
  }

  lemma SessionTest(c: KernelChange, r: Resource)
    requires r.WellFormed()
    ensures SessionPrefix(c.session) <= r.Text() && r.Text() != FilesKey(c.session)
            <==> r.Session? && r.session == c.session && r.tail != ["files"]
  {
    SessionBelow(c.session, r);
    SessionFiles(c.session, r);
  }

  lemma SessionFiles(id: int, r: Resource)
    requires r.WellFormed()
    ensures r.Text() == FilesKey(id) <==> r == Session(id, ["files"])
  {
    Tails();
    if r.Text() == FilesKey(id) { TextInjective(r, Session(id, ["files"])); }
  }

  lemma SessionBelow(id: int, r: Resource)
    requires r.WellFormed()
    ensures SessionPrefix(id) <= r.Text() <==> r.Session? && r.session == id
  {
    SessionPathPrefix(id);
    JoinPrefix(["session", Render(id)], r.Path());
    if SessionPrefix(id) <= r.Text() {
      assert r.Path()[0] == "session" && r.Path()[1] == Render(id);
      assert r.Session?;
      RenderInjective(r.session, id);
    }
  }

  lemma PartTest(entry: int, r: Resource)
    requires r.WellFormed()
    ensures r.Text() == PartText(entry) || PartText(entry) + ":" <= r.Text()
            <==> (r.Part? || r.PartDetail?) && r.entry == entry
  {
    PartItself(entry, r);
    PartBelow(entry, r);
  }

  lemma PartItself(entry: int, r: Resource)
    requires r.WellFormed()
    ensures r.Text() == PartText(entry) <==> r == Part(entry)
  {
    if r.Text() == PartText(entry) { TextInjective(r, Part(entry)); }
  }

  lemma PartBelow(entry: int, r: Resource)
    requires r.WellFormed()
    ensures PartText(entry) + ":" <= r.Text() <==> r.PartDetail? && r.entry == entry
  {
    SessionPathPrefix(entry);
    JoinPrefix(["part", Render(entry)], r.Path());
    if PartText(entry) + ":" <= r.Text() {
      assert r.Path()[0] == "part" && r.Path()[1] == Render(entry);
      assert r.PartDetail?;
      RenderInjective(r.entry, entry);
    }
  }

  function SignalKeys(s: Signal): seq<string>
    requires s.WellFormed()
  {
    match s
    case Plugin(session, topic) =>
      if session.Some? && topic == "plan.changed" then [PlanKey(session.value)] else []
    case ActivitySignal(id, parent, own) =>
      var shown := if parent.Some? then parent else own;
      [Activities.Text(), Activity(id).Text(), ActivityLogs(id).Text()]
      + (if shown.Some? then [StateKey(shown.value)] else [])
    case ToolRegistryChanged => []
  }

  function WorkspaceKeys(): seq<string> { [Directory.Text(), Catalog.Text()] }

  // ---------------------------------------------------------------- one event

  datatype Event =
    | Read(key: string)
    | Signalled(signal: Signal)
    | WorkspaceChanged
    | Committed(change: KernelChange)
    | FeedReset(head: Option<Cursor>)
  {
    predicate WellFormed() { Signalled? ==> signal.WellFormed() }
  }

  /** A commit at or below the position already observed. */
  predicate Known(s: State, c: KernelChange) {
    s.position.Some? && s.position.value.epoch == c.cursor.epoch && s.position.value.position >= c.cursor.position
  }

  predicate ForeignEpoch(s: State, c: KernelChange) {
    s.position.Some? && s.position.value.epoch != c.cursor.epoch
  }

  function Commit(s: State, c: KernelChange, w: World): State {
    if Known(s, c) then s
    else if ForeignEpoch(s, c) then s.Reset(Some(c.cursor), w.wall)
    else
      var o := s.Observe(c.cursor, w.wall);
      if c.listChange.None? then o.Reset(Some(c.cursor), w.wall)
      else o.SetAll(KeyOrder(o.local.Keys, c, w), o.revision, w.wall)
  }

  function Signalling(s: State, signal: Signal, w: World): State
    requires signal.WellFormed()
  {
    if SignalKeys(signal) == [] then s else s.Invalidate(SignalKeys(signal), w.wall)
  }

  function After(s: State, e: Event, w: World): State
    requires e.WellFormed()
  {
    match e
    case Read(k) => s.Issue(k, w.wall)
    case Signalled(sig) => Signalling(s, sig, w)
    case WorkspaceChanged => s.Invalidate(WorkspaceKeys(), w.wall)
    case Committed(c) => Commit(s, c, w)
    case FeedReset(head) => s.Reset(head, w.wall)
  }

  /** Does this event, applied now, invalidate cached bodies of `key`? */
  predicate Invalidates(s: State, e: Event, key: string)
    requires e.WellFormed()
  {
    match e
    case Read(_) => false
    case Signalled(sig) => key in SignalKeys(sig)
    case WorkspaceChanged => key in WorkspaceKeys()
    case Committed(c) => !Known(s, c) && (ForeignEpoch(s, c) || c.listChange.None? || Affects(c, key))
    case FeedReset(_) => true
  }

  // ---------------------------------------------------------------- what the served bodies show

  /** The state body of a session lists the activities that it owns and those of its child sessions. */
  predicate StateShows(session: int, parentSession: Option<int>, ownSession: Option<int>) {
    parentSession == Some(session) || ownSession == Some(session)
  }

  /** The bodies that show what a signal reports: a plan of a session, or an activity. */
  predicate ShowsSignal(r: Resource, s: Signal) {
    match s
    case Plugin(session, topic) =>
      topic == "plan.changed" && r.Session? && session == Some(r.session) && r.tail == ["plan"]
    case ActivitySignal(id, parent, own) =>
      (match r
       case Activities => true
       case Activity(a) => a == id
       case ActivityLogs(a) => a == id
       case Session(session, tail) => tail == ["state"] && StateShows(session, parent, own)
       case _ => false)
    case ToolRegistryChanged => false
  }

  /** The state of the session that owns a delegated activity, behind its parent session. */
  predicate OwnerBehindParent(r: Resource, s: Signal) {
    && s.ActivitySignal? && s.parentSession.Some? && s.ownSession.Some? && s.parentSession != s.ownSession
    && r.Session? && r.session == s.ownSession.value && r.tail == ["state"]
  }

  lemma TailKey(id: int, tail: Segments, r: Resource)
    requires r.WellFormed()
    ensures r.Text() == SessionKey(id, tail) <==> r == Session(id, tail)
  {
    if r.Text() == SessionKey(id, tail) { TextInjective(r, Session(id, tail)); }
  }

  lemma SameKey(r: Resource, q: Resource)
    requires r.WellFormed() && q.WellFormed()
    ensures r.Text() == q.Text() <==> r == q
  {
    if r.Text() == q.Text() { TextInjective(r, q); }
  }

  lemma ActivityKeys(s: Signal, r: Resource)
    requires s.ActivitySignal? && s.WellFormed() && r.WellFormed()
    ensures r.Text() in SignalKeys(s) <==>
      || r in [Activities, Activity(s.activity), ActivityLogs(s.activity)]
      || (r.Session? && r.tail == ["state"]
          && Some(r.session) == if s.parentSession.Some? then s.parentSession else s.ownSession)
  {
    Tails();
    SameKey(r, Activities);
    SameKey(r, Activity(s.activity));
    SameKey(r, ActivityLogs(s.activity));
    if s.parentSession.Some? { TailKey(s.parentSession.value, ["state"], r); }
    if s.ownSession.Some? { TailKey(s.ownSession.value, ["state"], r); }
  }

  /**
   A signal invalidates a resource if and only if its body shows what changed, except
   exactly the state of the session that owns an activity delegated to it by another.
   */
  lemma SignalExact(s: Signal, r: Resource)
    requires s.WellFormed() && r.WellFormed()
    ensures (r.Text() in SignalKeys(s) <==> ShowsSignal(r, s)) <==> !OwnerBehindParent(r, s)
  {
    Tails();
    if s.ActivitySignal? {
      ActivityKeys(s, r);
    } else if s.Plugin? && s.session.Some? {
      TailKey(s.session.value, ["plan"], r);
    }
  }

  /** Such an input: the activity of a child session, which both sessions show. */
  lemma DelegatedActivityIsMissed(activity: string, parent: int, child: int)
    requires NoColon(activity) && parent != child
    ensures var s := ActivitySignal(activity, Some(parent), Some(child)); var r := (Tails(); Session(child, ["state"]));
      ShowsSignal(r, s) && r.Text() !in SignalKeys(s) && StateKey(parent) in SignalKeys(s)
  {
    Tails();
    var s := ActivitySignal(activity, Some(parent), Some(child));
    SignalExact(s, Session(child, ["state"]));
    SignalExact(s, Session(parent, ["state"]));
  }

  /** The bodies that list the workspaces: with their session counts, and without. */
  predicate ShowsWorkspaces(r: Resource) { r.Directory? || r.Catalog? }

  lemma WorkspaceExact(r: Resource)
    requires r.WellFormed()
    ensures r.Text() in WorkspaceKeys() <==> ShowsWorkspaces(r)
  {
    SameKey(r, Directory);
    SameKey(r, Catalog);
  }

  /** Commits that leave the recorded file evidence alone: titles, provider rounds, captured text and activities. */
  predicate LeavesFiles(kind: ChangeKind) {
    match kind
    case Metadata => true
    case Round => true
    case Content => true
    case ActivityChange => true
    case _ => false
  }

  /** The bodies a commit with known scope shows up in. */
  predicate ShowsCommit(r: Resource, c: KernelChange)
    requires c.listChange.Some?
  {
    match r
    case Session(id, tail) => id == c.session && (tail == ["files"] ==> !LeavesFiles(c.kind))
    case Part(e) => e in c.affected
    case PartDetail(e, _) => e in c.affected
    case _ => r in ListInvalidation.Invalidated(c.listChange.value)
  }

  lemma ExplicitExact(c: KernelChange, r: Resource)
    requires r.WellFormed()
    ensures r.Text() in Explicit(c) <==>
      r.Session? && r.session == c.session
      && (r.tail in [["state"], ["parts"], ["plan"]] || (r.tail == ["files"] && !LeavesFiles(c.kind)))
  {
    Tails();
    TailKey(c.session, ["state"], r);
    TailKey(c.session, ["parts"], r);
    TailKey(c.session, ["plan"], r);
    TailKey(c.session, ["files"], r);
  }

  /** A commit with known scope affects exactly the bodies it shows up in. */
  lemma CommitExact(c: KernelChange, r: Resource)
    requires r.WellFormed() && c.listChange.Some?
    ensures Affects(c, r.Text()) <==> ShowsCommit(r, c)
  {
    SelectedExact(c, r);
    ExplicitExact(c, r);
    ListInvalidation.TextsExact(ListInvalidation.Invalidated(c.listChange.value), r);
    if r.Session? || r.Part? || r.PartDetail? { ListInvalidation.InvalidatedKinds(c.listChange.value, r); }
  }

  /** What an event, applied now, shows up in; a commit already observed shows up in nothing new. */
  predicate ShowsEvent(r: Resource, s: State, e: Event) {
    match e
    case Read(_) => false
    case Signalled(sig) => ShowsSignal(r, sig)
    case WorkspaceChanged => ShowsWorkspaces(r)
    case Committed(c) => !Known(s, c) && (ForeignEpoch(s, c) || c.listChange.None? || ShowsCommit(r, c))
    case FeedReset(_) => true
  }

  /** An event invalidates a resource exactly if its body shows what happened, with that one exception. */
  lemma EventExact(s: State, e: Event, r: Resource)
    requires e.WellFormed() && r.WellFormed()
    ensures (Invalidates(s, e, r.Text()) <==> ShowsEvent(r, s, e))
            <==> !(e.Signalled? && OwnerBehindParent(r, e.signal))
  {
    match e
    case Signalled(sig) => SignalExact(sig, r);
    case WorkspaceChanged => WorkspaceExact(r);
    case Committed(c) => if c.listChange.Some? { CommitExact(c, r); }
    case _ =>
  }

  // ---------------------------------------------------------------- every run

  /** The clock with what a reader has been told: each (key, revision) it was given. */
  datatype Ledger = Ledger(clock: State, issued: set<(string, i64)>) {
    predicate Inv() {
      && clock.Inv()
      && forall e :: e in issued ==> e.1 <= clock.revision && clock.Covers(e.0, e.1)
    }
  }

  function Step(l: Ledger, e: Event, w: World): Ledger
    requires e.WellFormed()
  {
    var s := After(l.clock, e, w);
    Ledger(s, if e.Read? && e.key in s.local then l.issued + {(e.key, s.local[e.key])} else l.issued)
  }

  function Run(l: Ledger, events: seq<Event>, w: World): Ledger
    requires forall i :: 0 <= i < |events| ==> events[i].WellFormed()
  {
    if events == [] then l else Step(Run(l, events[..|events| - 1], w), events[|events| - 1], w)
  }

  function Token(l: Ledger, key: string, w: World): i64
  {
    l.clock.Issue(key, w.wall).local[key]
  }

  /** What one event keeps, and what it does to each token already given out. */
  lemma StepKeeps(l: Ledger, e: Event, w: World)
    requires l.Inv() && e.WellFormed() && Enumerates(w)
    ensures var r := Step(l, e, w);
      && r.Inv() && l.issued <= r.issued
      && l.clock.revision <= r.clock.revision && l.clock.floor <= r.clock.floor
      && (forall k :: l.clock.Peek(k) <= r.clock.Peek(k))
      && (forall k, t: i64 | t <= l.clock.revision :: l.clock.Outdates(k, t) ==> r.clock.Outdates(k, t))
      && (forall k, t: i64 | (k, t) in l.issued && Invalidates(l.clock, e, k) :: r.clock.Outdates(k, t))
  {
    var s := l.clock;
    match e
    case Read(k) => IssueKeeps(s, k, w.wall);
    case Signalled(sig) => if SignalKeys(sig) != [] { InvalidateKeeps(s, SignalKeys(sig), w); }
    case WorkspaceChanged => InvalidateKeeps(s, WorkspaceKeys(), w);
    case Committed(c) => CommitKeeps(l, c, w);
    case FeedReset(head) => ResetKeeps(s, head, w.wall);
  }

  lemma InvalidateKeeps(s: State, keys: seq<string>, w: World)
    requires s.Inv()
    ensures var r := s.Invalidate(keys, w.wall);
      && r.Inv() && s.revision <= r.revision && s.floor <= r.floor
      && (forall k :: s.Peek(k) <= r.Peek(k))
      && (forall k, t: i64 | t <= s.revision :: s.Covers(k, t) ==> r.Covers(k, t))
      && (forall k, t: i64 | t <= s.revision :: s.Outdates(k, t) ==> r.Outdates(k, t))
      && (forall k, t: i64 | k in keys && t <= s.revision :: r.Outdates(k, t))
  {
    TickKeeps(s, w.wall);
    var m := s.Tick(w.wall);
    SetAllKeeps(m, keys, m.revision, w.wall);
    assert forall k, t: i64 :: s.Covers(k, t) == m.Covers(k, t);
    assert forall k, t: i64 :: s.Outdates(k, t) == m.Outdates(k, t);
  }

  /** A commit walks only the cached keys, yet outdates every token given out for any affected key. */
  lemma CommitKeeps(l: Ledger, c: KernelChange, w: World)
    requires l.Inv() && Enumerates(w)
    ensures var s, r := l.clock, Commit(l.clock, c, w);
      && r.Inv() && s.revision <= r.revision && s.floor <= r.floor
      && (forall k :: s.Peek(k) <= r.Peek(k))
      && (forall k, t: i64 | t <= s.revision :: s.Covers(k, t) ==> r.Covers(k, t))
      && (forall k, t: i64 | t <= s.revision :: s.Outdates(k, t) ==> r.Outdates(k, t))
      && (forall k, t: i64 | (k, t) in l.issued && Invalidates(s, Committed(c), k) :: r.Outdates(k, t))
  {
    var s := l.clock;
    if Known(s, c) {
    } else if ForeignEpoch(s, c) {
      ResetKeeps(s, Some(c.cursor), w.wall);
    } else {
      var o := s.Observe(c.cursor, w.wall);
      ObserveTicks(s, c.cursor, w);
      if c.listChange.None? {
        ResetKeeps(o, Some(c.cursor), w.wall);
      } else {
        var order := KeyOrder(o.local.Keys, c, w);
        SetAllKeeps(o, order, o.revision, w.wall);
        var r := Commit(s, c, w);
        forall k, t: i64 | (k, t) in l.issued && Affects(c, k) ensures r.Outdates(k, t) {
          OrderReaches(o.local.Keys, c, w, k);
          if k in order {
            assert t == I64_MAX || t < o.revision;
          } else {
            assert o.Outdates(k, t);
          }
        }
      }
    }
  }

  /** Observing a newer position is a tick: cached revisions stay, the revision moves. */
  lemma ObserveTicks(s: State, cursor: Cursor, w: World)
    requires s.Inv() && s.Advances(cursor)
    ensures var o := s.Observe(cursor, w.wall);
      && o.Inv() && o.Dominates(o.revision) && o.local == s.local && o.floor == s.floor
      && s.revision <= o.revision && (s.revision < I64_MAX ==> s.revision < o.revision)
  {}

  lemma OrderReaches(cached: set<string>, c: KernelChange, w: World, k: string)
    requires c.listChange.Some? && Enumerates(w)
    ensures k in KeyOrder(cached, c, w) <==> (k in cached && Selected(k, c)) || k in Explicit(c) || k in ListingKeys(c)
  {
    var x := set k | k in cached && Selected(k, c);
    assert k in w.iter(x) <==> k in Elements(w.iter(x));
    assert k in w.iter(ListingKeys(c)) <==> k in Elements(w.iter(ListingKeys(c)));
  }

  lemma {:induction false} RunKeeps(l: Ledger, events: seq<Event>, w: World)
    requires l.Inv() && Enumerates(w) && forall i :: 0 <= i < |events| ==> events[i].WellFormed()
    ensures var r := Run(l, events, w);
      && r.Inv() && l.issued <= r.issued
      && l.clock.revision <= r.clock.revision && l.clock.floor <= r.clock.floor
      && (forall k :: l.clock.Peek(k) <= r.clock.Peek(k))
      && (forall k, t: i64 | t <= l.clock.revision :: l.clock.Outdates(k, t) ==> r.clock.Outdates(k, t))
  {
    if events != [] {
      var init := events[..|events| - 1];
      RunKeeps(l, init, w);
      StepKeeps(Run(l, init, w), events[|events| - 1], w);
    }
  }

  lemma {:induction false} RunSplit(l: Ledger, a: seq<Event>, b: seq<Event>, w: World)
    requires forall i :: 0 <= i < |a| ==> a[i].WellFormed()
    requires forall i :: 0 <= i < |b| ==> b[i].WellFormed()
    ensures Run(l, a + b, w) == Run(Run(l, a, w), b, w)
    decreases |b|
  {
    if b == [] {
      assert a + b == a;
    } else {
      var init := b[..|b| - 1];
      RunSplit(l, a, init, w);
      assert (a + b)[..|a + b| - 1] == a + init;
    }
  }

  ghost predicate Reachable(l: Ledger, capacity: nat, first: i64, second: i64, w: World) {
    exists events: seq<Event> :: (forall i :: 0 <= i < |events| ==> events[i].WellFormed())
      && l == Run(Ledger(Init(capacity, first, second), {}), events, w)
  }

  /** In every reachable state each token given out is still covered by the cache or the floor. */
  lemma ReachableInv(l: Ledger, capacity: nat, first: i64, second: i64, w: World)
    requires 1 <= capacity && second <= first && Enumerates(w)
    requires Reachable(l, capacity, first, second, w)
    ensures l.Inv()
  {
    var events: seq<Event> :| (forall i :: 0 <= i < |events| ==> events[i].WellFormed())
      && l == Run(Ledger(Init(capacity, first, second), {}), events, w);
    RunKeeps(Ledger(Init(capacity, first, second), {}), events, w);
  }

  /**
   Cache coherence. A reader captures a token for `key`; any events follow; a
   later request for `key` gets the same token. Then none of the events in
   between invalidated `key`, whatever was read, signalled, committed, reset or
   forgotten meanwhile. The one exception is a token at the top of i64, where
   the tick saturates.
   */
  lemma Coherence(l: Ledger, key: string, between: seq<Event>, w: World, i: nat)
    requires l.Inv() && Enumerates(w) && forall j :: 0 <= j < |between| ==> between[j].WellFormed()
    requires i < |between|
    requires Token(l, key, w) == Token(Run(Step(l, Read(key), w), between, w), key, w) < I64_MAX
    ensures !Invalidates(Run(Step(l, Read(key), w), between[..i], w).clock, between[i], key)
  {
    var l1 := Step(l, Read(key), w);
    StepKeeps(l, Read(key), w);
    IssueKeeps(l.clock, key, w.wall);
    if Invalidates(Run(l1, between[..i], w).clock, between[i], key) {
      InvalidationLasts(l1, key, Token(l, key, w), between, w, i);
      RunKeeps(l1, between, w);
      OutdatedNotIssued(Run(l1, between, w).clock, key, Token(l, key, w), w.wall);
    }
  }

  /** An invalidation anywhere in a run outdates the token for the rest of the run. */
  lemma InvalidationLasts(l: Ledger, key: string, t: i64, events: seq<Event>, w: World, i: nat)
    requires l.Inv() && Enumerates(w) && forall j :: 0 <= j < |events| ==> events[j].WellFormed()
    requires (key, t) in l.issued && i < |events|
    requires Invalidates(Run(l, events[..i], w).clock, events[i], key)
    ensures Run(l, events, w).clock.Outdates(key, t)
  {
    var before := Run(l, events[..i], w);
    RunKeeps(l, events[..i], w);
    StepKeeps(before, events[i], w);
    RunFrom(l, events, w, i);
    RunKeeps(Step(before, events[i], w), events[i + 1..], w);
  }

  lemma RunFrom(l: Ledger, events: seq<Event>, w: World, i: nat)
    requires i < |events| && forall j :: 0 <= j < |events| ==> events[j].WellFormed()
    ensures Run(l, events, w) == Run(Step(Run(l, events[..i], w), events[i], w), events[i + 1..], w)
  {
    assert events[..i + 1][..i] == events[..i];
    RunSplit(l, events[..i + 1], events[i + 1..], w);
    assert events == events[..i + 1] + events[i + 1..];
  }

  /** Tokens of a key never decrease along a run, even once the key is forgotten. */
  lemma TokensNeverDecrease(l: Ledger, key: string, between: seq<Event>, w: World)
    requires l.Inv() && Enumerates(w) && forall j :: 0 <= j < |between| ==> between[j].WellFormed()
    ensures Token(l, key, w) <= Token(Run(Step(l, Read(key), w), between, w), key, w)
  {
    var l1 := Step(l, Read(key), w);
    StepKeeps(l, Read(key), w);
    IssueKeeps(l.clock, key, w.wall);
    RunKeeps(l1, between, w);
    IssueKeeps(Run(l1, between, w).clock, key, w.wall);
  }

  /** The other direction: while nothing is forgotten, an event that does not invalidate a key keeps its token. */
  lemma Undisturbed(l: Ledger, e: Event, key: string, w: World)
    requires l.Inv() && e.WellFormed() && Enumerates(w)
    requires !Invalidates(l.clock, e, key) && Step(l, e, w).clock.floor == l.clock.floor
    ensures Step(l, e, w).clock.Peek(key) == l.clock.Peek(key)
  {
    var s := l.clock;
    TickKeeps(s, w.wall);
    var m := s.Tick(w.wall);
    match e
    case Read(k) => SetKeeps(s, k, s.Peek(k), w.wall);
    case Signalled(sig) => SetAllKeeps(m, SignalKeys(sig), m.revision, w.wall);
    case WorkspaceChanged => SetAllKeeps(m, WorkspaceKeys(), m.revision, w.wall);
    case Committed(c) =>
      if !Known(s, c) {
        var o := s.Observe(c.cursor, w.wall);
        ObserveTicks(s, c.cursor, w);
        OrderReaches(o.local.Keys, c, w, key);
        SetAllKeeps(o, KeyOrder(o.local.Keys, c, w), o.revision, w.wall);
      }
  }

  /** A commit that cannot change file evidence leaves the session's files token alone. */
  lemma FilesKept(l: Ledger, c: KernelChange, w: World)
    requires l.Inv() && Enumerates(w) && c.listChange.Some? && !c.TouchesFiles()
    requires !ForeignEpoch(l.clock, c) && Step(l, Committed(c), w).clock.floor == l.clock.floor
    ensures Step(l, Committed(c), w).clock.Peek(FilesKey(c.session)) == l.clock.Peek(FilesKey(c.session))
  {
    FilesUnaffected(c);
    Undisturbed(l, Committed(c), FilesKey(c.session), w);
  }

  lemma FilesUnaffected(c: KernelChange)
    requires c.listChange.Some? && !c.TouchesFiles()
    ensures !Affects(c, FilesKey(c.session))
  {
    FilesNotSelected(c);
    FilesNotExplicit(c);
    FilesNotListed(c);
  }

  lemma FilesNotSelected(c: KernelChange)
    ensures !Selected(FilesKey(c.session), c)
  {
    Tails();
    SelectedExact(c, Session(c.session, ["files"]));
  }

  lemma FilesNotExplicit(c: KernelChange)
    requires !c.TouchesFiles()
    ensures FilesKey(c.session) !in Explicit(c)
  {
    Tails();
    TailsDiffer(c.session, ["state"]);
    TailsDiffer(c.session, ["parts"]);
    TailsDiffer(c.session, ["plan"]);
  }

  lemma FilesNotListed(c: KernelChange)
    requires c.listChange.Some?
    ensures FilesKey(c.session) !in ListingKeys(c)
  {
    Tails();
    var files := Session(c.session, ["files"]);
    ListInvalidation.InvalidatedKinds(c.listChange.value, files);
    ListInvalidation.TextsExact(ListInvalidation.Invalidated(c.listChange.value), files);
  }

  lemma TailsDiffer(id: int, tail: Segments)
    requires NoColon("files") && tail != ["files"]
    ensures SessionKey(id, tail) != SessionKey(id, ["files"])
  {
    if SessionKey(id, tail) == SessionKey(id, ["files"]) {
      TextInjective(Session(id, tail), Session(id, ["files"]));
    }
  }

  /** At the top of i64 the guarantee really is lost: a concrete saturated clock. */
  lemma SaturatedTokenRepeats(w: World)
    ensures var s := State(1, None, I64_MAX, I64_MAX, map[], 0);
      && s.Inv()
      && s.Issue("workspaces", w.wall).local["workspaces"] == I64_MAX
      && s.Invalidate(["workspaces"], w.wall).Peek("workspaces") == I64_MAX
  {
    var s := State(1, None, I64_MAX, I64_MAX, map[], 0);
    InvalidateStrict(s, ["workspaces"], "workspaces", w.wall);
  }

  // ---------------------------------------------------------------- the two readings of a start

  predicate AllWellFormed(events: seq<Event>) { forall i :: 0 <= i < |events| ==> events[i].WellFormed() }

  /** A token captured here is given again although the `i`-th event in between invalidated its key. */
  ghost predicate Repeats(l: Ledger, key: string, between: seq<Event>, i: nat, w: World) {
    AllWellFormed(between) && i < |between| &&
    var read := Step(l, Read(key), w);
    && Token(l, key, w) == Token(Run(read, between, w), key, w) < I64_MAX
    && Invalidates(Run(read, between[..i], w).clock, between[i], key)
  }

  /** Coherence at every point of every run from here. */
  ghost predicate Coherent(l: Ledger, w: World) {
    forall before: seq<Event>, key, between: seq<Event>, i: nat ::
      AllWellFormed(before) ==> !Repeats(Run(l, before, w), key, between, i, w)
  }

  lemma InvIsCoherent(l: Ledger, w: World)
    requires l.Inv() && Enumerates(w)
    ensures Coherent(l, w)
  {
    forall before: seq<Event>, key, between: seq<Event>, i: nat | AllWellFormed(before)
      ensures !Repeats(Run(l, before, w), key, between, i, w)
    {
      RunKeeps(l, before, w);
      if Repeats(Run(l, before, w), key, between, i, w) { Coherence(Run(l, before, w), key, between, w, i); }
    }
  }

  /** Equal, or equal but for a revision that nothing has read yet: before the first tick. */
  predicate Alike(s: State, r: State, first: i64, second: i64) {
    s == r || (s.ticks == 0 && s.revision == first && r == s.(revision := second))
  }

  predicate AlikeLedgers(l: Ledger, m: Ledger, first: i64, second: i64) {
    l.issued == m.issued && Alike(l.clock, m.clock, first, second)
  }

  /** A first tick that reads past both makes them equal. */
  lemma TickMeets(s: State, r: State, first: i64, second: i64, w: World)
    requires Alike(s, r, first, second) && first < second < w.wall(0)
    ensures s.Tick(w.wall) == r.Tick(w.wall)
  {}

  lemma SetAlike(s: State, r: State, first: i64, second: i64, key: string, rev: i64, w: World)
    requires Alike(s, r, first, second) && first < second < w.wall(0)
    ensures Alike(s.Set(key, rev, w.wall), r.Set(key, rev, w.wall), first, second)
    ensures s.Set(key, rev, w.wall).local == r.Set(key, rev, w.wall).local
  {
    TickMeets(s, r, first, second, w);
  }

  lemma AfterAlike(s: State, r: State, first: i64, second: i64, e: Event, w: World)
    requires e.WellFormed() && Alike(s, r, first, second) && first < second < w.wall(0)
    ensures Alike(After(s, e, w), After(r, e, w), first, second)
    ensures After(s, e, w).local == After(r, e, w).local
    ensures forall key :: Invalidates(s, e, key) == Invalidates(r, e, key)
  {
    TickMeets(s, r, first, second, w);
    match e
    case Read(k) => SetAlike(s, r, first, second, k, s.Peek(k), w);
    case Committed(c) =>
      if !Known(s, c) && !ForeignEpoch(s, c) {
        TickMeets(s.(position := Some(c.cursor)), r.(position := Some(c.cursor)), first, second, w);
      }
    case _ =>
  }

  lemma {:induction false} RunAlike(l: Ledger, m: Ledger, first: i64, second: i64, events: seq<Event>, w: World)
    requires AllWellFormed(events) && AlikeLedgers(l, m, first, second) && first < second < w.wall(0)
    ensures AlikeLedgers(Run(l, events, w), Run(m, events, w), first, second)
  {
    if events != [] {
      var init, e := events[..|events| - 1], events[|events| - 1];
      RunAlike(l, m, first, second, init, w);
      AfterAlike(Run(l, init, w).clock, Run(m, init, w).clock, first, second, e, w);
    }
  }

  lemma TokenAlike(l: Ledger, m: Ledger, first: i64, second: i64, key: string, w: World)
    requires AlikeLedgers(l, m, first, second) && first < second < w.wall(0)
    ensures Token(l, key, w) == Token(m, key, w)
    ensures AlikeLedgers(Step(l, Read(key), w), Step(m, Read(key), w), first, second)
  {
    AfterAlike(l.clock, m.clock, first, second, Read(key), w);
  }

  lemma RepeatsAlike(l: Ledger, m: Ledger, first: i64, second: i64, key: string, between: seq<Event>, i: nat, w: World)
    requires AlikeLedgers(l, m, first, second) && first < second < w.wall(0) && Repeats(l, key, between, i, w)
    ensures Repeats(m, key, between, i, w)
  {
    var read, read' := Step(l, Read(key), w), Step(m, Read(key), w);
    TokenAlike(l, m, first, second, key, w);
    RunAlike(read, read', first, second, between, w);
    TokenAlike(Run(read, between, w), Run(read', between, w), first, second, key, w);
    RunAlike(read, read', first, second, between[..i], w);
    AfterAlike(Run(read, between[..i], w).clock, Run(read', between[..i], w).clock, first, second, between[i], w);
  }

  lemma LateIsCoherent(capacity: nat, first: i64, second: i64, w: World)
    requires 1 <= capacity && first < second < w.wall(0) && Enumerates(w)
    ensures Coherent(Ledger(Init(capacity, first, second), {}), w)
  {
    var l, m := Ledger(Init(capacity, first, second), {}), Ledger(Init(capacity, second, second), {});
    InvIsCoherent(m, w);
    forall before: seq<Event>, key, between: seq<Event>, i: nat | AllWellFormed(before)
      ensures !Repeats(Run(l, before, w), key, between, i, w)
    {
      RunAlike(l, m, first, second, before, w);
      if Repeats(Run(l, before, w), key, between, i, w) {
        RepeatsAlike(Run(l, before, w), Run(m, before, w), first, second, key, between, i, w);
      }
    }
  }

  /** A plan change that meets a first tick not past the floor is not seen. */
  lemma LateRepeats(capacity: nat, first: i64, second: i64, w: World)
    requires 1 <= capacity && first < second < I64_MAX && w.wall(0) <= second
    ensures Repeats(Ledger(Init(capacity, first, second), {}), PlanKey(1), [Signalled(Plugin(Some(1), "plan.changed"))],
      0, w)
  {
    var l, e := Ledger(Init(capacity, first, second), {}), Signalled(Plugin(Some(1), "plan.changed"));
    var read := Step(l, Read(PlanKey(1)), w);
    assert read.clock.local == map[PlanKey(1) := second];
    var m := read.clock.Tick(w.wall);
    assert m.SetAll([PlanKey(1)], m.revision, w.wall)
      == m.Set(PlanKey(1), m.revision, w.wall).SetAll([], m.revision, w.wall);
    assert Run(read, [], w) == read && [e][..0] == [];
    assert Run(read, [e], w) == Step(read, e, w);
  }

  /**
   Coherence from any start: the two readings of `Clock::new` keep every run
   coherent if and only if the second was not later than the first, or the first
   tick reads past the second.
   */
  lemma CoherentStart(capacity: nat, first: i64, second: i64, w: World)
    requires 1 <= capacity && second < I64_MAX && Enumerates(w)
    ensures Coherent(Ledger(Init(capacity, first, second), {}), w) <==> second <= first || second < w.wall(0)
  {
    var l := Ledger(Init(capacity, first, second), {});
    if second <= first {
      InvIsCoherent(l, w);
    } else if second < w.wall(0) {
      LateIsCoherent(capacity, first, second, w);
    } else {
      LateRepeats(capacity, first, second, w);
      assert Run(l, [], w) == l;
    }
  }
}
