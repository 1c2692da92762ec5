/**
 Durable refresh: draining the committed change feed into the revision clock.

 `ResourceRevisions` is the object with its stored watch. `System` is the same
 protocol cut into its atomic steps, so that commits, resets, overflows and other
 readers may interleave with a refresh that is under way.
 */
module DurableRefresh {
  import opened Wrappers
  import opened RevisionClock
  import opened Revisions

  datatype Notice = Change(change: KernelChange) | MustReset

  /** A subscription: the feed's head when it was opened, and what it has queued since. */
  datatype Watch = Watch(head: Option<Cursor>, pending: seq<Notice>, closed: bool)

  datatype Answer = Received(change: KernelChange) | Empty | NeedsReset | Closed

  /** A watch that has met a reset answers reset from then on. */
  function TryRecv(w: Watch): Answer {
    if w.pending == [] then (if w.closed then Closed else Empty)
    else if w.pending[0].MustReset? then NeedsReset
    else Received(w.pending[0].change)
  }

  function Rest(w: Watch): Watch
    requires TryRecv(w).Received?
  {
    w.(pending := w.pending[1..])
  }

  /** What a refresh leaves: the clock, the stored watch, and whether it returned Ok. */
  datatype Refreshed = Refreshed(clock: State, watch: Option<Watch>, ok: bool)

  /** An empty owner has nothing to invalidate, so its first watch leaves the clock alone. */
  function Opened(s: State, w: Watch, world: World): State {
    if w.head.Some? || s.position.Some? then s.Reset(w.head, world.wall) else s
  }

  /** `again` is what reopening the feed answers, should a reset be met. */
  function Drain(s: State, w: Watch, again: Option<Watch>, world: World): Refreshed
    decreases |w.pending|
  {
    match TryRecv(w)
    case Received(c) => Drain(Commit(s, c, world), Rest(w), again, world)
    case Empty => Refreshed(s, Some(w), true)
    case NeedsReset =>
      if again.Some? then Refreshed(s.Reset(again.value.head, world.wall), again, true)
      else Refreshed(s, Some(w), false)
    case Closed => Refreshed(s, None, false)
  }

  function Refresh(s: State, watch: Option<Watch>, first: Option<Watch>, again: Option<Watch>,
      world: World): Refreshed {
    if watch.Some? then Drain(s, watch.value, again, world)
    else if first.None? then Refreshed(s, None, false)
    else Drain(Opened(s, first.value, world), first.value, again, world)
  }

  class ResourceRevisions {
    const clock: Clock
    const world: World
    var watch: Option<Watch>

    ghost predicate Valid()
      reads this, clock, clock.cache
    {
      clock.Valid() && clock.wall == world.wall
    }

    constructor (capacity: nat, world: World, first: i64, second: i64)
      requires 1 <= capacity
      ensures Valid() && fresh(clock) && fresh(clock.cache) && this.world == world
      ensures watch == None && clock.Value() == Init(capacity, first, second)
    {
      clock := new Clock(capacity, world.wall, first, second);
      this.world := world;
      watch := None;
    }

    method Token(key: string) returns (token: i64)
      requires Valid()
      modifies clock, clock.cache
      ensures Valid() && clock.Value() == After(old(clock.Value()), Read(key), world)
      ensures key in clock.Value().local && token == clock.Value().local[key]
    {
      token := clock.Issue(key);
    }

    method ObserveSignal(signal: Signal)
      requires Valid() && signal.WellFormed()
      modifies clock, clock.cache
      ensures Valid() && clock.Value() == After(old(clock.Value()), Signalled(signal), world)
    {
      var keys := SignalKeys(signal);
      if keys != [] {
        var revision := clock.Tick();
        clock.SetAll(keys, revision);
      }
    }

    method ObserveWorkspaceChange()
      requires Valid()
      modifies clock, clock.cache
      ensures Valid() && clock.Value() == After(old(clock.Value()), WorkspaceChanged, world)
    {
      var revision := clock.Tick();
      clock.SetAll(WorkspaceKeys(), revision);
    }

    method ObserveKernelChange(c: KernelChange)
      requires Valid()
      modifies clock, clock.cache
      ensures Valid() && clock.Value() == After(old(clock.Value()), Committed(c), world)
    {
      var at := clock.position;
      if at.Some? && at.value.epoch == c.cursor.epoch && at.value.position >= c.cursor.position { return; }
      if at.Some? && at.value.epoch != c.cursor.epoch {
        clock.Reset(Some(c.cursor));
        return;
      }
      clock.Observe(c.cursor);
      if c.listChange.None? {
        clock.Reset(Some(c.cursor));
        return;
      }
      clock.SetAll(KeyOrder(clock.cache.entries.Keys, c, world), clock.revision);
    }

    method RefreshDurable(first: Option<Watch>, again: Option<Watch>) returns (ok: bool)
      requires Valid()
      modifies this, clock, clock.cache
      ensures Valid()
      ensures Refreshed(clock.Value(), watch, ok)
              == Refresh(old(clock.Value()), old(watch), first, again, world)
    {
      if watch.None? {
        if first.None? { return false; }
        watch := first;
        if first.value.head.Some? || clock.position.Some? { clock.Reset(first.value.head); }
      }
      while true
        invariant Valid() && watch.Some?
        invariant Refresh(old(clock.Value()), old(watch), first, again, world)
                  == Drain(clock.Value(), watch.value, again, world)
        decreases |watch.value.pending|
      {
        match TryRecv(watch.value)
        case Received(c) =>
          watch := Some(Rest(watch.value));
          ObserveKernelChange(c);
        case Empty => return true;
        case NeedsReset =>
          if again.None? { return false; }
          watch := again;
          clock.Reset(again.value.head);
          return true;
        case Closed =>
          watch := None;
          return false;
      }
    }
  }

  /** With an idle feed, refreshing again and again leaves every token where it is. */
  lemma {:induction false} RefreshIdle(s: State, watch: Option<Watch>, first: Option<Watch>, again: Option<Watch>,
      world: World, first': Option<Watch>, again': Option<Watch>)
    requires var r := Refresh(s, watch, first, again, world);
      r.ok && r.watch.Some? && r.watch.value.pending == [] && !r.watch.value.closed
    ensures var r := Refresh(s, watch, first, again, world);
      Refresh(r.clock, r.watch, first', again', world) == r
  {
    if watch.Some? {
      DrainKeepsWatch(s, watch.value, again, world);
    } else {
      DrainKeepsWatch(Opened(s, first.value, world), first.value, again, world);
    }
  }

  lemma {:induction false} DrainKeepsWatch(s: State, w: Watch, again: Option<Watch>, world: World)
    ensures Drain(s, w, again, world).ok ==> Drain(s, w, again, world).watch.Some?
    decreases |w.pending|
  {
    match TryRecv(w)
    case Received(c) => DrainKeepsWatch(Commit(s, c, world), Rest(w), again, world);
    case _ =>
  }

  // ---------------------------------------------------------------- interleaved steps

  /** Where the refresh that holds the watch's lock stands. */
  datatype Phase =
    | Idle
    | Opening                               // no watch is stored yet
    | FirstOpened(head: Option<Cursor>)     // installed; the clock is not reset yet
    | Draining
    | Reopened(head: Option<Cursor>)        // replacement installed; a reset is owed

  datatype System = System(
    ledger: Ledger,
    epoch: int,
    feedHead: Option<int>,
    feedClosed: bool,
    watch: Option<Watch>,
    phase: Phase,
    dirty: set<(string, i64)>   // tokens given out whose resource a later publication changed
  )

  /** How a publication reaches the one stored watch. */
  datatype Fate = Delivered | OverBudget | Lagged(lost: nat)

  datatype Action =
    | Other(event: Event)                   // another reader or a signal
    | Publish(change: KernelChange, fate: Fate)
    | InvalidateFeed
    | CloseFeed
    | Begin
    | OpenOk | OpenFails | SettleFirst
    | Receive                               // one `try_recv`, when it is not a reset
    | ReopenOk | ReopenFails | SettleReset

  function FeedCursor(y: System): Option<Cursor> {
    if y.feedHead.Some? then Some(Cursor(y.epoch, y.feedHead.value)) else None
  }

  function NewWatch(y: System): Watch { Watch(FeedCursor(y), [], y.feedClosed) }

  predicate Enabled(y: System, a: Action) {
    match a
    case Other(e) => e.WellFormed() && (e.Read? || e.Signalled? || e.WorkspaceChanged?)
    case Publish(c, fate) =>
      && !y.feedClosed && c.cursor.epoch == y.epoch
      && (y.feedHead.Some? ==> y.feedHead.value < c.cursor.position)
      && (fate.Lagged? && y.watch.Some? ==> fate.lost <= |y.watch.value.pending| + 1)
    case InvalidateFeed => !y.feedClosed
    case CloseFeed => true
    case Begin => y.phase.Idle?
    case OpenOk => y.phase.Opening?
    case OpenFails => y.phase.Opening?
    case SettleFirst => y.phase.FirstOpened?
    case Receive => y.phase.Draining? && y.watch.Some? && !TryRecv(y.watch.value).NeedsReset?
    case ReopenOk => y.phase.Draining? && y.watch.Some? && TryRecv(y.watch.value).NeedsReset?
    case ReopenFails => y.phase.Draining? && y.watch.Some? && TryRecv(y.watch.value).NeedsReset?
    case SettleReset => y.phase.Reopened?
  }

  function Reminded(w: Watch): Watch { w.(pending := w.pending + [MustReset]) }

  function Deliver(w: Watch, c: KernelChange, fate: Fate): Watch
    requires fate.Lagged? ==> fate.lost <= |w.pending| + 1
  {
    match fate
    case Delivered => w.(pending := w.pending + [Change(c)])
    case OverBudget => w.(pending := w.pending + [MustReset])
    case Lagged(n) => w.(pending := [MustReset] + (w.pending + [Change(c)])[n..])
  }

  predicate Touches(c: KernelChange, key: string) { c.listChange.None? || Affects(c, key) }

  function Clocked(y: System, s: State): System { y.(ledger := y.ledger.(clock := s)) }

  function Do(y: System, a: Action, world: World): System
    requires Enabled(y, a)
  {
    match a
    case Other(e) => y.(ledger := Step(y.ledger, e, world))
    case Publish(c, fate) =>
      y.(feedHead := Some(c.cursor.position),
         watch := if y.watch.Some? then Some(Deliver(y.watch.value, c, fate)) else None,
         dirty := y.dirty + set p | p in y.ledger.issued && Touches(c, p.0))
    case InvalidateFeed =>
      // Before the first commit and without a subscriber there is nothing to invalidate.
      if y.watch.None? && y.feedHead.None? then y else
        y.(watch := if y.watch.None? then None else Some(Reminded(y.watch.value)),
           dirty := y.ledger.issued)
    case CloseFeed =>
      y.(feedClosed := true,
         watch := if y.watch.Some? then Some(y.watch.value.(closed := true)) else None)
    case Begin => y.(phase := if y.watch.Some? then Draining else Opening)
    case OpenOk => y.(watch := Some(NewWatch(y)), phase := FirstOpened(FeedCursor(y)))
    case OpenFails => y.(phase := Idle)
    case SettleFirst =>
      var s := y.ledger.clock;
      var head := y.phase.head;
      Clocked(y, if head.Some? || s.position.Some? then s.Reset(head, world.wall) else s).(phase := Draining)
    case Receive =>
      (match TryRecv(y.watch.value)
       case Received(c) =>
         Clocked(y, Commit(y.ledger.clock, c, world)).(watch := Some(Rest(y.watch.value)))
       case Empty => y.(phase := Idle)
       case _ => y.(watch := None, phase := Idle))
    case ReopenOk => y.(watch := Some(NewWatch(y)), phase := Reopened(FeedCursor(y)))
    case ReopenFails => y.(phase := Idle)
    case SettleReset => Clocked(y, y.ledger.clock.Reset(y.phase.head, world.wall)).(phase := Idle)
  }

  /** The two ways a refresh returns Ok. */
  predicate ReturnsOk(y: System, a: Action)
    requires Enabled(y, a)
  {
    a.SettleReset? || (a.Receive? && TryRecv(y.watch.value).Empty?)
  }

  /** Why a changed resource's old token cannot be mistaken for current after the next refresh. */
  predicate Accounted(y: System, key: string, t: i64) {
    || y.ledger.clock.Outdates(key, t)
    || y.phase.Reopened?
    || (y.phase.FirstOpened? && (y.phase.head.Some? || y.ledger.clock.position.Some?))
    || (y.watch.None? && y.feedHead.Some?)
    || (y.watch.Some? && Queued(y.watch.value.pending, key))
  }

  predicate Queued(pending: seq<Notice>, key: string) {
    exists i :: 0 <= i < |pending| && (pending[i].MustReset? || Touches(pending[i].change, key))
  }

  /** Queued commits are new to the clock: in order, and past the position `above`. */
  predicate Ascending(pending: seq<Notice>, epoch: int, above: Option<int>) {
    && (forall i :: 0 <= i < |pending| && pending[i].Change? ==>
          pending[i].change.cursor.epoch == epoch
          && (above.Some? ==> above.value < pending[i].change.cursor.position))
    && (forall i, j :: 0 <= i < j < |pending| && pending[i].Change? && pending[j].Change? ==>
          pending[i].change.cursor.position < pending[j].change.cursor.position)
  }

  predicate UpTo(pending: seq<Notice>, head: Option<int>) {
    forall i :: 0 <= i < |pending| && pending[i].Change? ==>
      head.Some? && pending[i].change.cursor.position <= head.value
  }

  function Position(c: Option<Cursor>): Option<int> { if c.Some? then Some(c.value.position) else None }

  /** The position the clock holds, or will hold once the owed reset is done. */
  function Settled(y: System): Option<Cursor> {
    if y.phase.Reopened? || (y.phase.FirstOpened? && (y.phase.head.Some? || y.ledger.clock.position.Some?))
    then y.phase.head else y.ledger.clock.position
  }

  predicate Published(y: System, at: Option<Cursor>) {
    at.Some? ==> at.value.epoch == y.epoch && y.feedHead.Some? && at.value.position <= y.feedHead.value
  }

  predicate Positioned(y: System) {
    && Published(y, Settled(y))
    && Published(y, y.ledger.clock.position)
    && (y.watch.Some? ==>
          Ascending(y.watch.value.pending, y.epoch, Position(Settled(y))) && UpTo(y.watch.value.pending, y.feedHead))
  }

  predicate Inv(y: System) {
    && y.ledger.Inv()
    && y.dirty <= y.ledger.issued
    && Positioned(y)
    && (y.phase.Opening? ==> y.watch.None?)
    && (y.phase.FirstOpened? || y.phase.Draining? || y.phase.Reopened? ==> y.watch.Some?)
    && (forall p :: p in y.dirty ==> Accounted(y, p.0, p.1))
  }

  function Start(capacity: nat, first: i64, second: i64, epoch: int): System {
    System(Ledger(Init(capacity, first, second), {}), epoch, None, false, None, Idle, {})
  }

  lemma StartInv(capacity: nat, first: i64, second: i64, epoch: int)
    requires 1 <= capacity && second <= first
    ensures Inv(Start(capacity, first, second, epoch))
  {}

  lemma StepInv(y: System, a: Action, world: World)
    requires Inv(y) && Enabled(y, a) && Enumerates(world)
    ensures Inv(Do(y, a, world))
  {
    match a
    case Other(e) => OtherInv(y, e, world);
    case Publish(c, fate) => PublishInv(y, c, fate, world);
    case InvalidateFeed => InvalidateInv(y, world);
    case Receive => ReceiveInv(y, world);
    case SettleFirst => SettleFirstInv(y, world);
    case SettleReset => SettleResetInv(y, world);
    case OpenOk => OpenInv(y, world);
    case ReopenOk => ReopenInv(y, world);
    case CloseFeed => CloseInv(y, world);
    case _ => PhaseInv(y, a, world);
  }

  lemma SettleFirstInv(y: System, world: World)
    requires Inv(y) && Enabled(y, SettleFirst)
    ensures Inv(Do(y, SettleFirst, world))
  {
    ResetKeeps(y.ledger.clock, y.phase.head, world.wall);
  }

  lemma SettleResetInv(y: System, world: World)
    requires Inv(y) && Enabled(y, SettleReset)
    ensures Inv(Do(y, SettleReset, world))
  {
    ResetKeeps(y.ledger.clock, y.phase.head, world.wall);
  }

  lemma OpenInv(y: System, world: World)
    requires Inv(y) && Enabled(y, OpenOk)
    ensures Inv(Do(y, OpenOk, world))
  {}

  lemma ReopenInv(y: System, world: World)
    requires Inv(y) && Enabled(y, ReopenOk)
    ensures Inv(Do(y, ReopenOk, world))
  {}

  lemma CloseInv(y: System, world: World)
    requires Inv(y)
    ensures Inv(Do(y, CloseFeed, world))
  {}

  /** Steps that only move the refresh along. */
  lemma PhaseInv(y: System, a: Action, world: World)
    requires Inv(y) && Enabled(y, a) && (a.Begin? || a.OpenFails? || a.ReopenFails?)
    ensures Inv(Do(y, a, world))
  {}

  lemma OtherInv(y: System, e: Event, world: World)
    requires Inv(y) && Enabled(y, Other(e)) && Enumerates(world)
    ensures Inv(Do(y, Other(e), world))
  {
    StepKeeps(y.ledger, e, world);
    PositionKept(y.ledger.clock, e, world);
  }

  lemma PositionKept(s: State, e: Event, world: World)
    requires e.WellFormed() && (e.Read? || e.Signalled? || e.WorkspaceChanged?)
    ensures After(s, e, world).position == s.position
  {
    var m := s.Tick(world.wall);
    match e
    case Read(k) =>
    case Signalled(sig) => SetAllPosition(m, SignalKeys(sig), m.revision, world);
    case WorkspaceChanged => SetAllPosition(m, WorkspaceKeys(), m.revision, world);
  }

  lemma {:induction false} SetAllPosition(s: State, keys: seq<string>, rev: i64, world: World)
    ensures s.SetAll(keys, rev, world.wall).position == s.position
    decreases |keys|
  {
    if keys != [] { SetAllPosition(s.Set(keys[0], rev, world.wall), keys[1..], rev, world); }
  }

  lemma QueuedGrows(pending: seq<Notice>, more: seq<Notice>, key: string)
    ensures Queued(pending, key) ==> Queued(pending + more, key)
    ensures Queued(more, key) ==> Queued(pending + more, key)
  {
    if Queued(pending, key) {
      var i :| 0 <= i < |pending| && (pending[i].MustReset? || Touches(pending[i].change, key));
      assert (pending + more)[i] == pending[i];
    }
    if Queued(more, key) {
      var i :| 0 <= i < |more| && (more[i].MustReset? || Touches(more[i].change, key));
      assert (pending + more)[|pending| + i] == more[i];
    }
  }

  lemma DeliverQueues(w: Watch, c: KernelChange, fate: Fate, key: string)
    requires fate.Lagged? ==> fate.lost <= |w.pending| + 1
    requires Touches(c, key) || Queued(w.pending, key)
    ensures Queued(Deliver(w, c, fate).pending, key)
  {
    match fate
    case Lagged(n) => assert Deliver(w, c, fate).pending[0].MustReset?;
    case OverBudget =>
      assert [MustReset][0].MustReset?;
      QueuedGrows(w.pending, [MustReset], key);
    case Delivered =>
      assert [Change(c)][0] == Change(c);
      QueuedGrows(w.pending, [Change(c)], key);
  }

  lemma DeliverOrder(w: Watch, c: KernelChange, fate: Fate, epoch: int, above: Option<int>, head: Option<int>)
    requires fate.Lagged? ==> fate.lost <= |w.pending| + 1
    requires Ascending(w.pending, epoch, above) && UpTo(w.pending, head)
    requires c.cursor.epoch == epoch && (head.Some? ==> head.value < c.cursor.position)
    requires above.Some? ==> head.Some? && above.value <= head.value
    ensures Ascending(Deliver(w, c, fate).pending, epoch, above)
    ensures UpTo(Deliver(w, c, fate).pending, Some(c.cursor.position))
  {
    match fate
    case OverBudget =>
    case Delivered => AppendOrder(w.pending, c, epoch, above, head);
    case Lagged(n) =>
      AppendOrder(w.pending, c, epoch, above, head);
      var q := w.pending + [Change(c)];
      assert forall i :: 0 < i < |[MustReset] + q[n..]| ==> ([MustReset] + q[n..])[i] == q[n + i - 1];
  }

  lemma AppendOrder(q: seq<Notice>, c: KernelChange, epoch: int, above: Option<int>, head: Option<int>)
    requires Ascending(q, epoch, above) && UpTo(q, head)
    requires c.cursor.epoch == epoch && (head.Some? ==> head.value < c.cursor.position)
    requires above.Some? ==> head.Some? && above.value <= head.value
    ensures Ascending(q + [Change(c)], epoch, above) && UpTo(q + [Change(c)], Some(c.cursor.position))
  {}

  lemma PublishInv(y: System, c: KernelChange, fate: Fate, world: World)
    requires Inv(y) && Enabled(y, Publish(c, fate))
    ensures Inv(Do(y, Publish(c, fate), world))
  {
    var z := Do(y, Publish(c, fate), world);
    assert Positioned(z) by {
      if y.watch.Some? { DeliverOrder(y.watch.value, c, fate, y.epoch, Position(Settled(y)), y.feedHead); }
    }
    forall p | p in z.dirty ensures Accounted(z, p.0, p.1) {
      if y.watch.Some? && (Touches(c, p.0) || Queued(y.watch.value.pending, p.0)) {
        DeliverQueues(y.watch.value, c, fate, p.0);
      }
    }
  }

  lemma InvalidateInv(y: System, world: World)
    requires Inv(y) && Enabled(y, InvalidateFeed)
    ensures Inv(Do(y, InvalidateFeed, world))
  {
    if y.watch.Some? {
      forall p | p in y.ledger.issued ensures Queued(y.watch.value.pending + [MustReset], p.0) {
        assert [MustReset][0].MustReset?;
        QueuedGrows(y.watch.value.pending, [MustReset], p.0);
      }
    }
  }

  lemma ReceiveInv(y: System, world: World)
    requires Inv(y) && Enabled(y, Receive) && Enumerates(world)
    ensures Inv(Do(y, Receive, world))
  {
    if TryRecv(y.watch.value).Received? {
      ReceivedPositioned(y, world);
      CommitKeeps(y.ledger, y.watch.value.pending[0].change, world);
      forall p | p in y.dirty ensures Accounted(Do(y, Receive, world), p.0, p.1) {
        ReceivedAccounted(y, world, p.0, p.1);
      }
    }
  }

  lemma ReceivedPositioned(y: System, world: World)
    requires Inv(y) && Enabled(y, Receive) && TryRecv(y.watch.value).Received?
    ensures Positioned(Do(y, Receive, world))
  {
    var c := y.watch.value.pending[0].change;
    assert !Known(y.ledger.clock, c);
    CommitPosition(y.ledger.clock, c, world);
  }

  lemma ReceivedAccounted(y: System, world: World, key: string, t: i64)
    requires Inv(y) && Enabled(y, Receive) && Enumerates(world)
    requires TryRecv(y.watch.value).Received? && (key, t) in y.dirty
    ensures Accounted(Do(y, Receive, world), key, t)
  {
    var c := y.watch.value.pending[0].change;
    assert !Known(y.ledger.clock, c) && Accounted(y, key, t);
    CommitKeeps(y.ledger, c, world);
    if !y.ledger.clock.Outdates(key, t) {
      QueuedRest(y.watch.value.pending, key);
      assert (key, t) in y.ledger.issued;
    }
  }

  lemma QueuedRest(pending: seq<Notice>, key: string)
    requires pending != [] && pending[0].Change? && Queued(pending, key)
    ensures Touches(pending[0].change, key) || Queued(pending[1..], key)
  {
    var i :| 0 <= i < |pending| && (pending[i].MustReset? || Touches(pending[i].change, key));
    if i > 0 { assert pending[1..][i - 1] == pending[i]; }
  }

  lemma CommitPosition(s: State, c: KernelChange, world: World)
    ensures !Known(s, c) ==> Commit(s, c, world).position == Some(c.cursor)
  {
    if !Known(s, c) && !ForeignEpoch(s, c) && c.listChange.Some? {
      var o := s.Observe(c.cursor, world.wall);
      SetAllPosition(o, KeyOrder(o.local.Keys, c, world), o.revision, world);
    }
  }

  // ---------------------------------------------------------------- every run

  ghost predicate ValidRun(y: System, actions: seq<Action>, world: World)
    decreases |actions|
  {
    actions == [] || (Enabled(y, actions[0]) && ValidRun(Do(y, actions[0], world), actions[1..], world))
  }

  ghost function RunAll(y: System, actions: seq<Action>, world: World): System
    requires ValidRun(y, actions, world)
    decreases |actions|
  {
    if actions == [] then y else RunAll(Do(y, actions[0], world), actions[1..], world)
  }

  lemma {:induction false} RunInv(y: System, actions: seq<Action>, world: World)
    requires Inv(y) && Enumerates(world) && ValidRun(y, actions, world)
    ensures Inv(RunAll(y, actions, world))
    decreases |actions|
  {
    if actions != [] {
      StepInv(y, actions[0], world);
      RunInv(Do(y, actions[0], world), actions[1..], world);
    }
  }

  /**
   A refresh that returns Ok has lost nothing: every token given out for a
   resource that any publication has changed since is now outdated, so the next
   token for that resource is strictly larger. Publications that arrived after
   a replacement watch was opened are still queued in it.
   */
  lemma RefreshLosesNothing(capacity: nat, first: i64, second: i64, epoch: int, actions: seq<Action>, last: Action,
      world: World)
    requires 1 <= capacity && second <= first && Enumerates(world)
    requires ValidRun(Start(capacity, first, second, epoch), actions, world)
    requires var y := RunAll(Start(capacity, first, second, epoch), actions, world);
      Enabled(y, last) && ReturnsOk(y, last)
    ensures var y := RunAll(Start(capacity, first, second, epoch), actions, world);
      var z := Do(y, last, world);
      && z.watch == y.watch
      && (forall key, t: i64 | (key, t) in z.dirty && t < I64_MAX ::
            z.ledger.clock.Outdates(key, t) && t < Token(z.ledger, key, world))
  {
    var y := RunAll(Start(capacity, first, second, epoch), actions, world);
    var z := Do(y, last, world);
    StartInv(capacity, first, second, epoch);
    RunInv(Start(capacity, first, second, epoch), actions, world);
    StepInv(y, last, world);
    forall key, t: i64 | (key, t) in z.dirty && t < I64_MAX
      ensures z.ledger.clock.Outdates(key, t) && t < Token(z.ledger, key, world)
    {
      OkOutdates(y, last, world, key, t);
      OutdatedNotIssued(z.ledger.clock, key, t, world.wall);
    }
  }

  /** The step that returns Ok leaves the old tokens of every changed resource outdated. */
  lemma OkOutdates(y: System, last: Action, world: World, key: string, t: i64)
    requires Inv(y) && Enabled(y, last) && ReturnsOk(y, last) && (key, t) in Do(y, last, world).dirty
    ensures Do(y, last, world).ledger.clock.Outdates(key, t)
  {
    if last.SettleReset? { ResetKeeps(y.ledger.clock, y.phase.head, world.wall); }
    assert Accounted(y, key, t);
  }

  /** What a refresh does that finds no watch and nothing published, after the feed was invalidated. */
  function EarlyInvalidation(): seq<Action> { [InvalidateFeed, Begin, OpenOk, SettleFirst] }

  /**
   The invalidation of a feed that nobody watches and that has published
   nothing leaves no trace: the next refresh returns Ok, and every token is
   still the one given out before.
   */
  lemma EarlyInvalidationIsMissed(y: System, world: World)
    requires Inv(y) && y.phase.Idle? && y.watch.None? && y.feedHead.None? && !y.feedClosed
    ensures ValidRun(y, EarlyInvalidation(), world)
    ensures var z := RunAll(y, EarlyInvalidation(), world);
      Enabled(z, Receive) && ReturnsOk(z, Receive) && Do(z, Receive, world).ledger == y.ledger
  {
    var begun := y.(phase := Opening);
    var watched := begun.(watch := Some(Watch(None, [], false)), phase := FirstOpened(None));
    var settled := watched.(phase := Draining);
    assert Do(y, InvalidateFeed, world) == y && Do(y, Begin, world) == begun;
    assert Do(begun, OpenOk, world) == watched && Do(watched, SettleFirst, world) == settled;
    RunStep(settled, [], world);
    RunStep(watched, [SettleFirst], world);
    RunStep(begun, [OpenOk, SettleFirst], world);
    RunStep(y, [Begin, OpenOk, SettleFirst], world);
    RunStep(y, EarlyInvalidation(), world);
    assert [OpenOk, SettleFirst][1..] == [SettleFirst] && [Begin, OpenOk, SettleFirst][1..] == [OpenOk, SettleFirst];
    assert EarlyInvalidation()[1..] == [Begin, OpenOk, SettleFirst];
  }

  lemma RunStep(y: System, actions: seq<Action>, world: World)
    ensures actions == [] ==> ValidRun(y, actions, world) && RunAll(y, actions, world) == y
    ensures actions != [] && Enabled(y, actions[0]) && ValidRun(Do(y, actions[0], world), actions[1..], world) ==>
      ValidRun(y, actions, world) && RunAll(y, actions, world) == RunAll(Do(y, actions[0], world), actions[1..], world)
  {}

  // ---------------------------------------------------------------- the whole call, told by the steps

  /** One more step in front of a run. */
  lemma RunFirst(y: System, a: Action, rest: seq<Action>, world: World)
    requires Enabled(y, a) && ValidRun(Do(y, a, world), rest, world)
    ensures ValidRun(y, [a] + rest, world) && RunAll(y, [a] + rest, world) == RunAll(Do(y, a, world), rest, world)
  {
    assert ([a] + rest)[1..] == rest;
  }

  /** What reopening the feed answers now: a fresh watch, or nothing. */
  predicate Answers(y: System, answer: Option<Watch>) { answer.None? || answer == Some(NewWatch(y)) }

  /** The system as the call leaves it. */
  function Settles(y: System, r: Refreshed): System { Clocked(y, r.clock).(watch := r.watch, phase := Idle) }

  /** The last of the steps makes the refresh return Ok. */
  ghost predicate EndsOk(y: System, actions: seq<Action>, world: World) {
    && actions != [] && ValidRun(y, actions[..|actions| - 1], world)
    && var x, last := RunAll(y, actions[..|actions| - 1], world), actions[|actions| - 1];
       Enabled(x, last) && ReturnsOk(x, last)
  }

  /** These steps end as the call does. */
  ghost predicate Performs(y: System, actions: seq<Action>, world: World, r: Refreshed) {
    && ValidRun(y, actions, world)
    && RunAll(y, actions, world) == Settles(y, r)
    && (r.ok <==> EndsOk(y, actions, world))
  }

  lemma EndsOkFirst(y: System, a: Action, rest: seq<Action>, world: World)
    requires Enabled(y, a) && rest != []
    ensures EndsOk(y, [a] + rest, world) <==> EndsOk(Do(y, a, world), rest, world)
  {
    var all := [a] + rest;
    assert all[..|all| - 1] == [a] + rest[..|rest| - 1];
    assert ([a] + rest[..|rest| - 1])[1..] == rest[..|rest| - 1];
  }

  lemma PerformsFirst(y: System, a: Action, rest: seq<Action>, world: World, r: Refreshed)
    requires Enabled(y, a) && rest != [] && Performs(Do(y, a, world), rest, world, r)
    requires Settles(Do(y, a, world), r) == Settles(y, r)
    ensures Performs(y, [a] + rest, world, r)
  {
    RunFirst(y, a, rest, world);
    EndsOkFirst(y, a, rest, world);
  }

  /** A last step, whose own state says how the call ends. */
  lemma PerformsLast(y: System, a: Action, world: World, r: Refreshed)
    requires Enabled(y, a) && Do(y, a, world) == Settles(y, r)
    requires r.ok <==> ReturnsOk(y, a)
    ensures Performs(y, [a], world, r)
  {
    RunFirst(y, a, [], world);
    assert [a] + [] == [a] && [a][..0] == [];
  }

  /** The loop, from a draining phase on. */
  lemma {:induction false} DrainIsRun(y: System, again: Option<Watch>, world: World) returns (actions: seq<Action>)
    requires y.phase.Draining? && y.watch.Some? && Answers(y, again)
    ensures actions != [] && Performs(y, actions, world, Drain(y.ledger.clock, y.watch.value, again, world))
    decreases |y.watch.value.pending|
  {
    var r := Drain(y.ledger.clock, y.watch.value, again, world);
    match TryRecv(y.watch.value)
    case Received(c) =>
      var rest := DrainIsRun(Do(y, Receive, world), again, world);
      PerformsFirst(y, Receive, rest, world, r);
      actions := [Receive] + rest;
    case NeedsReset =>
      if again.None? {
        PerformsLast(y, ReopenFails, world, r);
        actions := [ReopenFails];
      } else {
        var z := Do(y, ReopenOk, world);
        PerformsLast(z, SettleReset, world, r);
        PerformsFirst(y, ReopenOk, [SettleReset], world, r);
        actions := [ReopenOk] + [SettleReset];
      }
    case _ =>
      PerformsLast(y, Receive, world, r);
      actions := [Receive];
  }

  /**
   A whole refresh is a run of the steps: it leaves the clock and the watch that
   the steps leave, changes nothing else, and returns Ok exactly if the last step does.
   */
  lemma RefreshIsRun(y: System, first: Option<Watch>, again: Option<Watch>, world: World)
    returns (actions: seq<Action>)
    requires y.phase.Idle? && Answers(y, first) && Answers(y, again)
    ensures actions != [] && Performs(y, actions, world, Refresh(y.ledger.clock, y.watch, first, again, world))
  {
    var r := Refresh(y.ledger.clock, y.watch, first, again, world);
    var begun := Do(y, Begin, world);
    if y.watch.Some? {
      var rest := DrainIsRun(begun, again, world);
      PerformsFirst(y, Begin, rest, world, r);
      actions := [Begin] + rest;
    } else if first.None? {
      PerformsLast(begun, OpenFails, world, r);
      PerformsFirst(y, Begin, [OpenFails], world, r);
      actions := [Begin] + [OpenFails];
    } else {
      var installed := Do(begun, OpenOk, world);
      var settled := Do(installed, SettleFirst, world);
      var rest := DrainIsRun(settled, again, world);
      PerformsFirst(installed, SettleFirst, rest, world, r);
      PerformsFirst(begun, OpenOk, [SettleFirst] + rest, world, r);
      PerformsFirst(y, Begin, [OpenOk] + ([SettleFirst] + rest), world, r);
      actions := [Begin] + ([OpenOk] + ([SettleFirst] + rest));
    }
  }

  /** What the steps promise, the call keeps: returning Ok it has outdated every changed resource's tokens. */
  lemma CallLosesNothing(y: System, first: Option<Watch>, again: Option<Watch>, world: World, key: string, t: i64)
    requires Inv(y) && y.phase.Idle? && Answers(y, first) && Answers(y, again) && Enumerates(world)
    requires (key, t) in y.dirty && Refresh(y.ledger.clock, y.watch, first, again, world).ok
    ensures Refresh(y.ledger.clock, y.watch, first, again, world).clock.Outdates(key, t)
  {
    var r := Refresh(y.ledger.clock, y.watch, first, again, world);
    var actions := RefreshIsRun(y, first, again, world);
    var front, last := actions[..|actions| - 1], actions[|actions| - 1];
    assert actions == front + [last];
    RunLast(y, front, last, world);
    RunInv(y, front, world);
    OkOutdates(RunAll(y, front, world), last, world, key, t);
  }

  lemma {:induction false} RunLast(y: System, front: seq<Action>, last: Action, world: World)
    requires ValidRun(y, front, world) && Enabled(RunAll(y, front, world), last)
    ensures ValidRun(y, front + [last], world)
    ensures RunAll(y, front + [last], world) == Do(RunAll(y, front, world), last, world)
    decreases |front|
  {
    if front == [] {
      RunFirst(y, last, [], world);
      assert [last] + [] == [last] && [] + [last] == [last];
    } else {
      RunLast(Do(y, front[0], world), front[1..], last, world);
      RunFirst(y, front[0], front[1..] + [last], world);
      assert front + [last] == [front[0]] + (front[1..] + [last]);
    }
  }

  // The same, from the queue alone.

  /** The queued commits are in order and new to the clock. */
  predicate New(s: State, pending: seq<Notice>, epoch: int) {
    Ascending(pending, epoch, Position(s.position)) && (s.position.Some? ==> s.position.value.epoch == epoch)
  }

  lemma NewRest(s: State, w: Watch, epoch: int, world: World)
    requires New(s, w.pending, epoch) && TryRecv(w).Received?
    ensures !Known(s, w.pending[0].change) && !ForeignEpoch(s, w.pending[0].change)
    ensures New(Commit(s, w.pending[0].change, world), w.pending[1..], epoch)
  {
    var c := w.pending[0].change;
    CommitPosition(s, c, world);
    forall i | 0 <= i < |w.pending[1..]| && w.pending[1..][i].Change?
      ensures w.pending[1..][i].change.cursor.epoch == epoch
      ensures c.cursor.position < w.pending[1..][i].change.cursor.position
    {
      assert w.pending[1..][i] == w.pending[i + 1];
    }
  }

  /** The loop keeps every outdated token outdated. */
  lemma {:induction false} DrainKeeps(l: Ledger, w: Watch, again: Option<Watch>, world: World, key: string, t: i64)
    requires l.Inv() && Enumerates(world) && t <= l.clock.revision && l.clock.Outdates(key, t)
    ensures Drain(l.clock, w, again, world).clock.Outdates(key, t)
    decreases |w.pending|
  {
    match TryRecv(w)
    case Received(c) =>
      StepKeeps(l, Committed(c), world);
      DrainKeeps(Step(l, Committed(c), world), Rest(w), again, world, key, t);
    case NeedsReset => if again.Some? { ResetKeeps(l.clock, again.value.head, world.wall); }
    case _ =>
  }

  /** A loop that ends in Ok outdates each given token whose resource a queued new commit, or a reset, touches. */
  lemma {:induction false} DrainOutdates(l: Ledger, w: Watch, again: Option<Watch>, epoch: int, world: World,
      key: string, t: i64)
    requires l.Inv() && Enumerates(world) && (key, t) in l.issued && New(l.clock, w.pending, epoch)
    requires Queued(w.pending, key) && Drain(l.clock, w, again, world).ok
    ensures Drain(l.clock, w, again, world).clock.Outdates(key, t)
    decreases |w.pending|
  {
    match TryRecv(w)
    case Received(c) =>
      var m := Step(l, Committed(c), world);
      NewRest(l.clock, w, epoch, world);
      StepKeeps(l, Committed(c), world);
      if Touches(c, key) {
        DrainKeeps(m, Rest(w), again, world, key, t);
      } else {
        QueuedRest(w.pending, key);
        DrainOutdates(m, Rest(w), again, epoch, world, key, t);
      }
    case NeedsReset => ResetKeeps(l.clock, again.value.head, world.wall);
    case _ =>
  }

  /**
   What a refresh that returns Ok has done, in terms of its inputs: tokens of resources
   that a queued new commit touches are outdated, and so is every token after a reset
   in the queue, or a first opening with a head or a position.
   */
  lemma RefreshOutdates(l: Ledger, watch: Option<Watch>, first: Option<Watch>, again: Option<Watch>, epoch: int,
      world: World, key: string, t: i64)
    requires l.Inv() && Enumerates(world) && (key, t) in l.issued
    requires Refresh(l.clock, watch, first, again, world).ok
    requires if watch.Some? then New(l.clock, watch.value.pending, epoch) && Queued(watch.value.pending, key)
      else first.Some? && (first.value.head.Some? || l.clock.position.Some?)
    ensures Refresh(l.clock, watch, first, again, world).clock.Outdates(key, t)
  {
    if watch.Some? {
      DrainOutdates(l, watch.value, again, epoch, world, key, t);
    } else {
      StepKeeps(l, FeedReset(first.value.head), world);
      DrainKeeps(Step(l, FeedReset(first.value.head), world), first.value, again, world, key, t);
    }
  }

  predicate HasReset(pending: seq<Notice>) { exists i :: 0 <= i < |pending| && pending[i].MustReset? }

  /** The loop ends in Ok exactly if it can reopen a feed that was reset, or else finds the feed open. */
  lemma {:induction false} DrainOkExact(s: State, w: Watch, again: Option<Watch>, world: World)
    ensures var r := Drain(s, w, again, world);
      && (r.ok <==> if HasReset(w.pending) then again.Some? else !w.closed)
      && (r.ok ==> r.watch == if HasReset(w.pending) then again else Some(w.(pending := [])))
    decreases |w.pending|
  {
    match TryRecv(w)
    case Received(c) =>
      ResetRest(w.pending);
      DrainOkExact(Commit(s, c, world), Rest(w), again, world);
    case NeedsReset => assert w.pending[0].MustReset?;
    case _ =>
  }

  lemma ResetRest(pending: seq<Notice>)
    requires pending != [] && pending[0].Change?
    ensures HasReset(pending) <==> HasReset(pending[1..])
  {
    if HasReset(pending) {
      var i :| 0 <= i < |pending| && pending[i].MustReset?;
      assert pending[1..][i - 1].MustReset?;
    }
    if HasReset(pending[1..]) {
      var i :| 0 <= i < |pending[1..]| && pending[1..][i].MustReset?;
      assert pending[i + 1].MustReset?;
    }
  }

  /** Once outdated, a token stays outdated, whatever happens before it is compared. */
  lemma {:induction false} OutdatedForever(y: System, actions: seq<Action>, world: World, key: string, t: i64)
    requires Inv(y) && Enumerates(world) && ValidRun(y, actions, world)
    requires t <= y.ledger.clock.revision && y.ledger.clock.Outdates(key, t)
    ensures RunAll(y, actions, world).ledger.clock.Outdates(key, t)
    ensures t < I64_MAX ==> t < Token(RunAll(y, actions, world).ledger, key, world)
    decreases |actions|
  {
    if actions == [] {
      if t < I64_MAX { OutdatedNotIssued(y.ledger.clock, key, t, world.wall); }
    } else {
      StepInv(y, actions[0], world);
      StepOutdates(y, actions[0], world, key, t);
      OutdatedForever(Do(y, actions[0], world), actions[1..], world, key, t);
    }
  }

  lemma StepOutdates(y: System, a: Action, world: World, key: string, t: i64)
    requires Inv(y) && Enumerates(world) && Enabled(y, a)
    requires t <= y.ledger.clock.revision && y.ledger.clock.Outdates(key, t)
    ensures var s := Do(y, a, world).ledger.clock; t <= s.revision && s.Outdates(key, t)
  {
    match a
    case Other(e) => StepKeeps(y.ledger, e, world);
    case Receive =>
      if TryRecv(y.watch.value).Received? { CommitKeeps(y.ledger, y.watch.value.pending[0].change, world); }
    case SettleFirst => ResetKeeps(y.ledger.clock, y.phase.head, world.wall);
    case SettleReset => ResetKeeps(y.ledger.clock, y.phase.head, world.wall);
    case _ =>
  }
}
