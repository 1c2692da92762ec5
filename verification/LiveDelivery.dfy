/**
 Live delivery: what a client learns of entries, of session metadata and of
 deletions, over commit feed, projection task, bounded channel and client, cut
 into atomic steps. The task re-reads current state for each change it takes
 from its watch, and answers every loss of its own with a Lagged marker; after a
 reset it installs the replacement watch first and announces the lag second.
 */
module LiveDelivery {
  import opened Wrappers

  datatype Scope = Global | Workspace(workspace: int) | OneSession(session: int)

  /** What has a committed version: an entry, a session's metadata, and the deletion of a session. */
  datatype Topic = Entry(entry: int) | Meta(session: int) | Gone(session: int)

  type Versions = map<Topic, nat>

  /** Facts that never change: who owns an entry, and which workspace a session belongs to. */
  datatype Setting = Setting(
    scope: Scope,
    capacity: nat,
    sessionOf: int -> int,
    workspaceOf: int -> int
  ) {
    function Owner(t: Topic): int { if t.Entry? then sessionOf(t.entry) else t.session }

    predicate InScope(session: int) {
      match scope
      case Global => true
      case Workspace(w) => workspaceOf(session) == w
      case OneSession(id) => session == id
    }

    /** The filters on a change's workspace and on the listing flag it was committed under. */
    predicate Admits(c: Change) { InScope(c.session) && (c.listed || scope.OneSession?) }

    /** A session watch carries only its own session's commits. */
    predicate Watches(session: int) { scope.OneSession? ==> session == scope.session }
  }

  /** A commit as the feed tells it; `listed` is its session's listing flag, which a later commit may change. */
  datatype Change = Change(session: int, listed: bool, content: bool, entries: seq<int>, requiresSnapshot: bool)

  datatype Notice = Committed(change: Change) | MustReset

  datatype Item =
    | Part(entry: int, version: nat)
    | MetaUpdated(session: int, version: nat)
    | SessionDeleted(session: int)
    | Lagged
    | Signal

  datatype Task =
    | Waiting
    | Handling(change: Change)      // taken from the watch
    | Announcing(change: Change, version: nat)    // has read the summary, owes the metadata item
    | Reading(change: Change)       // about to re-read the affected entries
    | Sending(items: seq<Item>)
    | Recovering                    // met a reset
    | Stopped

  datatype System = System(
    current: Versions,              // committed versions; a deletion is version one
    removed: set<int>,              // entries no longer visible
    silent: set<Topic>,             // last committed while not admitted; neither task nor client read them since
    watch: seq<Notice>,
    task: Task,
    channel: seq<Item>,
    known: Versions,                // the client's
    wantsSnapshot: bool,            // the client has seen Lagged and not yet re-read
    snapshot: Option<Versions>      // re-read, not yet applied
  ) {
    predicate Deleted(session: int) { Version(current, Gone(session)) > 0 }
  }

  datatype Fate = Delivered | OverBudget | Overflow(lost: nat)

  datatype Action =
    | Commit(change: Change, touched: Versions, hides: set<int>, fate: Fate)
    | DeleteSession(change: Change, fate: Fate)
    | InvalidateFeed
    | Take
    | RefreshFails | Skip | SummaryMissing | SummaryFails | SummaryOk
    | SendMeta | ReadFails | ReadOk | SendNext
    | Recover | RecoverFails
    | SignalArrives(item: Item)
    | Stop
    | ClientReceives | ClientReads | ClientApplies

  function Version(m: Versions, t: Topic): nat { if t in m then m[t] else 0 }

  predicate Raises(old_: Versions, touched: Versions) {
    forall t :: t in touched ==> Version(old_, t) < touched[t]
  }

  /** What an item tells, if it tells of a version. */
  function Said(item: Item): Option<(Topic, nat)> {
    match item
    case Part(e, v) => Some((Entry(e), v))
    case MetaUpdated(id, v) => Some((Meta(id), v))
    case SessionDeleted(id) => Some((Gone(id), 1))
    case _ => None
  }

  predicate LosesWithin(y: System, fate: Fate) { fate.Overflow? ==> fate.lost <= |y.watch| + 1 }

  predicate Enabled(p: Setting, y: System, a: Action) {
    match a
    case Commit(c, touched, hides, fate) =>
      && LosesWithin(y, fate) && Raises(y.current, touched)
      && (forall t :: t in touched ==> p.Owner(t) == c.session && !t.Gone?)
      // The feed names every entry it touches, or asks for a snapshot; removals always do.
      && (c.content ==> forall t :: t in touched ==> !t.Entry?)
      && (!c.requiresSnapshot ==> (forall t :: t in touched && t.Entry? ==> t.entry in c.entries) && hides == {})
      && (forall e :: e in hides ==> Entry(e) in touched)
    case DeleteSession(c, fate) => LosesWithin(y, fate) && !y.Deleted(c.session)
    case InvalidateFeed => true
    case Take => y.task.Waiting? && y.watch != []
    case RefreshFails => y.task.Handling?
    case Skip => y.task.Handling? && !p.Admits(y.task.change)
    case SummaryMissing => y.task.Handling? && p.Admits(y.task.change) && y.Deleted(y.task.change.session)
    case SummaryFails => y.task.Handling? && p.Admits(y.task.change)
    case SummaryOk => y.task.Handling? && p.Admits(y.task.change) && !y.Deleted(y.task.change.session)
    case SendMeta => y.task.Announcing? && |y.channel| < p.capacity
    case ReadFails => y.task.Reading?
    case ReadOk => y.task.Reading?
    case SendNext => y.task.Sending? && |y.channel| < p.capacity
    case Recover => y.task.Recovering?
    case RecoverFails => y.task.Recovering?
    case SignalArrives(item) => y.task.Waiting? && (item.Signal? || item.Lagged?)
    case Stop => true
    case ClientReceives => y.channel != []
    case ClientReads => y.wantsSnapshot
    case ClientApplies => y.snapshot.Some?
  }

  function Publish(p: Setting, watch: seq<Notice>, c: Change, fate: Fate): seq<Notice>
    requires fate.Overflow? ==> fate.lost <= |watch| + 1
  {
    match fate
    case OverBudget => watch + [MustReset]
    case Overflow(n) => [MustReset] + (watch + [Committed(c)])[n..]
    case Delivered => if p.Watches(c.session) then watch + [Committed(c)] else watch
  }

  /** The visible entries among those asked for, at their current versions. */
  function ReadParts(current: Versions, removed: set<int>, entries: seq<int>): seq<Item> {
    if entries == [] then [] else
      (if entries[0] in removed then [] else [Part(entries[0], Version(current, Entry(entries[0])))])
      + ReadParts(current, removed, entries[1..])
  }

  /** The entries such a read shows. */
  function ReadBy(removed: set<int>, entries: seq<int>): set<Topic> {
    set e | e in entries && e !in removed :: Entry(e)
  }

  function Sent(y: System, items: seq<Item>): System { y.(task := if items == [] then Waiting else Sending(items)) }

  function Merge(a: Versions, b: Versions): Versions {
    map t | t in a.Keys + b.Keys :: if Version(a, t) < Version(b, t) then Version(b, t) else Version(a, t)
  }

  function Receive(y: System, item: Item): System {
    if item.Lagged? then y.(wantsSnapshot := true)
    else if Said(item).Some? then y.(known := Merge(y.known, map[Said(item).value.0 := Said(item).value.1]))
    else y
  }

  /** Commits these versions and publishes the change. */
  function Record(p: Setting, y: System, c: Change, touched: Versions, fate: Fate): System
    requires LosesWithin(y, fate)
  {
    y.(current := y.current + touched,
       silent := if p.Admits(c) then y.silent - touched.Keys else y.silent + touched.Keys,
       watch := Publish(p, y.watch, c, fate))
  }

  function Do(p: Setting, y: System, a: Action): System
    requires Enabled(p, y, a)
  {
    match a
    case Commit(c, touched, hides, fate) =>
      // A touched entry is visible again unless this commit hides it.
      Record(p, y, c, touched, fate).(removed := (set e | e in y.removed && Entry(e) !in touched) + hides)
    case DeleteSession(c, fate) => Record(p, y, c, map[Gone(c.session) := 1], fate)
    case InvalidateFeed => y.(watch := y.watch + [MustReset])
    case Take =>
      if y.watch[0].MustReset? then y.(task := Recovering)
      else y.(task := Handling(y.watch[0].change), watch := y.watch[1..])
    case RefreshFails => Sent(y, [Lagged])
    case Skip => y.(task := Waiting)
    case SummaryMissing =>
      var id := y.task.change.session;
      Sent(y, [SessionDeleted(id)]).(silent := y.silent - {Gone(id)})
    case SummaryFails => Sent(y, [Lagged])
    case SummaryOk =>
      var id := y.task.change.session;
      y.(task := Announcing(y.task.change, Version(y.current, Meta(id))), silent := y.silent - {Meta(id)})
    case SendMeta =>
      var c := y.task.change;
      var z := y.(channel := y.channel + [MetaUpdated(c.session, y.task.version)]);
      if c.content then z.(task := Waiting)
      else if c.requiresSnapshot then Sent(z, [Lagged])
      else if c.entries == [] then z.(task := Waiting)
      else z.(task := Reading(c))
    case ReadFails => Sent(y, [Lagged])
    case ReadOk =>
      var entries := y.task.change.entries;
      Sent(y, ReadParts(y.current, y.removed, entries)).(silent := y.silent - ReadBy(y.removed, entries))
    case SendNext =>
      if y.task.items == [] then y.(task := Waiting)
      else Sent(y.(channel := y.channel + [y.task.items[0]]), y.task.items[1..])
    // The replacement watch is installed before the lag is announced.
    case Recover => Sent(y.(watch := []), [Lagged])
    case RecoverFails => y.(task := Stopped)
    case SignalArrives(item) => Sent(y, [item])
    case Stop => y.(task := Stopped)
    case ClientReceives => Receive(y.(channel := y.channel[1..]), y.channel[0])
    case ClientReads => y.(wantsSnapshot := false, snapshot := Some(y.current), silent := {})
    case ClientApplies => y.(known := Merge(y.known, y.snapshot.value), snapshot := None)
  }

  // ---------------------------------------------------------------- nothing is lost

  /** What the client must be told about. */
  predicate Relevant(p: Setting, y: System, t: Topic) {
    t in y.current && p.InScope(p.Owner(t)) && (t.Gone? || !y.Deleted(p.Owner(t))) && t !in y.silent
  }

  /** Handling this change to the end tells the client about the topic. */
  predicate Carries(p: Setting, y: System, c: Change, t: Topic) {
    && p.Admits(c) && c.session == p.Owner(t)
    && (t.Entry? ==> !c.content && (c.requiresSnapshot || (t.entry in c.entries && t.entry !in y.removed)))
  }

  predicate Tells(y: System, item: Item, t: Topic) {
    item.Lagged? || (Said(item).Some? && Said(item).value.0 == t && Version(y.current, t) <= Said(item).value.1)
  }

  predicate InWatch(p: Setting, y: System, watch: seq<Notice>, t: Topic) {
    exists i :: 0 <= i < |watch| && (watch[i].MustReset? || Carries(p, y, watch[i].change, t))
  }

  predicate InItems(y: System, items: seq<Item>, t: Topic) {
    exists i :: 0 <= i < |items| && Tells(y, items[i], t)
  }

  predicate InTask(p: Setting, y: System, task: Task, t: Topic) {
    match task
    case Waiting => false
    case Handling(c) => Carries(p, y, c, t)
    case Announcing(c, v) =>
      if t.Entry? then Carries(p, y, c, t) else t == Meta(c.session) && Version(y.current, t) <= v
    case Reading(c) => t.Entry? && !c.requiresSnapshot && Carries(p, y, c, t)
    case Sending(items) => InItems(y, items, t)
    case Recovering => true
    case Stopped => true
  }

  predicate AtClient(y: System, t: Topic) {
    || Version(y.current, t) <= Version(y.known, t)
    || y.wantsSnapshot
    || (y.snapshot.Some? && Version(y.current, t) <= Version(y.snapshot.value, t))
  }

  /** Known already, or still on its way: in the watch, in the task, in the channel or at the client. */
  predicate Accounted(p: Setting, y: System, t: Topic) {
    AtClient(y, t) || InItems(y, y.channel, t) || InTask(p, y, y.task, t) || InWatch(p, y, y.watch, t)
  }

  /** Nothing on its way is newer than what is committed. */
  ghost predicate NotAhead(y: System, m: Versions) { forall t :: Version(m, t) <= Version(y.current, t) }

  predicate ItemNotAhead(y: System, item: Item) {
    Said(item).Some? ==> Said(item).value.1 <= Version(y.current, Said(item).value.0)
  }

  predicate ItemsNotAhead(y: System, items: seq<Item>) {
    forall i :: 0 <= i < |items| ==> ItemNotAhead(y, items[i])
  }

  ghost predicate Behind(p: Setting, y: System) {
    && NotAhead(y, y.known)
    && (y.snapshot.Some? ==> NotAhead(y, y.snapshot.value))
    && ItemsNotAhead(y, y.channel)
    && (y.task.Sending? ==> ItemsNotAhead(y, y.task.items))
    && (y.task.Announcing? ==> y.task.version <= Version(y.current, Meta(y.task.change.session)))
    && |y.channel| <= p.capacity
  }

  /** A session is deleted once. */
  ghost predicate DeletedOnce(y: System) { forall id :: Version(y.current, Gone(id)) <= 1 }

  predicate ItemsOlder(y: System, items: seq<Item>, t: Topic) {
    forall i :: 0 <= i < |items| && Said(items[i]).Some? && Said(items[i]).value.0 == t ==>
      Said(items[i]).value.1 < Version(y.current, t)
  }

  /** Committed in a version newer than anything the client has or is about to get. */
  predicate Unread(y: System, t: Topic) {
    && Version(y.known, t) < Version(y.current, t)
    && (y.snapshot.Some? ==> Version(y.snapshot.value, t) < Version(y.current, t))
    && ItemsOlder(y, y.channel, t) && (y.task.Sending? ==> ItemsOlder(y, y.task.items, t))
    && (y.task.Announcing? && t == Meta(y.task.change.session) ==> y.task.version < Version(y.current, t))
  }

  ghost predicate Inv(p: Setting, y: System) {
    && Behind(p, y) && DeletedOnce(y)
    && (forall t :: Relevant(p, y, t) ==> Accounted(p, y, t))
    && (forall t :: t in y.silent ==> Unread(y, t))
  }

  /** A fresh subscription: the watch is open and the client has yet to read. */
  function Subscribed(current: Versions, removed: set<int>): System {
    System(current, removed, {}, [], Waiting, [], map[], true, None)
  }

  lemma SubscribedInv(p: Setting, current: Versions, removed: set<int>)
    requires forall id :: Version(current, Gone(id)) <= 1
    ensures Inv(p, Subscribed(current, removed))
  {}

  /** What a step commits. */
  function Touched(a: Action): Versions {
    match a
    case Commit(_, touched, _, _) => touched
    case DeleteSession(c, _) => map[Gone(c.session) := 1]
    case _ => map[]
  }

  lemma StepInv(p: Setting, y: System, a: Action)
    requires Inv(p, y) && Enabled(p, y, a)
    ensures Inv(p, Do(p, y, a))
  {
    var z := Do(p, y, a);
    StepBehind(p, y, a);
    StepDeletes(p, y, a);
    forall t | Relevant(p, z, t) ensures Accounted(p, z, t) {
      if t in Touched(a) {
        TouchedAccounted(p, y, a, t);
      } else {
        StepAccounted(p, y, a, t);
      }
    }
    forall t | t in z.silent ensures Unread(z, t) { StepUnread(p, y, a, t); }
  }

  lemma StepDeletes(p: Setting, y: System, a: Action)
    requires DeletedOnce(y) && Enabled(p, y, a)
    ensures DeletedOnce(Do(p, y, a))
  {
    var z := Do(p, y, a);
    forall id ensures Version(z.current, Gone(id)) <= 1 {
      if a.Commit? { assert Gone(id) !in a.touched; }
    }
  }

  lemma TouchedAccounted(p: Setting, y: System, a: Action, t: Topic)
    requires Enabled(p, y, a) && t in Touched(a) && Relevant(p, Do(p, y, a), t)
    ensures Accounted(p, Do(p, y, a), t)
  {
    var z := Do(p, y, a);
    Published(p, y, z, a.change, a.fate, t);
  }

  /** What is silent stays newer than everything on its way. */
  lemma StepUnread(p: Setting, y: System, a: Action, t: Topic)
    requires Behind(p, y) && Enabled(p, y, a) && t in Do(p, y, a).silent
    requires t in y.silent ==> Unread(y, t)
    ensures Unread(Do(p, y, a), t)
  {
    if t in Touched(a) {
      TouchedUnread(p, y, a, t);
    } else {
      ClientUnread(p, y, a, t);
      ChannelUnread(p, y, a, t);
      SendingUnread(p, y, a, t);
    }
  }

  lemma TouchedUnread(p: Setting, y: System, a: Action, t: Topic)
    requires Behind(p, y) && Enabled(p, y, a) && t in Touched(a)
    ensures Unread(Do(p, y, a), t)
  {}

  lemma ClientUnread(p: Setting, y: System, a: Action, t: Topic)
    requires Enabled(p, y, a) && Unread(y, t) && !a.ClientReads? && t !in Touched(a)
    ensures var z := Do(p, y, a);
      && Version(z.known, t) < Version(z.current, t)
      && (z.snapshot.Some? ==> Version(z.snapshot.value, t) < Version(z.current, t))
  {
    VersionKept(p, y, a, t);
    if a.ClientReceives? {
      ReceiveOlder(y, y.channel[0], t);
    } else if a.ClientApplies? {
      MergeOlder(y.known, y.snapshot.value, t, Version(y.current, t));
    }
  }

  lemma ReceiveOlder(y: System, item: Item, t: Topic)
    requires Version(y.known, t) < Version(y.current, t)
    requires Said(item).Some? && Said(item).value.0 == t ==> Said(item).value.1 < Version(y.current, t)
    ensures Version(Receive(y, item).known, t) < Version(y.current, t)
  {
    if Said(item).Some? {
      MergeOlder(y.known, map[Said(item).value.0 := Said(item).value.1], t, Version(y.current, t));
    }
  }

  lemma MergeOlder(a: Versions, b: Versions, t: Topic, v: nat)
    requires Version(a, t) < v && Version(b, t) < v
    ensures Version(Merge(a, b), t) < v
  {}

  lemma ChannelUnread(p: Setting, y: System, a: Action, t: Topic)
    requires Enabled(p, y, a) && Unread(y, t) && t !in Touched(a)
    ensures ItemsOlder(Do(p, y, a), Do(p, y, a).channel, t)
  {
    var z := Do(p, y, a);
    VersionKept(p, y, a, t);
    if a.ClientReceives? {
      TailOlder(y, y.channel, t);
      OlderKept(y, z, z.channel, t);
    } else {
      ChannelGrows(p, y, a);
      OlderKept(y, z, y.channel, t);
      if z.channel != y.channel { MoreOlder(z, y.channel, z.channel[|y.channel|], t); }
    }
  }

  lemma VersionKept(p: Setting, y: System, a: Action, t: Topic)
    requires Enabled(p, y, a) && t !in Touched(a)
    ensures Version(Do(p, y, a).current, t) == Version(y.current, t)
  {}

  /** The channel stays, or gets this item at its end. */
  predicate Puts(y: System, z: System, item: Item) { z.channel == y.channel || z.channel == y.channel + [item] }

  /** Unless the client takes an item, the channel stays or gets what is sent at its end. */
  lemma ChannelGrows(p: Setting, y: System, a: Action)
    requires Enabled(p, y, a) && !a.ClientReceives?
    ensures !a.SendMeta? && !a.SendNext? ==> Do(p, y, a).channel == y.channel
    ensures a.SendMeta? ==> Puts(y, Do(p, y, a), MetaUpdated(y.task.change.session, y.task.version))
    ensures a.SendNext? && y.task.items == [] ==> Do(p, y, a).channel == y.channel
    ensures a.SendNext? && y.task.items != [] ==> Puts(y, Do(p, y, a), y.task.items[0])
  {}

  lemma OlderKept(y: System, z: System, items: seq<Item>, t: Topic)
    requires Version(z.current, t) == Version(y.current, t) && ItemsOlder(y, items, t)
    ensures ItemsOlder(z, items, t)
  {}

  lemma MoreOlder(z: System, items: seq<Item>, item: Item, t: Topic)
    requires ItemsOlder(z, items, t)
    requires Said(item).Some? && Said(item).value.0 == t ==> Said(item).value.1 < Version(z.current, t)
    ensures ItemsOlder(z, items + [item], t)
  {}

  lemma SendingUnread(p: Setting, y: System, a: Action, t: Topic)
    requires Enabled(p, y, a) && Unread(y, t) && t in Do(p, y, a).silent && t !in Touched(a)
    ensures var z := Do(p, y, a);
      && (z.task.Sending? ==> ItemsOlder(z, z.task.items, t))
      && (z.task.Announcing? && t == Meta(z.task.change.session) ==> z.task.version < Version(z.current, t))
  {
    var z := Do(p, y, a);
    VersionKept(p, y, a, t);
    if a.ReadOk? {
      ReadOlder(z, y.current, y.removed, y.task.change.entries, t);
    } else if a.SendNext? && y.task.items != [] {
      TailOlder(y, y.task.items, t);
    } else if y.task.Sending? {
      OlderKept(y, z, y.task.items, t);
    }
  }

  lemma ReadOlder(z: System, current: Versions, removed: set<int>, entries: seq<int>, t: Topic)
    requires t !in ReadBy(removed, entries)
    ensures ItemsOlder(z, ReadParts(current, removed, entries), t)
  {
    ReadPartsItems(current, removed, entries);
  }

  lemma TailOlder(y: System, items: seq<Item>, t: Topic)
    requires items != [] && ItemsOlder(y, items, t)
    ensures ItemsOlder(y, items[1..], t)
  {
    forall i | 0 <= i < |items[1..]| && Said(items[1..][i]).Some? && Said(items[1..][i]).value.0 == t
      ensures Said(items[1..][i]).value.1 < Version(y.current, t)
    {
      assert items[1..][i] == items[i + 1];
    }
  }

  lemma StepBehind(p: Setting, y: System, a: Action)
    requires Behind(p, y) && Enabled(p, y, a)
    ensures Behind(p, Do(p, y, a))
  {
    ChannelBehind(p, y, a);
    SendingBehind(p, y, a);
    ClientBehind(p, y, a);
    CommittedGrows(p, y, a);
  }

  lemma ClientBehind(p: Setting, y: System, a: Action)
    requires NotAhead(y, y.known) && (y.snapshot.Some? ==> NotAhead(y, y.snapshot.value))
    requires ItemsNotAhead(y, y.channel) && Enabled(p, y, a)
    ensures var z := Do(p, y, a); NotAhead(z, z.known) && (z.snapshot.Some? ==> NotAhead(z, z.snapshot.value))
  {
    CommittedGrows(p, y, a);
    if a.ClientReceives? && Said(y.channel[0]).Some? {
      assert ItemNotAhead(y, y.channel[0]);
      MergeNotAhead(y, y.known, map[Said(y.channel[0]).value.0 := Said(y.channel[0]).value.1]);
    } else if a.ClientApplies? {
      MergeNotAhead(y, y.known, y.snapshot.value);
    }
  }

  lemma CommittedGrows(p: Setting, y: System, a: Action)
    requires Enabled(p, y, a)
    ensures forall t :: Version(y.current, t) <= Version(Do(p, y, a).current, t)
  {}

  lemma MergeNotAhead(z: System, a: Versions, b: Versions)
    requires NotAhead(z, a) && NotAhead(z, b)
    ensures NotAhead(z, Merge(a, b))
  {}

  lemma ChannelBehind(p: Setting, y: System, a: Action)
    requires Behind(p, y) && Enabled(p, y, a)
    ensures ItemsNotAhead(Do(p, y, a), Do(p, y, a).channel) && |Do(p, y, a).channel| <= p.capacity
  {
    var z := Do(p, y, a);
    CommittedGrows(p, y, a);
    if a.ClientReceives? {
      TailNotAhead(y, y.channel);
    } else if |z.channel| == |y.channel| + 1 {
      MoreNotAhead(z, y.channel, z.channel[|y.channel|]);
    } else {
      ItemsGrow(y, z, y.channel);
    }
  }

  lemma MoreNotAhead(z: System, items: seq<Item>, item: Item)
    requires ItemsNotAhead(z, items) && ItemNotAhead(z, item)
    ensures ItemsNotAhead(z, items + [item])
  {}

  lemma SendingBehind(p: Setting, y: System, a: Action)
    requires (y.task.Sending? ==> ItemsNotAhead(y, y.task.items)) && Enabled(p, y, a)
    ensures Do(p, y, a).task.Sending? ==> ItemsNotAhead(Do(p, y, a), Do(p, y, a).task.items)
  {
    var z := Do(p, y, a);
    CommittedGrows(p, y, a);
    if a.ReadOk? {
      ReadIsNotAhead(z, y.removed, y.task.change.entries);
    } else if a.SendNext? && |y.task.items| > 0 {
      TailNotAhead(y, y.task.items);
    } else if y.task.Sending? {
      ItemsGrow(y, z, y.task.items);
    }
  }

  lemma ReadIsNotAhead(z: System, removed: set<int>, entries: seq<int>)
    ensures ItemsNotAhead(z, ReadParts(z.current, removed, entries))
  {
    ReadPartsItems(z.current, removed, entries);
  }

  lemma TailNotAhead(y: System, items: seq<Item>)
    requires items != [] && ItemsNotAhead(y, items)
    ensures ItemsNotAhead(y, items[1..])
  {
    forall i | 0 <= i < |items[1..]| ensures ItemNotAhead(y, items[1..][i]) {
      assert items[1..][i] == items[i + 1];
    }
  }

  lemma ItemsGrow(y: System, z: System, items: seq<Item>)
    requires ItemsNotAhead(y, items) && forall t :: Version(y.current, t) <= Version(z.current, t)
    ensures ItemsNotAhead(z, items)
  {
    forall i | 0 <= i < |items| ensures ItemNotAhead(z, items[i]) { assert ItemNotAhead(y, items[i]); }
  }

  lemma {:induction false} ReadPartsItems(current: Versions, removed: set<int>, entries: seq<int>)
    ensures var items := ReadParts(current, removed, entries);
      && (forall i :: 0 <= i < |items| ==>
            && items[i].Part? && items[i].version == Version(current, Entry(items[i].entry))
            && items[i].entry in entries && items[i].entry !in removed)
      && (forall e :: e in entries && e !in removed ==> Part(e, Version(current, Entry(e))) in items)
  {
    if entries != [] { ReadPartsItems(current, removed, entries[1..]); }
  }

  /** What a commit touches is accounted for the moment it is published. */
  lemma Published(p: Setting, y: System, z: System, c: Change, fate: Fate, t: Topic)
    requires LosesWithin(y, fate) && z.watch == Publish(p, y.watch, c, fate)
    requires p.InScope(p.Owner(t)) && (Carries(p, z, c, t) || InWatch(p, z, y.watch, t) || !fate.Delivered?)
    ensures InWatch(p, z, z.watch, t)
  {
    match fate
    case Overflow(n) => assert z.watch[0].MustReset?;
    case OverBudget => assert z.watch[|y.watch|].MustReset?;
    case Delivered =>
      if InWatch(p, z, y.watch, t) {
        var i :| 0 <= i < |y.watch| && (y.watch[i].MustReset? || Carries(p, z, y.watch[i].change, t));
        assert z.watch[i] == y.watch[i];
      } else {
        assert z.watch[|y.watch|] == Committed(c);
      }
  }

  /** What was told of before the step, and the step leaves alone. */
  predicate Newly(y: System, a: Action, t: Topic) {
    || a.ClientReads?
    || (t in y.silent &&
        ((a.ReadOk? && t.Entry?) || (a.SummaryOk? && t.Meta?) || (a.SummaryMissing? && t.Gone?)))
  }

  /** A topic whose version the step leaves alone stays accounted for. */
  lemma StepAccounted(p: Setting, y: System, a: Action, t: Topic)
    requires Inv(p, y) && Enabled(p, y, a) && Relevant(p, Do(p, y, a), t) && t !in Touched(a)
    ensures Accounted(p, Do(p, y, a), t)
  {
    if Newly(y, a, t) {
      NewlyTold(p, y, a, t);
      return;
    }
    RelevantBefore(p, y, a, t);
    if InWatch(p, y, y.watch, t) {
      WatchStep(p, y, a, t);
    } else if InTask(p, y, y.task, t) {
      TaskStep(p, y, a, t);
    } else if InItems(y, y.channel, t) {
      ChannelStep(p, y, a, t);
    } else {
      ClientStep(p, y, a, t);
    }
  }

  lemma ClientStep(p: Setting, y: System, a: Action, t: Topic)
    requires Enabled(p, y, a) && t !in Touched(a) && AtClient(y, t)
    ensures AtClient(Do(p, y, a), t)
  {}

  /** What task or client have just read is on its way. */
  lemma NewlyTold(p: Setting, y: System, a: Action, t: Topic)
    requires Inv(p, y) && Enabled(p, y, a) && Relevant(p, Do(p, y, a), t) && Newly(y, a, t)
    ensures Accounted(p, Do(p, y, a), t)
  {
    var z := Do(p, y, a);
    if a.ReadOk? {
      ReadTold(p, y, t.entry);
    } else if a.SummaryMissing? {
      assert Tells(z, z.task.items[0], t);
    }
  }

  lemma RelevantBefore(p: Setting, y: System, a: Action, t: Topic)
    requires Inv(p, y) && Enabled(p, y, a) && Relevant(p, Do(p, y, a), t)
    requires !Newly(y, a, t) && t !in Touched(a)
    ensures Relevant(p, y, t) && Accounted(p, y, t)
  {
    CommittedGrows(p, y, a);
    assert !t.Gone? ==> Version(y.current, Gone(p.Owner(t))) <= Version(Do(p, y, a).current, Gone(p.Owner(t)));
  }

  /** A step that leaves a topic alone does not hide it from the changes that carry it. */
  lemma CarriesStill(p: Setting, y: System, a: Action, c: Change, t: Topic)
    requires Enabled(p, y, a) && t !in Touched(a) && Carries(p, y, c, t)
    ensures Carries(p, Do(p, y, a), c, t)
  {}

  lemma WatchStep(p: Setting, y: System, a: Action, t: Topic)
    requires Enabled(p, y, a) && Relevant(p, Do(p, y, a), t) && t !in Touched(a)
    requires InWatch(p, y, y.watch, t)
    ensures Accounted(p, Do(p, y, a), t)
  {
    var z := Do(p, y, a);
    var i :| 0 <= i < |y.watch| && (y.watch[i].MustReset? || Carries(p, y, y.watch[i].change, t));
    if y.watch[i].Committed? { CarriesStill(p, y, a, y.watch[i].change, t); }
    if a.Commit? || a.DeleteSession? {
      assert InWatch(p, z, y.watch, t);
      Published(p, y, z, a.change, a.fate, t);
    } else if a.Take? {
      if i > 0 && y.watch[0].Committed? { assert z.watch[i - 1] == y.watch[i]; }
    } else if a.Recover? {
      assert Tells(z, z.task.items[0], t);
    } else {
      assert z.watch[i] == y.watch[i];
    }
  }

  lemma TaskStep(p: Setting, y: System, a: Action, t: Topic)
    requires Inv(p, y) && Enabled(p, y, a) && Relevant(p, Do(p, y, a), t) && t !in Touched(a)
    requires InTask(p, y, y.task, t)
    ensures Accounted(p, Do(p, y, a), t)
  {
    var z := Do(p, y, a);
    if a.ReadOk? {
      ReadTells(p, y, t);
    } else if a.SendNext? {
      SendTells(p, y, t);
    } else if a.SendMeta? {
      MetaTells(p, y, t);
    } else if a.SummaryOk? {
      SummaryTells(p, y, t);
    } else if y.task.Sending? {
      ItemsKept(y, z, y.task.items, t);
    } else if z.task.Sending? && z.task != y.task {
      assert Tells(z, z.task.items[0], t);
    }
  }

  /** The summary read tells of the metadata, and of nothing that is deleted. */
  lemma SummaryTells(p: Setting, y: System, t: Topic)
    requires Enabled(p, y, SummaryOk) && InTask(p, y, y.task, t)
    ensures Accounted(p, Do(p, y, SummaryOk), t)
  {
    assert t.Gone? ==> t == Gone(y.task.change.session);
    assert t.Meta? ==> t == Meta(y.task.change.session);
  }

  /** The metadata item is sent, and what its change carries besides is still to come. */
  lemma MetaTells(p: Setting, y: System, t: Topic)
    requires Enabled(p, y, SendMeta) && InTask(p, y, y.task, t)
    ensures Accounted(p, Do(p, y, SendMeta), t)
  {
    var z := Do(p, y, SendMeta);
    if t.Entry? {
      if z.task.Sending? { assert Tells(z, z.task.items[0], t); }
    } else {
      assert Tells(z, z.channel[|y.channel|], t);
    }
  }

  lemma ReadTold(p: Setting, y: System, e: int)
    requires Enabled(p, y, ReadOk) && Entry(e) in ReadBy(y.removed, y.task.change.entries)
    ensures Accounted(p, Do(p, y, ReadOk), Entry(e))
  {
    var z := Do(p, y, ReadOk);
    ReadPartsItems(y.current, y.removed, y.task.change.entries);
    var items := ReadParts(y.current, y.removed, y.task.change.entries);
    var i :| 0 <= i < |items| && items[i] == Part(e, Version(y.current, Entry(e)));
    assert Tells(z, z.task.items[i], Entry(e));
  }

  lemma ReadTells(p: Setting, y: System, t: Topic)
    requires Enabled(p, y, ReadOk) && InTask(p, y, y.task, t)
    ensures Accounted(p, Do(p, y, ReadOk), t)
  {
    ReadTold(p, y, t.entry);
  }

  lemma SendTells(p: Setting, y: System, t: Topic)
    requires Enabled(p, y, SendNext) && InTask(p, y, y.task, t)
    ensures Accounted(p, Do(p, y, SendNext), t)
  {
    var z := Do(p, y, SendNext);
    var i :| 0 <= i < |y.task.items| && Tells(y, y.task.items[i], t);
    if i == 0 {
      assert Tells(z, z.channel[|y.channel|], t);
    } else {
      assert Tells(z, z.task.items[i - 1], t);
    }
  }

  lemma ItemsKept(y: System, z: System, items: seq<Item>, t: Topic)
    requires Version(z.current, t) == Version(y.current, t) && InItems(y, items, t)
    ensures InItems(z, items, t)
  {
    var i :| 0 <= i < |items| && Tells(y, items[i], t);
    assert Tells(z, items[i], t);
  }

  lemma TellsStill(p: Setting, y: System, a: Action, item: Item, t: Topic)
    requires Enabled(p, y, a) && t !in Touched(a) && Tells(y, item, t)
    ensures Tells(Do(p, y, a), item, t)
  {}

  lemma ChannelStep(p: Setting, y: System, a: Action, t: Topic)
    requires Enabled(p, y, a) && t !in Touched(a) && InItems(y, y.channel, t)
    ensures Accounted(p, Do(p, y, a), t)
  {
    var z := Do(p, y, a);
    var i :| 0 <= i < |y.channel| && Tells(y, y.channel[i], t);
    TellsStill(p, y, a, y.channel[i], t);
    if a.ClientReceives? {
      if i > 0 { assert Tells(z, z.channel[i - 1], t); }
    } else {
      assert Tells(z, z.channel[i], t);
    }
  }

  /** When every queue is empty and the task still runs, the client is current. */
  predicate Quiet(y: System) {
    y.watch == [] && y.task.Waiting? && y.channel == [] && !y.wantsSnapshot && y.snapshot.None?
  }

  ghost predicate ValidRun(p: Setting, y: System, actions: seq<Action>)
    decreases |actions|
  {
    actions == [] || (Enabled(p, y, actions[0]) && ValidRun(p, Do(p, y, actions[0]), actions[1..]))
  }

  ghost function Run(p: Setting, y: System, actions: seq<Action>): System
    requires ValidRun(p, y, actions)
    decreases |actions|
  {
    if actions == [] then y else Run(p, Do(p, y, actions[0]), actions[1..])
  }

  lemma {:induction false} RunInv(p: Setting, y: System, actions: seq<Action>)
    requires Inv(p, y) && ValidRun(p, y, actions)
    ensures Inv(p, Run(p, y, actions))
    decreases |actions|
  {
    if actions != [] {
      StepInv(p, y, actions[0]);
      RunInv(p, Do(p, y, actions[0]), actions[1..]);
    }
  }

  /**
   No committed change is silently lost: along every run each relevant entry,
   metadata version and deletion is accounted for, and once everything has drained
   the client holds exactly the committed version of each.
   */
  lemma NothingLost(p: Setting, current: Versions, removed: set<int>, actions: seq<Action>, t: Topic)
    requires forall id :: Version(current, Gone(id)) <= 1
    requires ValidRun(p, Subscribed(current, removed), actions)
    requires Relevant(p, Run(p, Subscribed(current, removed), actions), t)
    ensures var y := Run(p, Subscribed(current, removed), actions);
      && Accounted(p, y, t)
      && (Quiet(y) ==> Version(y.known, t) == y.current[t])
  {
    SubscribedInv(p, current, removed);
    RunInv(p, Subscribed(current, removed), actions);
  }

  /** A deletion is never made up: the client knows of one only if there was one. */
  lemma DeletionsAreReal(p: Setting, current: Versions, removed: set<int>, actions: seq<Action>, id: int)
    requires forall k :: Version(current, Gone(k)) <= 1
    requires ValidRun(p, Subscribed(current, removed), actions)
    ensures var y := Run(p, Subscribed(current, removed), actions);
      Version(y.known, Gone(id)) > 0 ==> y.Deleted(id)
  {
    SubscribedInv(p, current, removed);
    RunInv(p, Subscribed(current, removed), actions);
  }

  // ---------------------------------------------------------------- the listing flag

  /**
   The exact condition: at the end of any run in which everything has drained, the
   client holds the committed version of an entry or of metadata in scope, or knows
   of a deletion, if and only if it is not silent, that is, unless its last commit was
   not admitted and neither the task nor the client read it afterwards.
   */
  lemma CurrentExact(p: Setting, current: Versions, removed: set<int>, actions: seq<Action>, t: Topic)
    requires forall id :: Version(current, Gone(id)) <= 1
    requires ValidRun(p, Subscribed(current, removed), actions)
    requires var y := Run(p, Subscribed(current, removed), actions);
      Quiet(y) && t in y.current && p.InScope(p.Owner(t)) && (t.Gone? || !y.Deleted(p.Owner(t)))
    ensures var y := Run(p, Subscribed(current, removed), actions);
      Version(y.known, t) == y.current[t] <==> t !in y.silent
  {
    var y := Run(p, Subscribed(current, removed), actions);
    SubscribedInv(p, current, removed);
    RunInv(p, Subscribed(current, removed), actions);
    if t !in y.silent { NothingLost(p, current, removed, actions, t); }
  }

  lemma RunFirst(p: Setting, y: System, a: Action, rest: seq<Action>)
    requires Enabled(p, y, a) && ValidRun(p, Do(p, y, a), rest)
    ensures ValidRun(p, y, [a] + rest) && Run(p, y, [a] + rest) == Run(p, Do(p, y, a), rest)
  {
    assert ([a] + rest)[1..] == rest;
  }

  /** The steps between two states, one by one. */
  ghost predicate Leads(p: Setting, y: System, actions: seq<Action>, z: System) {
    ValidRun(p, y, actions) && Run(p, y, actions) == z
  }

  lemma LeadsFirst(p: Setting, y: System, a: Action, rest: seq<Action>, z: System)
    requires Enabled(p, y, a) && Leads(p, Do(p, y, a), rest, z)
    ensures Leads(p, y, [a] + rest, z)
  {
    RunFirst(p, y, a, rest);
  }

  lemma {:induction false} LeadsOn(p: Setting, y: System, a: seq<Action>, x: System, b: seq<Action>, z: System)
    requires Leads(p, y, a, x) && Leads(p, x, b, z)
    ensures Leads(p, y, a + b, z)
    decreases |a|
  {
    if a == [] {
      assert a + b == b;
    } else {
      LeadsOn(p, Do(p, y, a[0]), a[1..], x, b, z);
      LeadsFirst(p, y, a[0], a[1..] + b, z);
      assert a + b == [a[0]] + (a[1..] + b);
    }
  }

  lemma LeadsOne(p: Setting, y: System, a: Action)
    requires Enabled(p, y, a)
    ensures Leads(p, y, [a], Do(p, y, a))
  {
    LeadsFirst(p, y, a, [], Do(p, y, a));
    assert [a] + [] == [a];
  }

  /** A client that is current on nothing, and an entry committed behind its back. */
  function Behindhand(e: int, known: Versions): System {
    System(map[Entry(e) := 1], {}, {Entry(e)}, [], Waiting, [], known, false, None)
  }

  /** A client that has read a feed without commits. */
  function UpToDate(): System { System(map[], {}, {}, [], Waiting, [], map[], false, None) }

  lemma FirstRead(p: Setting)
    ensures Leads(p, Subscribed(map[], {}), [ClientReads] + [ClientApplies], UpToDate())
  {
    var y0 := Subscribed(map[], {});
    var y1 := Do(p, y0, ClientReads);
    assert Do(p, y1, ClientApplies) == UpToDate();
    LeadsOne(p, y1, ClientApplies);
    LeadsFirst(p, y0, ClientReads, [ClientApplies], UpToDate());
  }

  lemma HiddenCommit(p: Setting, e: int) returns (actions: seq<Action>)
    requires p.scope.Global?
    ensures Leads(p, UpToDate(), actions, Behindhand(e, map[]))
  {
    var commit := Commit(Change(p.sessionOf(e), false, false, [e], false), map[Entry(e) := 1], {}, Delivered);
    var y2 := UpToDate();
    var y3 := Do(p, y2, commit);
    var y4 := Do(p, y3, Take);
    assert Do(p, y4, Skip) == Behindhand(e, map[]);
    LeadsOne(p, y4, Skip);
    LeadsFirst(p, y3, Take, [Skip], Behindhand(e, map[]));
    LeadsFirst(p, y2, commit, [Take] + [Skip], Behindhand(e, map[]));
    actions := [commit] + ([Take] + [Skip]);
  }

  lemma ListingFirst(p: Setting, e: int, c: Change)
    requires p.scope.Global? && c == Change(p.sessionOf(e), true, false, [], false)
    ensures var y, commit := Behindhand(e, map[]), Commit(c, map[], {}, Delivered);
      Enabled(p, y, commit) && Do(p, y, commit) == y.(watch := [Committed(c)])
  {
    var none: Versions := map[];
    var y := Behindhand(e, map[]);
    assert y.current + none == y.current && y.silent - none.Keys == y.silent;
    assert (set k | k in y.removed && Entry(k) !in none) + {} == y.removed;
  }

  lemma ListingSummary(p: Setting, e: int, c: Change)
    requires p.scope.Global? && c == Change(p.sessionOf(e), true, false, [], false)
    ensures var y := Behindhand(e, map[]); var y6, y7 := y.(watch := [Committed(c)]), y.(task := Handling(c));
      && Enabled(p, y6, Take) && Do(p, y6, Take) == y7
      && Enabled(p, y7, SummaryOk) && Do(p, y7, SummaryOk) == y.(task := Announcing(c, 0))
  {
    var y := Behindhand(e, map[]);
    assert [Committed(c)][1..] == [];
    assert y.silent - {Meta(c.session)} == y.silent;
  }

  lemma ListingLast(p: Setting, e: int, c: Change)
    requires p.capacity > 0 && c == Change(p.sessionOf(e), true, false, [], false)
    ensures var y := Behindhand(e, map[]);
      var y8, y9 := y.(task := Announcing(c, 0)), y.(channel := [MetaUpdated(c.session, 0)]);
      && Enabled(p, y8, SendMeta) && Do(p, y8, SendMeta) == y9
      && Enabled(p, y9, ClientReceives) && Do(p, y9, ClientReceives) == Behindhand(e, map[Meta(c.session) := 0])
  {
    assert [MetaUpdated(c.session, 0)][1..] == [];
    assert Merge(map[], map[Meta(c.session) := 0]) == map[Meta(c.session) := 0];
  }

  lemma ListingCommit(p: Setting, e: int) returns (actions: seq<Action>)
    requires p.scope.Global? && p.capacity > 0
    ensures Leads(p, Behindhand(e, map[]), actions, Behindhand(e, map[Meta(p.sessionOf(e)) := 0]))
  {
    var id := p.sessionOf(e);
    var c := Change(id, true, false, [], false);
    var commit := Commit(c, map[], {}, Delivered);
    var y5, last := Behindhand(e, map[]), Behindhand(e, map[Meta(id) := 0]);
    var y6 := y5.(watch := [Committed(c)]);
    var y7 := y5.(task := Handling(c));
    var y8 := y5.(task := Announcing(c, 0));
    var y9 := y5.(channel := [MetaUpdated(id, 0)]);
    ListingFirst(p, e, c);
    ListingSummary(p, e, c);
    ListingLast(p, e, c);
    LeadsOne(p, y9, ClientReceives);
    LeadsFirst(p, y8, SendMeta, [ClientReceives], last);
    LeadsFirst(p, y7, SummaryOk, [SendMeta] + [ClientReceives], last);
    LeadsFirst(p, y6, Take, [SummaryOk] + ([SendMeta] + [ClientReceives]), last);
    LeadsFirst(p, y5, commit, [Take] + ([SummaryOk] + ([SendMeta] + [ClientReceives])), last);
    actions := [commit] + ([Take] + ([SummaryOk] + ([SendMeta] + [ClientReceives])));
  }

  /**
   An input of that kind: an entry committed while its session is not listed, and a
   later commit that lists the session. All queues drain, and the client has not
   learned of the entry.
   */
  lemma ListedLaterIsMissed(p: Setting, e: int) returns (actions: seq<Action>, last: System)
    requires p.scope.Global? && p.capacity > 0
    ensures Leads(p, Subscribed(map[], {}), actions, last) && Quiet(last) && Entry(e) in last.silent
    ensures Version(last.known, Entry(e)) < Version(last.current, Entry(e))
  {
    var first := HiddenCommit(p, e);
    var second := ListingCommit(p, e);
    last := Behindhand(e, map[Meta(p.sessionOf(e)) := 0]);
    FirstRead(p);
    LeadsOn(p, UpToDate(), first, Behindhand(e, map[]), second, last);
    LeadsOn(p, Subscribed(map[], {}), [ClientReads] + [ClientApplies], UpToDate(), first + second, last);
    actions := [ClientReads] + [ClientApplies] + (first + second);
  }

  // ---------------------------------------------------------------- everything drains

  /** Steps of the task and of the client: nothing is committed, invalidated, signalled or stopped from outside. */
  predicate Inner(a: Action) {
    !a.Commit? && !a.DeleteSession? && !a.InvalidateFeed? && !a.SignalArrives? && !a.Stop?
  }

  /** A task that recovers has the reset it met still in front of it. */
  predicate MeetsReset(y: System) { y.task.Recovering? ==> y.watch != [] && y.watch[0].MustReset? }

  lemma {:induction false} RunMeets(p: Setting, y: System, actions: seq<Action>)
    requires MeetsReset(y) && ValidRun(p, y, actions)
    ensures MeetsReset(Run(p, y, actions))
    decreases |actions|
  {
    if actions != [] {
      StepMeets(p, y, actions[0]);
      RunMeets(p, Do(p, y, actions[0]), actions[1..]);
    }
  }

  lemma StepMeets(p: Setting, y: System, a: Action)
    requires MeetsReset(y) && Enabled(p, y, a)
    ensures MeetsReset(Do(p, y, a))
  {}

  function NoticeWeight(n: Notice): nat { if n.MustReset? then 12 else 12 + 4 * |n.change.entries| }

  function WatchWeight(watch: seq<Notice>): nat {
    if watch == [] then 0 else NoticeWeight(watch[0]) + WatchWeight(watch[1..])
  }

  function TaskWeight(task: Task): nat {
    match task
    case Stopped => 0
    case Recovering => 1
    case Waiting => 2
    case Sending(items) => 3 + 4 * |items|
    case Reading(c) => 8 + 4 * |c.entries|
    case Announcing(c, _) => 12 + 4 * |c.entries|
    case Handling(c) => 13 + 4 * |c.entries|
  }

  function ClientWeight(y: System): nat {
    3 * |y.channel| + (if y.wantsSnapshot then 2 else 0) + if y.snapshot.Some? then 1 else 0
  }

  /** How much is still under way. */
  function Weight(y: System): nat { WatchWeight(y.watch) + TaskWeight(y.task) + ClientWeight(y) }

  lemma {:induction false} ReadPartsFew(current: Versions, removed: set<int>, entries: seq<int>)
    ensures |ReadParts(current, removed, entries)| <= |entries|
  {
    if entries != [] { ReadPartsFew(current, removed, entries[1..]); }
  }

  /** Every such step leaves less under way. */
  lemma StepDrains(p: Setting, y: System, a: Action)
    requires MeetsReset(y) && Enabled(p, y, a) && Inner(a)
    ensures Weight(Do(p, y, a)) < Weight(y)
  {
    if a.ClientReceives? || a.ClientReads? || a.ClientApplies? {
      ClientDrains(p, y, a);
    } else if y.task.Sending? {
      SendingDrains(p, y, a);
    } else if a.ReadOk? {
      ReadPartsFew(y.current, y.removed, y.task.change.entries);
      ReadDrains(p, y);
    } else {
      TaskDrains(p, y, a);
    }
  }

  lemma ClientDrains(p: Setting, y: System, a: Action)
    requires Enabled(p, y, a) && (a.ClientReceives? || a.ClientReads? || a.ClientApplies?)
    ensures Weight(Do(p, y, a)) < Weight(y)
  {}

  lemma SendingDrains(p: Setting, y: System, a: Action)
    requires Enabled(p, y, a) && Inner(a) && y.task.Sending?
    requires !a.ClientReceives? && !a.ClientReads? && !a.ClientApplies?
    ensures Weight(Do(p, y, a)) < Weight(y)
  {}

  lemma ReadDrains(p: Setting, y: System)
    requires Enabled(p, y, ReadOk)
    requires |ReadParts(y.current, y.removed, y.task.change.entries)| <= |y.task.change.entries|
    ensures Weight(Do(p, y, ReadOk)) < Weight(y)
  {}

  lemma TaskDrains(p: Setting, y: System, a: Action)
    requires MeetsReset(y) && Enabled(p, y, a) && Inner(a) && !y.task.Sending? && !a.ReadOk?
    requires !a.ClientReceives? && !a.ClientReads? && !a.ClientApplies?
    ensures Weight(Do(p, y, a)) < Weight(y)
  {}

  /** The step to take next, unless all is quiet. */
  function Next(p: Setting, y: System): Action {
    if y.channel != [] then ClientReceives
    else if y.snapshot.Some? then ClientApplies
    else if y.wantsSnapshot then ClientReads
    else match y.task
      case Handling(c) => if !p.Admits(c) then Skip else if y.Deleted(c.session) then SummaryMissing else SummaryOk
      case Announcing(_, _) => SendMeta
      case Reading(_) => ReadOk
      case Sending(_) => SendNext
      case Recovering => Recover
      case _ => Take
  }

  lemma NextIsEnabled(p: Setting, y: System)
    requires p.capacity > 0 && !Quiet(y) && !y.task.Stopped?
    ensures Enabled(p, y, Next(p, y)) && Inner(Next(p, y)) && !Do(p, y, Next(p, y)).task.Stopped?
  {}

  /** No run of these steps is longer than what is under way. */
  lemma {:induction false} DrainIsBounded(p: Setting, y: System, actions: seq<Action>)
    requires MeetsReset(y) && ValidRun(p, y, actions) && forall a :: a in actions ==> Inner(a)
    ensures |actions| + Weight(Run(p, y, actions)) <= Weight(y)
    decreases |actions|
  {
    if actions != [] {
      StepMeets(p, y, actions[0]);
      StepDrains(p, y, actions[0]);
      DrainIsBounded(p, Do(p, y, actions[0]), actions[1..]);
    }
  }

  /**
   Once nothing more is committed, everything drains: from every state with a running
   task the steps of task and client lead to a quiet one. `CurrentExact` says what the
   client holds then.
   */
  lemma {:induction false} Drains(p: Setting, y: System) returns (actions: seq<Action>)
    requires p.capacity > 0 && MeetsReset(y) && !y.task.Stopped?
    ensures ValidRun(p, y, actions) && Quiet(Run(p, y, actions))
    ensures (forall a :: a in actions ==> Inner(a)) && |actions| <= Weight(y)
    decreases Weight(y)
  {
    if Quiet(y) { return []; }
    var a := Next(p, y);
    NextIsEnabled(p, y);
    StepMeets(p, y, a);
    StepDrains(p, y, a);
    var rest := Drains(p, Do(p, y, a));
    RunFirst(p, y, a, rest);
    actions := [a] + rest;
  }
}
