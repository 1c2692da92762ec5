/**
 A conditional read in full: the durable refresh, the token captured behind it,
 and the answer 304. The steps are those of `DurableRefresh`, so commits, resets
 and other readers interleave with the refresh and with the read.
 */
module RefreshedRead {
  import opened RevisionClock
  import opened Revisions
  import opened DurableRefresh
  import opened ConditionalRead

  /** This step changes what a body of the resource shows. */
  predicate Changes(y: System, a: Action, key: string)
    requires Enabled(y, a)
  {
    match a
    case Publish(c, _) => Touches(c, key)
    case InvalidateFeed => y.watch.Some? || y.feedHead.Some?
    case Other(e) => Invalidates(y.ledger.clock, e, key)
    case _ => false
  }

  // ---------------------------------------------------------------- along a run

  lemma {:induction false} RunParts(y: System, a: seq<Action>, b: seq<Action>, world: World)
    requires ValidRun(y, a + b, world)
    ensures ValidRun(y, a, world) && ValidRun(RunAll(y, a, world), b, world)
    ensures RunAll(y, a + b, world) == RunAll(RunAll(y, a, world), b, world)
    decreases |a|
  {
    if a == [] {
      assert a + b == b;
    } else {
      assert (a + b)[1..] == a[1..] + b;
      RunParts(Do(y, a[0], world), a[1..], b, world);
    }
  }

  /** The state before the `j`-th step, and the steps from there on. */
  lemma RunAt(y: System, actions: seq<Action>, world: World, j: nat)
    requires ValidRun(y, actions, world) && j < |actions|
    ensures ValidRun(y, actions[..j], world)
    ensures var x := RunAll(y, actions[..j], world);
      && Enabled(x, actions[j]) && ValidRun(Do(x, actions[j], world), actions[j + 1..], world)
      && RunAll(y, actions, world) == RunAll(Do(x, actions[j], world), actions[j + 1..], world)
  {
    assert actions == actions[..j] + actions[j..] && actions[j..][1..] == actions[j + 1..];
    RunParts(y, actions[..j], actions[j..], world);
  }

  lemma Grows(y: System, a: Action, world: World)
    requires Inv(y) && Enabled(y, a) && Enumerates(world)
    ensures y.ledger.issued <= Do(y, a, world).ledger.issued && y.dirty <= Do(y, a, world).dirty
  {}

  lemma {:induction false} RunGrows(y: System, actions: seq<Action>, world: World)
    requires Inv(y) && Enumerates(world) && ValidRun(y, actions, world)
    ensures y.ledger.issued <= RunAll(y, actions, world).ledger.issued && y.dirty <= RunAll(y, actions, world).dirty
    decreases |actions|
  {
    if actions != [] {
      Grows(y, actions[0], world);
      StepInv(y, actions[0], world);
      RunGrows(Do(y, actions[0], world), actions[1..], world);
    }
  }

  // ---------------------------------------------------------------- after a refresh

  /** A tag the client holds was given to it by a read at some point of the run. */
  ghost predicate TaggedAt(y: System, actions: seq<Action>, world: World, key: string, epoch: string, m: Member,
      at: nat)
    requires ValidRun(y, actions, world)
  {
    at < |actions| && actions[at] == Other(Read(key)) && m.Valid() && ValidRun(y, actions[..at], world) &&
    m.token == TokenText(epoch, Token(RunAll(y, actions[..at], world).ledger, key, world))
  }

  /** The steps since a read at `from` that a refresh returning at `ok` answers for, and whether one changed the key. */
  ghost predicate Unchanged(y: System, actions: seq<Action>, world: World, key: string, from: nat, ok: nat) {
    forall j: nat {:trigger ChangedAt(y, actions, world, key, j)} ::
      from < j < |actions| && (j < ok || actions[j].Other?) ==> !ChangedAt(y, actions, world, key, j)
  }

  ghost predicate ChangedAt(y: System, actions: seq<Action>, world: World, key: string, j: nat) {
    && j < |actions| && ValidRun(y, actions[..j], world) && Enabled(RunAll(y, actions[..j], world), actions[j])
    && Changes(RunAll(y, actions[..j], world), actions[j], key)
  }

  /** A token given out is among those issued ever after. */
  lemma GivenIsIssued(y: System, actions: seq<Action>, world: World, key: string, at: nat, j: nat)
    requires Inv(y) && Enumerates(world) && ValidRun(y, actions, world)
    requires at < j < |actions| && actions[at] == Other(Read(key))
    ensures ValidRun(y, actions[..at], world) && ValidRun(y, actions[..j], world)
    ensures var x := RunAll(y, actions[..j], world);
      Inv(x) && (key, Token(RunAll(y, actions[..at], world).ledger, key, world)) in x.ledger.issued
  {
    RunAt(y, actions, world, j);
    RunAt(y, actions[..j], world, at);
    assert actions[..j][..at] == actions[..at];
    var read := RunAll(y, actions[..at], world);
    RunInv(y, actions[..at], world);
    RunInv(y, actions[..j], world);
    StepInv(read, actions[at], world);
    RunGrows(Do(read, actions[at], world), actions[..j][at + 1..], world);
  }

  /** What another step invalidates stays outdated to the end of the run. */
  lemma OtherOutdates(x: System, e: Event, rest: seq<Action>, world: World, key: string, t: i64)
    requires Inv(x) && Enumerates(world) && Enabled(x, Other(e)) && ValidRun(Do(x, Other(e), world), rest, world)
    requires (key, t) in x.ledger.issued && Invalidates(x.ledger.clock, e, key) && t < I64_MAX
    ensures t < Token(RunAll(Do(x, Other(e), world), rest, world).ledger, key, world)
  {
    StepKeeps(x.ledger, e, world);
    StepInv(x, Other(e), world);
    OutdatedForever(Do(x, Other(e), world), rest, world, key, t);
  }

  /** What a publication changed is outdated once a refresh has returned Ok, and to the end of the run. */
  lemma PublicationOutdates(x: System, a: Action, more: seq<Action>, last: Action, rest: seq<Action>, world: World,
      key: string, t: i64)
    requires Inv(x) && Enumerates(world) && Enabled(x, a) && !a.Other? && Changes(x, a, key)
    requires (key, t) in x.ledger.issued && t < I64_MAX
    requires ValidRun(Do(x, a, world), more, world)
    requires var y := RunAll(Do(x, a, world), more, world);
      Enabled(y, last) && ReturnsOk(y, last) && ValidRun(Do(y, last, world), rest, world)
    ensures var z := Do(RunAll(Do(x, a, world), more, world), last, world);
      t < Token(RunAll(z, rest, world).ledger, key, world)
  {
    assert (key, t) in Do(x, a, world).dirty;
    StepInv(x, a, world);
    RunGrows(Do(x, a, world), more, world);
    RunInv(Do(x, a, world), more, world);
    var y := RunAll(Do(x, a, world), more, world);
    Grows(y, last, world);
    OkOutdates(y, last, world, key, t);
    StepInv(y, last, world);
    OutdatedForever(Do(y, last, world), rest, world, key, t);
  }

  /** The step at `ok` makes a refresh return Ok. */
  ghost predicate RefreshedAt(y: System, actions: seq<Action>, world: World, ok: nat) {
    && ok < |actions| && ValidRun(y, actions[..ok], world) && Enabled(RunAll(y, actions[..ok], world), actions[ok])
    && ReturnsOk(RunAll(y, actions[..ok], world), actions[ok])
  }

  lemma ChangedIsStale(y: System, actions: seq<Action>, world: World, key: string, at: nat, j: nat, ok: nat)
    requires Inv(y) && Enumerates(world) && ValidRun(y, actions, world) && RefreshedAt(y, actions, world, ok)
    requires at < j < |actions| && actions[at] == Other(Read(key)) && (j < ok || actions[j].Other?)
    requires ValidRun(y, actions[..at], world) && Token(RunAll(y, actions[..at], world).ledger, key, world) < I64_MAX
    requires ChangedAt(y, actions, world, key, j)
    ensures Token(RunAll(y, actions[..at], world).ledger, key, world)
      < Token(RunAll(y, actions, world).ledger, key, world)
  {
    var t := Token(RunAll(y, actions[..at], world).ledger, key, world);
    var x := RunAll(y, actions[..j], world);
    GivenIsIssued(y, actions, world, key, at, j);
    if actions[j].Other? {
      RunAt(y, actions, world, j);
      OtherOutdates(x, actions[j].event, actions[j + 1..], world, key, t);
    } else {
      RunAt(y, actions, world, ok);
      RunAt(y, actions[..ok], world, j);
      assert actions[..ok][..j] == actions[..j];
      var more, rest := actions[..ok][j + 1..], actions[ok + 1..];
      PublicationOutdates(x, actions[j], more, actions[ok], rest, world, key, t);
    }
  }

  /**
   A 304 behind a refresh. A client sends back tags given to it for `key` at any
   points of a run; a refresh returns Ok at `ok`, and the server answers 304 with
   the token it would issue at the end of the run. Then one of the tags is the
   current one, and since it was given no publication before the refresh returned
   has touched the resource, and no other event up to the answer has invalidated it.
   */
  lemma RefreshedNotModified(y: System, actions: seq<Action>, world: World, ok: nat, key: string, epoch: string,
      members: seq<Member>, given: seq<nat>)
    requires Inv(y) && Enumerates(world) && ValidRun(y, actions, world) && RefreshedAt(y, actions, world, ok)
    requires ',' !in epoch && '"' !in epoch && members != [] && |given| == |members|
    requires forall k :: 0 <= k < |members| ==> TaggedAt(y, actions, world, key, epoch, members[k], given[k])
    requires Token(RunAll(y, actions, world).ledger, key, world) < I64_MAX
    requires NotModified(Header(members), TokenText(epoch, Token(RunAll(y, actions, world).ledger, key, world)))
    ensures var now := TokenText(epoch, Token(RunAll(y, actions, world).ledger, key, world));
      exists k :: 0 <= k < |given| && members[k].token == now && Unchanged(y, actions, world, key, given[k], ok)
  {
    var now := Token(RunAll(y, actions, world).ledger, key, world);
    TokenIsPlain(epoch, now);
    NotModifiedExact(members, TokenText(epoch, now));
    var k :| 0 <= k < |members| && members[k].token == TokenText(epoch, now);
    assert TaggedAt(y, actions, world, key, epoch, members[k], given[k]);
    TokenTextInjective(epoch, Token(RunAll(y, actions[..given[k]], world).ledger, key, world), now);
    EqualIsUnchanged(y, actions, world, ok, key, given[k]);
  }

  lemma EqualIsUnchanged(y: System, actions: seq<Action>, world: World, ok: nat, key: string, at: nat)
    requires Inv(y) && Enumerates(world) && ValidRun(y, actions, world) && RefreshedAt(y, actions, world, ok)
    requires at < |actions| && actions[at] == Other(Read(key)) && ValidRun(y, actions[..at], world)
    requires Token(RunAll(y, actions[..at], world).ledger, key, world)
      == Token(RunAll(y, actions, world).ledger, key, world) < I64_MAX
    ensures Unchanged(y, actions, world, key, at, ok)
  {
    forall j: nat | at < j < |actions| && (j < ok || actions[j].Other?)
      ensures !ChangedAt(y, actions, world, key, j)
    {
      if ChangedAt(y, actions, world, key, j) { ChangedIsStale(y, actions, world, key, at, j, ok); }
    }
  }
}
