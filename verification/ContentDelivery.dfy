/**
 Content delivery: a slow transport keeps one source cursor, waits only when an
 active source is fully read, retries a busy reader without moving the cursor,
 and closes once a finished source is fully delivered.
 */
module ContentDelivery {
  import opened Wrappers
  import opened Utf8
  import opened TextPaging

  /** The readable view of a capture: an inherited snapshot is finite even while its capture is open. */
  predicate IsActive(state: CaptureState, snapshot: bool) { state.Open? && !snapshot }

  /** What waiting for a change answers. A busy answer has consumed the notification too. */
  datatype Wake = Changed | WakeBusy | WakeFails

  /** One read of a page, and whether the deadline had passed when it answered. */
  datatype Attempt = Attempt(result: Result<Page, Error>, late: bool) {
    predicate Retried() { result == Err(Busy) && !late }
  }

  /** The attempts one call makes: it retries while busy and in time, then stops. */
  predicate OneCall(attempts: seq<Attempt>) {
    && attempts != []
    && (forall i :: 0 <= i < |attempts| - 1 ==> attempts[i].Retried())
    && !attempts[|attempts| - 1].Retried()
  }

  datatype Progress = Progress(cursor: Option<Cursor>, waiting: bool, closed: bool, retries: nat)

  function Woken(p: Progress, wake: Wake): Progress {
    if !p.waiting || wake.WakeFails? then p
    else p.(waiting := false, retries := if wake.WakeBusy? then p.retries + 1 else p.retries)
  }

  function Moved(p: Progress, page: Page, snapshot: bool): Progress {
    var active := IsActive(page.state, snapshot);
    p.(cursor := Some(Cursor(page.epoch, page.next)),
       waiting := !page.hasMore && active,
       closed := !page.hasMore && !active)
  }

  function Outcome(attempts: seq<Attempt>): Result<Page, Error>
    requires attempts != []
  {
    attempts[|attempts| - 1].result
  }

  /** `next` as a whole: wait if asked to, then read until something other than a timely Busy. */
  function NextProgress(p: Progress, wake: Wake, attempts: seq<Attempt>, snapshot: bool): Progress
    requires OneCall(attempts)
  {
    if p.closed || (p.waiting && wake.WakeFails?) then p
    else
      var q := Woken(p, wake).(retries := Woken(p, wake).retries + |attempts| - 1);
      if Outcome(attempts).Ok? then Moved(q, Outcome(attempts).value, snapshot) else q
  }

  class Delivery {
    const maxBytes: nat
    const snapshot: bool
    var cursor: Option<Cursor>
    var waiting: bool
    var closed: bool
    var retries: nat

    ghost function Value(): Progress
      reads this
    {
      Progress(cursor, waiting, closed, retries)
    }

    constructor (after: Option<Cursor>, maxBytes: nat, snapshot: bool)
      ensures Value() == Progress(after, false, false, 0)
      ensures this.maxBytes == Clamp(maxBytes) && this.snapshot == snapshot
    {
      cursor := after;
      this.maxBytes := Clamp(maxBytes);
      this.snapshot := snapshot;
      waiting := false;
      closed := false;
      retries := 0;
    }

    method Next(wake: Wake, attempts: seq<Attempt>) returns (r: Result<Option<Page>, Error>)
      requires OneCall(attempts)
      modifies this
      ensures Value() == NextProgress(old(Value()), wake, attempts, snapshot)
      // An error never moves the cursor, and a consumed wakeup is never waited for twice.
      ensures r.Err? ==> cursor == old(cursor) && closed == old(closed)
      ensures r.Err? ==> waiting == (old(waiting) && wake.WakeFails?)
      ensures r == Ok(None) <==> old(closed)
      ensures r.Ok? && r.value.Some? ==> Ok(r.value.value) == Outcome(attempts)
    {
      if closed { return Ok(None); }
      if waiting {
        match wake {
          case Changed =>
          case WakeBusy => retries := retries + 1;
          case WakeFails => return Err(Failed);
        }
        waiting := false;
      }
      var i := 0;
      while attempts[i].Retried()
        invariant 0 <= i < |attempts|
        invariant Value() == Woken(old(Value()), wake).(retries := Woken(old(Value()), wake).retries + i)
        invariant !waiting && !closed && cursor == old(cursor)
        decreases |attempts| - i
      {
        retries := retries + 1;
        i := i + 1;
      }
      if attempts[i].result.Err? { return Err(attempts[i].result.error); }
      var page := attempts[i].result.value;
      cursor := Some(Cursor(page.epoch, page.next));
      waiting := !page.hasMore && IsActive(page.state, snapshot);
      closed := !page.hasMore && !IsActive(page.state, snapshot);
      r := Ok(Some(page));
    }
  }

  // ---------------------------------------------------------------- with its source

  /**
   A delivery and the text source it follows, within one epoch and with nothing
   of the delivered part dropped. `published` counts the source's notifications,
   `seen` those the delivery has consumed.
   */
  datatype System = System(
    stream: Stream,
    snapshot: bool,
    start: nat,
    progress: Progress,
    published: nat,
    seen: nat,
    delivered: seq<Byte>
  )

  datatype Action =
    | Append(text: seq<Byte>)
    | Finish(state: CaptureState)
    | WakeUp(wake: Wake)
    | ReadPage(maxBytes: nat, take: nat, busy: nat)
    | GiveUp(busy: nat)

  function At(y: System): nat { StartOf(y.progress.cursor) }

  function Asked(y: System, take: nat, maxBytes: nat): Result<Range, Error> {
    TextRange(Call(Some(y.stream.epoch), y.stream, take, None), y.progress.cursor, Clamp(maxBytes))
  }

  /** The page such a read is answered with. */
  function Answered(y: System, take: nat, maxBytes: nat): Result<Page, Error> {
    var range := Asked(y, take, maxBytes);
    if range.Ok? then Decode(range.value, false) else Err(range.error)
  }

  predicate Enabled(y: System, a: Action) {
    match a
    case Append(text) => y.stream.state.Open? && !y.snapshot && Valid(y.stream.bytes + text)
    case Finish(state) => y.stream.state.Open? && !state.Open?
    case WakeUp(wake) => y.progress.waiting && !y.progress.closed && (!wake.WakeFails? ==> y.seen < y.published)
    case ReadPage(_, _, _) => !y.progress.waiting && !y.progress.closed
    case GiveUp(_) => !y.progress.waiting && !y.progress.closed
  }

  function Busied(p: Progress, busy: nat): Progress { p.(retries := p.retries + busy) }

  function Do(y: System, a: Action): System
    requires Enabled(y, a)
  {
    match a
    case Append(text) =>
      y.(stream := y.stream.(bytes := y.stream.bytes + text), published := y.published + 1)
    case Finish(state) => y.(stream := y.stream.(state := state), published := y.published + 1)
    case WakeUp(wake) =>
      y.(progress := Woken(y.progress, wake), seen := if wake.WakeFails? then y.seen else y.published)
    case ReadPage(maxBytes, take, busy) =>
      var r := Answered(y, take, maxBytes);
      if r.Err? then y.(progress := Busied(y.progress, busy))
      else y.(progress := Moved(Busied(y.progress, busy), r.value, y.snapshot), delivered := y.delivered + r.value.text)
    case GiveUp(busy) => y.(progress := Busied(y.progress, busy))
  }

  predicate Inv(y: System) {
    && y.stream.WellFormed() && y.stream.retained <= y.start <= At(y) <= |y.stream.bytes|
    && (y.progress.cursor.Some? ==> y.progress.cursor.value.epoch == y.stream.epoch)
    && IsBoundary(y.stream.bytes, At(y))
    && y.delivered == y.stream.bytes[y.start..At(y)]
    && y.seen <= y.published
    // Whoever waits has read everything, or a notification is there to wake it.
    && (y.progress.waiting ==>
          (At(y) == |y.stream.bytes| && IsActive(y.stream.state, y.snapshot)) || y.seen < y.published)
    && (y.progress.closed ==> At(y) == |y.stream.bytes| && !IsActive(y.stream.state, y.snapshot))
  }

  function Start(stream: Stream, snapshot: bool, after: Option<Cursor>): System {
    System(stream, snapshot, StartOf(after), Progress(after, false, false, 0), 0, 0, [])
  }

  lemma StepInv(y: System, a: Action)
    requires Inv(y) && Enabled(y, a)
    ensures Inv(Do(y, a))
    // Unless the reader fails, a read that is asked for is answered.
    ensures a.ReadPage? ==> Do(y, a).progress.cursor.Some? && (At(y) < |y.stream.bytes| ==> At(y) < At(Do(y, a)))
  {
    if a.Append? { AppendKeepsBoundary(y, a.text); }
    if a.ReadPage? { ReadInv(y, a.maxBytes, a.take, a.busy); }
  }

  lemma ReadInv(y: System, maxBytes: nat, take: nat, busy: nat)
    requires Inv(y) && Enabled(y, ReadPage(maxBytes, take, busy))
    ensures var z := Do(y, ReadPage(maxBytes, take, busy));
      Inv(z) && z.progress.cursor.Some? && (At(y) < |y.stream.bytes| ==> At(y) < At(z))
  {
    var range := Asked(y, take, maxBytes).value;
    DecodeExact(range, false);
    var to := Decode(range, false).value.next;
    assert y.stream.bytes[y.start..At(y)] + y.stream.bytes[At(y)..to] == y.stream.bytes[y.start..to];
  }

  lemma AppendKeepsBoundary(y: System, text: seq<Byte>)
    requires Inv(y) && Enabled(y, Append(text))
    ensures IsBoundary(y.stream.bytes + text, At(y))
    ensures (y.stream.bytes + text)[y.start..At(y)] == y.stream.bytes[y.start..At(y)]
  {
    var old_, new_ := y.stream.bytes, y.stream.bytes + text;
    assert new_[0..|old_|] == old_;
    ValidSlice(new_, 0, |old_|, 0);
    BoundarySplits(new_, 0, |old_|, |new_|);
  }

  ghost predicate ValidRun(y: System, actions: seq<Action>)
    decreases |actions|
  {
    actions == [] || (Enabled(y, actions[0]) && ValidRun(Do(y, actions[0]), actions[1..]))
  }

  ghost function Run(y: System, actions: seq<Action>): System
    requires ValidRun(y, actions)
    decreases |actions|
  {
    if actions == [] then y else Run(Do(y, actions[0]), actions[1..])
  }

  lemma {:induction false} RunInv(y: System, actions: seq<Action>)
    requires Inv(y) && ValidRun(y, actions)
    ensures var z := Run(y, actions); Inv(z) && z.start == y.start && z.snapshot == y.snapshot
    decreases |actions|
  {
    if actions != [] {
      StepInv(y, actions[0]);
      RunInv(Do(y, actions[0]), actions[1..]);
    }
  }

  /**
   Over every run: what was delivered is a prefix of what was accepted; a
   delivery that waits is up to date with an active source or has a wakeup
   pending; one that has closed has delivered all of a finished source.
   */
  lemma DeliveredIsPrefix(stream: Stream, snapshot: bool, after: Option<Cursor>, actions: seq<Action>)
    requires Inv(Start(stream, snapshot, after)) && ValidRun(Start(stream, snapshot, after), actions)
    ensures var y := Run(Start(stream, snapshot, after), actions);
      && StartOf(after) <= |y.stream.bytes|
      && y.delivered <= y.stream.bytes[StartOf(after)..]
      && (y.progress.waiting ==>
            (y.delivered == y.stream.bytes[StartOf(after)..] && IsActive(y.stream.state, snapshot))
              || y.seen < y.published)
      && (y.progress.closed ==>
            y.delivered == y.stream.bytes[StartOf(after)..] && !IsActive(y.stream.state, y.snapshot))
  {
    RunInv(Start(stream, snapshot, after), actions);
  }

  // ---------------------------------------------------------------- it waits and it ends

  /** Nothing can be appended to what the delivery reads: its source is not open, or it reads a snapshot. */
  predicate Ended(y: System) { !y.stream.state.Open? || y.snapshot }

  /** Every read says how to go on: read again, wait at an open source's end, or close at a complete one's. */
  lemma ReadSettles(y: System, maxBytes: nat, take: nat, busy: nat)
    requires Inv(y) && Enabled(y, ReadPage(maxBytes, take, busy))
    ensures var z := Do(y, ReadPage(maxBytes, take, busy)); var atEnd := At(z) == |z.stream.bytes|;
      && (z.progress.closed <==> atEnd && Ended(z))
      && (z.progress.waiting <==> atEnd && !Ended(z))
  {
    var range := Asked(y, take, maxBytes).value;
    DecodeExact(range, false);
  }

  /** The same at the end of every run. */
  lemma DeliverySettles(stream: Stream, snapshot: bool, after: Option<Cursor>, actions: seq<Action>, read: Action)
    requires Inv(Start(stream, snapshot, after)) && ValidRun(Start(stream, snapshot, after), actions)
    requires read.ReadPage? && Enabled(Run(Start(stream, snapshot, after), actions), read)
    ensures var z := Do(Run(Start(stream, snapshot, after), actions), read);
      var atEnd := StartOf(after) <= |z.stream.bytes| && z.delivered == z.stream.bytes[StartOf(after)..];
      && (z.progress.closed <==> atEnd && (!z.stream.state.Open? || snapshot))
      && (z.progress.waiting <==> atEnd && z.stream.state.Open? && !snapshot)
  {
    var y := Run(Start(stream, snapshot, after), actions);
    RunInv(Start(stream, snapshot, after), actions);
    ReadSettles(y, read.maxBytes, read.take, read.busy);
    StepInv(y, read);
    var z := Do(y, read);
    assert |z.delivered| == At(z) - StartOf(after);
  }

  predicate ReadsOnly(actions: seq<Action>) { forall i :: 0 <= i < |actions| ==> actions[i].ReadPage? }

  function Left(y: System): int { |y.stream.bytes| - At(y) }

  lemma ReadCounts(y: System, a: Action)
    requires Inv(y) && a.ReadPage? && Enabled(y, a) && Ended(y)
    ensures var z := Do(y, a); Inv(z) && Ended(z) && !z.progress.waiting && 0 <= Left(z) <= Left(y)
    ensures Do(y, a).progress.closed || Left(Do(y, a)) < Left(y)
  {
    StepInv(y, a);
    ReadSettles(y, a.maxBytes, a.take, a.busy);
  }

  lemma ClosedReadsNothing(z: System, actions: seq<Action>)
    requires z.progress.closed && ValidRun(z, actions) && ReadsOnly(actions)
    ensures actions == []
  {}

  /** From a complete source the reads end: one for each byte left, and one more, always close the delivery. */
  lemma {:induction false} ReadsClose(y: System, actions: seq<Action>)
    requires Inv(y) && Ended(y) && !y.progress.waiting && !y.progress.closed
    requires ValidRun(y, actions) && ReadsOnly(actions)
    ensures |actions| <= Left(y) + 1
    ensures |actions| == Left(y) + 1 ==> Run(y, actions).progress.closed
    ensures !Run(y, actions).progress.closed ==> forall m, t, b :: Enabled(Run(y, actions), ReadPage(m, t, b))
    decreases |actions|
  {
    if actions != [] {
      ReadCounts(y, actions[0]);
      var z := Do(y, actions[0]);
      if z.progress.closed {
        ClosedReadsNothing(z, actions[1..]);
      } else {
        ReadsClose(z, actions[1..]);
      }
    }
  }

  /** Whoever waits on a complete source can be woken, and then reads on. */
  lemma CompleteWakes(y: System)
    requires Inv(y) && Ended(y) && y.progress.waiting && !y.progress.closed
    ensures Enabled(y, WakeUp(Changed)) && !Do(y, WakeUp(Changed)).progress.waiting
  {}

  /** How often a step found the reader busy. */
  function BusyIn(a: Action): nat {
    match a
    case WakeUp(wake) => if wake.WakeBusy? then 1 else 0
    case ReadPage(_, _, busy) => busy
    case GiveUp(busy) => busy
    case _ => 0
  }

  function BusyCount(actions: seq<Action>): nat {
    if actions == [] then 0 else BusyIn(actions[0]) + BusyCount(actions[1..])
  }

  /** The retries reported are the times the reader was busy, and none of them moves the cursor. */
  lemma {:induction false} RetriesCount(y: System, actions: seq<Action>)
    requires ValidRun(y, actions)
    ensures Run(y, actions).progress.retries == y.progress.retries + BusyCount(actions)
    ensures (forall a :: a in actions ==> a.GiveUp? || a.WakeUp?) ==>
      Run(y, actions).progress.cursor == y.progress.cursor && Run(y, actions).delivered == y.delivered
    decreases |actions|
  {
    if actions != [] { RetriesCount(Do(y, actions[0]), actions[1..]); }
  }

  // ---------------------------------------------------------------- one call, told by the steps

  /** The steps of one call: the wake-up if it waits, then the read, or the failure behind the retries. */
  function CallSteps(y: System, wake: Wake, attempts: seq<Attempt>, maxBytes: nat, take: nat): seq<Action>
    requires attempts != []
  {
    if y.progress.closed then []
    else
      var read := if Outcome(attempts).Ok? then ReadPage(maxBytes, take, |attempts| - 1) else GiveUp(|attempts| - 1);
      if !y.progress.waiting then [read] else if wake.WakeFails? then [WakeUp(wake)] else [WakeUp(wake), read]
  }

  lemma RunOne(y: System, a: Action)
    requires Enabled(y, a)
    ensures ValidRun(y, [a]) && Run(y, [a]) == Do(y, a)
  {
    assert [a][1..] == [];
    assert ValidRun(Do(y, a), []) && Run(Do(y, a), []) == Do(y, a);
  }

  lemma RunTwo(y: System, a: Action, b: Action)
    requires Enabled(y, a) && Enabled(Do(y, a), b)
    ensures ValidRun(y, [a, b]) && Run(y, [a, b]) == Do(Do(y, a), b)
  {
    assert [a, b][1..] == [b];
    RunOne(Do(y, a), b);
  }

  /** One call of `next` moves the delivery as its steps do. */
  lemma NextIsRun(y: System, wake: Wake, attempts: seq<Attempt>, maxBytes: nat, take: nat)
    requires Inv(y) && OneCall(attempts)
    requires y.progress.waiting && !wake.WakeFails? ==> y.seen < y.published
    requires Outcome(attempts).Ok? ==> Outcome(attempts) == Answered(y, take, maxBytes)
    ensures var steps := CallSteps(y, wake, attempts, maxBytes, take);
      ValidRun(y, steps) && Run(y, steps).progress == NextProgress(y.progress, wake, attempts, y.snapshot)
  {
    if !y.progress.closed {
      var read := if Outcome(attempts).Ok? then ReadPage(maxBytes, take, |attempts| - 1) else GiveUp(|attempts| - 1);
      if !y.progress.waiting {
        RunOne(y, read);
      } else if wake.WakeFails? {
        RunOne(y, WakeUp(wake));
      } else {
        var z := Do(y, WakeUp(wake));
        assert Answered(z, take, maxBytes) == Answered(y, take, maxBytes);
        RunTwo(y, WakeUp(wake), read);
      }
    }
  }
}
