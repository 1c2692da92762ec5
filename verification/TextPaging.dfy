/**
 Paging a text stream by byte budget. Pages are cut on whole scalars, a retained
 prefix may be missing (a gap), and a recovered stream starts a new epoch.

 A read makes up to three reader calls; between them the stream may grow, lose
 more of its prefix or be replaced. `Call` says what the reader meets each time.
 */
module TextPaging {
  import opened Wrappers
  import opened Utf8

  const MIN_BUDGET: nat := 4
  const MAX_BUDGET: nat := 1024 * 1024

  function Clamp(maxBytes: nat): (n: nat)
    ensures MIN_BUDGET <= n <= MAX_BUDGET && (MIN_BUDGET <= maxBytes <= MAX_BUDGET ==> n == maxBytes)
  {
    if maxBytes < MIN_BUDGET then MIN_BUDGET else if MAX_BUDGET < maxBytes then MAX_BUDGET else maxBytes
  }

  datatype Cursor = Cursor(epoch: int, sequence: nat)

  datatype CaptureState = Open | Complete | Interrupted

  /** `bytes` is everything accepted so far; the first `retained` of them are gone. */
  datatype Stream = Stream(epoch: int, bytes: seq<Byte>, retained: nat, state: CaptureState) {
    predicate WellFormed() { Valid(bytes) && retained <= |bytes| }

    /** Later in the same epoch: more accepted, or more of the prefix dropped. */
    predicate GrowsTo(next: Stream) {
      epoch == next.epoch && bytes <= next.bytes && retained <= next.retained
    }
  }

  datatype Error = Busy | ContentGap(retained: nat) | ContentReset | BadEncoding | Failed

  /** The bytes of `stream` from `start` to `end`. */
  datatype Range = Range(stream: Stream, start: nat, end: nat, hasMore: bool) {
    predicate WellFormed() {
      && stream.retained <= start <= end <= |stream.bytes|
      && (hasMore <==> end < |stream.bytes|)
      && (start + MIN_BUDGET <= end || end == |stream.bytes|)
    }
  }

  datatype Call = Call(
    head: Option<int>,          // the epoch `head()` reports just before, unless it fails
    stream: Stream,
    take: nat,                  // how much storage hands out, within its own limits
    failure: Option<Error>
  ) {
    predicate Sound() {
      stream.retained <= |stream.bytes| && (failure.Some? ==> failure.value.Busy? || failure.value.Failed?)
    }

    predicate WellFormed() { Sound() && stream.WellFormed() }

    /** At least one whole scalar's worth, never more than asked for. */
    function Taken(start: nat, limit: nat): (n: nat)
      requires start <= |stream.bytes|
      ensures start + n <= |stream.bytes| && n <= limit
      ensures MIN_BUDGET <= limit ==> MIN_BUDGET <= n || start + n == |stream.bytes|
    {
      var left := |stream.bytes| - start;
      var most := if limit < left then limit else left;
      var least := if MIN_BUDGET < most then MIN_BUDGET else most;
      if take < least then least else if most < take then most else take
    }
  }

  /** `KernelReader::text_range`. */
  function TextRange(c: Call, after: Option<Cursor>, limit: nat): Result<Range, Error> {
    var start := if after.Some? then after.value.sequence else 0;
    if c.failure.Some? then Err(c.failure.value)
    else if after.Some? && (after.value.epoch != c.stream.epoch || |c.stream.bytes| < start) then Err(ContentReset)
    else if start < c.stream.retained then Err(ContentGap(c.stream.retained))
    else
      var end := start + c.Taken(start, limit);
      Ok(Range(c.stream, start, end, end < |c.stream.bytes|))
  }

  datatype Page = Page(epoch: int, state: CaptureState, text: seq<Byte>, next: nat, hasMore: bool, gap: bool)

  /** Drops the rest of a scalar that retention cut, and keeps back one that the page cut. */
  function Decode(range: Range, gap: bool): Result<Page, Error>
    requires range.WellFormed()
  {
    var bytes := range.stream.bytes;
    var from := if gap then range.start + LeadingContinuations(bytes, range.start, range.end) else range.start;
    var checked := Check(bytes, from, range.end);
    if checked.verdict.Invalid? then Err(BadEncoding)
    else Ok(Page(range.stream.epoch, range.stream.state, bytes[from..checked.upTo], checked.upTo,
                 range.hasMore || checked.upTo < range.end, gap))
  }

  /** `page` is exactly the stream from `from`, cut on whole scalars, and moves past `origin`. */
  predicate Exact(st: Stream, origin: nat, from: nat, page: Page) {
    && page.epoch == st.epoch && page.state == st.state
    && st.retained <= origin <= from <= page.next <= |st.bytes|
    && IsBoundary(st.bytes, from) && IsBoundary(st.bytes, page.next)
    && page.text == st.bytes[from..page.next]
    && (origin < |st.bytes| ==> origin < page.next)
    && (page.hasMore <==> page.next < |st.bytes|)
  }

  /** An exact page of valid text is valid text itself. */
  lemma ExactIsText(st: Stream, origin: nat, from: nat, page: Page)
    requires st.WellFormed() && Exact(st, origin, from, page)
    ensures Valid(page.text)
  {
    BoundarySplits(st.bytes, 0, from, |st.bytes|);
    BoundarySplits(st.bytes, from, page.next, |st.bytes|);
    ValidSlice(st.bytes, from, page.next, from);
  }

  /** Where a page starts: at the origin, or after a gap at the first boundary from there. */
  function From(st: Stream, origin: nat, gap: bool): nat
    requires origin <= |st.bytes|
  {
    if gap then FirstBoundary(st.bytes, origin) else origin
  }

  lemma SkipFindsBoundary(all: seq<Byte>, start: nat, end: nat)
    requires Valid(all) && start <= end <= |all|
    requires start + MIN_BUDGET <= end || end == |all|
    ensures start + LeadingContinuations(all, start, end) == FirstBoundary(all, start) <= end
  {
    BoundaryNear(all, 0, start);
    var n, b := LeadingContinuations(all, start, end), FirstBoundary(all, start);
    if start == 0 {
      assert all != [] ==> ScanAt(all, 0, |all|).Whole?;
    } else {
      assert forall k :: start <= k < start + n ==> !IsBoundary(all, k);
      assert !(start <= b < start + n);
      assert start + n < end || start + n == |all| ==> IsBoundary(all, start + n);
    }
  }

  /** What checking from a boundary keeps, said of the whole stream. */
  lemma CutExact(all: seq<Byte>, from: nat, end: nat, c: Checked)
    requires Valid(all) && from <= end <= |all| && IsBoundary(all, from) && c == Check(all, from, end)
    ensures !c.verdict.Invalid? && from <= c.upTo <= end && IsBoundary(all, c.upTo)
    ensures end < c.upTo + 4 && (end == |all| ==> c.upTo == end)
  {
    BoundarySplits(all, 0, from, |all|);
    CheckCut(all, from, end, |all|);
  }

  /** Decoding a range read at a boundary, or after a gap, yields an exact page. */
  lemma DecodeExact(range: Range, gap: bool)
    requires range.WellFormed() && range.stream.WellFormed()
    requires gap || IsBoundary(range.stream.bytes, range.start)
    ensures var r := Decode(range, gap);
      && r.Ok? && |r.value.text| <= range.end - range.start && r.value.gap == gap
      && Exact(range.stream, range.start, From(range.stream, range.start, gap), r.value)
  {
    SkipFindsBoundary(range.stream.bytes, range.start, range.end);
    var from := From(range.stream, range.start, gap);
    CutExact(range.stream.bytes, from, range.end, Check(range.stream.bytes, from, range.end));
  }

  /** A cursor inside a scalar is refused rather than decoded from there. */
  lemma DecodeInside(range: Range)
    requires range.WellFormed() && !IsBoundary(range.stream.bytes, range.start)
    ensures Decode(range, false) == Err(BadEncoding)
  {
    CheckInside(range.stream.bytes, range.start, range.end);
  }

  // ---------------------------------------------------------------- one read

  predicate SameEpoch(calls: seq<Call>, epoch: int) {
    && (forall i :: 0 <= i < |calls| ==>
          calls[i].stream.epoch == epoch && (calls[i].head.Some? ==> calls[i].head.value == epoch))
    && (forall i :: 0 < i < |calls| ==> calls[i - 1].stream.GrowsTo(calls[i].stream))
  }

  function StartOf(after: Option<Cursor>): nat { if after.Some? then after.value.sequence else 0 }

  /** `after` is a position of the stream as the first call meets it. */
  predicate Placed(after: Option<Cursor>, calls: seq<Call>)
    requires |calls| == 3
  {
    after.Some? ==> after.value.epoch == calls[0].stream.epoch && after.value.sequence <= |calls[0].stream.bytes|
  }

  /** How a fetch may have come to its last request `at`. */
  predicate Requested(after: Option<Cursor>, calls: seq<Call>, gap: bool, served: nat, at: Option<Cursor>)
    requires |calls| == 3
  {
    && served < 3
    && (!gap ==> at == None || at == after)
    && (SameEpoch(calls, calls[0].stream.epoch) && Placed(after, calls) ==>
          if gap
          then served > 0 && at == Some(Cursor(calls[0].stream.epoch, calls[served - 1].stream.retained))
               && StartOf(after) < StartOf(at)
          else served == 0 && at == after)
  }

  /** Fetches a range, retrying twice across gaps and recoveries. */
  method Fetch(after: Option<Cursor>, limit: nat, calls: seq<Call>)
    returns (result: Result<Range, Error>, gap: bool, ghost served: nat, ghost at: Option<Cursor>)
    requires |calls| == 3 && forall i :: 0 <= i < 3 ==> calls[i].Sound()
    ensures result.Ok? ==> Requested(after, calls, gap, served, at) && result == TextRange(calls[served], at, limit)
    ensures SameEpoch(calls, calls[0].stream.epoch) && Placed(after, calls)
      && (forall i :: 0 <= i < 3 ==> calls[i].head.Some? && calls[i].failure.None?)
      && calls[1].stream.retained == calls[2].stream.retained
      ==> result.Ok?
  {
    served, at, gap := 0, None, false;
    if calls[0].head.None? { return Err(Busy), gap, served, at; }
    var cursor := if after.Some? && after.value.epoch == calls[0].head.value then after else None;
    at := cursor;
    result := TextRange(calls[0], cursor, limit);
    var i := 0;
    while i < 2
      invariant 0 <= i <= 2 && served == i
      invariant result == TextRange(calls[i], at, limit)
      invariant Requested(after, calls, gap, served, at)
    {
      if result.Err? && result.error.ContentGap? {
        gap := true;
        if calls[i + 1].head.None? { return Err(Busy), gap, served, at; }
        var retry := Some(Cursor(calls[i + 1].head.value, result.error.retained));
        result := TextRange(calls[i + 1], retry, limit);
        at := retry;
      } else if result.Err? && result.error.ContentReset? && cursor.Some?
                && calls[i + 1].head.Some? && calls[i + 1].head.value != cursor.value.epoch {
        result := TextRange(calls[i + 1], None, limit);
        at := None;
      } else {
        break;
      }
      i := i + 1;
      served := i;
    }
  }

  /**
   The text branch of `read_inner`. Any page returned is exact for the stream the
   answering call met. Within one epoch it continues from the cursor, or, when
   that prefix is gone, from the first scalar at or after a retained start; and it
   fails only if a call fails, the cursor splits a scalar, or retention outruns
   both retries.
   */
  method ReadText(after: Option<Cursor>, maxBytes: nat, calls: seq<Call>)
    returns (r: Result<Page, Error>, ghost served: nat, ghost at: Option<Cursor>)
    requires |calls| == 3 && forall i :: 0 <= i < |calls| ==> calls[i].WellFormed()
    ensures r.Ok? ==> (
      && Requested(after, calls, r.value.gap, served, at)
      && StartOf(at) <= |calls[served].stream.bytes|
      && |r.value.text| <= Clamp(maxBytes)
      && Exact(calls[served].stream, StartOf(at), From(calls[served].stream, StartOf(at), r.value.gap), r.value))
    ensures SameEpoch(calls, calls[0].stream.epoch) && Placed(after, calls)
      && (forall i :: 0 <= i < 3 ==> calls[i].head.Some? && calls[i].failure.None?)
      && calls[1].stream.retained == calls[2].stream.retained
      && IsBoundary(calls[0].stream.bytes, StartOf(after))
      ==> r.Ok?
  {
    var result, gap;
    result, gap, served, at := Fetch(after, Clamp(maxBytes), calls);
    if result.Err? { return Err(result.error), served, at; }
    if gap || IsBoundary(calls[served].stream.bytes, StartOf(at)) {
      DecodeExact(result.value, gap);
    } else {
      DecodeInside(result.value);
    }
    r := Decode(result.value, gap);
  }

  // ---------------------------------------------------------------- every sequence of reads

  /** A read by a client at some cursor, with the stream the answering call met. */
  datatype Turn = Turn(stream: Stream, origin: nat, page: Page)

  /** The turn is what `ReadText` promises within one epoch, for a client at `cursor`. */
  predicate Continues(cursor: nat, t: Turn) {
    && t.origin <= |t.stream.bytes|
    && Exact(t.stream, t.origin, From(t.stream, t.origin, t.page.gap), t.page)
    && (if t.page.gap then cursor < t.origin else t.origin == cursor)
  }

  /** Successive turns, each from the cursor the last one returned, seen from `last`. */
  predicate Chain(cursor: nat, turns: seq<Turn>, last: Stream)
    decreases |turns|
  {
    turns == [] || (Continues(cursor, turns[0]) && turns[0].stream.GrowsTo(last)
                    && Chain(turns[0].page.next, turns[1..], last))
  }

  function EndOf(cursor: nat, turns: seq<Turn>): nat {
    if turns == [] then cursor else turns[|turns| - 1].page.next
  }

  function Texts(turns: seq<Turn>): seq<Byte> {
    if turns == [] then [] else turns[0].page.text + Texts(turns[1..])
  }

  predicate Gapless(turns: seq<Turn>) { forall i :: 0 <= i < |turns| ==> !turns[i].page.gap }

  /** `ReadText` within one epoch is a turn for whoever holds the cursor it was given. */
  lemma ReadIsTurn(after: Option<Cursor>, calls: seq<Call>, page: Page, served: nat, at: Option<Cursor>)
    requires |calls| == 3 && SameEpoch(calls, calls[0].stream.epoch) && Placed(after, calls)
    requires Requested(after, calls, page.gap, served, at) && StartOf(at) <= |calls[served].stream.bytes|
    requires Exact(calls[served].stream, StartOf(at), From(calls[served].stream, StartOf(at), page.gap), page)
    ensures Continues(StartOf(after), Turn(calls[served].stream, StartOf(at), page))
  {}

  /** Without a gap, the pages put together are exactly the stream from the first cursor on. */
  lemma {:induction false} Lossless(cursor: nat, turns: seq<Turn>, last: Stream)
    requires Chain(cursor, turns, last) && Gapless(turns) && cursor <= |last.bytes|
    ensures cursor <= EndOf(cursor, turns) <= |last.bytes|
    ensures Texts(turns) == last.bytes[cursor..EndOf(cursor, turns)]
    decreases |turns|
  {
    if turns != [] {
      var next := turns[0].page.next;
      FirstPage(cursor, turns[0], last);
      Lossless(next, turns[1..], last);
      assert EndOf(next, turns[1..]) == EndOf(cursor, turns);
      Joined(last.bytes, cursor, next, EndOf(cursor, turns));
    }
  }

  /** A gapless turn shows the bytes from the cursor on. */
  lemma FirstPage(cursor: nat, t: Turn, last: Stream)
    requires Continues(cursor, t) && t.stream.GrowsTo(last) && !t.page.gap
    ensures cursor <= t.page.next <= |last.bytes| && t.page.text == last.bytes[cursor..t.page.next]
  {}

  lemma Joined(s: seq<Byte>, i: nat, j: nat, k: nat)
    requires i <= j <= k <= |s|
    ensures s[i..j] + s[j..k] == s[i..k]
  {}

  /** The turn shows the byte at `p`, or declares it lost to retention. */
  predicate Answers(t: Turn, p: nat) {
    && t.origin <= |t.stream.bytes|
    && (|| From(t.stream, t.origin, t.page.gap) <= p < t.page.next
        || (t.page.gap && p < FirstBoundary(t.stream.bytes, t.origin)))
  }

  /**
   With gaps, every byte the client has moved past was either shown or lost to a
   declared gap, and a gap loses nothing past the first scalar that begins at or
   after the retained start it met.
   */
  lemma {:induction false} OnlyGapsLose(cursor: nat, turns: seq<Turn>, last: Stream, p: nat)
    requires Chain(cursor, turns, last) && cursor <= p < EndOf(cursor, turns)
    ensures exists t :: t in turns && Answers(t, p)
    decreases |turns|
  {
    if p < turns[0].page.next {
      assert Answers(turns[0], p);
    } else {
      OnlyGapsLose(turns[0].page.next, turns[1..], last, p);
    }
  }

  /** While bytes remain, every turn moves the cursor: the budget is at least one scalar. */
  lemma Progress(cursor: nat, t: Turn)
    requires Continues(cursor, t) && cursor < |t.stream.bytes|
    ensures cursor < t.page.next
  {}
}
