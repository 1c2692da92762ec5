/**
 Paging the text of a record stream (logs, document events): pages of records cut
 by byte budget, and text pages that may end inside a record, at a character
 boundary, and resume there. Records of one epoch carry consecutive sequence
 numbers, so a cursor is the number of records already passed.
 */
module RecordPaging {
  import opened Wrappers
  import opened Utf8
  import opened TextPaging

  const BATCH: nat := 64

  /** A record's payload: its size against the page budget, and its text if it has any. */
  datatype Record = Record(size: nat, text: Option<seq<Byte>>) {
    function Body(): seq<Byte> { if text.Some? then text.value else [] }
  }

  type Log = seq<Record>

  predicate WellFormed(log: Log) { forall r :: r in log ==> Valid(r.Body()) }

  /** How many records storage hands out after `after`: at least one while any remain. */
  function Batch(log: Log, after: nat, take: nat): (n: nat)
    requires after <= |log|
    ensures after + n <= |log| && n <= BATCH && (after < |log| ==> 0 < n)
  {
    var left := |log| - after;
    var most := if BATCH < left then BATCH else left;
    if take < 1 then (if most == 0 then 0 else 1) else if most < take then most else take
  }

  /**
   The record branch of `read_inner`: the first record always fits, later ones
   only within the budget. Returns the cursor after the last record shown.
   */
  method ReadRecords(log: Log, after: nat, maxBytes: nat, take: nat) returns (next: nat, hasMore: bool)
    requires after <= |log|
    ensures after <= next <= |log| && (after < |log| ==> after < next)
    ensures hasMore <==> next < |log|
    ensures next > after + 1 ==> Total(log, after, next) <= Clamp(maxBytes)
    // It stops before the batch does only where one record more would not fit.
    ensures next < after + Batch(log, after, take) ==> next < |log| && Total(log, after, next + 1) > Clamp(maxBytes)
  {
    var n := Batch(log, after, take);
    var bytes := 0;
    next := after;
    while next < after + n
      invariant after <= next <= after + n
      invariant bytes == Total(log, after, next)
      invariant next > after + 1 ==> bytes <= Clamp(maxBytes)
    {
      var size := log[next].size;
      TotalGrows(log, after, next);
      if next > after && bytes + size > Clamp(maxBytes) { break; }
      bytes := bytes + size;
      next := next + 1;
    }
    hasMore := after + n < |log| || next < after + n;
  }

  function Total(log: Log, i: nat, j: nat): nat
    requires i <= j <= |log|
  {
    if i == j then 0 else Total(log, i, j - 1) + log[j - 1].size
  }

  lemma TotalGrows(log: Log, i: nat, j: nat)
    requires i <= j < |log|
    ensures Total(log, i, j + 1) == Total(log, i, j) + log[j].size
  {}

  /** `after` records passed, and `offset` bytes of the next one. */
  datatype Position = Position(after: nat, offset: nat) {
    predicate Before(other: Position) { after < other.after || (after == other.after && offset < other.offset) }
  }

  datatype Slice = Slice(record: nat, offset: nat, text: seq<Byte>) {
    function End(): nat { offset + |text| }
  }

  datatype TextPage = TextPage(slices: seq<Slice>, next: Position, hasMore: bool)

  function Flat(slices: seq<Slice>): seq<Byte> {
    if slices == [] then [] else Flat(slices[..|slices| - 1]) + slices[|slices| - 1].text
  }

  /** All text of the records from the `k`-th on. */
  function TextFrom(log: Log, k: nat): seq<Byte>
    requires k <= |log|
    decreases |log| - k
  {
    if k == |log| then [] else log[k].Body() + TextFrom(log, k + 1)
  }

  /** The text still to come at a position. */
  function Remaining(log: Log, p: Position): seq<Byte>
    requires p.after <= |log|
  {
    if p.after == |log| then []
    else log[p.after].Body()[Start(log, p)..] + TextFrom(log, p.after + 1)
  }

  /** An offset past the end of the record means its end. */
  function Start(log: Log, p: Position): (s: nat)
    requires p.after < |log|
    ensures s <= |log[p.after].Body()|
  {
    if |log[p.after].Body()| < p.offset then |log[p.after].Body()| else p.offset
  }

  predicate OnBoundary(log: Log, p: Position) {
    p.after <= |log| && (p.after < |log| ==> IsBoundary(log[p.after].Body(), Start(log, p)))
  }

  predicate Inside(log: Log, p: Position) {
    p.after <= |log| && p.offset <= if p.after < |log| then |log[p.after].Body()| else 0
  }

  /** A slice is cut from its record between character boundaries. */
  predicate FromRecord(log: Log, s: Slice) {
    && s.record < |log| && s.End() <= |log[s.record].Body()|
    && s.text == log[s.record].Body()[s.offset..s.End()]
    && IsBoundary(log[s.record].Body(), s.offset) && IsBoundary(log[s.record].Body(), s.End())
  }

  predicate AllFromRecords(log: Log, slices: seq<Slice>) {
    forall i :: 0 <= i < |slices| ==> FromRecord(log, slices[i])
  }

  lemma OneMoreSlice(log: Log, slices: seq<Slice>, s: Slice)
    requires AllFromRecords(log, slices) && FromRecord(log, s)
    ensures AllFromRecords(log, slices + [s])
  {}

  /** What one text page promises a reader at position `p`. */
  predicate Faithful(log: Log, p: Position, budget: nat, page: TextPage) {
    && p.after <= |log| && page.next.after <= |log|
    && Remaining(log, p) == Flat(page.slices) + Remaining(log, page.next)
    && |Flat(page.slices)| <= budget
    && AllFromRecords(log, page.slices)
    && OnBoundary(log, page.next) && Inside(log, page.next)
    && (page.hasMore ==> p.Before(page.next))
    && (!page.hasMore ==> page.next == Position(|log|, 0))
  }

  /** Moves back to a character boundary; in valid text that is at most three bytes. */
  method FloorBoundary(text: seq<Byte>, at: nat) returns (end: nat)
    requires Valid(text) && at <= |text|
    ensures end <= at <= end + 3 && IsBoundary(text, end)
    ensures forall k :: end < k <= at ==> !IsBoundary(text, k)
  {
    end := at;
    if at >= 3 { BoundaryNear(text, 0, at - 3); }
    while !IsBoundary(text, end)
      invariant 0 <= end <= at
      invariant forall k :: end < k <= at ==> !IsBoundary(text, k)
      decreases end
    {
      end := end - 1;
    }
  }

  /** The part of a text that fits, from a boundary to a boundary; four bytes always fit a scalar. */
  method Fit(text: seq<Byte>, start: nat, room: nat) returns (end: nat)
    requires Valid(text) && start <= |text| && IsBoundary(text, start)
    ensures start <= end <= |text| && end <= start + room && IsBoundary(text, end)
    ensures MIN_BUDGET <= room && start < |text| ==> start < end
  {
    var at := if |text| < start + room then |text| else start + room;
    end := FloorBoundary(text, at);
    assert !(end < start <= at);
    assert IsBoundary(text, |text|);
  }

  /** The slices shown so far, and the position they lead to, account for the text from `p`. */
  predicate Shown(log: Log, p: Position, slices: seq<Slice>, at: Position) {
    p.after <= |log| && at.after <= |log| && Remaining(log, p) == Flat(slices) + Remaining(log, at)
  }

  lemma FlatAppend(slices: seq<Slice>, s: Slice)
    ensures Flat(slices + [s]) == Flat(slices) + s.text
  {
    assert (slices + [s])[..|slices|] == slices;
  }

  lemma Halves(s: seq<Byte>, i: nat, j: nat)
    requires i <= j <= |s|
    ensures s[i..] == s[i..j] + s[j..]
  {}

  lemma Regroup(a: seq<Byte>, b: seq<Byte>, c: seq<Byte>)
    ensures a + (b + c) == (a + b) + c
  {}

  lemma Rejoin(body: seq<Byte>, start: nat, end: nat, text: seq<Byte>, tail: seq<Byte>)
    requires start <= end <= |body| && text == body[start..end]
    ensures body[start..] + tail == text + (body[end..] + tail)
  {
    Halves(body, start, end);
    Regroup(text, body[end..], tail);
  }

  lemma PartLeaves(log: Log, at: Position, start: nat, end: nat, text: seq<Byte>)
    requires at.after < |log| && start == Start(log, at) <= end <= |log[at.after].Body()|
    requires text == log[at.after].Body()[start..end]
    ensures Remaining(log, at) == text + Remaining(log, Position(at.after, end))
  {
    Rejoin(log[at.after].Body(), start, end, text, TextFrom(log, at.after + 1));
  }

  /** The text still to come at `at` is the slice and what comes behind it. */
  lemma SliceLeaves(log: Log, at: Position, s: Slice)
    requires at.after < |log| && FromRecord(log, s) && s.record == at.after && s.offset == Start(log, at)
    ensures Remaining(log, at) == s.text + Remaining(log, Position(at.after, s.End()))
  {
    PartLeaves(log, at, s.offset, s.End(), s.text);
  }

  lemma ShownMore(log: Log, p: Position, slices: seq<Slice>, at: Position, s: Slice, next: Position)
    requires Shown(log, p, slices, at) && next.after <= |log| && Remaining(log, at) == s.text + Remaining(log, next)
    ensures Shown(log, p, slices + [s], next)
  {
    FlatAppend(slices, s);
    Shift(Remaining(log, p), Flat(slices), Remaining(log, at), s.text, Remaining(log, next), Flat(slices + [s]));
  }

  /** Appends a slice of the record at `at`, and moves past it. */
  method ShowPart(log: Log, ghost p: Position, slices: seq<Slice>, at: Position, s: Slice)
    returns (shown: seq<Slice>, next: Position)
    requires Shown(log, p, slices, at) && at.after < |log|
    requires FromRecord(log, s) && s.record == at.after && s.offset == Start(log, at)
    ensures shown == slices + [s] && next == Position(at.after, s.End())
    ensures Shown(log, p, shown, next) && |Flat(shown)| == |Flat(slices)| + |s.text|
  {
    shown, next := slices + [s], Position(at.after, s.End());
    SliceLeaves(log, at, s);
    ShownMore(log, p, slices, at, s, next);
    FlatAppend(slices, s);
  }

  lemma Shift(whole: seq<Byte>, a: seq<Byte>, rest: seq<Byte>, b: seq<Byte>, c: seq<Byte>, ab: seq<Byte>)
    requires whole == a + rest && rest == b + c && ab == a + b
    ensures whole == ab + c
  {}

  /** A record passed to its end leads to the start of the next one. */
  lemma RemainingPassed(log: Log, at: Position)
    requires at.after < |log| && Start(log, at) == |log[at.after].Body()|
    ensures Remaining(log, at) == Remaining(log, Position(at.after + 1, 0))
  {
    RemainingAtStart(log, at.after + 1);
    EmptyEnd(log[at.after].Body(), TextFrom(log, at.after + 1));
  }

  /** Moves from the end of one record to the start of the next. */
  method PassRecord(log: Log, ghost p: Position, ghost slices: seq<Slice>, at: Position) returns (next: Position)
    requires Shown(log, p, slices, at) && at.after < |log| && Start(log, at) == |log[at.after].Body()|
    ensures next == Position(at.after + 1, 0) && Shown(log, p, slices, next)
  {
    next := Position(at.after + 1, 0);
    RemainingPassed(log, at);
  }

  lemma EmptyEnd(s: seq<Byte>, t: seq<Byte>)
    ensures s[|s|..] + t == t
  {}

  lemma RemainingAtStart(log: Log, k: nat)
    requires k <= |log|
    ensures Remaining(log, Position(k, 0)) == TextFrom(log, k)
  {
    if k < |log| { assert log[k].Body()[0..] == log[k].Body(); }
  }

  /** What one record contributes: nothing, a first part of its text, or all the rest of it. */
  datatype Visit = Refused | NoRoom | Cut(slice: Slice) | Passed(slice: Slice)

  method VisitRecord(log: Log, k: nat, offset: nat, room: nat) returns (v: Visit)
    requires WellFormed(log) && k < |log| && log[k].text.Some?
    ensures v.Refused? <==> !OnBoundary(log, Position(k, offset))
    ensures v.NoRoom? ==> room < MIN_BUDGET
    ensures v.Cut? || v.Passed? ==>
      && FromRecord(log, v.slice) && v.slice.record == k
      && v.slice.offset == Start(log, Position(k, offset)) && |v.slice.text| <= room
    ensures v.Cut? ==> 0 < |v.slice.text| && v.slice.End() < |log[k].Body()|
    ensures v.Passed? ==> v.slice.End() == |log[k].Body()|
  {
    var text := log[k].text.value;
    assert text == log[k].Body() && log[k] in log;
    var start := if |text| < offset then |text| else offset;
    if !IsBoundary(text, start) { return Refused; }
    var end := Fit(text, start, room);
    if end == start && start < |text| { return NoRoom; }
    var slice := Slice(k, start, text[start..end]);
    v := if end < |text| then Cut(slice) else Passed(slice);
  }

  lemma Conclude(log: Log, p: Position, budget: nat, slices: seq<Slice>, next: Position, hasMore: bool)
    requires Shown(log, p, slices, next) && |Flat(slices)| <= budget
    requires AllFromRecords(log, slices)
    requires OnBoundary(log, next) && Inside(log, next)
    requires if hasMore then p.Before(next) else next == Position(|log|, 0)
    ensures Faithful(log, p, budget, TextPage(slices, next, hasMore))
  {}

  /** Shows records `p.after..last` until the budget is spent; `cut` says that it stopped before `last`. */
  method ShowRecords(log: Log, p: Position, last: nat, budget: nat)
    returns (refused: bool, slices: seq<Slice>, next: Position, cut: bool)
    requires WellFormed(log) && p.after <= last <= |log| && MIN_BUDGET <= budget
    requires p.after < |log| ==> p.after < last
    ensures refused <==> !OnBoundary(log, p)
    ensures !refused ==> Shown(log, p, slices, next) && |Flat(slices)| <= budget && AllFromRecords(log, slices)
    ensures !refused ==> OnBoundary(log, next) && Inside(log, next)
    ensures !refused && cut ==> p.Before(next) && next.after < |log|
    ensures !refused && !cut ==> next == Position(last, 0)
  {
    refused, slices, next, cut := false, [], p, false;
    if p.after == |log| {
      next := Position(last, 0);
      return;
    }
    while next.after < last
      invariant p.after <= next.after <= last
      invariant |Flat(slices)| <= budget && AllFromRecords(log, slices)
      invariant Shown(log, p, slices, next)
      invariant if next.after == p.after then next == p && slices == [] else next.offset == 0 && OnBoundary(log, p)
      decreases last - next.after
    {
      if log[next.after].text.None? {
        next := PassRecord(log, p, slices, next);
        continue;
      }
      var v := VisitRecord(log, next.after, next.offset, budget - |Flat(slices)|);
      if v.Refused? {
        refused := true;
        return;
      }
      if v.NoRoom? {
        cut := true;
        return;
      }
      OneMoreSlice(log, slices, v.slice);
      slices, next := ShowPart(log, p, slices, next, v.slice);
      if v.Cut? {
        cut := true;
        return;
      }
      next := PassRecord(log, p, slices, next);
    }
  }

  /**
   `read_content_text` for record streams. It refuses an offset inside a scalar;
   otherwise its page is faithful, whatever the page of records underneath.
   */
  method ReadRecordText(log: Log, position: Option<Position>, maxBytes: nat, take: nat)
    returns (r: Result<TextPage, Error>)
    requires WellFormed(log) && (position.Some? ==> position.value.after <= |log|)
    ensures r.Ok? <==> OnBoundary(log, From(position))
    ensures r.Ok? ==> Faithful(log, From(position), Clamp(maxBytes), r.value)
  {
    var p := From(position);
    var last, more := ReadRecords(log, p.after, maxBytes, take);
    var refused, slices, next, cut := ShowRecords(log, p, last, Clamp(maxBytes));
    if refused { return Err(BadEncoding); }
    Conclude(log, p, Clamp(maxBytes), slices, next, cut || more);
    r := Ok(TextPage(slices, next, cut || more));
  }

  function From(position: Option<Position>): Position {
    if position.Some? then position.value else Position(0, 0)
  }

  // ---------------------------------------------------------------- every sequence of pages

  /** Successive text pages, each asked for at the position the last one returned. */
  predicate Chain(log: Log, p: Position, budget: nat, pages: seq<TextPage>)
    decreases |pages|
  {
    pages == [] || (Faithful(log, p, budget, pages[0]) && Chain(log, pages[0].next, budget, pages[1..])
                    && (|pages| > 1 ==> pages[0].hasMore))
  }

  function AllText(pages: seq<TextPage>): seq<Byte> {
    if pages == [] then [] else Flat(pages[0].slices) + AllText(pages[1..])
  }

  /** Pages read until none is left give exactly the text from the first position on. */
  lemma {:induction false} RecordsLossless(log: Log, p: Position, budget: nat, pages: seq<TextPage>)
    requires Chain(log, p, budget, pages) && pages != [] && !pages[|pages| - 1].hasMore
    ensures AllText(pages) == Remaining(log, p)
    decreases |pages|
  {
    if |pages| > 1 {
      assert pages[1..][|pages[1..]| - 1] == pages[|pages| - 1];
      RecordsLossless(log, pages[0].next, budget, pages[1..]);
    } else {
      assert AllText(pages) == Flat(pages[0].slices) + AllText(pages[1..]) && AllText(pages[1..]) == [];
    }
  }

  /** Reading from the start gives every record's text once, in order. */
  lemma RecordsFromStart(log: Log, budget: nat, pages: seq<TextPage>)
    requires Chain(log, Position(0, 0), budget, pages) && pages != [] && !pages[|pages| - 1].hasMore
    ensures AllText(pages) == TextFrom(log, 0)
  {
    RecordsLossless(log, Position(0, 0), budget, pages);
    RemainingAtStart(log, 0);
  }

  /** What is left to do: one step per record, one per byte. */
  function Left(log: Log, p: Position): nat
    requires p.after <= |log|
  {
    |log| - p.after + |Remaining(log, p)|
  }

  /** Every page that announces more leaves strictly less to do, so the reading ends. */
  lemma {:induction false} ChainsAreBounded(log: Log, p: Position, budget: nat, pages: seq<TextPage>)
    requires Chain(log, p, budget, pages) && p.after <= |log|
    requires forall i :: 0 <= i < |pages| ==> pages[i].hasMore
    ensures |pages| <= Left(log, p)
    decreases |pages|
  {
    if pages != [] {
      ChainsAreBounded(log, pages[0].next, budget, pages[1..]);
      SameRecordShrinks(log, p, pages[0].next, pages[0].slices);
    }
  }

  lemma SameRecordShrinks(log: Log, p: Position, q: Position, slices: seq<Slice>)
    requires p.after <= |log| && q.after <= |log| && p.Before(q) && Inside(log, q)
    requires Remaining(log, p) == Flat(slices) + Remaining(log, q)
    ensures Left(log, q) < Left(log, p)
  {
  }
}
