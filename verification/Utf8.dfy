/**
 UTF-8 as section 3 of RFC 3629 defines it, and the two standard-library
 operations the paging code relies on: validating a byte slice that may end
 inside a scalar, and testing for a character boundary.
 */
module Utf8 {
  type Byte = b: int | 0 <= b < 256

  predicate IsContinuation(b: Byte) { 0x80 <= b < 0xC0 }

  /** How many bytes a scalar takes, by its first byte; 0 when none may start so. */
  function Width(lead: Byte): (w: nat)
    ensures w <= 4
  {
    if lead < 0x80 then 1
    else if 0xC2 <= lead < 0xE0 then 2
    else if 0xE0 <= lead < 0xF0 then 3
    else if 0xF0 <= lead < 0xF5 then 4
    else 0
  }

  /** The second byte excludes overlong forms, surrogates and values past U+10FFFF. */
  predicate SecondOk(lead: Byte, b: Byte) {
    if lead == 0xE0 then 0xA0 <= b < 0xC0
    else if lead == 0xED then 0x80 <= b < 0xA0
    else if lead == 0xF0 then 0x90 <= b < 0xC0
    else if lead == 0xF4 then 0x80 <= b < 0x90
    else IsContinuation(b)
  }

  datatype Scan = Whole(width: nat) | Partial | Malformed

  /** Whether the k-th byte of a scalar may follow its lead. */
  predicate FollowOk(lead: Byte, k: nat, b: Byte) {
    if k == 1 then SecondOk(lead, b) else IsContinuation(b)
  }

  /** The scalar at position `i`, when only the bytes before `j` may be looked at. */
  function ScanAt(s: seq<Byte>, i: nat, j: nat): (r: Scan)
    requires i < j <= |s|
    ensures r.Whole? ==> 0 < r.width <= 4 && i + r.width <= j && !IsContinuation(s[i])
    ensures r.Whole? ==> forall k :: i < k < i + r.width ==> IsContinuation(s[k])
    ensures r.Partial? ==> j < i + 4
  {
    var w := Width(s[i]);
    if w == 0 || exists k :: i < k < i + w && k < j && !FollowOk(s[i], k - i, s[k]) then Malformed
    else if j < i + w then Partial
    else Whole(w)
  }

  /** The bytes from `i` to `j` are whole scalars. */
  predicate ValidRange(s: seq<Byte>, i: nat, j: nat)
    requires i <= j <= |s|
    decreases j - i
  {
    i == j || (ScanAt(s, i, j).Whole? && ValidRange(s, i + ScanAt(s, i, j).width, j))
  }

  predicate Valid(s: seq<Byte>) { ValidRange(s, 0, |s|) }

  datatype Verdict = Complete | Incomplete | Invalid

  datatype Checked = Checked(upTo: nat, verdict: Verdict)

  /** `std::str::from_utf8` on the bytes from `i` to `j`: how far they are valid, and why it stops there. */
  function Check(s: seq<Byte>, i: nat, j: nat): (c: Checked)
    requires i <= j <= |s|
    ensures i <= c.upTo <= j
    ensures c.verdict.Complete? <==> c.upTo == j
    decreases j - i
  {
    if i == j then Checked(i, Complete)
    else match ScanAt(s, i, j)
      case Whole(w) => Check(s, i + w, j)
      case Partial => Checked(i, Incomplete)
      case Malformed => Checked(i, Invalid)
  }

  /** `str::is_char_boundary`. */
  predicate IsBoundary(s: seq<Byte>, i: nat) {
    i == 0 || i == |s| || (i < |s| && !IsContinuation(s[i]))
  }

  lemma ScanShorter(s: seq<Byte>, i: nat, j: nat, k: nat)
    requires i < j <= k <= |s| && ScanAt(s, i, k).Whole?
    ensures ScanAt(s, i, j) == if j < i + ScanAt(s, i, k).width then Partial else ScanAt(s, i, k)
  {}

  /** Whole scalars fall into whole scalars exactly at their character boundaries. */
  lemma {:induction false} BoundarySplits(s: seq<Byte>, i: nat, j: nat, k: nat)
    requires i <= j <= k <= |s| && ValidRange(s, i, k)
    ensures ValidRange(s, i, j) <==> i == j || j == k || !IsContinuation(s[j])
    ensures ValidRange(s, i, j) ==> ValidRange(s, j, k)
    decreases k - i
  {
    if i < j {
      ScanShorter(s, i, j, k);
      var w := ScanAt(s, i, k).width;
      if i + w <= j { BoundarySplits(s, i + w, j, k); }
      if i + w == j < k { assert ScanAt(s, j, k).Whole?; }
    }
  }

  /** Checking a cut of whole scalars keeps all but a cut-off last one, fewer than four bytes. */
  lemma {:induction false} CheckCut(s: seq<Byte>, i: nat, j: nat, k: nat)
    requires i <= j <= k <= |s| && ValidRange(s, i, k)
    ensures var c := Check(s, i, j);
      && !c.verdict.Invalid?
      && j < c.upTo + 4
      && (j == k ==> c.upTo == j)
      && ValidRange(s, i, c.upTo) && (c.upTo == i || c.upTo == k || !IsContinuation(s[c.upTo]))
    decreases k - i
  {
    if i < j {
      ScanShorter(s, i, j, k);
      var w := ScanAt(s, i, k).width;
      if i + w <= j { CheckCut(s, i + w, j, k); }
    }
    BoundarySplits(s, i, Check(s, i, j).upTo, k);
  }

  /** A slice that starts inside a scalar is refused at its first byte. */
  lemma CheckInside(s: seq<Byte>, i: nat, j: nat)
    requires i < j <= |s| && IsContinuation(s[i])
    ensures Check(s, i, j) == Checked(i, Invalid)
  {}

  lemma {:induction false} ValidSlice(s: seq<Byte>, a: nat, b: nat, i: nat)
    requires a <= i <= b <= |s|
    ensures ValidRange(s, i, b) <==> ValidRange(s[a..b], i - a, b - a)
    decreases b - i
  {
    if i < b {
      var t := s[a..b];
      assert forall k :: i <= k < b ==> t[k - a] == s[k];
      assert ScanAt(s, i, b) == ScanAt(t, i - a, b - a) by { SameScan(s, i, b, t, i - a); }
      if ScanAt(s, i, b).Whole? { ValidSlice(s, a, b, i + ScanAt(s, i, b).width); }
    }
  }

  lemma SameScan(s: seq<Byte>, i: nat, j: nat, t: seq<Byte>, m: nat)
    requires i < j <= |s| && m + (j - i) <= |t|
    requires forall k :: i <= k < j ==> t[m + (k - i)] == s[k]
    ensures ScanAt(s, i, j) == ScanAt(t, m, m + (j - i))
  {
    assert s[i] == t[m + (i - i)];
    forall k | m < k < m + (j - i)
      ensures t[k] == s[i + (k - m)]
    {
      assert t[m + ((i + (k - m)) - i)] == s[i + (k - m)];
    }
  }

  function LeadingContinuations(s: seq<Byte>, i: nat, j: nat): (n: nat)
    requires i <= j <= |s|
    ensures i + n <= j
    ensures forall k :: i <= k < i + n ==> IsContinuation(s[k])
    ensures i + n < j ==> !IsContinuation(s[i + n])
    decreases j - i
  {
    if i < j && IsContinuation(s[i]) then 1 + LeadingContinuations(s, i + 1, j) else 0
  }

  /** The first character boundary at or after a byte position. */
  function FirstBoundary(s: seq<Byte>, i: nat): (b: nat)
    requires i <= |s|
    ensures i <= b <= |s| && IsBoundary(s, b)
    ensures forall k :: i <= k < b ==> !IsBoundary(s, k)
    decreases |s| - i
  {
    if IsBoundary(s, i) then i else FirstBoundary(s, i + 1)
  }

  /** Among whole scalars no position is more than three bytes before a boundary. */
  lemma {:induction false} BoundaryNear(s: seq<Byte>, i: nat, j: nat)
    requires i <= j <= |s| && ValidRange(s, i, |s|) && IsBoundary(s, i)
    ensures FirstBoundary(s, j) <= j + 3
    decreases |s| - i
  {
    if i < j {
      var w := ScanAt(s, i, |s|).width;
      if i + w < |s| { assert ScanAt(s, i + w, |s|).Whole?; }
      assert IsBoundary(s, i + w);
      if i + w <= j { BoundaryNear(s, i + w, j); }
    }
  }
}
