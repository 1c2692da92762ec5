/**
 Decimal rendering of identifiers and revisions, as produced by Rust's `{}`
 formatting of integers. Resource keys and revision tokens are built from it, so
 two different numbers must never render alike and a rendered number must never
 contain the ':' that separates key segments.
 */
module Decimal {

  function Digit(d: nat): char
    requires d < 10
  {
    '0' + d as char
  }

  predicate IsDigit(c: char) { '0' <= c <= '9' }

  function DigitValue(c: char): nat
    requires IsDigit(c)
  {
    (c - '0') as nat
  }

  predicate AllDigits(s: string) { forall i :: 0 <= i < |s| ==> IsDigit(s[i]) }

  function RenderNat(n: nat): (s: string)
    ensures |s| > 0 && AllDigits(s)
  {
    if n < 10 then [Digit(n)] else RenderNat(n / 10) + [Digit(n % 10)]
  }

  function ParseNat(s: string): nat
    requires AllDigits(s)
  {
    if s == [] then 0 else ParseNat(s[..|s| - 1]) * 10 + DigitValue(s[|s| - 1])
  }

  function Render(i: int): string {
    if i < 0 then "-" + RenderNat(-i) else RenderNat(i)
  }

  lemma {:induction false} ParseRenderNat(n: nat)
    ensures ParseNat(RenderNat(n)) == n
  {
    if n < 10 {
      assert RenderNat(n)[..0] == [];
    } else {
      ParseRenderNat(n / 10);
      var s := RenderNat(n);
      assert s[..|s| - 1] == RenderNat(n / 10);
    }
  }

  /** Different integers render differently. */
  lemma RenderInjective(a: int, b: int)
    requires Render(a) == Render(b)
    ensures a == b
  {
    assert a < 0 <==> Render(a)[0] == '-';
    assert b < 0 <==> Render(b)[0] == '-';
    var x, y := if a < 0 then -a else a, if b < 0 then -b else b;
    if a < 0 {
      assert Render(a)[1..] == RenderNat(x) && Render(b)[1..] == RenderNat(y);
    }
    ParseRenderNat(x);
    ParseRenderNat(y);
  }

  predicate NoColon(s: string) { ':' !in s }

  lemma RenderNoColon(i: int)
    ensures NoColon(Render(i))
  {
    var n: nat := if i < 0 then -i else i;
    assert forall k :: 0 <= k < |RenderNat(n)| ==> RenderNat(n)[k] != ':';
  }

  /** The first ':' of a string determines the segment before it. */
  lemma SegmentUnique(a: string, x: string, b: string, y: string)
    requires NoColon(a) && NoColon(b)
    requires a + ":" + x == b + ":" + y
    ensures a == b && x == y
  {
    var s := a + ":" + x;
    assert s[|a|] == ':' && (b + ":" + y)[|b|] == ':';
    assert a == s[..|a|] && b == (b + ":" + y)[..|b|];
    assert x == s[|a| + 1..] && y == (b + ":" + y)[|b| + 1..];
  }

  /** As `SegmentUnique`, when the first string is only a prefix of the second. */
  lemma SegmentPrefix(a: string, b: string, y: string)
    requires NoColon(a) && NoColon(b)
    ensures a + ":" <= b + ":" + y <==> a == b
  {
    if a + ":" <= b + ":" + y {
      var x := (b + ":" + y)[|a| + 1..];
      assert a + ":" + x == b + ":" + y;
      SegmentUnique(a, x, b, y);
    }
  }
}
