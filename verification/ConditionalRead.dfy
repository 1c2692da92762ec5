/**
 Entity tags and If-None-Match: the weak comparison of section 8.8.3.2 of RFC 9110,
 for lists of tags as section 13.1.2 has them. The server's own tag is
 W/"<epoch>:<revision>".
 */
module ConditionalRead {
  import opened Decimal
  import opened RevisionClock
  import opened Revisions

  /** Header text is visible ASCII plus these two. */
  predicate IsSpace(c: char) { c == ' ' || c == '\t' }

  function TrimStart(s: string): string {
    if s != [] && IsSpace(s[0]) then TrimStart(s[1..]) else s
  }

  function TrimEnd(s: string): string {
    if s != [] && IsSpace(s[|s| - 1]) then TrimEnd(s[..|s| - 1]) else s
  }

  function Trim(s: string): string { TrimEnd(TrimStart(s)) }

  /** `trim_start_matches("W/")`, which strips the marker as often as it occurs. */
  function StripWeak(s: string): string {
    if "W/" <= s then StripWeak(s[2..]) else s
  }

  function Split(s: string): (parts: seq<string>)
    ensures |parts| > 0
  {
    if s == [] then [""]
    else if s[0] == ',' then [""] + Split(s[1..])
    else var rest := Split(s[1..]); [[s[0]] + rest[0]] + rest[1..]
  }

  function Quoted(token: string): string { "\"" + token + "\"" }

  function Etag(token: string): string { "W/" + Quoted(token) }

  predicate Matches(part: string, token: string) { StripWeak(Trim(part)) == StripWeak(Etag(token)) }

  predicate AnyMatches(parts: seq<string>, token: string) { exists i :: 0 <= i < |parts| && Matches(parts[i], token) }

  /** Whether the header's list names the token; a match is answered 304. */
  predicate NotModified(header: string, token: string) { AnyMatches(Split(header), token) }

  function TokenText(epoch: string, revision: i64): string { epoch + ":" + Render(revision) }

  predicate Blank(s: string) { forall i :: 0 <= i < |s| ==> IsSpace(s[i]) }

  /**
   One member of a client's list: a weak or strong tag, with optional padding; a tag holds no quote,
   but may hold commas.
   */
  datatype Member = Member(before: string, weak: bool, token: string, after: string) {
    predicate Valid() { Blank(before) && Blank(after) && '"' !in token }
    function Tag(): string { (if weak then "W/" else "") + Quoted(token) }
    function Text(): string { before + Tag() + after }
  }

  function Header(members: seq<Member>): string
    requires members != []
  {
    if |members| == 1 then members[0].Text() else members[0].Text() + "," + Header(members[1..])
  }

  /** A field value: a list of tags, or the asterisk, which matches any current representation. */
  datatype Field = Any(before: string, after: string) | Tags(members: seq<Member>) {
    predicate Valid() {
      match this
      case Any(before, after) => Blank(before) && Blank(after)
      case Tags(members) => members != [] && forall m :: m in members ==> m.Valid()
    }
    function Text(): string
      requires Valid()
    {
      match this
      case Any(before, after) => before + "*" + after
      case Tags(members) => Header(members)
    }
    /** Section 13.1.2: the weak comparison looks at the opaque tags alone. */
    predicate Names(token: string) {
      match this
      case Any(_, _) => true
      case Tags(members) => exists i :: 0 <= i < |members| && members[i].token == token
    }
  }

  lemma {:induction false} SplitAlone(a: string)
    requires ',' !in a
    ensures Split(a) == [a]
  {
    if a != [] {
      SplitAlone(a[1..]);
      assert [a[0]] + a[1..] == a;
    }
  }

  function Prepend(c: char, parts: seq<string>): seq<string>
    requires parts != []
  {
    if c == ',' then [""] + parts else [[c] + parts[0]] + parts[1..]
  }

  lemma SplitStep(c: char, s: string)
    ensures Split([c] + s) == Prepend(c, Split(s))
  {
    assert ([c] + s)[1..] == s;
  }

  lemma PrependConcat(c: char, u: seq<string>, v: seq<string>)
    requires u != []
    ensures Prepend(c, u + v) == Prepend(c, u) + v
  {}

  /** Splitting a text with a comma splits the two sides. */
  lemma {:induction false} SplitBoth(a: string, b: string)
    ensures Split(a + "," + b) == Split(a) + Split(b)
  {
    if a == [] {
      assert a + "," + b == [','] + b && "," == [','];
      SplitStep(',', b);
    } else {
      SplitBoth(a[1..], b);
      assert a == [a[0]] + a[1..] && a + "," + b == [a[0]] + (a[1..] + "," + b);
      SplitStep(a[0], a[1..]);
      SplitStep(a[0], a[1..] + "," + b);
      PrependConcat(a[0], Split(a[1..]), Split(b));
    }
  }

  lemma {:induction false} TrimPadded(before: string, core: string, after: string)
    requires forall i :: 0 <= i < |before| ==> IsSpace(before[i])
    requires forall i :: 0 <= i < |after| ==> IsSpace(after[i])
    requires core != [] && !IsSpace(core[0]) && !IsSpace(core[|core| - 1])
    ensures Trim(before + core + after) == core
    decreases |before|
  {
    if before != [] {
      TrimPadded(before[1..], core, after);
      assert (before + core + after)[1..] == before[1..] + core + after;
    } else {
      assert before + core + after == core + after;
      TrimAfter(core, after);
    }
  }

  lemma {:induction false} TrimAfter(core: string, after: string)
    requires forall i :: 0 <= i < |after| ==> IsSpace(after[i])
    requires core != [] && !IsSpace(core[|core| - 1])
    ensures TrimEnd(core + after) == core
  {
    if after == [] {
      assert core + after == core;
    } else {
      TrimAfter(core, after[..|after| - 1]);
      assert (core + after)[..|core + after| - 1] == core + after[..|after| - 1];
    }
  }

  lemma StripQuoted(token: string)
    ensures StripWeak(Quoted(token)) == Quoted(token) && StripWeak(Etag(token)) == Quoted(token)
  {
    assert Quoted(token)[0] == '"' && Etag(token)[2..] == Quoted(token);
    assert "W/" <= Etag(token);
  }

  lemma QuotedInjective(a: string, b: string)
    requires Quoted(a) == Quoted(b)
    ensures a == b
  {
    assert a == Quoted(a)[1..|a| + 1];
    assert b == Quoted(b)[1..|b| + 1];
  }

  lemma TagText(m: Member)
    requires m.Valid()
    ensures Trim(m.Text()) == m.Tag() && StripWeak(m.Tag()) == Quoted(m.token)
  {
    var tag := m.Tag();
    assert tag[|tag| - 1] == '"' && (tag[0] == 'W' || tag[0] == '"');
    TrimPadded(m.before, tag, m.after);
    StripQuoted(m.token);
    assert m.weak ==> tag == Etag(m.token);
    assert !m.weak ==> tag == Quoted(m.token);
  }

  // A tag with a comma is cut into parts, and no part has both of its quotes.

  function Quotes(s: string): nat { if s == [] then 0 else Quotes(s[1..]) + if s[0] == '"' then 1 else 0 }

  lemma {:induction false} QuotesConcat(a: string, b: string)
    ensures Quotes(a + b) == Quotes(a) + Quotes(b)
  {
    if a == [] {
      assert a + b == b;
    } else {
      QuotesConcat(a[1..], b);
      assert (a + b)[1..] == a[1..] + b;
    }
  }

  lemma {:induction false} NoQuotes(s: string)
    requires '"' !in s
    ensures Quotes(s) == 0
  {
    if s != [] { NoQuotes(s[1..]); }
  }

  lemma BlankHasNoQuote(s: string)
    requires Blank(s)
    ensures '"' !in s && ',' !in s
  {}

  lemma QuotesOf(token: string)
    requires '"' !in token
    ensures Quotes(Quoted(token)) == 2
  {
    NoQuotes(token);
    QuotesConcat("\"", token);
    QuotesConcat("\"" + token, "\"");
    assert Quotes("\"") == Quotes("\""[1..]) + 1 && "\""[1..] == "";
  }

  /** A part has no more quotes than the text it was cut from. */
  lemma {:induction false} PartQuotes(s: string, i: nat)
    requires i < |Split(s)|
    ensures Quotes(Split(s)[i]) <= Quotes(s)
  {
    if s == [] {
    } else if s[0] == ',' {
      if i > 0 { PartQuotes(s[1..], i - 1); }
    } else {
      var rest := Split(s[1..]);
      PartQuotes(s[1..], i);
      assert i == 0 ==> Split(s)[0] == [s[0]] + rest[0] && Split(s)[0][1..] == rest[0];
    }
  }

  lemma {:induction false} TrimQuotes(s: string)
    ensures Quotes(TrimStart(s)) <= Quotes(s)
  {
    if s != [] && IsSpace(s[0]) { TrimQuotes(s[1..]); }
  }

  lemma {:induction false} TrimEndQuotes(s: string)
    ensures Quotes(TrimEnd(s)) <= Quotes(s)
  {
    if s != [] && IsSpace(s[|s| - 1]) {
      TrimEndQuotes(s[..|s| - 1]);
      QuotesConcat(s[..|s| - 1], [s[|s| - 1]]);
      assert s == s[..|s| - 1] + [s[|s| - 1]];
    }
  }

  lemma {:induction false} StripQuotes(s: string)
    ensures Quotes(StripWeak(s)) <= Quotes(s)
  {
    if "W/" <= s {
      StripQuotes(s[2..]);
      assert s == s[..2] + s[2..];
      QuotesConcat(s[..2], s[2..]);
    }
  }

  /** Only a part with two quotes can match. */
  lemma MatchHasQuotes(part: string, token: string)
    requires '"' !in token && Matches(part, token)
    ensures Quotes(part) >= 2
  {
    StripQuoted(token);
    QuotesOf(token);
    StripQuotes(Trim(part));
    TrimEndQuotes(TrimStart(part));
    TrimQuotes(part);
  }

  lemma FewQuotesNoMatch(s: string, token: string)
    requires '"' !in token && Quotes(s) <= 1
    ensures !AnyMatches(Split(s), token)
  {
    forall i: nat | i < |Split(s)| ensures !Matches(Split(s)[i], token) {
      PartQuotes(s, i);
      if Matches(Split(s)[i], token) { MatchHasQuotes(Split(s)[i], token); }
    }
  }

  lemma AnyMatchesConcat(a: seq<string>, b: seq<string>, token: string)
    ensures AnyMatches(a + b, token) <==> AnyMatches(a, token) || AnyMatches(b, token)
  {
    if i :| 0 <= i < |a| && Matches(a[i], token) { assert (a + b)[i] == a[i]; }
    if i :| 0 <= i < |b| && Matches(b[i], token) { assert (a + b)[|a| + i] == b[i]; }
  }

  lemma {:induction false} FirstComma(s: string) returns (a: string, b: string)
    requires ',' in s
    ensures s == a + "," + b && ',' !in a
  {
    if s[0] == ',' {
      a, b := "", s[1..];
    } else {
      a, b := FirstComma(s[1..]);
      a := [s[0]] + a;
    }
  }

  /** One member matches exactly when its opaque tag is the token, weak or strong, with commas or without. */
  lemma MemberMatches(m: Member, token: string)
    requires m.Valid() && ',' !in token && '"' !in token
    ensures AnyMatches(Split(m.Text()), token) <==> m.token == token
  {
    BlankHasNoQuote(m.before);
    BlankHasNoQuote(m.after);
    if ',' in m.token {
      CommaMember(m, token);
    } else {
      SplitAlone(m.Text());
      TagText(m);
      StripQuoted(token);
      assert Split(m.Text())[0] == m.Text();
      if Quoted(m.token) == Quoted(token) { QuotedInjective(m.token, token); }
    }
  }

  lemma CommaMember(m: Member, token: string)
    requires m.Valid() && ',' in m.token && '"' !in token
    ensures !AnyMatches(Split(m.Text()), token)
  {
    var a, b := FirstComma(m.token);
    var mark := if m.weak then "W/" else "";
    var left, right := m.before + mark + "\"" + a, b + "\"" + m.after;
    assert m.Text() == left + "," + right;
    SplitBoth(left, right);
    OneQuote(m.before + mark, a);
    OneQuote(b, m.after);
    FewQuotesNoMatch(left, token);
    FewQuotesNoMatch(right, token);
    AnyMatchesConcat(Split(left), Split(right), token);
  }

  lemma OneQuote(x: string, y: string)
    requires '"' !in x && '"' !in y
    ensures Quotes(x + "\"" + y) == 1
  {
    NoQuotes(x);
    NoQuotes(y);
    QuotesConcat(x, "\"");
    QuotesConcat(x + "\"", y);
    assert Quotes("\"") == Quotes("\""[1..]) + 1 && "\""[1..] == "";
  }

  /** A list of tags matches exactly when one of them has the current token as its opaque tag: the weak comparison. */
  lemma {:induction false} NotModifiedExact(members: seq<Member>, token: string)
    requires members != [] && (forall m :: m in members ==> m.Valid()) && ',' !in token && '"' !in token
    ensures NotModified(Header(members), token) <==> exists i :: 0 <= i < |members| && members[i].token == token
    decreases |members|
  {
    MemberMatches(members[0], token);
    if |members| > 1 {
      NotModifiedExact(members[1..], token);
      SplitBoth(members[0].Text(), Header(members[1..]));
      AnyMatchesConcat(Split(members[0].Text()), Split(Header(members[1..])), token);
      assert forall i :: 0 < i < |members| ==> members[i] == members[1..][i - 1];
    }
  }

  lemma StarNeverMatches(before: string, after: string, token: string)
    requires Blank(before) && Blank(after) && '"' !in token
    ensures !NotModified(before + "*" + after, token)
  {
    BlankHasNoQuote(before);
    BlankHasNoQuote(after);
    NoQuotes(before + "*" + after);
    FewQuotesNoMatch(before + "*" + after, token);
  }

  /**
   The code answers a field value as section 13.1.2 asks, for a current representation, exactly
   unless it is the asterisk.
   */
  lemma FieldExact(f: Field, token: string)
    requires f.Valid() && ',' !in token && '"' !in token
    ensures (NotModified(f.Text(), token) <==> f.Names(token)) <==> !f.Any?
  {
    if f.Any? { StarNeverMatches(f.before, f.after, token); } else { NotModifiedExact(f.members, token); }
  }

  lemma TokenTextInjective(epoch: string, a: i64, b: i64)
    ensures TokenText(epoch, a) == TokenText(epoch, b) <==> a == b
  {
    if TokenText(epoch, a) == TokenText(epoch, b) {
      assert Render(a) == TokenText(epoch, a)[|epoch| + 1..];
      assert Render(b) == TokenText(epoch, b)[|epoch| + 1..];
      RenderInjective(a, b);
    }
  }

  lemma TokenIsPlain(epoch: string, revision: i64)
    requires ',' !in epoch && '"' !in epoch
    ensures ',' !in TokenText(epoch, revision) && '"' !in TokenText(epoch, revision)
  {
    var v: int := revision;
    var n: nat := if v < 0 then -v else v;
    assert AllDigits(RenderNat(n));
  }

  /** A tag the client holds was given to it by a read at some point of the run. */
  ghost predicate GivenAt(l: Ledger, events: seq<Event>, w: World, key: string, epoch: string, m: Member, at: nat)
    requires forall j :: 0 <= j < |events| ==> events[j].WellFormed()
  {
    at < |events| && events[at] == Read(key) && m.Valid() &&
    m.token == TokenText(epoch, Token(Run(l, events[..at], w), key, w))
  }

  /** From one moment of a run on, no event invalidated the key. */
  ghost predicate Untouched(l: Ledger, events: seq<Event>, w: World, key: string, from: nat)
    requires forall j :: 0 <= j < |events| ==> events[j].WellFormed()
  {
    forall i: nat :: from < i < |events| ==> !Invalidates(Run(l, events[..i], w).clock, events[i], key)
  }

  /** Coherence for a tag given at one point of a run. */
  lemma EqualIsUntouched(l: Ledger, events: seq<Event>, w: World, key: string, at: nat)
    requires l.Inv() && Enumerates(w) && forall j :: 0 <= j < |events| ==> events[j].WellFormed()
    requires at < |events| && events[at] == Read(key)
    requires Token(Run(l, events[..at], w), key, w) == Token(Run(l, events, w), key, w) < I64_MAX
    ensures Untouched(l, events, w, key, at)
  {
    forall i: nat | at < i < |events| ensures !Invalidates(Run(l, events[..i], w).clock, events[i], key) {
      UntouchedAt(l, events, w, key, at, i);
    }
  }

  lemma UntouchedAt(l: Ledger, events: seq<Event>, w: World, key: string, at: nat, i: nat)
    requires l.Inv() && Enumerates(w) && forall j :: 0 <= j < |events| ==> events[j].WellFormed()
    requires at < i < |events| && events[at] == Read(key)
    requires Token(Run(l, events[..at], w), key, w) == Token(Run(l, events, w), key, w) < I64_MAX
    ensures !Invalidates(Run(l, events[..i], w).clock, events[i], key)
  {
    var l0, between := Run(l, events[..at], w), events[at + 1..];
    RunKeeps(l, events[..at], w);
    RunFrom(l, events, w, at);
    RunBetween(l, events, w, at, i);
    Coherence(l0, key, between, w, i - at - 1);
  }

  lemma RunBetween(l: Ledger, events: seq<Event>, w: World, at: nat, i: nat)
    requires at < i < |events| && forall j :: 0 <= j < |events| ==> events[j].WellFormed()
    ensures Run(l, events[..i], w) == Run(Step(Run(l, events[..at], w), events[at], w),
      events[at + 1..][..i - at - 1], w)
  {
    RunFrom(l, events[..i], w, at);
    assert events[..i][..at] == events[..at] && events[..i][at + 1..] == events[at + 1..][..i - at - 1];
  }

  /**
   The target theorem. A client sends back tags it was given for `key` at any points
   of a run; the server answers 304 with the token it would issue now. Then one of
   these tags is the current one, and since it was given no event has invalidated the
   key, whatever was read, signalled, committed, reset or forgotten.
   */
  lemma NotModifiedMeansCurrent(l: Ledger, events: seq<Event>, w: World, key: string, epoch: string,
      members: seq<Member>, given: seq<nat>)
    requires l.Inv() && Enumerates(w) && forall j :: 0 <= j < |events| ==> events[j].WellFormed()
    requires ',' !in epoch && '"' !in epoch && members != [] && |given| == |members|
    requires forall k :: 0 <= k < |members| ==> GivenAt(l, events, w, key, epoch, members[k], given[k])
    requires Token(Run(l, events, w), key, w) < I64_MAX
    requires NotModified(Header(members), TokenText(epoch, Token(Run(l, events, w), key, w)))
    ensures var now := TokenText(epoch, Token(Run(l, events, w), key, w));
      exists k :: 0 <= k < |given| && members[k].token == now && Untouched(l, events, w, key, given[k])
  {
    var now := Token(Run(l, events, w), key, w);
    TokenIsPlain(epoch, now);
    NotModifiedExact(members, TokenText(epoch, now));
    var k :| 0 <= k < |members| && members[k].token == TokenText(epoch, now);
    assert GivenAt(l, events, w, key, epoch, members[k], given[k]);
    TokenTextInjective(epoch, Token(Run(l, events[..given[k]], w), key, w), now);
    EqualIsUntouched(l, events, w, key, given[k]);
  }
}
