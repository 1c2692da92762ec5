/**
 The bounded revision clock behind ETags: a strictly increasing tick, a cache of
 per-key revisions of fixed capacity, and a reset floor that stands in for every
 key the cache has forgotten.

 `State` is the value the clock holds; `Clock` is the object that updates it in
 place. Wall-clock readings come from an arbitrary function `wall`: nothing here
 assumes that time moves forward.
 */
module RevisionClock {
  import opened Wrappers

  const I64_MIN: int := -0x8000_0000_0000_0000
  const I64_MAX: int := 0x7fff_ffff_ffff_ffff

  type i64 = x: int | I64_MIN <= x <= I64_MAX

  type Wall = nat -> i64

  function Max(a: i64, b: i64): i64 { if a < b then b else a }

  /** `i64::saturating_add(1)`. */
  function SaturatingInc(a: i64): i64 { if a == I64_MAX then a else a + 1 }

  /** A committed position inside one kernel epoch. */
  datatype Cursor = Cursor(epoch: int, position: int)

  datatype State = State(
    capacity: nat,
    position: Option<Cursor>,
    revision: i64,
    floor: i64,                 // `reset_revision`
    local: map<string, i64>,
    ticks: nat                  // wall-clock readings taken by ticks so far
  ) {
    predicate Inv() {
      && 1 <= capacity
      && |local| <= capacity
      && floor <= revision
      && forall k :: k in local ==> floor <= local[k] <= revision
    }

    function Tick(wall: Wall): State {
      this.(revision := Max(wall(ticks), SaturatingInc(revision)), ticks := ticks + 1)
    }

    predicate Advances(cursor: Cursor) {
      position.None? || position.value.epoch != cursor.epoch || position.value.position < cursor.position
    }

    function Observe(cursor: Cursor, wall: Wall): State {
      if Advances(cursor) then this.(position := Some(cursor)).Tick(wall) else this
    }

    predicate Full(key: string) { key !in local && |local| == capacity }

    /** What `set` does before it stores: forget everything rather than one key. */
    function MakeRoom(key: string, wall: Wall): State {
      if Full(key) then
        var s := Tick(wall);
        s.(floor := s.revision, local := map[])
      else this
    }

    function Set(key: string, rev: i64, wall: Wall): State {
      var s := MakeRoom(key, wall);
      s.(local := s.local[key := Max(rev, s.floor)])
    }

    function SetAll(keys: seq<string>, rev: i64, wall: Wall): State
      decreases |keys|
    {
      if keys == [] then this else Set(keys[0], rev, wall).SetAll(keys[1..], rev, wall)
    }

    function Reset(to: Option<Cursor>, wall: Wall): State {
      var s := Tick(wall);
      s.(floor := s.revision, position := to, local := map[])
    }

    /** The revision a key stands at: its cached one, or the floor once forgotten. */
    function Peek(key: string): i64 {
      if key in local then Max(local[key], floor) else floor
    }

    function Issue(key: string, wall: Wall): State { Set(key, Peek(key), wall) }

    /** One tick shared by a batch of invalidated keys. */
    function Invalidate(keys: seq<string>, wall: Wall): State {
      var s := Tick(wall);
      s.SetAll(keys, s.revision, wall)
    }

    /** No token of `key` above `t` was ever issued and then forgotten. */
    predicate Covers(key: string, t: i64) {
      t == I64_MAX || t < floor || (key in local && t <= local[key])
    }

    /** Every token of `key` issued from now on exceeds `t`. */
    predicate Outdates(key: string, t: i64) {
      t == I64_MAX || t < floor || (key in local && t < local[key])
    }

    /** Storing `rev` under any key loses nothing that is cached. */
    predicate Dominates(rev: i64) {
      rev <= revision && forall k :: k in local ==> local[k] <= Max(rev, floor)
    }
  }

  /** `Clock::new`, with its two separate wall-clock readings. */
  function Init(capacity: nat, first: i64, second: i64): State {
    State(capacity, None, first, second, map[], 0)
  }

  // ---------------------------------------------------------------- one operation

  lemma TickKeeps(s: State, wall: Wall)
    requires s.Inv()
    ensures s.Tick(wall).Inv() && s.revision <= s.Tick(wall).revision
    ensures s.revision < I64_MAX ==> s.revision < s.Tick(wall).revision
    ensures s.Tick(wall).Dominates(s.Tick(wall).revision)
  {}

  /** What storing a key keeps, whether or not the cache had to be emptied first. */
  lemma SetKeeps(s: State, key: string, rev: i64, wall: Wall)
    requires s.Inv() && rev <= s.revision
    requires key in s.local ==> s.local[key] <= Max(rev, s.floor)
    ensures
      var r := s.Set(key, rev, wall);
      && r.Inv() && r.capacity == s.capacity && s.revision <= r.revision && s.floor <= r.floor
      && key in r.local && Max(rev, s.floor) <= r.local[key]
      && (s.Dominates(rev) ==> r.Dominates(rev))
      && (forall k, t: i64 | t <= s.revision :: s.Covers(k, t) ==> r.Covers(k, t))
      && (forall k, t: i64 | t <= s.revision :: s.Outdates(k, t) ==> r.Outdates(k, t))
      && (forall k :: s.Peek(k) <= r.Peek(k))
      && (!s.Full(key) ==> r.floor == s.floor)
      && (r.floor == s.floor ==> forall k :: k != key ==> r.Peek(k) == s.Peek(k))
  {
    var m := s.MakeRoom(key, wall);
    MakeRoomKeeps(s, key, rev, wall);
    PutGrows(m.local, key, Max(rev, m.floor));
  }

  lemma MakeRoomKeeps(s: State, key: string, rev: i64, wall: Wall)
    requires s.Inv() && rev <= s.revision
    ensures
      var m := s.MakeRoom(key, wall);
      && m.Inv() && (key in m.local || |m.local| < m.capacity)
      && m.capacity == s.capacity && s.revision <= m.revision && s.floor <= m.floor
      && (s.Dominates(rev) ==> m.Dominates(rev))
      && (forall k, t: i64 | t <= s.revision :: s.Covers(k, t) ==> m.Covers(k, t))
      && (forall k, t: i64 | t <= s.revision :: s.Outdates(k, t) ==> m.Outdates(k, t))
      && (forall k :: s.Peek(k) <= m.Peek(k))
      && (m.floor == s.floor ==> forall k :: m.Peek(k) == s.Peek(k))
      && (m == s || m.local == map[])
  {}

  /** A batch raises each of its keys past everything below `rev`, in any order. */
  lemma {:induction false} SetAllKeeps(s: State, keys: seq<string>, rev: i64, wall: Wall)
    requires s.Inv() && s.Dominates(rev)
    ensures
      var r := s.SetAll(keys, rev, wall);
      && r.Inv() && r.capacity == s.capacity && s.revision <= r.revision && s.floor <= r.floor
      && (forall k, t: i64 | t <= s.revision :: s.Covers(k, t) ==> r.Covers(k, t))
      && (forall k, t: i64 | t <= s.revision :: s.Outdates(k, t) ==> r.Outdates(k, t))
      && (forall k :: s.Peek(k) <= r.Peek(k))
      && (forall k, t: i64 | k in keys && t < rev :: r.Outdates(k, t))
      && (forall k | k in keys :: rev <= r.Peek(k))
      && (r.floor == s.floor ==> forall k :: k !in keys ==> r.Peek(k) == s.Peek(k))
    decreases |keys|
  {
    if keys != [] {
      var m := s.Set(keys[0], rev, wall);
      SetKeeps(s, keys[0], rev, wall);
      SetAllKeeps(m, keys[1..], rev, wall);
      var r := s.SetAll(keys, rev, wall);
      assert r == m.SetAll(keys[1..], rev, wall);
      assert keys == [keys[0]] + keys[1..];
      forall t: i64 | t < rev ensures r.Outdates(keys[0], t) {
        assert m.Outdates(keys[0], t);
      }
    }
  }

  lemma ResetKeeps(s: State, to: Option<Cursor>, wall: Wall)
    requires s.Inv()
    ensures
      var r := s.Reset(to, wall);
      && r.Inv() && r.capacity == s.capacity && s.revision <= r.revision
      && (forall k :: s.Peek(k) <= r.Peek(k))
      && (forall k, t: i64 | t <= s.revision :: r.Outdates(k, t))
  {}

  /** Issuing a token returns what the key stands at, never less than before. */
  lemma IssueKeeps(s: State, key: string, wall: Wall)
    requires s.Inv()
    ensures
      var r := s.Issue(key, wall);
      && r.Inv() && r.capacity == s.capacity && s.revision <= r.revision
      && key in r.local && s.Peek(key) <= r.local[key] <= r.revision
      && (forall k, t: i64 | t <= s.revision :: s.Covers(k, t) ==> r.Covers(k, t))
      && (forall k, t: i64 | t <= s.revision :: s.Outdates(k, t) ==> r.Outdates(k, t))
      && (forall k :: s.Peek(k) <= r.Peek(k))
  {
    SetKeeps(s, key, s.Peek(key), wall);
  }

  /** An outdated token is never issued again. */
  lemma OutdatedNotIssued(s: State, key: string, t: i64, wall: Wall)
    requires s.Inv() && s.Outdates(key, t) && t < I64_MAX
    ensures key in s.Issue(key, wall).local && t < s.Issue(key, wall).local[key]
  {
    IssueKeeps(s, key, wall);
  }

  /** Reading an unchanged resource again repeats its token and changes nothing. */
  lemma IssueStable(s: State, key: string, wall: Wall)
    requires s.Inv()
    ensures var r := s.Issue(key, wall); r.Issue(key, wall) == r
  {
    var r := s.Issue(key, wall);
    IssueKeeps(s, key, wall);
    assert r.local[key := r.local[key]] == r.local;
  }

  /**
   The exact strength of one invalidation: a key moves strictly past its old
   revision if and only if that revision is below the top of i64.
   */
  lemma InvalidateStrict(s: State, keys: seq<string>, key: string, wall: Wall)
    requires s.Inv() && key in keys
    ensures s.Peek(key) < s.Invalidate(keys, wall).Peek(key) <==> s.Peek(key) < I64_MAX
  {
    TickKeeps(s, wall);
    var m := s.Tick(wall);
    SetAllKeeps(m, keys, m.revision, wall);
  }

  /**
   `Clock::new` reads the wall clock twice, revision first. The first
   invalidation is effective whatever the next reading is, if and only if the
   second reading was not later than the first.
   */
  lemma FirstInvalidation(capacity: nat, first: i64, second: i64, key: string)
    requires 1 <= capacity && first < I64_MAX
    ensures
      (forall wall: Wall :: var s := Init(capacity, first, second);
        s.Peek(key) < s.Invalidate([key], wall).Peek(key)) <==> second <= first
  {
    var s := Init(capacity, first, second);
    forall wall: Wall | second <= first
      ensures s.Peek(key) < s.Invalidate([key], wall).Peek(key)
    {
      InvalidateStrict(s, [key], key, wall);
    }
    if first < second {
      var frozen: Wall := (n: nat) => second;
      FrozenInvalidation(capacity, first, second, key, frozen);
      assert !(s.Peek(key) < s.Invalidate([key], frozen).Peek(key));
    }
  }

  lemma FrozenInvalidation(capacity: nat, first: i64, second: i64, key: string, wall: Wall)
    requires 1 <= capacity && first < second && wall(0) == second
    ensures Init(capacity, first, second).Invalidate([key], wall).Peek(key) == second
  {
    var m := Init(capacity, first, second).Tick(wall);
    assert m.SetAll([key], m.revision, wall) == m.Set(key, m.revision, wall).SetAll([], m.revision, wall);
  }

  // ---------------------------------------------------------------- the object

  /**
   A least-recently-used cache. When it is full it evicts one entry of its own
   choosing to admit a new key; which one is left open.
   */
  class LruCache {
    const capacity: nat
    var entries: map<string, i64>

    ghost predicate Valid()
      reads this
    {
      1 <= capacity && |entries| <= capacity
    }

    constructor (capacity: nat)
      requires 1 <= capacity
      ensures Valid() && this.capacity == capacity && entries == map[]
    {
      this.capacity := capacity;
      entries := map[];
    }

    method Put(key: string, value: i64) returns (evicted: Option<string>)
      requires Valid()
      modifies this
      ensures Valid()
      ensures evicted.None? <==> key in old(entries) || |old(entries)| < capacity
      ensures evicted.None? ==> entries == old(entries)[key := value]
      ensures evicted.Some? ==> evicted.value in old(entries)
                                && entries == (old(entries) - {evicted.value})[key := value]
    {
      evicted := None;
      if key !in entries && |entries| == capacity {
        PickKey(entries);
        var victim :| victim in entries;
        RemoveShrinks(entries, victim);
        evicted := Some(victim);
        entries := entries - {victim};
      }
      PutGrows(entries, key, value);
      entries := entries[key := value];
    }

    method Clear()
      modifies this
      ensures entries == map[]
    {
      entries := map[];
    }
  }

  lemma PickKey(m: map<string, i64>)
    requires |m| > 0
    ensures exists k :: k in m
  {
    assert m.Keys != {};
    var k :| k in m.Keys;
    assert k in m;
  }

  lemma RemoveShrinks(m: map<string, i64>, k: string)
    requires k in m
    ensures |m - {k}| == |m| - 1
  {
    assert (m - {k}).Keys == m.Keys - {k};
  }

  lemma PutGrows(m: map<string, i64>, k: string, v: i64)
    ensures |m[k := v]| == if k in m then |m| else |m| + 1
  {
    assert m[k := v].Keys == m.Keys + {k};
    if k in m { assert m[k := v].Keys == m.Keys; }
  }

  class Clock {
    const wall: Wall
    const cache: LruCache
    var position: Option<Cursor>
    var revision: i64
    var floor: i64
    var ticks: nat

    ghost predicate Valid()
      reads this, cache
    {
      cache.Valid()
    }

    ghost function Value(): State
      reads this, cache
    {
      State(cache.capacity, position, revision, floor, cache.entries, ticks)
    }

    constructor (capacity: nat, wall: Wall, first: i64, second: i64)
      requires 1 <= capacity
      ensures Valid() && fresh(cache) && this.wall == wall
      ensures Value() == Init(capacity, first, second)
    {
      this.wall := wall;
      cache := new LruCache(capacity);
      position := None;
      revision := first;
      floor := second;
      ticks := 0;
    }

    method Tick() returns (now: i64)
      requires Valid()
      modifies this
      ensures Valid() && Value() == old(Value()).Tick(wall) && now == revision
    {
      revision := Max(wall(ticks), SaturatingInc(revision));
      ticks := ticks + 1;
      now := revision;
    }

    method Observe(cursor: Cursor)
      requires Valid()
      modifies this
      ensures Valid() && Value() == old(Value()).Observe(cursor, wall)
    {
      if position.None? || position.value.epoch != cursor.epoch || position.value.position < cursor.position {
        position := Some(cursor);
        var _ := Tick();
      }
    }

    /** The cache is emptied before it could evict, so its own eviction never runs. */
    method Set(key: string, rev: i64) returns (stored: i64, evicted: Option<string>)
      requires Valid()
      modifies this, cache
      ensures Valid() && Value() == old(Value()).Set(key, rev, wall)
      ensures stored == Value().local[key]
      ensures evicted.None?
    {
      if key !in cache.entries && |cache.entries| == cache.capacity {
        floor := Tick();
        cache.Clear();
      }
      stored := Max(rev, floor);
      evicted := cache.Put(key, stored);
    }

    method SetAll(keys: seq<string>, rev: i64)
      requires Valid()
      modifies this, cache
      ensures Valid() && Value() == old(Value()).SetAll(keys, rev, wall)
    {
      var i := 0;
      assert keys[0..] == keys;
      while i < |keys|
        invariant 0 <= i <= |keys| && Valid()
        invariant old(Value()).SetAll(keys, rev, wall) == Value().SetAll(keys[i..], rev, wall)
      {
        assert keys[i..][0] == keys[i] && keys[i..][1..] == keys[i + 1..];
        var _, _ := Set(keys[i], rev);
        i := i + 1;
      }
    }

    method Reset(to: Option<Cursor>)
      requires Valid()
      modifies this, cache
      ensures Valid() && Value() == old(Value()).Reset(to, wall)
    {
      floor := Tick();
      position := to;
      cache.Clear();
    }

    /** `ResourceRevisions::token`, before the epoch is prepended. */
    method Issue(key: string) returns (token: i64)
      requires Valid()
      modifies this, cache
      ensures Valid() && Value() == old(Value()).Issue(key, wall)
      ensures token == Value().local[key]
    {
      var current := if key in cache.entries then cache.entries[key] else floor;
      var evicted;
      token, evicted := Set(key, Max(current, floor));
    }
  }
}
