/**
 The multi-file write: stage every file, replace them one by one, and undo on a
 raised failure. Any primitive step may fail; the file system holds an arbitrary
 schedule of failures, so the contracts speak of every one.
 */
module AtomicWrite {
  import opened Wrappers
  import opened Sorting
  import Utf8

  type Path = string
  type Bytes = seq<Utf8.Byte>

  datatype Entry = File(content: Bytes, mode: nat) | Directory

  /** A path the caller knows, or a name that `mkstemp` made up. */
  datatype Place = At(path: Path) | Staged(id: nat)

  type Files = map<Place, Entry>

  /** The new content of one file: text, so valid UTF-8 once encoded. */
  datatype Change = Change(path: Path, content: Bytes)

  /** The permissions `mkstemp` gives: 0600. */
  const PRIVATE: nat := 0x180

  function Look(fs: Files, x: Place): Option<Entry> { if x in fs then Some(fs[x]) else None }

  function ModeOf(original: Option<Entry>): nat {
    if original.Some? && original.value.File? then original.value.mode else PRIVATE
  }

  /** What a change leaves at its path: the new content under the mode the path had. */
  function Wanted(before: Files, c: Change): Entry { File(c.content, ModeOf(Look(before, At(c.path)))) }

  ghost predicate Distinct(changes: seq<Change>) {
    forall i, j :: 0 <= i < j < |changes| ==> changes[i].path != changes[j].path
  }

  ghost predicate Textual(changes: seq<Change>) {
    forall i :: 0 <= i < |changes| ==> Utf8.Valid(changes[i].content)
  }

  /** A file whose content cannot be decoded cannot be restored by the text writer. */
  predicate Decodable(original: Option<Entry>) {
    original.Some? && original.value.File? ==> Utf8.Valid(original.value.content)
  }

  // ---------------------------------------------------------------- intermediate states

  /** The known paths hold the new files of `done`, and otherwise what they held. */
  ghost predicate Paths(before: Files, fs: Files, changes: seq<Change>, done: set<nat>) {
    && (forall k: nat :: k in done ==> k < |changes|)
    && (forall k: nat :: k in done && k < |changes| ==>
      Look(fs, At(changes[k].path)) == Some(Wanted(before, changes[k])))
    && (forall p :: (forall k: nat :: k in done && k < |changes| ==> changes[k].path != p) ==>
      Look(fs, At(p)) == Look(before, At(p)))
  }

  /** The staged names hold the new files that are not `gone`, and otherwise what they held. */
  ghost predicate Temps(before: Files, fs: Files, changes: seq<Change>, ids: seq<nat>, gone: set<nat>) {
    && |ids| <= |changes|
    && (forall k: nat :: k < |ids| && k !in gone ==> Look(fs, Staged(ids[k])) == Some(Wanted(before, changes[k])))
    && (forall i: nat :: (forall k: nat :: k < |ids| && k !in gone ==> ids[k] != i) ==>
      Look(fs, Staged(i)) == Look(before, Staged(i)))
  }

  /** The names of the staged files: fresh and all different. */
  ghost predicate Fresh(first: nat, ids: seq<nat>, next: nat) {
    && (forall k :: 0 <= k < |ids| ==> first <= ids[k] < next)
    && (forall j, k :: 0 <= j < k < |ids| ==> ids[j] != ids[k])
  }

  ghost predicate TempsBelow(fs: Files, next: nat) { forall i: nat :: Staged(i) in fs ==> i < next }

  ghost predicate OldTempsKept(before: Files, fs: Files, first: nat) {
    forall i: nat :: i < first ==> Look(fs, Staged(i)) == Look(before, Staged(i))
  }

  /** A staging attempt that failed may have left its file behind. */
  function Littered(fs: Files, id: nat, left: Option<Entry>): Files {
    if left.None? then fs else fs[Staged(id) := left.value]
  }

  ghost predicate NoDirectory(before: Files, changes: seq<Change>) {
    forall c :: c in changes ==> Look(before, At(c.path)) != Some(Directory)
  }

  /** While staging: no path has changed, the originals are known, and (`exact`) only known names are staged. */
  ghost predicate StagingAt(before: Files, fs: Files, changes: seq<Change>, originals: seq<Option<Entry>>,
      ids: seq<nat>,
                            first: nat, next: nat, exact: bool) {
    && |ids| == |originals| <= |changes|
    && (forall k :: 0 <= k < |originals| ==> originals[k] == Look(before, At(changes[k].path)))
    && first <= next && Fresh(first, ids, next) && Paths(before, fs, changes, {})
    && OldTempsKept(before, fs, first)
    && (exact ==> Temps(before, fs, changes, ids, {}))
  }

  lemma StagingStops(before: Files, fs: Files, changes: seq<Change>, originals: seq<Option<Entry>>, ids: seq<nat>,
                     first: nat, n: nat, left: Option<Entry>, after: Files, next: nat, exact: bool)
    requires StagingAt(before, fs, changes, originals, ids, first, n, true) && n <= next
    requires after == Littered(fs, n, left) && (exact ==> left.None?)
    ensures StagingAt(before, after, changes, originals, ids, first, next, exact)
  {
    assert forall p :: Look(after, At(p)) == Look(fs, At(p));
    assert forall i: nat :: i < n ==> Look(after, Staged(i)) == Look(fs, Staged(i));
  }

  lemma StagedOne(before: Files, fs: Files, changes: seq<Change>, originals: seq<Option<Entry>>, ids: seq<nat>,
                  first: nat, id: nat, after: Files)
    requires StagingAt(before, fs, changes, originals, ids, first, id, true) && |ids| < |changes|
    requires after == fs[Staged(id) := Wanted(fs, changes[|ids|])]
    ensures StagingAt(before, after, changes, originals + [Look(before, At(changes[|ids|].path))], ids + [id],
      first, id + 1, true)
  {
    var c := changes[|ids|];
    assert Look(fs, At(c.path)) == Look(before, At(c.path));
    assert forall p :: Look(after, At(p)) == Look(fs, At(p));
    assert forall i: nat :: i != id ==> Look(after, Staged(i)) == Look(fs, Staged(i));
    TempsAdd(before, fs, changes, ids, id, after);
  }

  lemma TempsAdd(before: Files, fs: Files, changes: seq<Change>, ids: seq<nat>, id: nat, after: Files)
    requires Temps(before, fs, changes, ids, {}) && |ids| < |changes|
    requires forall k :: 0 <= k < |ids| ==> ids[k] != id
    requires forall i: nat ::
      Look(after, Staged(i)) == if i == id then Some(Wanted(before, changes[|ids|])) else Look(fs, Staged(i))
    ensures Temps(before, after, changes, ids + [id], {})
  {
    var more := ids + [id];
    forall i: nat | forall k: nat :: k < |more| && k !in {} ==> more[k] != i
      ensures Look(after, Staged(i)) == Look(before, Staged(i))
    {
      assert more[|ids|] != i;
      forall k: nat | k < |ids| ensures ids[k] != i { assert more[k] != i; }
    }
  }

  lemma ReplacedOne(before: Files, fs: Files, changes: seq<Change>, ids: seq<nat>, done: set<nat>, k: nat, after: Files)
    requires Distinct(changes) && |ids| == |changes| && k < |ids| && k !in done
    requires forall i, j :: 0 <= i < j < |ids| ==> ids[i] != ids[j]
    requires Paths(before, fs, changes, done) && Temps(before, fs, changes, ids, done)
    requires Staged(ids[k]) !in before && Staged(ids[k]) in fs
    requires after == fs[At(changes[k].path) := fs[Staged(ids[k])]] - {Staged(ids[k])}
    ensures Paths(before, after, changes, done + {k}) && Temps(before, after, changes, ids, done + {k})
  {
    var more := done + {k};
    assert Look(fs, Staged(ids[k])) == Some(Wanted(before, changes[k]));
    forall j: nat | j in more && j < |changes|
      ensures Look(after, At(changes[j].path)) == Some(Wanted(before, changes[j]))
    {
      if j != k { assert changes[j].path != changes[k].path; }
    }
    forall p | forall j: nat :: j in more && j < |changes| ==> changes[j].path != p
      ensures Look(after, At(p)) == Look(before, At(p))
    {
      assert k in more && changes[k].path != p;
      assert forall j: nat :: j in done && j < |changes| ==> j in more && changes[j].path != p;
    }
    TempsDrop(before, fs, changes, ids, done, k, after);
  }

  /** Taking one staged file away, by replacing a path with it or by deleting it. */
  lemma TempsDrop(before: Files, fs: Files, changes: seq<Change>, ids: seq<nat>, gone: set<nat>, k: nat, after: Files)
    requires Temps(before, fs, changes, ids, gone) && k < |ids| && Staged(ids[k]) !in before
    requires forall i, j :: 0 <= i < j < |ids| ==> ids[i] != ids[j]
    requires forall i: nat :: Look(after, Staged(i)) == if i == ids[k] then None else Look(fs, Staged(i))
    ensures Temps(before, after, changes, ids, gone + {k})
  {
    var more := gone + {k};
    forall i: nat | forall j: nat :: j < |ids| && j !in more ==> ids[j] != i
      ensures Look(after, Staged(i)) == Look(before, Staged(i))
    {
      if i != ids[k] {
        forall j: nat | j < |ids| && j !in gone ensures ids[j] != i { if j != k { assert j !in more; } }
      }
    }
  }

  ghost predicate TempsSame(before: Files, fs: Files) {
    forall i: nat :: Look(fs, Staged(i)) == Look(before, Staged(i))
  }

  lemma AllGone(before: Files, fs: Files, changes: seq<Change>, ids: seq<nat>, gone: set<nat>)
    requires Temps(before, fs, changes, ids, gone) && forall k: nat :: k < |ids| ==> k in gone
    ensures TempsSame(before, fs)
  {}

  lemma RestoredOne(before: Files, fs: Files, changes: seq<Change>, done: set<nat>, k: nat, after: Files)
    requires Distinct(changes) && Paths(before, fs, changes, done) && k in done && k < |changes|
    requires forall p :: Look(after, At(p)) == if p == changes[k].path then Look(before, At(p)) else Look(fs, At(p))
    ensures Paths(before, after, changes, done - {k})
  {
    var less := done - {k};
    forall j: nat | j in less && j < |changes|
      ensures Look(after, At(changes[j].path)) == Some(Wanted(before, changes[j]))
    {
      assert changes[j].path != changes[k].path;
    }
    forall p | forall j: nat :: j in less && j < |changes| ==> changes[j].path != p
      ensures Look(after, At(p)) == Look(before, At(p))
    {
      if p != changes[k].path {
        forall j: nat | j in done && j < |changes| ensures changes[j].path != p { if j != k { assert j in less; } }
      }
    }
  }

  // ---------------------------------------------------------------- how far the undo gets

  function SetOf(s: seq<nat>): set<nat> { set k | k in s }

  function Indices(n: nat): (s: seq<nat>)
    ensures |s| == n && forall k :: 0 <= k < n ==> s[k] == k
  {
    seq(n, i requires 0 <= i < n => i)
  }

  /** Indices of different changes. */
  ghost predicate Picks(changes: seq<Change>, order: seq<nat>) {
    && (forall j :: 0 <= j < |order| ==> order[j] < |changes|)
    && (forall i, j :: 0 <= i < j < |order| ==> order[i] != order[j])
  }

  /** How many replaced paths an undo without failures leaves replaced: those up to the last it cannot decode. */
  ghost function Stop(before: Files, changes: seq<Change>, replaced: seq<nat>): (n: nat)
    requires forall j :: 0 <= j < |replaced| ==> replaced[j] < |changes|
    ensures n <= |replaced|
    ensures n > 0 ==> !Decodable(Look(before, At(changes[replaced[n - 1]].path)))
    ensures forall j :: n <= j < |replaced| ==> Decodable(Look(before, At(changes[replaced[j]].path)))
  {
    if replaced == [] then 0
    else
      var last := |replaced| - 1;
      if !Decodable(Look(before, At(changes[replaced[last]].path))) then |replaced|
      else Stop(before, changes, replaced[..last])
  }

  lemma StopStep(before: Files, changes: seq<Change>, replaced: seq<nat>, n: nat)
    requires Picks(changes, replaced) && 0 < n <= |replaced|
    ensures Stop(before, changes, replaced[..n]) ==
      if Decodable(Look(before, At(changes[replaced[n - 1]].path))) then Stop(before, changes, replaced[..n - 1]) else n
  {
    assert replaced[..n][..n - 1] == replaced[..n - 1];
  }

  lemma SetOfLast(replaced: seq<nat>, n: nat)
    requires 0 < n <= |replaced| && forall i, j :: 0 <= i < j < |replaced| ==> replaced[i] != replaced[j]
    ensures replaced[n - 1] in SetOf(replaced[..n])
      && SetOf(replaced[..n]) - {replaced[n - 1]} == SetOf(replaced[..n - 1])
  {
    assert replaced[..n] == replaced[..n - 1] + [replaced[n - 1]];
  }

  lemma SameFiles(before: Files, fs: Files)
    requires TempsSame(before, fs) && forall p :: Look(fs, At(p)) == Look(before, At(p))
    ensures fs == before
  {
    forall x ensures x in fs <==> x in before {
      if x.At? { assert Look(fs, At(x.path)) == Look(before, At(x.path)); }
      else { assert Look(fs, Staged(x.id)) == Look(before, Staged(x.id)); }
    }
    forall x | x in fs ensures fs[x] == before[x] {
      if x.At? { assert Look(fs, At(x.path)) == Look(before, At(x.path)); }
      else { assert Look(fs, Staged(x.id)) == Look(before, Staged(x.id)); }
    }
  }

  /**
   After a failed write whose undo met no failure of its own, the file system is
   what it was exactly when every path already replaced held decodable text.
   */
  lemma UndoneExactly(before: Files, fs: Files, changes: seq<Change>, replaced: seq<nat>)
    requires Textual(changes) && Picks(changes, replaced) && TempsSame(before, fs)
    requires Paths(before, fs, changes, SetOf(replaced[..Stop(before, changes, replaced)]))
    ensures fs == before <==> forall j :: 0 <= j < |replaced| ==> Decodable(Look(before, At(changes[replaced[j]].path)))
  {
    var n := Stop(before, changes, replaced);
    if n == 0 {
      assert SetOf(replaced[..n]) == {};
      SameFiles(before, fs);
    } else {
      var k := replaced[n - 1];
      assert replaced[..n][n - 1] == k;
      assert k in SetOf(replaced[..n]);
      assert Look(fs, At(changes[k].path)) == Some(Wanted(before, changes[k]));
      assert Utf8.Valid(Wanted(before, changes[k]).content);
    }
  }

  /** One original that is not UTF-8 is enough: replaced before the failure, it is not brought back. */
  lemma UndecodableIsLost(fs: Files)
    requires var before: Files := map[At("a.rs") := File([0xFF], 420), At("b.rs") := File([], 420)];
      TempsSame(before, fs) && Paths(before, fs, [Change("a.rs", [0x61]), Change("b.rs", [0x62])], {0})
    ensures Look(fs, At("a.rs")) == Some(File([0x61], 420))
    ensures !Decodable(Some(File([0xFF], 420)))
    ensures var before: Files := map[At("a.rs") := File([0xFF], 420), At("b.rs") := File([], 420)];
      fs != before && Stop(before, [Change("a.rs", [0x61]), Change("b.rs", [0x62])], [0]) == 1
  {
    var before: Files := map[At("a.rs") := File([0xFF], 420), At("b.rs") := File([], 420)];
    var changes := [Change("a.rs", [0x61]), Change("b.rs", [0x62])];
    assert 0 in {0} && Look(fs, At(changes[0].path)) == Some(Wanted(before, changes[0]));
    assert Utf8.ScanAt([0xFF], 0, 1) == Utf8.Malformed;
  }

  /** Success, path by path: new content under the old mode or the private one, and nothing else changed. */
  lemma CommittedExactly(before: Files, fs: Files, changes: seq<Change>)
    requires Paths(before, fs, changes, SetOf(Indices(|changes|))) && TempsSame(before, fs)
    ensures forall c :: c in changes ==> Look(fs, At(c.path)) == Some(File(c.content,
      match Look(before, At(c.path)) case Some(File(_, mode)) => mode case _ => PRIVATE))
    ensures forall x :: (forall c :: c in changes ==> x != At(c.path)) ==> Look(fs, x) == Look(before, x)
  {
    forall c | c in changes ensures Look(fs, At(c.path)) == Some(Wanted(before, c)) {
      var k: nat :| k < |changes| && changes[k] == c;
      assert Indices(|changes|)[k] == k;
    }
    forall x | forall c :: c in changes ==> x != At(c.path) ensures Look(fs, x) == Look(before, x) {
      if x.At? {
        forall k: nat | k < |changes| ensures changes[k].path != x.path { assert changes[k] in changes; }
        assert Look(fs, At(x.path)) == Look(before, At(x.path));
      } else {
        assert Look(fs, Staged(x.id)) == Look(before, Staged(x.id));
      }
    }
  }

  /** Failure, path by path: whatever went wrong, each path is as before or as wanted. */
  lemma OldOrNew(before: Files, fs: Files, changes: seq<Change>, done: set<nat>, p: Path)
    requires Paths(before, fs, changes, done)
    ensures Look(fs, At(p)) == Look(before, At(p)) ||
      exists c :: c in changes && c.path == p && Look(fs, At(p)) == Some(Wanted(before, c))
  {
    if k: nat :| k in done && k < |changes| && changes[k].path == p {
      assert changes[k] in changes;
    }
  }

  // ---------------------------------------------------------------- the file system

  class FileSystem {
    var files: Files
    var next: nat
    var step: nat
    ghost var faults: nat
    const fails: nat -> bool
    const torn: nat -> Bytes

    ghost predicate Valid() reads this { TempsBelow(files, next) }

    constructor (files: Files, next: nat, fails: nat -> bool, torn: nat -> Bytes)
      requires TempsBelow(files, next)
      ensures Valid() && this.files == files && this.next == next && this.fails == fails && faults == 0
    {
      this.files, this.next, this.fails, this.torn := files, next, fails, torn;
      step, faults := 0, 0;
    }

    /** One primitive step: does the schedule let it through? */
    method Attempt() returns (ok: bool)
      modifies this`step, this`faults
      ensures ok == !fails(old(step)) && step == old(step) + 1
      ensures faults == if ok then old(faults) else old(faults) + 1
    {
      ok := !fails(step);
      step := step + 1;
      if !ok { faults := faults + 1; }
    }

    /** `Path.unlink(missing_ok=True)`. */
    method Unlink(x: Place) returns (ok: bool)
      modifies this
      ensures next == old(next) && faults == if ok then old(faults) else old(faults) + 1
      ensures files == if ok then old(files) - {x} else old(files)
    {
      ok := Attempt();
      if ok { files := files - {x}; }
    }

    /** `os.replace` of a staged file over a path. */
    method Replace(id: nat, path: Path) returns (ok: bool)
      requires Staged(id) in files
      modifies this
      ensures next == old(next) && faults == if ok then old(faults) else old(faults) + 1
      ensures files == if ok then old(files)[At(path) := old(files)[Staged(id)]] - {Staged(id)} else old(files)
    {
      ok := Attempt();
      if ok { files := files[At(path) := files[Staged(id)]] - {Staged(id)}; }
    }

    /**
     `_write_staged`: a fresh file with the content and the mode. On a failure the
     file is gone again, unless removing it failed as well.
     */
    method Stage(content: Bytes, mode: Option<nat>) returns (r: Option<nat>, ghost left: Option<Entry>)
      requires Valid()
      modifies this
      ensures Valid() && old(next) <= next
      ensures r.Some? ==> r.value == old(next) && next == old(next) + 1 && faults == old(faults)
      ensures r.Some? ==>
        files == old(files)[Staged(r.value) := File(content, if mode.Some? then mode.value else PRIVATE)]
      ensures r.None? ==> faults > old(faults) && (faults == old(faults) + 1 ==> left.None?)
      ensures r.None? ==> files == Littered(old(files), old(next), left)
    {
      r, left := None, None;
      var made := Attempt();
      if !made { return; }
      var id := next;
      next := next + 1;
      files := files[Staged(id) := File([], PRIVATE)];
      var at := step;
      var ok := Attempt();
      files := files[Staged(id) := File(if ok then content else torn(at), PRIVATE)];
      if ok && mode.Some? {
        ok := Attempt();
        if ok { files := files[Staged(id) := File(content, mode.value)]; }
      }
      if ok { return Some(id), None; }
      left := Some(files[Staged(id)]);
      var removed := Unlink(Staged(id));
      if removed {
        left := None;
        assert files == old(files);
      }
    }

    /** One turn of the staging loop: refuse a non-file, remember the original, stage the new content. */
    method StageOne(c: Change) returns (original: Option<Entry>, id: Option<nat>, ghost left: Option<Entry>)
      requires Valid()
      modifies this
      ensures Valid() && old(next) <= next && original == Look(old(files), At(c.path))
      ensures id.Some? ==>
        id.value == old(next) && next == old(next) + 1 && faults == old(faults) && original != Some(Directory)
      ensures id.Some? ==> files == old(files)[Staged(id.value) := Wanted(old(files), c)]
      ensures old(faults) <= faults && (id.None? ==> (faults == old(faults) <==> original == Some(Directory)))
      ensures id.None? && faults <= old(faults) + 1 ==> left.None?
      ensures id.None? ==> files == Littered(old(files), old(next), left)
    {
      original, id, left := Look(files, At(c.path)), None, None;
      if original == Some(Directory) { return; }
      if original.Some? {
        var bytes := Attempt();
        if !bytes { return; }
        var mode := Attempt();
        if !mode { return; }
      }
      id, left := Stage(c.content, if original.Some? then Some(original.value.mode) else None);
    }

    /** The first loop of `atomic_write_many`: remember and stage, change by change. */
    method StageAll(changes: seq<Change>)
      returns (ok: bool, originals: seq<Option<Entry>>, ids: seq<nat>, ghost refused: bool)
      requires Valid()
      modifies this
      ensures Valid() && StagingAt(old(files), files, changes, originals, ids, old(next), next,
        faults <= old(faults) + 1)
      ensures ok <==> faults == old(faults) && NoDirectory(old(files), changes)
      ensures ok ==> |ids| == |changes|
      ensures !ok && faults == old(faults) ==> refused
      ensures refused ==> !NoDirectory(old(files), changes)
      ensures old(faults) <= faults && (refused ==> faults == old(faults))
    {
      originals, ids, ok, refused := [], [], true, false;
      for k := 0 to |changes|
        invariant Valid() && |ids| == k && faults == old(faults)
        invariant StagingAt(old(files), files, changes, originals, ids, old(next), next, true)
        invariant NoDirectory(old(files), changes[..k])
      {
        ghost var before, n := files, next;
        var original, id, left := StageOne(changes[k]);
        assert Look(before, At(changes[k].path)) == Look(old(files), At(changes[k].path));
        if id.None? {
          StagingStops(old(files), before, changes, originals, ids, old(next), n, left, files, next,
            faults <= old(faults) + 1);
          ok, refused := false, original == Some(Directory);
          return;
        }
        StagedOne(old(files), before, changes, originals, ids, old(next), n, files);
        originals, ids := originals + [original], ids + [id.value];
        assert changes[..k + 1] == changes[..k] + [changes[k]];
      }
      assert changes[..|changes|] == changes;
    }

    /** The second loop: move every staged file over its path, in order. */
    method ReplaceAll(ghost before: Files, ghost first: nat, changes: seq<Change>, ids: seq<nat>, order: seq<nat>)
      returns (ok: bool, replaced: seq<nat>)
      requires Valid() && TempsBelow(before, first) && Fresh(first, ids, next) && |ids| == |changes|
      requires Distinct(changes) && Picks(changes, order)
      requires Paths(before, files, changes, {}) && Temps(before, files, changes, ids, {})
      modifies this
      ensures Valid() && next == old(next) && |replaced| <= |order| && replaced == order[..|replaced|]
      ensures Paths(before, files, changes, SetOf(replaced)) && Temps(before, files, changes, ids, SetOf(replaced))
      ensures if ok then faults == old(faults) && replaced == order else faults == old(faults) + 1
    {
      replaced, ok := [], true;
      assert SetOf([]) == {};
      for j := 0 to |order|
        invariant Valid() && next == old(next) && faults == old(faults) && replaced == order[..j]
        invariant Paths(before, files, changes, SetOf(replaced)) && Temps(before, files, changes, ids, SetOf(replaced))
      {
        var k := order[j];
        assert k !in SetOf(replaced);
        assert Look(files, Staged(ids[k])) == Some(Wanted(before, changes[k]));
        ghost var fs := files;
        var moved := Replace(ids[k], changes[k].path);
        if !moved { return false, replaced; }
        ReplacedOne(before, fs, changes, ids, SetOf(replaced), k, files);
        assert SetOf(replaced + [k]) == SetOf(replaced) + {k};
        replaced := replaced + [k];
      }
    }

    /** The handler's first loop: delete what is still staged. */
    method RemoveStaged(ghost before: Files, ghost first: nat, changes: seq<Change>, ids: seq<nat>,
        ghost gone: set<nat>)
      returns (ok: bool)
      requires Valid() && TempsBelow(before, first) && Fresh(first, ids, next)
      requires OldTempsKept(before, files, first)
      modifies this
      ensures Valid() && next == old(next) && (ok <==> faults == old(faults)) && old(faults) <= faults
      ensures forall p :: Look(files, At(p)) == Look(old(files), At(p))
      ensures OldTempsKept(before, files, first)
      ensures ok && Temps(before, old(files), changes, ids, gone) ==> TempsSame(before, files)
    {
      ghost var away: set<nat> := gone;
      for k := 0 to |ids|
        invariant Valid() && next == old(next) && faults == old(faults) && OldTempsKept(before, files, first)
        invariant forall p :: Look(files, At(p)) == Look(old(files), At(p))
        invariant forall j: nat :: j < k ==> j in away
        invariant Temps(before, old(files), changes, ids, gone) ==> Temps(before, files, changes, ids, away)
      {
        ghost var fs := files;
        ok := Unlink(Staged(ids[k]));
        if !ok { return; }
        if Temps(before, fs, changes, ids, away) {
          TempsDrop(before, fs, changes, ids, away, k, files);
        }
        away := away + {k};
      }
      ok := true;
      if Temps(before, files, changes, ids, away) { AllGone(before, files, changes, ids, away); }
    }

    /** One turn of the handler's second loop: put an original back, or delete what was not there. */
    method Restore(path: Path, original: Option<Entry>) returns (ok: bool)
      requires Valid() && original != Some(Directory)
      modifies this
      ensures Valid() && old(next) <= next && old(faults) <= faults
      ensures forall p :: Look(files, At(p)) == if ok && p == path then original else Look(old(files), At(p))
      ensures forall i: nat :: i < old(next) ==> Look(files, Staged(i)) == Look(old(files), Staged(i))
      ensures faults == old(faults) ==> (ok <==> Decodable(original)) && TempsSame(old(files), files)
      ensures ok ==> faults == old(faults)
    {
      if original.None? {
        ok := Unlink(At(path));
        return;
      }
      if !Utf8.Valid(original.value.content) { return false; }
      var id, left := Stage(original.value.content, Some(original.value.mode));
      if id.None? { return false; }
      assert forall i: nat :: i < old(next) ==> Staged(i) != Staged(id.value);
      ok := Replace(id.value, path);
    }

    /** The handler's second loop: restore the replaced paths, last first, until a step raises. */
    method RestoreAll(ghost before: Files, ghost first: nat, changes: seq<Change>, originals: seq<Option<Entry>>,
        replaced: seq<nat>)
      returns (kept: nat)
      requires Valid() && first <= next && Distinct(changes) && Picks(changes, replaced) && |originals| == |changes|
      requires forall k :: 0 <= k < |changes| ==> originals[k] == Look(before, At(changes[k].path)) != Some(Directory)
      requires Paths(before, files, changes, SetOf(replaced)) && OldTempsKept(before, files, first)
      modifies this
      ensures Valid() && kept <= |replaced| && old(faults) <= faults
      ensures Paths(before, files, changes, SetOf(replaced[..kept])) && OldTempsKept(before, files, first)
      ensures faults == old(faults) ==> kept == Stop(before, changes, replaced)
      ensures faults == old(faults) && TempsSame(before, old(files)) ==> TempsSame(before, files)
    {
      kept := |replaced|;
      assert replaced[..kept] == replaced;
      while kept > 0
        invariant Valid() && first <= next && kept <= |replaced| && faults == old(faults)
        invariant Paths(before, files, changes, SetOf(replaced[..kept])) && OldTempsKept(before, files, first)
        invariant Stop(before, changes, replaced[..kept]) == Stop(before, changes, replaced)
        invariant TempsSame(before, old(files)) ==> TempsSame(before, files)
      {
        var k := replaced[kept - 1];
        ghost var fs := files;
        StopStep(before, changes, replaced, kept);
        SetOfLast(replaced, kept);
        var ok := Restore(changes[k].path, originals[k]);
        if !ok {
          PathsSame(before, fs, changes, SetOf(replaced[..kept]), files);
          return;
        }
        RestoredOne(before, fs, changes, SetOf(replaced[..kept]), k, files);
        kept := kept - 1;
      }
    }

    /**
     `atomic_write_many`. It succeeds exactly when no step fails and no target is a
     directory. Otherwise it raises; every path then holds its original or its new
     entry, and when the undo itself met no failure nothing staged is left and it
     went back as far as `Stop` says.
     */
    method AtomicWriteMany(changes: seq<Change>, pathLe: (Path, Path) -> bool)
      returns (done: bool, ghost refused: bool, ghost replaced: seq<nat>, ghost kept: nat)
      requires Valid() && Distinct(changes)
      modifies this
      ensures Valid() && old(faults) <= faults
      ensures done <==> faults == old(faults) && NoDirectory(old(files), changes)
      ensures refused ==> !NoDirectory(old(files), changes)
      ensures !done ==> refused || old(faults) < faults
      ensures done ==> Paths(old(files), files, changes, SetOf(Indices(|changes|))) && TempsSame(old(files), files)
      ensures !done ==> kept <= |replaced| && Picks(changes, replaced)
      ensures !done ==>
        Paths(old(files), files, changes, SetOf(replaced[..kept])) && OldTempsKept(old(files), files, old(next))
      ensures !done && faults + (if refused then 1 else 0) <= old(faults) + 1 ==>
        TempsSame(old(files), files) && kept == Stop(old(files), changes, replaced)
    {
      ghost var before, first := files, next;
      var staged, originals, ids, no := StageAll(changes);
      assert SetOf([]) == {};
      ghost var fs := files;
      if !staged {
        var ok := RemoveStaged(before, first, changes, ids, {});
        PathsSame(before, fs, changes, {}, files);
        return false, no, [], 0;
      }
      var order := SortedIndices(changes, pathLe);
      var moved, put := ReplaceAll(before, first, changes, ids, order);
      if moved {
        forall k: nat | k < |ids| ensures k in SetOf(put) { assert Indices(|changes|)[k] == k; }
        AllGone(before, files, changes, ids, SetOf(put));
        return true, false, put, |put|;
      }
      fs := files;
      TempsKeepOld(before, fs, changes, ids, SetOf(put), first, next);
      var ok := RemoveStaged(before, first, changes, ids, SetOf(put));
      PathsSame(before, fs, changes, SetOf(put), files);
      assert put[..|put|] == put;
      if !ok { return false, false, put, |put|; }
      var n := RestoreAll(before, first, changes, originals, put);
      return false, false, put, n;
    }
  }

  lemma TempsKeepOld(before: Files, fs: Files, changes: seq<Change>, ids: seq<nat>, gone: set<nat>, first: nat,
      next: nat)
    requires Temps(before, fs, changes, ids, gone) && Fresh(first, ids, next)
    ensures OldTempsKept(before, fs, first)
  {}

  lemma PathsSame(before: Files, fs: Files, changes: seq<Change>, done: set<nat>, after: Files)
    requires Paths(before, fs, changes, done) && forall p :: Look(after, At(p)) == Look(fs, At(p))
    ensures Paths(before, after, changes, done)
  {}

  /** `sorted(staged)`, as indices into the changes; any order relation will do. */
  method SortedIndices(changes: seq<Change>, pathLe: (Path, Path) -> bool) returns (order: seq<nat>)
    ensures Picks(changes, order) && SetOf(order) == SetOf(Indices(|changes|))
  {
    var all := Indices(|changes|);
    var le := (i: nat, j: nat) => i < |changes| && j < |changes| && pathLe(changes[i].path, changes[j].path);
    order := Sort(le, all);
    SortPermutes(le, all);
    SameElements(order, all);
    DistinctSorted(all, order);
    forall j | 0 <= j < |order| ensures order[j] < |changes| { assert order[j] in order; }
  }
}
