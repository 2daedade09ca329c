/** Which registered folder's grant a file's code answers to: the nearest around it. */
module Registry {
  import opened StableSort
  import opened Wrappers

  // ── Folders ──

  type Name = s: string | s != "" witness "a"

  /** The parts of a path below the root. */
  type Dir = seq<Name>

  function Bytes(dir: Dir): nat {
    if dir == [] then 0 else Bytes(dir[..|dir| - 1]) + 1 + |dir[|dir| - 1]|
  }

  /** The length of the path as text: a separator before each part, or alone. */
  function Length(dir: Dir): nat {
    if dir == [] then 1 else Bytes(dir)
  }

  /** Whether `path` lies in `dir`, part by part. */
  predicate Under(path: Dir, dir: Dir) {
    dir <= path
  }

  lemma {:induction false} BytesGrow(a: Dir, b: Dir)
    requires a <= b
    ensures Bytes(b) >= Bytes(a) + 2 * (|b| - |a|)
    decreases |b|
  {
    if |a| < |b| {
      var c := b[..|b| - 1];
      assert a <= c;
      BytesGrow(a, c);
    } else {
      assert a == b;
    }
  }

  /** Of two folders that hold a file, the longer text is the deeper folder. */
  lemma DeeperIsLonger(path: Dir, a: Dir, b: Dir)
    requires Under(path, a) && Under(path, b)
    ensures |a| < |b| <==> Length(a) < Length(b)
    ensures |a| == |b| ==> a == b
  {
    if |a| < |b| {
      assert a == b[..|a|];
      BytesGrow(a, b);
    } else if |b| < |a| {
      assert b == a[..|b|];
      BytesGrow(b, a);
    } else {
      assert a == path[..|a|] == b;
    }
  }

  // ── First match, and the nearest folder ──

  /** The first entry whose folder holds the file. */
  function FirstMatch<T>(dirOf: T -> Dir, ms: seq<T>, path: Dir): Option<T> {
    if ms == [] then None
    else if Under(path, dirOf(ms[0])) then Some(ms[0])
    else FirstMatch(dirOf, ms[1..], path)
  }

  /** What each folder holds; of two entries for one folder, the first. */
  function Folders<T>(dirOf: T -> Dir, ms: seq<T>): map<Dir, T> {
    if ms == [] then map[] else Folders(dirOf, ms[1..])[dirOf(ms[0]) := ms[0]]
  }

  /** The entry of the file's own folder or, failing it, of the nearest around it. */
  function Nearest<T>(folders: map<Dir, T>, path: Dir): Option<T>
    decreases |path|
  {
    if path in folders then Some(folders[path])
    else if path == [] then None
    else Nearest(folders, path[..|path| - 1])
  }

  lemma {:induction false} NearestIsDeepest<T>(folders: map<Dir, T>, path: Dir, dir: Dir)
    requires dir in folders && Under(path, dir)
    requires forall d :: d in folders && Under(path, d) ==> |d| <= |dir|
    ensures Nearest(folders, path) == Some(folders[dir])
    decreases |path|
  {
    if path in folders {
      assert Under(path, path);
      assert path == dir;
    } else {
      assert path != dir;
      var up := path[..|path| - 1];
      assert Under(up, dir);
      forall d | d in folders && Under(up, d) ensures |d| <= |dir| {
        assert Under(path, d);
      }
      NearestIsDeepest(folders, up, dir);
    }
  }

  lemma {:induction false} NearestNone<T>(folders: map<Dir, T>, path: Dir)
    requires forall d :: d in folders ==> !Under(path, d)
    ensures Nearest(folders, path) == None
    decreases |path|
  {
    assert Under(path, path);
    if path != [] {
      var up := path[..|path| - 1];
      forall d | d in folders ensures !Under(up, d) {
        assert Under(up, d) ==> Under(path, d);
      }
      NearestNone(folders, up);
    }
  }

  lemma {:induction false} FoldersHolds<T>(dirOf: T -> Dir, ms: seq<T>, d: Dir)
    ensures d in Folders(dirOf, ms) <==> exists i :: 0 <= i < |ms| && dirOf(ms[i]) == d
    ensures d in Folders(dirOf, ms) ==> Folders(dirOf, ms)[d] in ms && dirOf(Folders(dirOf, ms)[d]) == d
  {
    if ms != [] {
      FoldersHolds(dirOf, ms[1..], d);
      if i :| 0 <= i < |ms| && dirOf(ms[i]) == d {
        assert i > 0 ==> dirOf(ms[1..][i - 1]) == d;
      }
      if i :| 0 <= i < |ms[1..]| && dirOf(ms[1..][i]) == d {
        assert dirOf(ms[i + 1]) == d;
      }
    }
  }

  /** Searched in order of falling length, the first match is the nearest folder. */
  lemma {:induction false} FirstMatchIsNearest<T(!new)>(dirOf: T -> Dir, key: T -> int, ms: seq<T>, path: Dir)
    requires Falling(key, ms)
    requires forall t :: key(t) == Length(dirOf(t))
    ensures FirstMatch(dirOf, ms, path) == Nearest(Folders(dirOf, ms), path)
  {
    if ms == [] {
      NearestNone(Folders(dirOf, ms), path);
    } else {
      var first, rest := dirOf(ms[0]), Folders(dirOf, ms[1..]);
      if Under(path, first) {
        forall d | d in Folders(dirOf, ms) && Under(path, d) ensures |d| <= |first| {
          FoldersHolds(dirOf, ms, d);
          DeeperIsLonger(path, first, d);
        }
        NearestIsDeepest(Folders(dirOf, ms), path, first);
      } else {
        FirstMatchIsNearest(dirOf, key, ms[1..], path);
        NearestSkips(rest, first, ms[0], path);
      }
    }
  }

  /** A folder that does not hold the file does not matter to it. */
  lemma {:induction false} NearestSkips<T>(folders: map<Dir, T>, dir: Dir, t: T, path: Dir)
    requires !Under(path, dir)
    ensures Nearest(folders[dir := t], path) == Nearest(folders, path)
    decreases |path|
  {
    assert Under(path, path);
    if path !in folders && path != [] {
      assert Under(path[..|path| - 1], dir) ==> Under(path, dir);
      NearestSkips(folders, dir, t, path[..|path| - 1]);
    }
  }

  lemma {:induction false} InsertKeepsFolders<T>(dirOf: T -> Dir, key: T -> int, t: T, ms: seq<T>)
    requires forall u, v :: dirOf(u) == dirOf(v) ==> key(u) == key(v)
    ensures Folders(dirOf, Insert(key, t, ms)) == Folders(dirOf, [t] + ms)
  {
    assert ([t] + ms)[1..] == ms;
    if ms != [] && key(t) < key(ms[0]) {
      InsertKeepsFolders(dirOf, key, t, ms[1..]);
      assert ([t] + ms[1..])[1..] == ms[1..];
      assert dirOf(t) != dirOf(ms[0]);
    }
  }

  /** Sorting by length loses no folder, and a stable sort keeps which entry of one
      folder comes first. */
  lemma {:induction false} SortKeepsFolders<T>(dirOf: T -> Dir, key: T -> int, ms: seq<T>)
    requires forall u, v :: dirOf(u) == dirOf(v) ==> key(u) == key(v)
    ensures Folders(dirOf, SortFalling(key, ms)) == Folders(dirOf, ms)
  {
    if ms != [] {
      SortKeepsFolders(dirOf, key, ms[1..]);
      var rest := SortFalling(key, ms[1..]);
      InsertKeepsFolders(dirOf, key, ms[0], rest);
      assert ([ms[0]] + rest)[1..] == rest;
    }
  }

  // ── Grants ──

  datatype FsCap = NoFs | ReadFs | FullFs

  datatype Caps = Caps(fs: FsCap, net: bool, proc: bool, db: bool, env: bool)

  const NO_CAPS := Caps(NoFs, false, false, false, false)

  datatype Grant = Grant(dir: Dir, name: string, caps: Caps, fsRoots: Option<seq<Dir>>,
                         procAllow: Option<seq<string>>, unloaded: bool)

  function DirOf(g: Grant): Dir { g.dir }

  function ByLength(g: Grant): int { Length(g.dir) }

  /** What unloading a module leaves of its grant: nothing allowed, nowhere. */
  function Tombstone(g: Grant): Grant {
    g.(caps := NO_CAPS, fsRoots := Some([]), procAllow := Some([]), unloaded := true)
  }

  ghost predicate Distinct(ms: seq<Grant>) {
    forall i, j :: 0 <= i < j < |ms| ==> ms[i].dir != ms[j].dir
  }

  lemma {:induction false} FoldersAppend(ms: seq<Grant>, g: Grant)
    requires forall i :: 0 <= i < |ms| ==> ms[i].dir != g.dir
    ensures Folders(DirOf, ms + [g]) == Folders(DirOf, ms)[g.dir := g]
  {
    if ms == [] {
      assert [g][1..] == [];
    } else {
      FoldersAppend(ms[1..], g);
      assert (ms + [g])[1..] == ms[1..] + [g];
    }
  }

  lemma {:induction false} FoldersAt(ms: seq<Grant>, i: nat)
    requires Distinct(ms) && i < |ms|
    ensures ms[i].dir in Folders(DirOf, ms) && Folders(DirOf, ms)[ms[i].dir] == ms[i]
  {
    FoldersHolds(DirOf, ms, ms[i].dir);
    var j :| 0 <= j < |ms| && ms[j] == Folders(DirOf, ms)[ms[i].dir];
    assert DirOf(ms[i]) == ms[i].dir && DirOf(ms[j]) == ms[j].dir;
  }

  lemma FoldersLack(ms: seq<Grant>, d: Dir)
    requires forall i :: 0 <= i < |ms| ==> ms[i].dir != d
    ensures d !in Folders(DirOf, ms)
  {
    FoldersHolds(DirOf, ms, d);
  }

  lemma {:induction false} FoldersWithout(ms: seq<Grant>, i: nat)
    requires Distinct(ms) && i < |ms|
    ensures Folders(DirOf, ms[..i] + ms[i + 1..]) == Folders(DirOf, ms) - {ms[i].dir}
    decreases i
  {
    if i == 0 {
      assert ms[..0] + ms[1..] == ms[1..];
      FoldersLack(ms[1..], ms[0].dir);
    } else {
      FoldersWithout(ms[1..], i - 1);
      assert (ms[..i] + ms[i + 1..])[1..] == ms[1..][..i - 1] + ms[1..][i..];
    }
  }

  lemma {:induction false} FoldersReplaced(ms: seq<Grant>, i: nat, g: Grant)
    requires Distinct(ms) && i < |ms| && g.dir == ms[i].dir
    ensures Folders(DirOf, ms[i := g]) == Folders(DirOf, ms)[g.dir := g]
    decreases i
  {
    if i == 0 {
      assert ms[0 := g][1..] == ms[1..];
    } else {
      FoldersReplaced(ms[1..], i - 1, g);
      assert ms[i := g][1..] == ms[1..][i - 1 := g];
    }
  }

  predicate Apart(g: Grant, h: Grant) { g.dir != h.dir }

  lemma SortDistinct(ms: seq<Grant>)
    requires Distinct(ms)
    ensures Distinct(SortFalling(ByLength, ms))
  {
    assert Pairwise(Apart, ms);
    SortKeepsPairwise(ByLength, Apart, ms);
    var ms' := SortFalling(ByLength, ms);
    forall i, j | 0 <= i < j < |ms'| ensures ms'[i].dir != ms'[j].dir {
      assert Apart(ms'[i], ms'[j]);
    }
  }

  // ── The registry of modules loaded at run time ──

  class Modules {
    var modules: seq<Grant>
    var active: bool

    constructor ()
      ensures Valid() && View() == map[]
    {
      modules, active := [], false;
    }

    /** One grant a folder, longest first, and the flag up exactly while one is held. */
    ghost predicate Valid()
      reads this
    {
      Distinct(modules) && Falling(ByLength, modules) && active == (modules != [])
    }

    /** Each folder's grant. */
    ghost function View(): map<Dir, Grant>
      reads this
    {
      Folders(DirOf, modules)
    }

    method ModuleFor(path: Dir) returns (found: Option<Grant>)
      requires Valid()
      ensures found == Nearest(View(), path)
    {
      FirstMatchIsNearest(DirOf, ByLength, modules, path);
      if !active {
        return None;
      }
      for i := 0 to |modules|
        invariant FirstMatch(DirOf, modules[i..], path) == FirstMatch(DirOf, modules, path)
      {
        assert modules[i..][1..] == modules[i + 1..];
        if Under(path, modules[i].dir) {
          return Some(modules[i]);
        }
      }
      return None;
    }

    method Position(dir: Dir) returns (at: Option<nat>)
      requires Distinct(modules)
      ensures at.Some? ==> at.value < |modules| && modules[at.value].dir == dir
      ensures at.Some? ==> dir in View() && View()[dir] == modules[at.value]
      ensures at.None? ==> dir !in View() && forall i :: 0 <= i < |modules| ==> modules[i].dir != dir
    {
      for i := 0 to |modules|
        invariant forall j :: 0 <= j < i ==> modules[j].dir != dir
      {
        if modules[i].dir == dir {
          FoldersAt(modules, i);
          return Some(i);
        }
      }
      FoldersLack(modules, dir);
      return None;
    }

    method ModuleAt(dir: Dir) returns (found: Option<Grant>)
      requires Valid()
      ensures found == if dir in View() && !View()[dir].unloaded then Some(View()[dir]) else None
    {
      var at := Position(dir);
      found := if at.Some? && !modules[at.value].unloaded then Some(modules[at.value]) else None;
    }

    method Register(grant: Grant) returns (replaced: Option<Grant>)
      requires Valid()
      modifies this
      ensures Valid() && View() == old(View())[grant.dir := grant]
      ensures replaced == Lookup(old(View()), grant.dir)
    {
      var at := Position(grant.dir);
      replaced := if at.Some? then Some(modules[at.value]) else None;
      Registered(modules, at, grant);
      var rest := if at.Some? then modules[..at.value] + modules[at.value + 1..] else modules;
      modules := SortFalling(ByLength, rest + [grant]);
      active := true;
    }

    /** Leaves a tombstone: code still running under the folder is refused everything. */
    method Unregister(dir: Dir) returns (was: bool)
      requires Valid()
      modifies this
      ensures Valid()
      ensures was == (dir in old(View()) && !old(View())[dir].unloaded)
      ensures View() == if was then old(View())[dir := Tombstone(old(View())[dir])] else old(View())
    {
      var at := Position(dir);
      if at.None? || modules[at.value].unloaded {
        return false;
      }
      var g := Tombstone(modules[at.value]);
      FoldersReplaced(modules, at.value, g);
      ReplacedFalls(modules, at.value, g);
      modules := modules[at.value := g];
      return true;
    }

    method Retain(dir: Dir) returns (kept: seq<Grant>)
      ensures kept == Others(modules, dir)
    {
      kept := [];
      for i := 0 to |modules|
        invariant kept + Others(modules[i..], dir) == Others(modules, dir)
      {
        assert modules[i..][1..] == modules[i + 1..];
        if modules[i].dir != dir {
          kept := kept + [modules[i]];
        }
      }
      assert modules[|modules|..] == [];
    }

    method Remove(dir: Dir) returns (was: bool)
      requires Valid()
      modifies this
      ensures Valid() && View() == old(View()) - {dir}
      ensures was == (dir in old(View()))
    {
      var kept := Retain(dir);
      OthersFolders(modules, dir);
      OthersInOrder(modules, dir);
      was := |kept| != |modules|;
      modules := kept;
      if kept == [] {
        active := false;
      }
    }
  }

  function Lookup(view: map<Dir, Grant>, dir: Dir): Option<Grant> {
    if dir in view then Some(view[dir]) else None
  }

  /** `rest` is what `ms` holds but for folder `d`. */
  ghost predicate Clear(rest: seq<Grant>, ms: seq<Grant>, d: Dir) {
    && Distinct(rest)
    && Folders(DirOf, rest) == Folders(DirOf, ms) - {d}
    && forall j :: 0 <= j < |rest| ==> rest[j].dir != d
  }

  lemma Removed(ms: seq<Grant>, i: nat)
    requires Distinct(ms) && i < |ms|
    ensures Clear(ms[..i] + ms[i + 1..], ms, ms[i].dir)
  {
    FoldersWithout(ms, i);
  }

  lemma Added(rest: seq<Grant>, ms: seq<Grant>, g: Grant)
    requires Clear(rest, ms, g.dir)
    ensures Distinct(SortFalling(ByLength, rest + [g])) && Falling(ByLength, SortFalling(ByLength, rest + [g]))
    ensures Folders(DirOf, SortFalling(ByLength, rest + [g])) == Folders(DirOf, ms)[g.dir := g]
  {
    FoldersAppend(rest, g);
    SortKeepsFolders(DirOf, ByLength, rest + [g]);
    SortFalls(ByLength, rest + [g]);
    SortDistinct(rest + [g]);
  }

  lemma Registered(ms: seq<Grant>, at: Option<nat>, g: Grant)
    requires Distinct(ms)
    requires at.Some? ==> at.value < |ms| && ms[at.value].dir == g.dir
    requires at.None? ==> forall i :: 0 <= i < |ms| ==> ms[i].dir != g.dir
    ensures var rest := if at.Some? then ms[..at.value] + ms[at.value + 1..] else ms;
      var ms' := SortFalling(ByLength, rest + [g]);
      Distinct(ms') && Falling(ByLength, ms') && Folders(DirOf, ms') == Folders(DirOf, ms)[g.dir := g]
  {
    if at.Some? {
      Removed(ms, at.value);
      Added(ms[..at.value] + ms[at.value + 1..], ms, g);
    } else {
      FoldersLack(ms, g.dir);
      Added(ms, ms, g);
    }
  }

  lemma ReplacedFalls(ms: seq<Grant>, i: nat, g: Grant)
    requires Distinct(ms) && Falling(ByLength, ms) && i < |ms| && g.dir == ms[i].dir
    ensures Distinct(ms[i := g]) && Falling(ByLength, ms[i := g])
  {
    var ms' := ms[i := g];
    assert forall j :: 0 <= j < |ms| ==> ms'[j].dir == ms[j].dir;
    assert forall j :: 0 <= j < |ms| ==> ByLength(ms'[j]) == ByLength(ms[j]);
  }

  function Others(ms: seq<Grant>, d: Dir): seq<Grant> {
    if ms == [] then [] else (if ms[0].dir != d then [ms[0]] else []) + Others(ms[1..], d)
  }

  lemma {:induction false} OthersHold(ms: seq<Grant>, d: Dir, g: Grant)
    ensures g in Others(ms, d) <==> g in ms && g.dir != d
  {
    if ms != [] {
      OthersHold(ms[1..], d, g);
      assert ms == [ms[0]] + ms[1..];
    }
  }

  lemma {:induction false} OthersFolders(ms: seq<Grant>, d: Dir)
    ensures Folders(DirOf, Others(ms, d)) == Folders(DirOf, ms) - {d}
    ensures |Others(ms, d)| <= |ms| && (|Others(ms, d)| != |ms| <==> d in Folders(DirOf, ms))
  {
    if ms != [] {
      OthersFolders(ms[1..], d);
      if ms[0].dir != d {
        assert Others(ms, d)[1..] == Others(ms[1..], d);
      } else {
        assert Others(ms, d) == Others(ms[1..], d);
      }
    }
  }

  lemma {:induction false} OthersInOrder(ms: seq<Grant>, d: Dir)
    requires Distinct(ms) && Falling(ByLength, ms)
    ensures Distinct(Others(ms, d)) && Falling(ByLength, Others(ms, d))
  {
    if ms != [] {
      var rest := Others(ms[1..], d);
      OthersInOrder(ms[1..], d);
      forall j | 0 <= j < |rest| ensures rest[j].dir != ms[0].dir && ByLength(rest[j]) <= ByLength(ms[0]) {
        OthersHold(ms[1..], d, rest[j]);
        var k :| 0 <= k < |ms[1..]| && ms[1..][k] == rest[j];
        assert ms[k + 1] == rest[j];
      }
      if ms[0].dir == d {
        assert Others(ms, d) == rest;
      }
    }
  }
}
