/** What grants guarantee over every run, every load and every manifest. */
module GrantLaws {
  import opened Registry
  import opened StableSort
  import opened Wrappers

  // ── Runs of the registry ──

  datatype Op = Register(grant: Grant) | Unregister(dir: Dir) | Remove(dir: Dir)

  function Target(op: Op): Dir {
    if op.Register? then op.grant.dir else op.dir
  }

  function Apply(view: map<Dir, Grant>, op: Op): map<Dir, Grant> {
    match op
    case Register(grant) => view[grant.dir := grant]
    case Unregister(dir) => if dir in view && !view[dir].unloaded then view[dir := Tombstone(view[dir])] else view
    case Remove(dir) => view - {dir}
  }

  function Run(view: map<Dir, Grant>, ops: seq<Op>): map<Dir, Grant>
    decreases |ops|
  {
    if ops == [] then view else Run(Apply(view, ops[0]), ops[1..])
  }

  method Perform(r: Modules, op: Op)
    requires r.Valid()
    modifies r
    ensures r.Valid() && r.View() == Apply(old(r.View()), op)
  {
    match op
    case Register(grant) =>
      var _ := r.Register(grant);
    case Unregister(dir) =>
      var _ := r.Unregister(dir);
    case Remove(dir) =>
      var _ := r.Remove(dir);
  }

  method PerformAll(r: Modules, ops: seq<Op>)
    requires r.Valid()
    modifies r
    ensures r.Valid() && r.View() == Run(old(r.View()), ops)
  {
    for i := 0 to |ops|
      invariant r.Valid() && Run(r.View(), ops[i..]) == Run(old(r.View()), ops)
    {
      assert ops[i..][1..] == ops[i + 1..];
      Perform(r, ops[i]);
    }
    assert ops[|ops|..] == [];
  }

  /** A grant that allows nothing: no capability, no folder, no program. */
  ghost predicate AllowsNothing(g: Grant) {
    && g.unloaded && g.fsRoots == Some([]) && g.procAllow == Some([])
    && g.caps.fs.NoFs? && !g.caps.net && !g.caps.proc && !g.caps.db && !g.caps.env
  }

  /** Every folder's grant is that folder's. */
  ghost predicate Placed(view: map<Dir, Grant>) {
    forall d {:trigger view[d]} :: d in view ==> view[d].dir == d
  }

  /** And an unloaded one allows nothing. */
  ghost predicate Kept(view: map<Dir, Grant>) {
    && Placed(view)
    && forall d {:trigger view[d]} :: d in view && view[d].unloaded ==> AllowsNothing(view[d])
  }

  /** What a caller registers: a fresh grant, or one the registry gave back. */
  ghost predicate Proper(op: Op) {
    op.Register? && op.grant.unloaded ==> AllowsNothing(op.grant)
  }

  lemma {:induction false} RunKeeps(view: map<Dir, Grant>, ops: seq<Op>)
    requires Kept(view) && forall i :: 0 <= i < |ops| ==> Proper(ops[i])
    ensures Kept(Run(view, ops))
    decreases |ops|
  {
    if ops != [] {
      assert Proper(ops[0]);
      RunKeeps(Apply(view, ops[0]), ops[1..]);
    }
  }

  lemma {:induction false} TombstoneStays(view: map<Dir, Grant>, ops: seq<Op>, d: Dir)
    requires d in view && view[d].unloaded
    requires forall i :: 0 <= i < |ops| && Target(ops[i]) == d ==> ops[i].Unregister?
    ensures d in Run(view, ops) && Run(view, ops)[d] == view[d]
    decreases |ops|
  {
    if ops != [] {
      assert Target(ops[0]) == d ==> ops[0].Unregister?;
      TombstoneStays(Apply(view, ops[0]), ops[1..], d);
    }
  }

  /** A file under a folder that holds a grant answers to that grant or to one
      registered deeper, in a folder of its own under it. */
  lemma {:induction false} NearestWithin(view: map<Dir, Grant>, path: Dir, d: Dir)
    requires d in view && Under(path, d)
    ensures var found := Nearest(view, path);
      found.Some? && exists e :: e in view && found.value == view[e] && Under(path, e) && Under(e, d)
    decreases |path|
  {
    if path in view {
      assert Under(path, path);
    } else {
      assert path != d;
      var up := path[..|path| - 1];
      assert Under(up, d);
      NearestWithin(view, up, d);
      var e :| e in view && Nearest(view, up).value == view[e] && Under(up, e) && Under(e, d);
      assert Under(path, e);
    }
  }

  /** Whatever is registered, unloaded and removed elsewhere, the code of an
      unloaded folder answers to a grant that allows nothing, until that folder is
      registered again or removed; only a folder inside it can answer otherwise. */
  lemma UnloadedStaysEmpty(view: map<Dir, Grant>, ops: seq<Op>, d: Dir, path: Dir)
    requires Kept(view) && d in view && view[d].unloaded && Under(path, d)
    requires forall i :: 0 <= i < |ops| ==> Proper(ops[i])
    requires forall i :: 0 <= i < |ops| && Target(ops[i]) == d ==> ops[i].Unregister?
    ensures var found := Nearest(Run(view, ops), path);
      found.Some? && (AllowsNothing(found.value) || (Under(found.value.dir, d) && |found.value.dir| > |d|))
    ensures (forall e :: e in Run(view, ops) && Under(path, e) ==> |e| <= |d|) ==>
      AllowsNothing(Nearest(Run(view, ops), path).value) && Nearest(Run(view, ops), path).value == view[d]
  {
    var after := Run(view, ops);
    RunKeeps(view, ops);
    TombstoneStays(view, ops, d);
    NearestWithin(after, path, d);
    var e :| e in after && Nearest(after, path).value == after[e] && Under(path, e) && Under(e, d);
    assert after[e].dir == e;
    if |e| == |d| {
      assert e == d;
    }
    if forall e :: e in after && Under(path, e) ==> |e| <= |d| {
      NearestIsDeepest(after, path, d);
    }
  }

  // ── Loading a module ──

  /** The two views agree but for folder `d`. */
  ghost predicate SameElsewhere(a: map<Dir, Grant>, b: map<Dir, Grant>, d: Dir) {
    a - {d} == b - {d}
  }

  lemma ApplyElsewhere(a: map<Dir, Grant>, b: map<Dir, Grant>, op: Op, d: Dir)
    requires SameElsewhere(a, b, d)
    ensures SameElsewhere(Apply(a, op), Apply(b, op), d)
  {
    forall t ensures t in Apply(a, op) - {d} <==> t in Apply(b, op) - {d} {
      assert t in a - {d} <==> t in b - {d};
    }
    forall t | t in Apply(a, op) - {d} ensures Apply(a, op)[t] == Apply(b, op)[t] {
      assert t in a - {d} ==> (a - {d})[t] == (b - {d})[t];
    }
  }

  lemma {:induction false} RunElsewhere(a: map<Dir, Grant>, b: map<Dir, Grant>, ops: seq<Op>, d: Dir)
    requires SameElsewhere(a, b, d)
    ensures SameElsewhere(Run(a, ops), Run(b, ops), d)
    decreases |ops|
  {
    if ops != [] {
      ApplyElsewhere(a, b, ops[0], d);
      RunElsewhere(Apply(a, ops[0]), Apply(b, ops[0]), ops[1..], d);
    }
  }

  /** What is done once a load has failed: the grant it registered goes, and the
      one it replaced comes back. */
  function Undo(dir: Dir, replaced: Option<Grant>): seq<Op> {
    [Remove(dir)] + if replaced.Some? then [Register(replaced.value)] else []
  }

  lemma {:induction false} RunConcat(view: map<Dir, Grant>, a: seq<Op>, b: seq<Op>)
    ensures Run(view, a + b) == Run(Run(view, a), b)
    decreases |a|
  {
    if a == [] {
      assert a + b == b;
    } else {
      assert (a + b)[1..] == a[1..] + b;
      RunConcat(Apply(view, a[0]), a[1..], b);
    }
  }

  lemma UndoIs(view: map<Dir, Grant>, dir: Dir, replaced: Option<Grant>)
    requires replaced.Some? ==> replaced.value.dir == dir
    ensures Run(view, Undo(dir, replaced))
      == if replaced.Some? then (view - {dir})[dir := replaced.value] else view - {dir}
  {
    var ops := Undo(dir, replaced);
    assert Run(view, ops) == Run(view - {dir}, ops[1..]);
    if replaced.Some? {
      assert ops[1..] == [Register(replaced.value)];
      assert ops[1..][1..] == [];
    } else {
      assert ops[1..] == [];
    }
  }

  /** How loading a module's code ends: with the module; with a control signal that
      crosses its top level, an early return or an error handed up; or with any other
      error. */
  datatype End = Loaded | Signalled | Failed

  /** A grant allows what is asked for and the code that asks for the load may do. */
  function Narrowed(grant: Grant, caller: Option<Caps>): (r: Grant)
    ensures forall c {:trigger Within(c, r.caps)} ::
      Within(c, r.caps) <==> Within(c, grant.caps) && (caller.Some? ==> Within(c, caller.value))
    ensures r == grant.(caps := r.caps)
  {
    if caller.Some? then grant.(caps := Intersect(grant.caps, caller.value)) else grant
  }

  /** What a load does to the registry: its grant goes in, its code does `ops`, and
      only an error that is no signal takes the grant back. */
  function Loading(view: map<Dir, Grant>, grant: Grant, ops: seq<Op>, end: End): map<Dir, Grant> {
    var loaded := Run(view[grant.dir := grant], ops);
    if end.Failed? then Run(loaded, Undo(grant.dir, Lookup(view, grant.dir))) else loaded
  }

  lemma {:induction false} FoldersPlaced(ms: seq<Grant>)
    ensures Placed(Folders(DirOf, ms))
    decreases |ms|
  {
    if ms != [] {
      FoldersPlaced(ms[1..]);
    }
  }

  method LoadModule(r: Modules, asked: Grant, caller: Option<Caps>, ops: seq<Op>, end: End)
    requires r.Valid()
    modifies r
    ensures r.Valid() && r.View() == Loading(old(r.View()), Narrowed(asked, caller), ops, end)
  {
    var grant := asked;
    if caller.Some? {
      grant := grant.(caps := Intersect(grant.caps, caller.value));
    }
    FoldersPlaced(r.modules);
    var before := r.Register(grant);
    PerformAll(r, ops);
    if end.Failed? {
      UndoIs(r.View(), grant.dir, before);
      var _ := r.Remove(grant.dir);
      if before.Some? {
        var _ := r.Register(before.value);
      }
    }
  }

  lemma {:induction false} RunLeaves(view: map<Dir, Grant>, ops: seq<Op>, d: Dir)
    requires forall i :: 0 <= i < |ops| ==> Target(ops[i]) != d
    ensures Lookup(Run(view, ops), d) == Lookup(view, d)
    decreases |ops|
  {
    if ops != [] {
      assert Target(ops[0]) != d;
      RunLeaves(Apply(view, ops[0]), ops[1..], d);
    }
  }

  /** However a load ends, every other folder is as the loaded code left it. */
  lemma LoadTouchesOneFolder(view: map<Dir, Grant>, grant: Grant, ops: seq<Op>, end: End)
    requires Placed(view)
    ensures SameElsewhere(Loading(view, grant, ops, end), Run(view, ops), grant.dir)
  {
    var d, replaced := grant.dir, Lookup(view, grant.dir);
    var loaded := Run(view[d := grant], ops);
    assert view[d := grant] - {d} == view - {d};
    RunElsewhere(view[d := grant], view, ops, d);
    UndoIs(loaded, d, replaced);
    assert (loaded - {d}) - {d} == loaded - {d};
    assert d in view ==> (loaded - {d})[d := view[d]] - {d} == loaded - {d};
  }

  /** A load that ends in an error that is no signal leaves its own folder's grant as
      it was before, whatever the loaded code did to it. */
  lemma FailedLoadLeavesNoTrace(view: map<Dir, Grant>, grant: Grant, ops: seq<Op>)
    requires Placed(view)
    ensures var after := Loading(view, grant, ops, Failed);
      Lookup(after, grant.dir) == Lookup(view, grant.dir) && SameElsewhere(after, Run(view, ops), grant.dir)
  {
    LoadTouchesOneFolder(view, grant, ops, Failed);
    UndoIs(Run(view[grant.dir := grant], ops), grant.dir, Lookup(view, grant.dir));
  }

  /** After a load whose code leaves its own folder's grant alone, that grant is as it
      was before if and only if the load failed with an error that is no signal, or
      the folder held just the grant the load was given. */
  lemma GrantStandsIff(view: map<Dir, Grant>, grant: Grant, ops: seq<Op>, end: End)
    requires Placed(view)
    requires forall i :: 0 <= i < |ops| ==> Target(ops[i]) != grant.dir
    ensures Lookup(Loading(view, grant, ops, end), grant.dir) == Lookup(view, grant.dir)
      <==> end.Failed? || Lookup(view, grant.dir) == Some(grant)
  {
    RunLeaves(view[grant.dir := grant], ops, grant.dir);
    if end.Failed? {
      FailedLoadLeavesNoTrace(view, grant, ops);
    }
  }

  /** A load given up by a signal replaces a folder's narrower grant for good. */
  lemma SignalledLoadKeepsItsGrant()
    ensures var plugin := ["plugin"];
      var narrow := Grant(plugin, "plugin", NO_CAPS, None, None, false);
      var wide := narrow.(caps := Caps(FullFs, true, true, true, true));
      Placed(map[plugin := narrow]) && Lookup(Loading(map[plugin := narrow], wide, [], Signalled), plugin) == Some(wide)
  {
  }

  // ── Dependencies ──

  datatype FsSetting = Flag(on: bool) | Level(word: string)

  /** A grant as a manifest writes it: what is left out stays allowed. */
  datatype Spec = Spec(fs: Option<FsSetting>, net: Option<bool>, proc: Option<bool>,
                       db: Option<bool>, env: Option<bool>)

  datatype Fault = NotALevel(word: string) | NotADependency(name: string)

  datatype Dep = Dep(dir: Dir, name: string, caps: Caps)

  datatype Table = Table(app: Caps, deps: seq<Dep>)

  function DepDir(dep: Dep): Dir { dep.dir }

  function DepLength(dep: Dep): int { Length(dep.dir) }

  function Resolve(s: Spec): Result<Caps, Fault> {
    if s.fs.Some? && s.fs.value.Level? && s.fs.value.word != "read" then Err(NotALevel(s.fs.value.word))
    else
      var fs := match s.fs
        case None => FullFs
        case Some(Flag(on)) => if on then FullFs else NoFs
        case Some(Level(_)) => ReadFs;
      Ok(Caps(fs, s.net != Some(false), s.proc != Some(false), s.db != Some(false), s.env != Some(false)))
  }

  function Intersect(a: Caps, b: Caps): Caps {
    var fs := if a.fs.NoFs? || b.fs.NoFs? then NoFs else if a.fs.ReadFs? || b.fs.ReadFs? then ReadFs else FullFs;
    Caps(fs, a.net && b.net, a.proc && b.proc, a.db && b.db, a.env && b.env)
  }

  /** Two grants allow together exactly what each allows. */
  lemma IntersectIsMeet(a: Caps, b: Caps, c: Caps)
    ensures Within(c, Intersect(a, b)) <==> Within(c, a) && Within(c, b)
  {
  }

  /** What a manifest entry grants, setting by setting: a file system is out of bounds
      when it says so, is read only when it says "read", and another word is refused;
      all else is allowed unless it is denied. */
  lemma ResolveGrants(s: Spec)
    ensures Resolve(s).Err? <==> exists word :: s.fs == Some(Level(word)) && word != "read"
    ensures Resolve(s).Err? ==> s.fs == Some(Level(Resolve(s).error.word)) && Resolve(s).error.NotALevel?
    ensures Resolve(s).Ok? ==>
      var caps := Resolve(s).value;
      && (caps.fs == FullFs <==> s.fs == None || s.fs == Some(Flag(true)))
      && (caps.fs == ReadFs <==> s.fs == Some(Level("read")))
      && (caps.fs == NoFs <==> s.fs == Some(Flag(false)))
      && (caps.net <==> s.net.None? || s.net.value)
      && (caps.proc <==> s.proc.None? || s.proc.value)
      && (caps.db <==> s.db.None? || s.db.value)
      && (caps.env <==> s.env.None? || s.env.value)
  {
    if Resolve(s).Err? {
      assert s.fs == Some(Level(s.fs.value.word)) && s.fs.value.word != "read";
    }
  }

  function Rank(fs: FsCap): nat {
    match fs
    case NoFs => 0
    case ReadFs => 1
    case FullFs => 2
  }

  /** Whether `b` allows all that `a` does. */
  ghost predicate Within(a: Caps, b: Caps) {
    && Rank(a.fs) <= Rank(b.fs)
    && (a.net ==> b.net) && (a.proc ==> b.proc) && (a.db ==> b.db) && (a.env ==> b.env)
  }

  /** The dependencies' grants in the order of their names: the manifest's, or the
      first thing wrong with it. */
  function Attenuated(specs: seq<(string, Spec)>, app: Caps, dirs: map<string, Dir>): Result<seq<Dep>, Fault> {
    if specs == [] then Ok([])
    else
      var (name, spec) := specs[0];
      if name !in dirs then Err(NotADependency(name))
      else if Resolve(spec).Err? then Err(Resolve(spec).error)
      else
        var rest := Attenuated(specs[1..], app, dirs);
        if rest.Err? then rest else Ok([Dep(dirs[name], name, Intersect(Resolve(spec).value, app))] + rest.value)
  }

  /** The table of a manifest: `specs` come in the order of their names. */
  method Build(base: Spec, specs: seq<(string, Spec)>, dirs: map<string, Dir>) returns (r: Result<Table, Fault>)
    ensures r.Err? <==> Resolve(base).Err? || Attenuated(specs, Resolve(base).value, dirs).Err?
    ensures r.Err? && Resolve(base).Err? ==> r.error == Resolve(base).error
    ensures r.Err? && Resolve(base).Ok? ==> r.error == Attenuated(specs, Resolve(base).value, dirs).error
    ensures r.Ok? ==> r.value.app == Resolve(base).value
    ensures r.Ok? ==> r.value.deps == SortFalling(DepLength, Attenuated(specs, r.value.app, dirs).value)
  {
    if Resolve(base).Err? {
      return Err(Resolve(base).error);
    }
    var app := Resolve(base).value;
    var deps: seq<Dep> := [];
    PrefixedNone(deps, Attenuated(specs, app, dirs));
    for i := 0 to |specs|
      invariant Attenuated(specs, app, dirs) == Prefixed(deps, Attenuated(specs[i..], app, dirs))
    {
      assert specs[i..][1..] == specs[i + 1..];
      var (name, spec) := specs[i];
      if name !in dirs {
        return Err(NotADependency(name));
      }
      if Resolve(spec).Err? {
        return Err(Resolve(spec).error);
      }
      var dep := Dep(dirs[name], name, Intersect(Resolve(spec).value, app));
      PrefixedMore(deps, dep, Attenuated(specs[i + 1..], app, dirs));
      deps := deps + [dep];
    }
    assert specs[|specs|..] == [];
    PrefixedNone(deps, Ok([]));
    return Ok(Table(app, SortFalling(DepLength, deps)));
  }

  function Prefixed(deps: seq<Dep>, r: Result<seq<Dep>, Fault>): Result<seq<Dep>, Fault> {
    if r.Err? then r else Ok(deps + r.value)
  }

  lemma PrefixedMore(deps: seq<Dep>, dep: Dep, r: Result<seq<Dep>, Fault>)
    ensures Prefixed(deps, Prefixed([dep], r)) == Prefixed(deps + [dep], r)
  {
    if r.Ok? {
      assert deps + ([dep] + r.value) == deps + [dep] + r.value;
    }
  }

  lemma PrefixedNone(deps: seq<Dep>, r: Result<seq<Dep>, Fault>)
    ensures Prefixed([], r) == r && Prefixed(deps, Ok([])) == Ok(deps)
  {
    if r.Ok? {
      assert [] + r.value == r.value;
    }
    assert deps + [] == deps;
  }

  method CapsFor(t: Table, file: Option<Dir>) returns (caps: Caps, name: Option<string>)
    ensures file.None? ==> caps == t.app && name == None
    ensures file.Some? ==>
      match FirstMatch(DepDir, t.deps, file.value)
      case Some(dep) => caps == dep.caps && name == Some(dep.name)
      case None => caps == t.app && name == None
  {
    if file.Some? {
      for i := 0 to |t.deps|
        invariant FirstMatch(DepDir, t.deps[i..], file.value) == FirstMatch(DepDir, t.deps, file.value)
      {
        assert t.deps[i..][1..] == t.deps[i + 1..];
        if Under(file.value, t.deps[i].dir) {
          return t.deps[i].caps, Some(t.deps[i].name);
        }
      }
    }
    return t.app, None;
  }

  /** Each dependency is allowed exactly what the app and its own entry both allow. */
  lemma {:induction false} AttenuatedWithin(specs: seq<(string, Spec)>, app: Caps, dirs: map<string, Dir>)
    requires Attenuated(specs, app, dirs).Ok?
    ensures var deps := Attenuated(specs, app, dirs).value;
      |deps| == |specs| && forall i :: 0 <= i < |deps| ==>
        && specs[i].0 in dirs && deps[i].dir == dirs[specs[i].0] && deps[i].name == specs[i].0
        && Resolve(specs[i].1).Ok? && Allows(deps[i].caps, Resolve(specs[i].1).value, app)
  {
    if specs != [] {
      AttenuatedWithin(specs[1..], app, dirs);
    }
  }

  /** `caps` allows what `a` and `b` both allow, and nothing else. */
  ghost predicate Allows(caps: Caps, a: Caps, b: Caps) {
    forall c {:trigger Within(c, caps)} :: Within(c, caps) <==> Within(c, a) && Within(c, b)
  }

  /** What is wrong with an entry, if anything is: its name before its word. */
  ghost predicate EntryFault(entry: (string, Spec), dirs: map<string, Dir>, fault: Fault) {
    if entry.0 !in dirs then fault == NotADependency(entry.0)
    else exists word :: entry.1.fs == Some(Level(word)) && word != "read" && fault == NotALevel(word)
  }

  /** A manifest is refused for its first entry that something is wrong with, and only
      for one. */
  lemma {:induction false} AttenuatedFault(specs: seq<(string, Spec)>, app: Caps, dirs: map<string, Dir>)
    ensures Attenuated(specs, app, dirs).Err? <==>
      exists i, fault :: 0 <= i < |specs| && EntryFault(specs[i], dirs, fault)
    ensures Attenuated(specs, app, dirs).Err? ==>
      exists i :: 0 <= i < |specs| && EntryFault(specs[i], dirs, Attenuated(specs, app, dirs).error)
        && forall j, fault :: 0 <= j < i ==> !EntryFault(specs[j], dirs, fault)
  {
    if specs != [] {
      AttenuatedFault(specs[1..], app, dirs);
      assert forall k :: 0 <= k < |specs[1..]| ==> specs[1..][k] == specs[k + 1];
      FirstEntryFault(specs, app, dirs);
    }
  }

  lemma FirstEntryFault(specs: seq<(string, Spec)>, app: Caps, dirs: map<string, Dir>)
    requires specs != []
    ensures specs[0].0 !in dirs || Resolve(specs[0].1).Err? ==>
      EntryFault(specs[0], dirs, Attenuated(specs, app, dirs).error)
    ensures specs[0].0 in dirs && Resolve(specs[0].1).Ok? ==> forall fault :: !EntryFault(specs[0], dirs, fault)
  {
    ResolveGrants(specs[0].1);
  }

  /** In a table that was built, a file answers to the dependency whose folder is
      the nearest around it — the first named, of two in one folder — and to the app
      only outside them all; and never to more than the app is allowed. */
  lemma TableIsNearest(specs: seq<(string, Spec)>, dirs: map<string, Dir>, t: Table, path: Dir)
    requires Attenuated(specs, t.app, dirs).Ok?
    requires t.deps == SortFalling(DepLength, Attenuated(specs, t.app, dirs).value)
    ensures FirstMatch(DepDir, t.deps, path) == Nearest(Folders(DepDir, Attenuated(specs, t.app, dirs).value), path)
    ensures var dep := FirstMatch(DepDir, t.deps, path);
      dep.Some? ==> exists i :: (0 <= i < |specs| && specs[i].0 == dep.value.name && Resolve(specs[i].1).Ok?
                                 && Allows(dep.value.caps, Resolve(specs[i].1).value, t.app))
  {
    var built := Attenuated(specs, t.app, dirs).value;
    AttenuatedWithin(specs, t.app, dirs);
    SortFalls(DepLength, built);
    SortKeepsFolders(DepDir, DepLength, built);
    FirstMatchIsNearest(DepDir, DepLength, t.deps, path);
    var dep := FirstMatch(DepDir, t.deps, path);
    if dep.Some? {
      FirstMatchIn(t.deps, path);
      SortHolds(DepLength, built, dep.value);
    }
  }

  lemma {:induction false} FirstMatchIn(deps: seq<Dep>, path: Dir)
    ensures FirstMatch(DepDir, deps, path).Some? ==> FirstMatch(DepDir, deps, path).value in deps
  {
    if deps != [] {
      FirstMatchIn(deps[1..], path);
    }
  }
}
