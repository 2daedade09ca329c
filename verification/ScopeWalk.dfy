/** The analyzer's walk over a program, as far as scopes go: the operations it
    performs, and that each scope it opens is closed. */
module ScopeWalk {
  import opened Scopes
  import opened Wrappers

  /** `Parts` stands for every expression walked part by part, left to right, and
      `Skipped` for one whose parts the walk does not enter. */
  datatype Expr =
    | Parts(parts: seq<Expr>)
    | Name(x: string)
    | Lambda(params: seq<string>, body: Expr)
    | Block(stmts: seq<Stmt>)
    | For(variable: string, iterable: Expr, body: Expr)
    | Match(value: Expr, arms: seq<Arm>)
    | AssignTo(target: string, value: Expr)
    | StructLiteral(typeName: string, fields: seq<string>, values: seq<Expr>)
    | ObjectLiteral(entries: seq<Field>)
    | Skipped(inside: seq<Expr>)

  datatype Field = Field(name: string, value: Expr)

  /** `uses` are the names the pattern refers to, `binds` those it binds; the
      guards see the bindings. */
  datatype Arm = Arm(uses: seq<string>, binds: seq<string>, guards: seq<Expr>, body: Expr)

  datatype Stmt =
    | Evaluate(e: Expr)
    | Let(names: seq<string>, value: seq<Expr>)
    | Function(name: string, params: seq<string>, body: Expr)
    | TypeDecl(name: string, members: seq<string>)

  // ── What the walk does ──

  /** The operations performed, and whether the walk went through. */
  datatype Trip = Trip(ops: seq<Op>, ok: bool)

  predicate Duplicates(names: seq<string>) {
    exists i, j :: 0 <= i < j < |names| && names[i] == names[j]
  }

  function Uses(names: seq<string>): seq<Op> {
    if names == [] then [] else [Use(names[0])] + Uses(names[1..])
  }

  function Declares(names: seq<string>): seq<Op> {
    if names == [] then [] else [DeclareOnly(names[0])] + Declares(names[1..])
  }

  function Binds(names: seq<string>, isMutable: bool): seq<Op> {
    if names == [] then [] else [Bind(names[0], isMutable)] + Binds(names[1..], isMutable)
  }

  function Then(first: Trip, second: Trip): Trip {
    if first.ok then Trip(first.ops + second.ops, second.ok) else first
  }

  /** A scope opened, `opening` done in it, `inside` walked, and the scope closed
      if that went through. */
  function Scoped(opening: seq<Op>, inside: Trip): Trip {
    Trip([Enter] + opening + inside.ops + if inside.ok then [Exit] else [], inside.ok)
  }

  function WalkExpr(e: Expr): Trip
    decreases e, 1
  {
    match e
    case Parts(parts) => WalkExprs(parts)
    case Name(x) => Trip([Check(x)], true)
    case Lambda(params, body) => Scoped(Declares(params), WalkExpr(body))
    case Block(stmts) => Scoped([], WalkStmts(stmts))
    case For(variable, iterable, body) =>
      Then(WalkExpr(iterable), Scoped([Track(variable)], WalkExpr(body)))
    case Match(value, arms) => Then(WalkExpr(value), WalkArms(arms))
    case AssignTo(target, value) => Then(WalkExpr(value), Trip([Assign(target)], true))
    case StructLiteral(typeName, fields, values) =>
      Then(Trip([Use(typeName)], true), Then(WalkExprs(values), Trip([], !Duplicates(fields))))
    case ObjectLiteral(entries) => WalkFields(entries, {})
    case Skipped(_) => Trip([], true)
  }

  /** An object's fields, `seen` being those before: the first one named twice is
      refused before its value is walked. */
  function WalkFields(entries: seq<Field>, seen: set<string>): Trip
    decreases entries, 0
  {
    if entries == [] then Trip([], true)
    else if entries[0].name in seen then Trip([], false)
    else Then(WalkExpr(entries[0].value), WalkFields(entries[1..], seen + {entries[0].name}))
  }

  function WalkExprs(es: seq<Expr>): Trip
    decreases es, 0
  {
    if es == [] then Trip([], true) else Then(WalkExpr(es[0]), WalkExprs(es[1..]))
  }

  function WalkArms(arms: seq<Arm>): Trip
    decreases arms, 0
  {
    if arms == [] then Trip([], true)
    else
      var arm := arms[0];
      Then(Trip(Uses(arm.uses), true),
           Then(Scoped(Declares(arm.binds), Then(WalkExprs(arm.guards), WalkExpr(arm.body))),
                WalkArms(arms[1..])))
  }

  function WalkStmt(s: Stmt): Trip
    decreases s, 1
  {
    match s
    case Evaluate(e) => WalkExpr(e)
    case Let(names, value) => Then(WalkExprs(value), Trip(Binds(names, true), true))
    case Function(name, params, body) =>
      Then(Trip([BindFunction(name)], true), Scoped(Binds(params, false), WalkExpr(body)))
    case TypeDecl(name, members) => Trip([Bind(name, false)], !Duplicates(members))
  }

  function WalkStmts(stmts: seq<Stmt>): Trip
    decreases stmts, 0
  {
    if stmts == [] then Trip([], true) else Then(WalkStmt(stmts[0]), WalkStmts(stmts[1..]))
  }

  // ── Scopes open and close in pairs ──

  /** How many scopes are open beyond the start after `ops`, `d` being open
      before; none if one were closed that `ops` found open. */
  function Depth(ops: seq<Op>, d: nat): Option<nat>
    decreases |ops|
  {
    if ops == [] then Some(d)
    else if ops[0].Enter? then Depth(ops[1..], d + 1)
    else if ops[0].Exit? then (if d == 0 then None else Depth(ops[1..], d - 1))
    else Depth(ops[1..], d)
  }

  lemma {:induction false} DepthConcat(a: seq<Op>, b: seq<Op>, d: nat)
    ensures Depth(a + b, d) == if Depth(a, d).None? then None else Depth(b, Depth(a, d).value)
    decreases |a|
  {
    if a == [] {
      assert a + b == b;
    } else {
      assert (a + b)[1..] == a[1..] + b;
      if a[0].Enter? {
        DepthConcat(a[1..], b, d + 1);
      } else if a[0].Exit? {
        if d > 0 {
          DepthConcat(a[1..], b, d - 1);
        }
      } else {
        DepthConcat(a[1..], b, d);
      }
    }
  }

  lemma {:induction false} DepthShift(ops: seq<Op>, d: nat, more: nat)
    requires Depth(ops, d).Some?
    ensures Depth(ops, d + more) == Some(Depth(ops, d).value + more)
    decreases |ops|
  {
    if ops != [] {
      if ops[0].Enter? {
        DepthShift(ops[1..], d + 1, more);
      } else if ops[0].Exit? {
        DepthShift(ops[1..], d - 1, more);
      } else {
        DepthShift(ops[1..], d, more);
      }
    }
  }

  /** Declaring functions ahead is no part of a walk. */
  ghost predicate HoistsNone(ops: seq<Op>) {
    forall i {:trigger ops[i]} :: 0 <= i < |ops| ==> !ops[i].Hoist?
  }

  /** A walk never closes a scope it did not open, and one that goes through
      closes every scope it opened. */
  ghost predicate Paired(t: Trip) {
    Depth(t.ops, 0).Some? && (t.ok ==> Depth(t.ops, 0) == Some(0)) && HoistsNone(t.ops)
  }

  lemma ThenPaired(a: Trip, b: Trip)
    requires Paired(a) && Paired(b)
    ensures Paired(Then(a, b))
  {
    DepthConcat(a.ops, b.ops, 0);
  }

  lemma {:induction false} FlatOps(names: seq<string>, isMutable: bool, d: nat)
    ensures Depth(Uses(names), d) == Depth(Declares(names), d) == Depth(Binds(names, isMutable), d) == Some(d)
    ensures HoistsNone(Uses(names)) && HoistsNone(Declares(names)) && HoistsNone(Binds(names, isMutable))
  {
    if names != [] {
      FlatOps(names[1..], isMutable, d);
    }
  }

  lemma ScopedPaired(opening: seq<Op>, inside: Trip)
    requires Depth(opening, 1) == Some(1) && HoistsNone(opening) && Paired(inside)
    ensures Paired(Scoped(opening, inside))
  {
    var end := if inside.ok then [Exit] else [];
    DepthConcat([Enter] + opening + inside.ops, end, 0);
    DepthConcat([Enter] + opening, inside.ops, 0);
    DepthConcat([Enter], opening, 0);
    DepthShift(inside.ops, 0, 1);
  }

  lemma {:induction false} WalkExprPaired(e: Expr)
    ensures Paired(WalkExpr(e))
    decreases e, 1
  {
    match e
    case Parts(parts) => WalkExprsPaired(parts);
    case Name(x) =>
    case Lambda(params, body) =>
      FlatOps(params, false, 1);
      WalkExprPaired(body);
      ScopedPaired(Declares(params), WalkExpr(body));
    case Block(stmts) =>
      WalkStmtsPaired(stmts);
      ScopedPaired([], WalkStmts(stmts));
    case For(variable, iterable, body) =>
      WalkExprPaired(iterable);
      WalkExprPaired(body);
      ScopedPaired([Track(variable)], WalkExpr(body));
      ThenPaired(WalkExpr(iterable), Scoped([Track(variable)], WalkExpr(body)));
    case Match(value, arms) =>
      WalkExprPaired(value);
      WalkArmsPaired(arms);
      ThenPaired(WalkExpr(value), WalkArms(arms));
    case AssignTo(target, value) =>
      WalkExprPaired(value);
      ThenPaired(WalkExpr(value), Trip([Assign(target)], true));
    case StructLiteral(typeName, fields, values) =>
      WalkExprsPaired(values);
      ThenPaired(WalkExprs(values), Trip([], !Duplicates(fields)));
      ThenPaired(Trip([Use(typeName)], true), Then(WalkExprs(values), Trip([], !Duplicates(fields))));
    case ObjectLiteral(entries) => WalkFieldsPaired(entries, {});
    case Skipped(_) =>
  }

  lemma {:induction false} WalkFieldsPaired(entries: seq<Field>, seen: set<string>)
    ensures Paired(WalkFields(entries, seen))
    decreases entries, 0
  {
    if entries != [] && entries[0].name !in seen {
      WalkExprPaired(entries[0].value);
      WalkFieldsPaired(entries[1..], seen + {entries[0].name});
      ThenPaired(WalkExpr(entries[0].value), WalkFields(entries[1..], seen + {entries[0].name}));
    }
  }

  lemma {:induction false} WalkExprsPaired(es: seq<Expr>)
    ensures Paired(WalkExprs(es))
    decreases es, 0
  {
    if es != [] {
      WalkExprPaired(es[0]);
      WalkExprsPaired(es[1..]);
      ThenPaired(WalkExpr(es[0]), WalkExprs(es[1..]));
    }
  }

  lemma {:induction false} WalkArmsPaired(arms: seq<Arm>)
    ensures Paired(WalkArms(arms))
    decreases arms, 0
  {
    if arms != [] {
      var arm := arms[0];
      WalkExprsPaired(arm.guards);
      WalkExprPaired(arm.body);
      WalkArmsPaired(arms[1..]);
      FlatOps(arm.uses, false, 0);
      FlatOps(arm.binds, false, 1);
      var inside := Then(WalkExprs(arm.guards), WalkExpr(arm.body));
      ThenPaired(WalkExprs(arm.guards), WalkExpr(arm.body));
      ScopedPaired(Declares(arm.binds), inside);
      ThenPaired(Scoped(Declares(arm.binds), inside), WalkArms(arms[1..]));
      ThenPaired(Trip(Uses(arm.uses), true), Then(Scoped(Declares(arm.binds), inside), WalkArms(arms[1..])));
    }
  }

  lemma {:induction false} WalkStmtPaired(s: Stmt)
    ensures Paired(WalkStmt(s))
    decreases s, 1
  {
    match s
    case Evaluate(e) => WalkExprPaired(e);
    case Let(names, value) =>
      WalkExprsPaired(value);
      FlatOps(names, true, 0);
      ThenPaired(WalkExprs(value), Trip(Binds(names, true), true));
    case Function(name, params, body) =>
      WalkExprPaired(body);
      FlatOps(params, false, 1);
      ScopedPaired(Binds(params, false), WalkExpr(body));
      ThenPaired(Trip([BindFunction(name)], true), Scoped(Binds(params, false), WalkExpr(body)));
    case TypeDecl(name, members) =>
  }

  lemma {:induction false} WalkStmtsPaired(stmts: seq<Stmt>)
    ensures Paired(WalkStmts(stmts))
    decreases stmts, 0
  {
    if stmts != [] {
      WalkStmtPaired(stmts[0]);
      WalkStmtsPaired(stmts[1..]);
      ThenPaired(WalkStmt(stmts[0]), WalkStmts(stmts[1..]));
    }
  }

  // ── Which walks go through ──

  function FieldNames(entries: seq<Field>): seq<string> {
    if entries == [] then [] else [entries[0].name] + FieldNames(entries[1..])
  }

  /** No literal and no type declaration that the walk would enter names a field
      twice. */
  predicate CleanExpr(e: Expr)
    decreases e, 1
  {
    match e
    case Parts(parts) => CleanExprs(parts)
    case Name(_) => true
    case Lambda(_, body) => CleanExpr(body)
    case Block(stmts) => CleanStmts(stmts)
    case For(_, iterable, body) => CleanExpr(iterable) && CleanExpr(body)
    case Match(value, arms) => CleanExpr(value) && CleanArms(arms)
    case AssignTo(_, value) => CleanExpr(value)
    case StructLiteral(_, fields, values) => !Duplicates(fields) && CleanExprs(values)
    case ObjectLiteral(entries) => !Duplicates(FieldNames(entries)) && CleanFields(entries)
    case Skipped(_) => true
  }

  predicate CleanFields(entries: seq<Field>)
    decreases entries, 0
  {
    entries != [] ==> CleanExpr(entries[0].value) && CleanFields(entries[1..])
  }

  predicate CleanExprs(es: seq<Expr>)
    decreases es, 0
  {
    es != [] ==> CleanExpr(es[0]) && CleanExprs(es[1..])
  }

  predicate CleanArms(arms: seq<Arm>)
    decreases arms, 0
  {
    arms != [] ==> CleanExprs(arms[0].guards) && CleanExpr(arms[0].body) && CleanArms(arms[1..])
  }

  predicate CleanStmt(s: Stmt)
    decreases s, 1
  {
    match s
    case Evaluate(e) => CleanExpr(e)
    case Let(_, value) => CleanExprs(value)
    case Function(_, _, body) => CleanExpr(body)
    case TypeDecl(_, members) => !Duplicates(members)
  }

  predicate CleanStmts(stmts: seq<Stmt>)
    decreases stmts, 0
  {
    stmts != [] ==> CleanStmt(stmts[0]) && CleanStmts(stmts[1..])
  }

  /** A walk goes through if and only if it meets no field named twice. */
  lemma {:induction false} ExprIsClean(e: Expr)
    ensures WalkExpr(e).ok <==> CleanExpr(e)
    decreases e, 1
  {
    match e
    case Parts(parts) => ExprsAreClean(parts);
    case Name(_) =>
    case Lambda(_, body) => ExprIsClean(body);
    case Block(stmts) => StmtsAreClean(stmts);
    case For(_, iterable, body) =>
      ExprIsClean(iterable);
      ExprIsClean(body);
    case Match(value, arms) =>
      ExprIsClean(value);
      ArmsAreClean(arms);
    case AssignTo(_, value) => ExprIsClean(value);
    case StructLiteral(_, _, values) => ExprsAreClean(values);
    case ObjectLiteral(entries) => FieldsAreClean(entries, {});
    case Skipped(_) =>
  }

  lemma FirstDuplicate(x: string, xs: seq<string>)
    ensures Duplicates([x] + xs) <==> x in xs || Duplicates(xs)
  {
    var all := [x] + xs;
    if Duplicates(all) {
      var i, j :| 0 <= i < j < |all| && all[i] == all[j];
      assert all[j] == xs[j - 1];
      assert i > 0 ==> xs[i - 1] == xs[j - 1];
    }
    if x in xs {
      var j :| 0 <= j < |xs| && xs[j] == x;
      assert all[0] == all[j + 1];
    }
    if Duplicates(xs) {
      var i, j :| 0 <= i < j < |xs| && xs[i] == xs[j];
      assert all[i + 1] == all[j + 1];
    }
  }

  lemma {:induction false} FieldsAreClean(entries: seq<Field>, seen: set<string>)
    ensures WalkFields(entries, seen).ok <==>
      CleanFields(entries) && !Duplicates(FieldNames(entries)) && forall x :: x in seen ==> x !in FieldNames(entries)
    decreases entries, 0
  {
    if entries != [] {
      var name := entries[0].name;
      ExprIsClean(entries[0].value);
      FieldsAreClean(entries[1..], seen + {name});
      FirstDuplicate(name, FieldNames(entries[1..]));
    }
  }

  lemma {:induction false} ExprsAreClean(es: seq<Expr>)
    ensures WalkExprs(es).ok <==> CleanExprs(es)
    decreases es, 0
  {
    if es != [] {
      ExprIsClean(es[0]);
      ExprsAreClean(es[1..]);
    }
  }

  lemma {:induction false} ArmsAreClean(arms: seq<Arm>)
    ensures WalkArms(arms).ok <==> CleanArms(arms)
    decreases arms, 0
  {
    if arms != [] {
      ExprsAreClean(arms[0].guards);
      ExprIsClean(arms[0].body);
      ArmsAreClean(arms[1..]);
    }
  }

  lemma {:induction false} StmtIsClean(s: Stmt)
    ensures WalkStmt(s).ok <==> CleanStmt(s)
    decreases s, 1
  {
    match s
    case Evaluate(e) => ExprIsClean(e);
    case Let(_, value) => ExprsAreClean(value);
    case Function(_, _, body) => ExprIsClean(body);
    case TypeDecl(_, _) =>
  }

  lemma {:induction false} StmtsAreClean(stmts: seq<Stmt>)
    ensures WalkStmts(stmts).ok <==> CleanStmts(stmts)
    decreases stmts, 0
  {
    if stmts != [] {
      StmtIsClean(stmts[0]);
      StmtsAreClean(stmts[1..]);
    }
  }

  // ── The walk itself ──

  lemma {:induction false} RunConcat(m: Model, a: seq<Op>, b: seq<Op>)
    requires m.stack != []
    ensures Run(m, a + b) == Run(Run(m, a), b)
    decreases |a|
  {
    if a == [] {
      assert a + b == b;
    } else {
      assert (a + b)[0] == a[0] && (a + b)[1..] == a[1..] + b;
      RunConcat(Apply(m, a[0]), a[1..], b);
    }
  }

  /** What a walk does to the model. */
  ghost predicate Walked(m: Model, m': Model, t: Trip, ok: bool)
    requires m.stack != []
  {
    m' == Run(m, t.ops) && ok == t.ok
  }

  lemma WalkedThen(m0: Model, m1: Model, m2: Model, a: Trip, b: Trip, ok: bool)
    requires m0.stack != [] && m1.stack != [] && a.ok
    requires Walked(m0, m1, a, true) && Walked(m1, m2, b, ok)
    ensures Walked(m0, m2, Then(a, b), ok)
  {
    RunConcat(m0, a.ops, b.ops);
  }

  lemma {:induction false} WalkedScoped(m0: Model, m1: Model, m2: Model, m3: Model, opening: seq<Op>, inside: Trip)
    requires m0.stack != [] && m1.stack != [] && m2.stack != []
    requires m1 == Run(Apply(m0, Enter), opening) && m2 == Run(m1, inside.ops)
    requires m3 == if inside.ok then Apply(m2, Exit) else m2
    ensures Walked(m0, m3, Scoped(opening, inside), inside.ok)
  {
    var end := if inside.ok then [Exit] else [];
    RunConcat(m0, [Enter] + opening + inside.ops, end);
    RunConcat(m0, [Enter] + opening, inside.ops);
    RunConcat(m0, [Enter], opening);
    assert Run(m0, [Enter]) == Apply(m0, Enter);
    assert Run(m2, end) == m3;
  }

  method NoteUses(a: Analyzer, names: seq<string>)
    requires a.Valid()
    modifies a
    ensures a.Valid() && a.View() == Run(old(a.View()), Uses(names))
  {
    for i := 0 to |names|
      invariant a.Valid() && Run(a.View(), Uses(names[i..])) == Run(old(a.View()), Uses(names))
    {
      a.NoteUse(names[i]);
      assert names[i..][1..] == names[i + 1..];
      assert Uses(names[i..])[1..] == Uses(names[i + 1..]);
    }
  }

  method DeclareEach(a: Analyzer, names: seq<string>)
    requires a.Valid()
    modifies a
    ensures a.Valid() && a.View() == Run(old(a.View()), Declares(names))
  {
    for i := 0 to |names|
      invariant a.Valid() && Run(a.View(), Declares(names[i..])) == Run(old(a.View()), Declares(names))
    {
      a.DeclareInScope(names[i]);
      assert names[i..][1..] == names[i + 1..];
      assert Declares(names[i..])[1..] == Declares(names[i + 1..]);
    }
  }

  method BindEach(a: Analyzer, names: seq<string>, isMutable: bool)
    requires a.Valid()
    modifies a
    ensures a.Valid() && a.View() == Run(old(a.View()), Binds(names, isMutable))
  {
    for i := 0 to |names|
      invariant a.Valid()
      invariant Run(a.View(), Binds(names[i..], isMutable)) == Run(old(a.View()), Binds(names, isMutable))
    {
      a.Bind(names[i], isMutable);
      assert names[i..][1..] == names[i + 1..];
      assert Binds(names[i..], isMutable)[1..] == Binds(names[i + 1..], isMutable);
    }
  }

  method AnalyzeExpr(a: Analyzer, e: Expr) returns (ok: bool)
    requires a.Valid()
    modifies a
    ensures a.Valid() && Walked(old(a.View()), a.View(), WalkExpr(e), ok)
    decreases e, 1
  {
    match e
    case Parts(parts) =>
      ok := AnalyzeExprs(a, parts);
    case Name(x) =>
      a.CheckUsage(x);
      ok := true;
    case Lambda(params, body) =>
      ok := AnalyzeLambda(a, params, body);
    case Block(stmts) =>
      a.EnterScope();
      ghost var m1 := a.View();
      ok := AnalyzeStmts(a, stmts);
      ghost var m2 := a.View();
      if ok {
        a.ExitScope();
      }
      WalkedScoped(old(a.View()), m1, m2, a.View(), [], WalkStmts(stmts));
    case For(variable, iterable, body) =>
      ok := AnalyzeExpr(a, iterable);
      if ok {
        ghost var m1 := a.View();
        ok := AnalyzeLoop(a, variable, body);
        WalkedThen(old(a.View()), m1, a.View(), WalkExpr(iterable),
                   Scoped([Track(variable)], WalkExpr(body)), ok);
      }
    case Match(value, arms) =>
      ok := AnalyzeExpr(a, value);
      if ok {
        ghost var m1 := a.View();
        ok := AnalyzeArms(a, arms);
        WalkedThen(old(a.View()), m1, a.View(), WalkExpr(value), WalkArms(arms), ok);
      }
    case AssignTo(target, value) =>
      ok := AnalyzeExpr(a, value);
      if ok {
        ghost var m1 := a.View();
        a.AssignName(target);
        WalkedThen(old(a.View()), m1, a.View(), WalkExpr(value), Trip([Assign(target)], true), true);
      }
    case StructLiteral(typeName, fields, values) =>
      ok := AnalyzeLiteral(a, typeName, fields, values);
    case ObjectLiteral(entries) =>
      ok := AnalyzeFields(a, entries, {});
    case Skipped(_) =>
      ok := true;
  }

  /** An object's fields: one named twice is refused before its value. */
  method AnalyzeFields(a: Analyzer, entries: seq<Field>, seen: set<string>) returns (ok: bool)
    requires a.Valid()
    modifies a
    ensures a.Valid() && Walked(old(a.View()), a.View(), WalkFields(entries, seen), ok)
    decreases entries, 0
  {
    if entries == [] {
      return true;
    }
    var name := entries[0].name;
    if name in seen {
      return false;
    }
    ok := AnalyzeExpr(a, entries[0].value);
    if ok {
      ghost var m1 := a.View();
      ok := AnalyzeFields(a, entries[1..], seen + {name});
      WalkedThen(old(a.View()), m1, a.View(), WalkExpr(entries[0].value), WalkFields(entries[1..], seen + {name}), ok);
    }
  }

  method AnalyzeLambda(a: Analyzer, params: seq<string>, body: Expr) returns (ok: bool)
    requires a.Valid()
    modifies a
    ensures a.Valid() && Walked(old(a.View()), a.View(), Scoped(Declares(params), WalkExpr(body)), ok)
    decreases body, 2
  {
    a.EnterScope();
    DeclareEach(a, params);
    ghost var m1 := a.View();
    ok := AnalyzeExpr(a, body);
    ghost var m2 := a.View();
    if ok {
      a.ExitScope();
    }
    WalkedScoped(old(a.View()), m1, m2, a.View(), Declares(params), WalkExpr(body));
  }

  method AnalyzeLoop(a: Analyzer, variable: string, body: Expr) returns (ok: bool)
    requires a.Valid()
    modifies a
    ensures a.Valid() && Walked(old(a.View()), a.View(), Scoped([Track(variable)], WalkExpr(body)), ok)
    decreases body, 2
  {
    a.EnterScope();
    ghost var m0 := a.View();
    a.Track(variable);
    ghost var m1 := a.View();
    assert m1 == Run(m0, [Track(variable)]);
    ok := AnalyzeExpr(a, body);
    ghost var m2 := a.View();
    if ok {
      a.ExitScope();
    }
    WalkedScoped(old(a.View()), m1, m2, a.View(), [Track(variable)], WalkExpr(body));
  }

  /** A literal naming a field twice is refused, but only after its values. */
  method AnalyzeLiteral(a: Analyzer, typeName: string, fields: seq<string>, values: seq<Expr>)
    returns (ok: bool)
    requires a.Valid()
    modifies a
    ensures a.Valid()
    ensures Walked(old(a.View()), a.View(),
      Then(Trip([Use(typeName)], true), Then(WalkExprs(values), Trip([], !Duplicates(fields)))), ok)
    decreases values, 1
  {
    ghost var m0 := a.View();
    a.NoteUse(typeName);
    ghost var m1 := a.View();
    assert Walked(m0, m1, Trip([Use(typeName)], true), true);
    ok := AnalyzeExprs(a, values);
    ghost var m2 := a.View();
    ghost var rest := Then(WalkExprs(values), Trip([], !Duplicates(fields)));
    if ok {
      var twice := HasDuplicates(fields);
      ok := !twice;
      WalkedThen(m1, m2, m2, WalkExprs(values), Trip([], !Duplicates(fields)), ok);
    }
    WalkedThen(m0, m1, m2, Trip([Use(typeName)], true), rest, ok);
  }

  method HasDuplicates(names: seq<string>) returns (twice: bool)
    ensures twice <==> Duplicates(names)
  {
    var seen: set<string> := {};
    for i := 0 to |names|
      invariant forall x :: x in seen <==> x in names[..i]
      invariant !Duplicates(names[..i])
    {
      if names[i] in seen {
        var j :| 0 <= j < i && names[j] == names[i];
        return true;
      }
      seen := seen + {names[i]};
      assert names[..i + 1] == names[..i] + [names[i]];
    }
    assert names[..|names|] == names;
    twice := false;
  }

  method AnalyzeExprs(a: Analyzer, es: seq<Expr>) returns (ok: bool)
    requires a.Valid()
    modifies a
    ensures a.Valid() && Walked(old(a.View()), a.View(), WalkExprs(es), ok)
    decreases es, 0
  {
    ok := true;
    if es != [] {
      ok := AnalyzeExpr(a, es[0]);
      if ok {
        ghost var m1 := a.View();
        ok := AnalyzeExprs(a, es[1..]);
        WalkedThen(old(a.View()), m1, a.View(), WalkExpr(es[0]), WalkExprs(es[1..]), ok);
      }
    }
  }

  method AnalyzeArms(a: Analyzer, arms: seq<Arm>) returns (ok: bool)
    requires a.Valid()
    modifies a
    ensures a.Valid() && Walked(old(a.View()), a.View(), WalkArms(arms), ok)
    decreases arms, 0
  {
    ok := true;
    if arms != [] {
      var arm := arms[0];
      ghost var inside := Then(WalkExprs(arm.guards), WalkExpr(arm.body));
      ghost var scoped, uses := Scoped(Declares(arm.binds), inside), Trip(Uses(arm.uses), true);
      ghost var m0 := a.View();
      NoteUses(a, arm.uses);
      ghost var m1 := a.View();
      ok := AnalyzeArm(a, arm);
      ghost var m2 := a.View();
      if ok {
        ok := AnalyzeArms(a, arms[1..]);
        WalkedThen(m1, m2, a.View(), scoped, WalkArms(arms[1..]), ok);
      }
      WalkedThen(m0, m1, a.View(), uses, Then(scoped, WalkArms(arms[1..])), ok);
    }
  }

  /** One arm, once the names its pattern refers to are counted. */
  method AnalyzeArm(a: Analyzer, arm: Arm) returns (ok: bool)
    requires a.Valid()
    modifies a
    ensures a.Valid()
    ensures Walked(old(a.View()), a.View(),
      Scoped(Declares(arm.binds), Then(WalkExprs(arm.guards), WalkExpr(arm.body))), ok)
    decreases arm, 0
  {
    ghost var inside := Then(WalkExprs(arm.guards), WalkExpr(arm.body));
    a.EnterScope();
    DeclareEach(a, arm.binds);
    ghost var m1 := a.View();
    ok := AnalyzeExprs(a, arm.guards);
    if ok {
      ghost var m2 := a.View();
      ok := AnalyzeExpr(a, arm.body);
      WalkedThen(m1, m2, a.View(), WalkExprs(arm.guards), WalkExpr(arm.body), ok);
    }
    ghost var m3 := a.View();
    if ok {
      a.ExitScope();
    }
    WalkedScoped(old(a.View()), m1, m3, a.View(), Declares(arm.binds), inside);
  }

  method AnalyzeStmt(a: Analyzer, s: Stmt) returns (ok: bool)
    requires a.Valid()
    modifies a
    ensures a.Valid() && Walked(old(a.View()), a.View(), WalkStmt(s), ok)
    decreases s, 1
  {
    match s
    case Evaluate(e) =>
      ok := AnalyzeExpr(a, e);
    case Let(names, value) =>
      ok := AnalyzeExprs(a, value);
      if ok {
        ghost var m1 := a.View();
        BindEach(a, names, true);
        WalkedThen(old(a.View()), m1, a.View(), WalkExprs(value), Trip(Binds(names, true), true), true);
      }
    case Function(name, params, body) =>
      a.BindFunction(name);
      ghost var m1 := a.View();
      assert Walked(old(a.View()), m1, Trip([BindFunction(name)], true), true);
      ok := AnalyzeBody(a, params, body);
      WalkedThen(old(a.View()), m1, a.View(), Trip([BindFunction(name)], true),
                 Scoped(Binds(params, false), WalkExpr(body)), ok);
    case TypeDecl(name, members) =>
      a.Bind(name, false);
      var twice := HasDuplicates(members);
      ok := !twice;
  }

  method AnalyzeBody(a: Analyzer, params: seq<string>, body: Expr) returns (ok: bool)
    requires a.Valid()
    modifies a
    ensures a.Valid() && Walked(old(a.View()), a.View(), Scoped(Binds(params, false), WalkExpr(body)), ok)
    decreases body, 2
  {
    a.EnterScope();
    BindEach(a, params, false);
    ghost var m1 := a.View();
    ok := AnalyzeExpr(a, body);
    ghost var m2 := a.View();
    if ok {
      a.ExitScope();
    }
    WalkedScoped(old(a.View()), m1, m2, a.View(), Binds(params, false), WalkExpr(body));
  }

  method AnalyzeStmts(a: Analyzer, stmts: seq<Stmt>) returns (ok: bool)
    requires a.Valid()
    modifies a
    ensures a.Valid() && Walked(old(a.View()), a.View(), WalkStmts(stmts), ok)
    decreases stmts, 0
  {
    ok := true;
    if stmts != [] {
      ok := AnalyzeStmt(a, stmts[0]);
      if ok {
        ghost var m1 := a.View();
        ok := AnalyzeStmts(a, stmts[1..]);
        WalkedThen(old(a.View()), m1, a.View(), WalkStmt(stmts[0]), WalkStmts(stmts[1..]), ok);
      }
    }
  }
}
