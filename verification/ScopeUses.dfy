/** What the analyzer counts, and what unused names are told by: a name's uses are the
    references that reach it. */
module ScopeUses {
  import opened Scopes
  import opened ScopeWalk
  import opened ScopeLaws
  import opened Wrappers

  // ── References, by the language's scoping alone ──

  function Times(x: string, xs: seq<string>): nat {
    if xs == [] then 0 else (if xs[0] == x then 1 else 0) + Times(x, xs[1..])
  }

  /** How often an expression refers to the `x` that is visible where it stands. */
  function Tally(e: Expr, x: string): nat
    decreases e, 1
  {
    match e
    case Parts(parts) => TallyAll(parts, x)
    case Name(y) => if y == x then 1 else 0
    case Lambda(params, body) => if x in params then 0 else Tally(body, x)
    case Block(stmts) => TallyStmts(stmts, x)
    case For(variable, iterable, body) => Tally(iterable, x) + TallyLoop(variable, body, x)
    case Match(value, arms) => Tally(value, x) + TallyArms(arms, x)
    case AssignTo(target, value) => Tally(value, x) + if target == x then 1 else 0
    case StructLiteral(typeName, _, values) => (if typeName == x then 1 else 0) + TallyAll(values, x)
    case ObjectLiteral(entries) => TallyFields(entries, x)
    case Skipped(_) => 0
  }

  function TallyLoop(variable: string, body: Expr, x: string): nat
    decreases body, 2
  {
    if variable == x then 0 else Tally(body, x)
  }

  function TallyAll(es: seq<Expr>, x: string): nat
    decreases es, 0
  {
    if es == [] then 0 else Tally(es[0], x) + TallyAll(es[1..], x)
  }

  function TallyFields(entries: seq<Field>, x: string): nat
    decreases entries, 0
  {
    if entries == [] then 0 else Tally(entries[0].value, x) + TallyFields(entries[1..], x)
  }

  /** An arm's pattern refers to names outside it before it binds its own. */
  function TallyArms(arms: seq<Arm>, x: string): nat
    decreases arms, 0
  {
    if arms == [] then 0
    else
      var arm := arms[0];
      Times(x, arm.uses) + TallyArm(arm, x) + TallyArms(arms[1..], x)
  }

  function TallyArm(arm: Arm, x: string): nat
    decreases arm, 0
  {
    if x in arm.binds then 0 else TallyAll(arm.guards, x) + Tally(arm.body, x)
  }

  predicate Redeclares(s: Stmt, x: string) {
    match s
    case Evaluate(_) => false
    case Let(names, _) => x in names
    case Function(name, _, _) => name == x
    case TypeDecl(name, _) => name == x
  }

  /** In a scope within that of `x`: a declaration shadows it from there on, and a
      function's name in its own body. */
  function TallyStmt(s: Stmt, x: string): nat
    decreases s, 1
  {
    match s
    case Evaluate(e) => Tally(e, x)
    case Let(_, value) => TallyAll(value, x)
    case Function(name, params, body) => if name == x || x in params then 0 else Tally(body, x)
    case TypeDecl(_, _) => 0
  }

  function TallyStmts(stmts: seq<Stmt>, x: string): nat
    decreases stmts, 0
  {
    if stmts == [] then 0
    else TallyStmt(stmts[0], x) + if Redeclares(stmts[0], x) then 0 else TallyStmts(stmts[1..], x)
  }

  // ── What is counted ──

  /** Scope `k` is the innermost that declares `x`. */
  ghost predicate Innermost(m: Model, k: nat, x: string) {
    k < |m.stack| && x in m.stack[k] && forall j {:trigger m.stack[j]} :: k < j < |m.stack| ==> x !in m.stack[j]
  }

  function More(entry: Option<Info>, n: nat): Option<Info> {
    if entry.None? then None else Some(entry.value.(uses := entry.value.uses + n))
  }

  /** `n` more uses of the `x` in scope `k` were counted, and it is visible still. */
  ghost predicate Counts(m: Model, m': Model, k: nat, x: string, n: nat) {
    && Innermost(m, k, x) && Innermost(m', k, x)
    && |m'.stack| == |m.stack| && m'.hoisted == m.hoisted && (x in m'.builtins <==> x in m.builtins)
    && m'.stack[k][x] == More(m.stack[k][x], n)
  }

  /** The same, but that the innermost scope may have come to declare `x`. */
  ghost predicate CountsUnder(m: Model, m': Model, k: nat, x: string, n: nat) {
    && k < |m.stack| - 1 && |m'.stack| == |m.stack|
    && m'.hoisted == m.hoisted && (x in m'.builtins <==> x in m.builtins)
    && x in m.stack[k] && x in m'.stack[k]
    && (forall j {:trigger m'.stack[j]} :: k < j < |m.stack| - 1 ==> x !in m'.stack[j])
    && m'.stack[k][x] == More(m.stack[k][x], n)
  }

  lemma CountsThen(m0: Model, m1: Model, m2: Model, k: nat, x: string, a: nat, b: nat)
    requires Counts(m0, m1, k, x, a) && Counts(m1, m2, k, x, b)
    ensures Counts(m0, m2, k, x, a + b)
  {
  }

  lemma {:induction false} CountCounts(stack: seq<Frame>, x: string, y: string, k: nat)
    requires k < |stack| && x in stack[k] && forall j :: k < j < |stack| ==> x !in stack[j]
    ensures |Count(stack, y)| == |stack| && x in Count(stack, y)[k]
    ensures Count(stack, y)[k][x] == More(stack[k][x], if y == x then 1 else 0)
    ensures forall j :: k < j < |stack| ==> x !in Count(stack, y)[j]
    decreases |stack|
  {
    CountKeeps(stack, y);
    var rest, top := stack[..|stack| - 1], stack[|stack| - 1];
    if k < |rest| && y !in top {
      CountCounts(rest, x, y, k);
    }
  }

  lemma OpensIt(m: Model, k: nat, x: string)
    requires Innermost(m, k, x)
    ensures Open(m.stack, x)
  {
  }

  /** What leaves all but the innermost scope alone, and `x` in that one, counts
      nothing. */
  lemma TopCounts(m: Model, m': Model, k: nat, x: string)
    requires Innermost(m, k, x) && |m'.stack| == |m.stack|
    requires m'.hoisted == m.hoisted && (x in m'.builtins <==> x in m.builtins)
    requires m'.stack[..|m.stack| - 1] == m.stack[..|m.stack| - 1]
    requires var last := |m.stack| - 1;
      (x in m'.stack[last] <==> x in m.stack[last]) && (x in m.stack[last] ==> m'.stack[last][x] == m.stack[last][x])
    ensures Counts(m, m', k, x, 0)
  {
    forall j | 0 <= j < |m.stack| - 1 ensures m'.stack[j] == m.stack[j] {
      assert m'.stack[..|m.stack| - 1][j] == m.stack[..|m.stack| - 1][j];
    }
    assert More(m.stack[k][x], 0) == m.stack[k][x];
  }

  lemma DeclareKeepsOthers(stack: seq<Frame>, y: string, info: Info, x: string)
    requires stack != [] && x != y
    ensures var last := |stack| - 1;
      && |Put(Declare(stack, y), y, info)| == |stack| && |Declare(stack, y)| == |stack|
      && Put(Declare(stack, y), y, info)[..last] == stack[..last] && Declare(stack, y)[..last] == stack[..last]
      && (x in Put(Declare(stack, y), y, info)[last] <==> x in stack[last])
      && (x in Declare(stack, y)[last] <==> x in stack[last])
      && (x in stack[last] ==> Put(Declare(stack, y), y, info)[last][x] == stack[last][x])
      && (x in stack[last] ==> Declare(stack, y)[last][x] == stack[last][x])
  {
    DeclareTops(stack, y);
  }

  lemma UseCounts(m: Model, y: string, k: nat, x: string)
    requires Innermost(m, k, x)
    ensures Counts(m, m.(stack := Count(m.stack, y)), k, x, if y == x then 1 else 0)
  {
    CountCounts(m.stack, x, y, k);
  }

  lemma PutCounts(m: Model, m': Model, y: string, info: Info, k: nat, x: string)
    requires Innermost(m, k, x) && y != x && m'.stack == Put(Declare(m.stack, y), y, info)
    requires m'.hoisted == m.hoisted && (x in m'.builtins <==> x in m.builtins)
    ensures Counts(m, m', k, x, 0)
  {
    DeclareKeepsOthers(m.stack, y, info, x);
    TopCounts(m, m', k, x);
  }

  lemma DeclareCounts(m: Model, y: string, k: nat, x: string)
    requires Innermost(m, k, x) && y != x
    ensures Counts(m, m.(stack := Declare(m.stack, y)), k, x, 0)
  {
    DeclareKeepsOthers(m.stack, y, Info(0, false, 0), x);
    TopCounts(m, m.(stack := Declare(m.stack, y)), k, x);
  }

  lemma BoundCounts(m: Model, y: string, isMutable: bool, k: nat, x: string)
    requires Innermost(m, k, x) && y != x
    ensures Counts(m, Bound(m, y, isMutable), k, x, 0)
  {
    var uses := if |m.stack| == 1 && y in m.undefined then 1 else 0;
    PutCounts(m, Bound(m, y, isMutable), y, Info(|m.stack| - 1, isMutable, uses), k, x);
  }

  lemma SameCounts(m: Model, m': Model, k: nat, x: string)
    requires Innermost(m, k, x) && m'.stack == m.stack && m'.hoisted == m.hoisted && m'.builtins == m.builtins
    ensures Counts(m, m', k, x, 0)
  {
    TopCounts(m, m', k, x);
  }

  /** An operation that neither opens nor closes a scope, and does not declare `x`. */
  lemma ApplyCounts(m: Model, op: Op, k: nat, x: string)
    requires Innermost(m, k, x) && !op.Enter? && !op.Exit? && !op.Hoist? && (op.BindFunction? ==> |m.stack| > 1)
    requires op.x == x ==> op.Use? || op.Check? || op.Assign?
    ensures Counts(m, Apply(m, op), k, x, if op.x == x then 1 else 0)
  {
    OpensIt(m, k, x);
    match op
    case DeclareOnly(y) => DeclareCounts(m, y, k, x);
    case Bind(y, isMutable) => BoundCounts(m, y, isMutable, k, x);
    case BindFunction(y) => BoundCounts(m, y, false, k, x);
    case Track(y) => PutCounts(m, Apply(m, op), y, Info(|m.stack| - 1, false, 0), k, x);
    case Use(y) => UseCounts(m, y, k, x);
    case Check(y) =>
      if Open(m.stack, y) {
        UseCounts(m, y, k, x);
      } else {
        SameCounts(m, Apply(m, op), k, x);
      }
    case Assign(y) =>
      if Open(m.stack, y) {
        UseCounts(m, y, k, x);
      } else {
        PutCounts(m, Apply(m, op), y, Info(|m.stack| - 1, true, 1), k, x);
      }
  }

  lemma {:induction false} UsesCount(m: Model, xs: seq<string>, k: nat, x: string)
    requires Innermost(m, k, x)
    ensures Counts(m, Run(m, Uses(xs)), k, x, Times(x, xs))
    decreases |xs|
  {
    if xs == [] {
      SameCounts(m, m, k, x);
    } else {
      var m1 := Apply(m, Use(xs[0]));
      ApplyCounts(m, Use(xs[0]), k, x);
      UsesCount(m1, xs[1..], k, x);
      assert Uses(xs)[1..] == Uses(xs[1..]);
      CountsThen(m, m1, Run(m, Uses(xs)), k, x, if xs[0] == x then 1 else 0, Times(x, xs[1..]));
    }
  }

  /** Names declared that are not `x`. */
  ghost predicate Quiet(ops: seq<Op>, x: string) {
    forall i {:trigger ops[i]} :: 0 <= i < |ops| ==>
      (ops[i].DeclareOnly? || ops[i].Bind? || ops[i].Track? || ops[i].BindFunction?) && ops[i].x != x
  }

  lemma {:induction false} QuietCounts(m: Model, ops: seq<Op>, k: nat, x: string)
    requires Innermost(m, k, x) && Quiet(ops, x)
    requires |m.stack| > 1 || forall i :: 0 <= i < |ops| ==> !ops[i].BindFunction?
    ensures Counts(m, Run(m, ops), k, x, 0)
    decreases |ops|
  {
    if ops == [] {
      SameCounts(m, m, k, x);
    } else {
      var m1 := Apply(m, ops[0]);
      ApplyCounts(m, ops[0], k, x);
      assert forall i :: 0 <= i < |ops[1..]| ==> ops[1..][i] == ops[i + 1];
      QuietCounts(m1, ops[1..], k, x);
      CountsThen(m, m1, Run(m, ops), k, x, 0, 0);
    }
  }

  lemma {:induction false} OpsAre(xs: seq<string>, isMutable: bool)
    ensures |ScopeWalk.Declares(xs)| == |xs| == |Binds(xs, isMutable)|
    ensures forall i :: 0 <= i < |xs| ==>
      ScopeWalk.Declares(xs)[i] == DeclareOnly(xs[i]) && Binds(xs, isMutable)[i] == Bind(xs[i], isMutable)
  {
    if xs != [] {
      OpsAre(xs[1..], isMutable);
    }
  }

  // ── Scopes within ──

  lemma EnteredInnermost(m: Model, k: nat, x: string)
    requires Innermost(m, k, x)
    ensures Innermost(Apply(m, Enter), k, x) && Apply(m, Enter).stack[k] == m.stack[k]
  {
    var m1 := Apply(m, Enter);
    forall j | k < j < |m1.stack| ensures x !in m1.stack[j] {
      if j < |m.stack| {
        assert m1.stack[j] == m.stack[j];
      }
    }
  }

  /** A scope that was opened, done with and closed has counted what it did under. */
  lemma ClosedCounts(m: Model, m2: Model, k: nat, x: string, n: nat)
    requires Innermost(m, k, x) && CountsUnder(Apply(m, Enter), m2, k, x, n)
    ensures Counts(m, Apply(m2, Exit), k, x, n)
  {
    var m1, m3 := Apply(m, Enter), Apply(m2, Exit);
    assert m1.stack[k] == m.stack[k];
    forall j | 0 <= j < |m.stack| ensures m3.stack[j] == m2.stack[j] {
    }
  }

  lemma CountsIsUnder(m: Model, m': Model, k: nat, x: string, n: nat)
    requires Counts(m, m', k, x, n) && k < |m.stack| - 1
    ensures CountsUnder(m, m', k, x, n)
  {
  }

  /** Inside a scope, no function declared ahead is used up, and no builtin rebound. */
  lemma {:induction false} RunKeepsHoisted(m: Model, ops: seq<Op>, d: nat)
    requires |m.stack| > 1 + d && Depth(ops, d).Some? && HoistsNone(ops)
    ensures Run(m, ops).hoisted == m.hoisted && Run(m, ops).builtins == m.builtins
    decreases |ops|
  {
    if ops != [] {
      var n := |m.stack| - 1 - d;
      ApplyProtects(m, ops[0], n, 0);
      assert forall i :: 0 <= i < |ops[1..]| ==> ops[1..][i] == ops[i + 1];
      RunKeepsHoisted(Apply(m, ops[0]), ops[1..], if ops[0].Enter? then d + 1 else if ops[0].Exit? then d - 1 else d);
    }
  }

  /** Where the innermost scope declares `x`, nothing done in it counts under it. */
  lemma ShadowedUnder(m0: Model, m: Model, ops: seq<Op>, k: nat, x: string, n: nat)
    requires CountsUnder(m0, m, k, x, n) && x in m.stack[|m.stack| - 1] && Depth(ops, 0) == Some(0) && HoistsNone(ops)
    ensures CountsUnder(m0, Run(m, ops), k, x, n)
  {
    var top := |m.stack| - 1;
    RunShields(m, ops, top, 0, k, x);
    RunKeepsHoisted(m, ops, 0);
    var m' := Run(m, ops);
    forall j | k < j < top ensures x !in m'.stack[j] {
      RunProtects(m, ops, top, 0, j);
      assert x !in m.stack[j];
    }
  }

  /** Names declared as a scope is opened, and no others. */
  ghost predicate Furnishes(ops: seq<Op>) {
    forall i {:trigger ops[i]} :: 0 <= i < |ops| ==>
      ops[i].DeclareOnly? || ops[i].Bind? || ops[i].Track? || ops[i].BindFunction?
  }

  lemma {:induction false} FurnishesTop(m: Model, ops: seq<Op>)
    requires |m.stack| > 1 && Furnishes(ops)
    ensures var m', last := Run(m, ops), |m.stack| - 1;
      && |m'.stack| == |m.stack| && m'.stack[..last] == m.stack[..last] && m.stack[last].Keys <= m'.stack[last].Keys
      && m'.hoisted == m.hoisted && m'.builtins == m.builtins
      && forall i :: 0 <= i < |ops| ==> ops[i].x in m'.stack[last]
    decreases |ops|
  {
    if ops != [] {
      var m1 := Apply(m, ops[0]);
      DeclareTops(m.stack, ops[0].x);
      TopOnly(m, ops[0]);
      assert forall i :: 0 <= i < |ops[1..]| ==> ops[1..][i] == ops[i + 1];
      FurnishesTop(m1, ops[1..]);
    }
  }

  /** A scope opened and furnished: `x` is what it was, or declared anew. */
  lemma FurnishedUnder(m: Model, ops: seq<Op>, k: nat, x: string)
    requires Innermost(m, k, x) && k < |m.stack| - 1 && Furnishes(ops)
    ensures CountsUnder(m, Run(m, ops), k, x, 0)
    ensures (exists i :: 0 <= i < |ops| && ops[i].x == x) ==> x in Run(m, ops).stack[|m.stack| - 1]
    ensures Quiet(ops, x) ==> Counts(m, Run(m, ops), k, x, 0)
  {
    var m', last := Run(m, ops), |m.stack| - 1;
    FurnishesTop(m, ops);
    forall j | 0 <= j < last ensures m'.stack[j] == m.stack[j] {
      assert m'.stack[..last][j] == m.stack[..last][j];
    }
    assert More(m.stack[k][x], 0) == m.stack[k][x];
    if Quiet(ops, x) {
      QuietCounts(m, ops, k, x);
    }
  }

  lemma ScopedCounts(m: Model, opening: seq<Op>, inside: Trip, k: nat, x: string, n: nat)
    requires Innermost(m, k, x) && inside.ok
    requires CountsUnder(Apply(m, Enter), Run(Run(Apply(m, Enter), opening), inside.ops), k, x, n)
    ensures Counts(m, Run(m, Scoped(opening, inside).ops), k, x, n)
  {
    ScopedOps(m, opening, inside);
    ClosedCounts(m, Run(Run(Apply(m, Enter), opening), inside.ops), k, x, n);
  }

  // ── The walk counts the references ──

  lemma {:induction false} ExprCounts(m: Model, e: Expr, k: nat, x: string)
    requires Innermost(m, k, x) && WalkExpr(e).ok
    ensures Counts(m, Run(m, WalkExpr(e).ops), k, x, Tally(e, x))
    decreases e, 1
  {
    match e
    case Parts(parts) => ExprsCount(m, parts, k, x);
    case Name(y) => OneCounts(m, Check(y), k, x);
    case Lambda(params, body) => LambdaCounts(m, params, body, k, x);
    case Block(stmts) => BlockCounts(m, stmts, k, x);
    case For(variable, iterable, body) => ForCounts(m, variable, iterable, body, k, x);
    case Match(value, arms) => MatchCounts(m, value, arms, k, x);
    case AssignTo(target, value) => AssignToCounts(m, target, value, k, x);
    case StructLiteral(typeName, fields, values) => LiteralCounts(m, typeName, fields, values, k, x);
    case ObjectLiteral(entries) => FieldsCount(m, entries, {}, k, x);
    case Skipped(_) => SameCounts(m, m, k, x);
  }

  lemma OneCounts(m: Model, op: Op, k: nat, x: string)
    requires Innermost(m, k, x) && !op.Enter? && !op.Exit? && !op.Hoist? && (op.BindFunction? ==> |m.stack| > 1)
    requires op.x == x ==> op.Use? || op.Check? || op.Assign?
    ensures Counts(m, Run(m, [op]), k, x, if op.x == x then 1 else 0)
  {
    ApplyCounts(m, op, k, x);
    RunOne(m, op);
  }

  lemma TwoCount(m: Model, xs: seq<Op>, ys: seq<Op>, k: nat, x: string, a: nat, b: nat)
    requires m.stack != [] && Counts(m, Run(m, xs), k, x, a)
    requires var m1 := Run(m, xs); Counts(m1, Run(m1, ys), k, x, b)
    ensures Counts(m, Run(m, xs + ys), k, x, a + b)
  {
    var m1 := Run(m, xs);
    CountsThen(m, m1, Run(m1, ys), k, x, a, b);
    RunConcat(m, xs, ys);
  }

  lemma ThreeCount(m: Model, xs: seq<Op>, ys: seq<Op>, zs: seq<Op>, k: nat, x: string, a: nat, b: nat, c: nat)
    requires m.stack != [] && Counts(m, Run(m, xs), k, x, a) && Counts(Run(m, xs), Run(Run(m, xs), ys), k, x, b)
    requires var m2 := Run(Run(m, xs), ys); Counts(m2, Run(m2, zs), k, x, c)
    ensures Counts(m, Run(m, xs + (ys + zs)), k, x, a + b + c)
  {
    var m1 := Run(m, xs);
    var m2 := Run(m1, ys);
    var m3 := Run(m2, zs);
    CountsThen(m, m1, m2, k, x, a, b);
    CountsThen(m, m2, m3, k, x, a + b, c);
    RunConcat(m, xs, ys + zs);
    RunConcat(m1, ys, zs);
  }

  lemma {:induction false} ForCounts(m: Model, variable: string, iterable: Expr, body: Expr, k: nat, x: string)
    requires Innermost(m, k, x) && WalkExpr(iterable).ok && WalkExpr(body).ok
    ensures Counts(m, Run(m, WalkExpr(iterable).ops + Scoped([Track(variable)], WalkExpr(body)).ops), k, x,
                   Tally(iterable, x) + TallyLoop(variable, body, x))
    decreases For(variable, iterable, body), 0
  {
    var m1, loop := Run(m, WalkExpr(iterable).ops), Scoped([Track(variable)], WalkExpr(body));
    ExprCounts(m, iterable, k, x);
    LoopCounts(m1, variable, body, k, x);
    TwoCount(m, WalkExpr(iterable).ops, loop.ops, k, x, Tally(iterable, x), TallyLoop(variable, body, x));
  }

  lemma LoopCounts(m: Model, variable: string, body: Expr, k: nat, x: string)
    requires Innermost(m, k, x) && WalkExpr(body).ok
    ensures Counts(m, Run(m, Scoped([Track(variable)], WalkExpr(body)).ops), k, x, TallyLoop(variable, body, x))
    decreases body, 3
  {
    InnerCounts(m, [Track(variable)], [variable], body, k, x);
  }

  lemma {:induction false} MatchCounts(m: Model, value: Expr, arms: seq<Arm>, k: nat, x: string)
    requires Innermost(m, k, x) && WalkExpr(value).ok && WalkArms(arms).ok
    ensures Counts(m, Run(m, WalkExpr(value).ops + WalkArms(arms).ops), k, x, Tally(value, x) + TallyArms(arms, x))
    decreases Match(value, arms), 0
  {
    ExprCounts(m, value, k, x);
    ArmsCount(Run(m, WalkExpr(value).ops), arms, k, x);
    TwoCount(m, WalkExpr(value).ops, WalkArms(arms).ops, k, x, Tally(value, x), TallyArms(arms, x));
  }

  lemma {:induction false} AssignToCounts(m: Model, target: string, value: Expr, k: nat, x: string)
    requires Innermost(m, k, x) && WalkExpr(value).ok
    ensures Counts(m, Run(m, WalkExpr(value).ops + [Assign(target)]), k, x,
                   Tally(value, x) + if target == x then 1 else 0)
    decreases AssignTo(target, value), 0
  {
    ExprCounts(m, value, k, x);
    OneCounts(Run(m, WalkExpr(value).ops), Assign(target), k, x);
    TwoCount(m, WalkExpr(value).ops, [Assign(target)], k, x, Tally(value, x), if target == x then 1 else 0);
  }

  lemma {:induction false} LiteralCounts(m: Model, typeName: string, fields: seq<string>, values: seq<Expr>, k: nat,
                                         x: string)
    requires Innermost(m, k, x) && WalkExprs(values).ok
    ensures Counts(m, Run(m, WalkExpr(StructLiteral(typeName, fields, values)).ops), k, x,
                   Tally(StructLiteral(typeName, fields, values), x))
    decreases StructLiteral(typeName, fields, values), 0
  {
    OneCounts(m, Use(typeName), k, x);
    ExprsCount(Run(m, [Use(typeName)]), values, k, x);
    TwoCount(m, [Use(typeName)], WalkExprs(values).ops, k, x, if typeName == x then 1 else 0, TallyAll(values, x));
    LiteralOps(m, typeName, fields, values);
  }

  /** `opening` declares `xs` and nothing else. */
  ghost predicate Opens(opening: seq<Op>, xs: seq<string>) {
    Furnishes(opening) && |opening| == |xs| && forall i :: 0 <= i < |xs| ==> opening[i].x == xs[i]
  }

  lemma OpenedUnder(m: Model, opening: seq<Op>, xs: seq<string>, k: nat, x: string)
    requires Innermost(m, k, x) && Opens(opening, xs)
    ensures var m1 := Apply(m, Enter); var m2 := Run(m1, opening);
      && CountsUnder(m1, m2, k, x, 0)
      && if x in xs then x in m2.stack[|m2.stack| - 1] else Counts(m1, m2, k, x, 0)
  {
    var m1 := Apply(m, Enter);
    EnteredInnermost(m, k, x);
    FurnishedUnder(m1, opening, k, x);
    if x in xs {
      var i :| 0 <= i < |xs| && xs[i] == x;
      assert opening[i].x == x;
    } else {
      assert Quiet(opening, x);
    }
  }

  /** A scope in which `xs` are declared and `inside` is walked. */
  lemma WithinCounts(m: Model, m2: Model, opening: seq<Op>, xs: seq<string>, inside: Trip, k: nat, x: string, n: nat)
    requires Innermost(m, k, x) && Opens(opening, xs) && inside.ok && Paired(inside)
    requires m2 == Run(Apply(m, Enter), opening) && (x !in xs ==> Counts(m2, Run(m2, inside.ops), k, x, n))
    ensures Counts(m, Run(m, Scoped(opening, inside).ops), k, x, if x in xs then 0 else n)
  {
    var m1 := Apply(m, Enter);
    OpenedUnder(m, opening, xs, k, x);
    if x in xs {
      ShadowedUnder(m1, m2, inside.ops, k, x, 0);
    } else {
      CountsThen(m1, m2, Run(m2, inside.ops), k, x, 0, n);
      CountsIsUnder(m1, Run(m2, inside.ops), k, x, n);
    }
    ScopedCounts(m, opening, inside, k, x, if x in xs then 0 else n);
  }

  /** An expression in a scope of its own. */
  lemma InnerCounts(m: Model, opening: seq<Op>, xs: seq<string>, body: Expr, k: nat, x: string)
    requires Innermost(m, k, x) && WalkExpr(body).ok && Opens(opening, xs)
    ensures Counts(m, Run(m, Scoped(opening, WalkExpr(body)).ops), k, x, if x in xs then 0 else Tally(body, x))
    decreases body, 2
  {
    var m2 := Run(Apply(m, Enter), opening);
    OpenedUnder(m, opening, xs, k, x);
    if x !in xs {
      ExprCounts(m2, body, k, x);
    }
    WalkExprPaired(body);
    WithinCounts(m, m2, opening, xs, WalkExpr(body), k, x, Tally(body, x));
  }

  lemma LambdaCounts(m: Model, params: seq<string>, body: Expr, k: nat, x: string)
    requires Innermost(m, k, x) && WalkExpr(body).ok
    ensures Counts(m, Run(m, Scoped(ScopeWalk.Declares(params), WalkExpr(body)).ops), k, x,
                   if x in params then 0 else Tally(body, x))
    decreases body, 3
  {
    OpsAre(params, false);
    InnerCounts(m, ScopeWalk.Declares(params), params, body, k, x);
  }

  lemma BlockCounts(m: Model, stmts: seq<Stmt>, k: nat, x: string)
    requires Innermost(m, k, x) && WalkStmts(stmts).ok
    ensures Counts(m, Run(m, Scoped([], WalkStmts(stmts)).ops), k, x, TallyStmts(stmts, x))
    decreases stmts, 2
  {
    EnteredInnermost(m, k, x);
    StmtsCount(Apply(m, Enter), stmts, k, x);
    ScopedCounts(m, [], WalkStmts(stmts), k, x, TallyStmts(stmts, x));
  }

  lemma {:induction false} ExprsCount(m: Model, es: seq<Expr>, k: nat, x: string)
    requires Innermost(m, k, x) && WalkExprs(es).ok
    ensures Counts(m, Run(m, WalkExprs(es).ops), k, x, TallyAll(es, x))
    decreases es, 0
  {
    if es == [] {
      SameCounts(m, m, k, x);
    } else {
      ExprCounts(m, es[0], k, x);
      ExprsCount(Run(m, WalkExpr(es[0]).ops), es[1..], k, x);
      TwoCount(m, WalkExpr(es[0]).ops, WalkExprs(es[1..]).ops, k, x, Tally(es[0], x), TallyAll(es[1..], x));
    }
  }

  lemma {:induction false} FieldsCount(m: Model, entries: seq<Field>, seen: set<string>, k: nat, x: string)
    requires Innermost(m, k, x) && WalkFields(entries, seen).ok
    ensures Counts(m, Run(m, WalkFields(entries, seen).ops), k, x, TallyFields(entries, x))
    decreases entries, 0
  {
    if entries == [] {
      SameCounts(m, m, k, x);
    } else {
      var e, rest := entries[0].value, WalkFields(entries[1..], seen + {entries[0].name});
      ExprCounts(m, e, k, x);
      FieldsCount(Run(m, WalkExpr(e).ops), entries[1..], seen + {entries[0].name}, k, x);
      TwoCount(m, WalkExpr(e).ops, rest.ops, k, x, Tally(e, x), TallyFields(entries[1..], x));
    }
  }

  lemma {:induction false} ArmsCount(m: Model, arms: seq<Arm>, k: nat, x: string)
    requires Innermost(m, k, x) && WalkArms(arms).ok
    ensures Counts(m, Run(m, WalkArms(arms).ops), k, x, TallyArms(arms, x))
    decreases arms, 0
  {
    if arms == [] {
      SameCounts(m, m, k, x);
    } else {
      var arm := arms[0];
      var scoped := Scoped(ScopeWalk.Declares(arm.binds), Then(WalkExprs(arm.guards), WalkExpr(arm.body)));
      var m1, rest := Run(m, Uses(arm.uses)), WalkArms(arms[1..]);
      UsesCount(m, arm.uses, k, x);
      ArmCounts(m1, arm, k, x);
      ArmsCount(Run(m1, scoped.ops), arms[1..], k, x);
      ThreeCount(m, Uses(arm.uses), scoped.ops, rest.ops, k, x, Times(x, arm.uses), TallyArm(arm, x),
                 TallyArms(arms[1..], x));
    }
  }

  lemma ArmCounts(m: Model, arm: Arm, k: nat, x: string)
    requires Innermost(m, k, x) && WalkExprs(arm.guards).ok && WalkExpr(arm.body).ok
    ensures var inside := Then(WalkExprs(arm.guards), WalkExpr(arm.body));
      Counts(m, Run(m, Scoped(ScopeWalk.Declares(arm.binds), inside).ops), k, x, TallyArm(arm, x))
    decreases arm, 1
  {
    var opening, inside := ScopeWalk.Declares(arm.binds), Then(WalkExprs(arm.guards), WalkExpr(arm.body));
    var m2 := Run(Apply(m, Enter), opening);
    OpsAre(arm.binds, false);
    OpenedUnder(m, opening, arm.binds, k, x);
    if x !in arm.binds {
      GuardedCounts(m2, arm, k, x);
    }
    WalkExprsPaired(arm.guards);
    WalkExprPaired(arm.body);
    ThenPaired(WalkExprs(arm.guards), WalkExpr(arm.body));
    WithinCounts(m, m2, opening, arm.binds, inside, k, x, TallyAll(arm.guards, x) + Tally(arm.body, x));
  }

  lemma GuardedCounts(m: Model, arm: Arm, k: nat, x: string)
    requires Innermost(m, k, x) && WalkExprs(arm.guards).ok && WalkExpr(arm.body).ok
    ensures Counts(m, Run(m, WalkExprs(arm.guards).ops + WalkExpr(arm.body).ops), k, x,
                   TallyAll(arm.guards, x) + Tally(arm.body, x))
    decreases arm, 0
  {
    ExprsCount(m, arm.guards, k, x);
    ExprCounts(Run(m, WalkExprs(arm.guards).ops), arm.body, k, x);
    TwoCount(m, WalkExprs(arm.guards).ops, WalkExpr(arm.body).ops, k, x, TallyAll(arm.guards, x), Tally(arm.body, x));
  }

  /** A statement in a scope within that of `x`. */
  lemma {:induction false} StmtCounts(m: Model, s: Stmt, k: nat, x: string)
    requires Innermost(m, k, x) && k < |m.stack| - 1 && WalkStmt(s).ok
    ensures CountsUnder(m, Run(m, WalkStmt(s).ops), k, x, TallyStmt(s, x))
    ensures if Redeclares(s, x) then x in Run(m, WalkStmt(s).ops).stack[|m.stack| - 1]
            else Counts(m, Run(m, WalkStmt(s).ops), k, x, TallyStmt(s, x))
    decreases s, 1
  {
    match s
    case Evaluate(e) => ExprCounts(m, e, k, x);
    case Let(names, value) => LetCounts(m, names, value, k, x);
    case Function(name, params, body) => FunctionCounts(m, name, params, body, k, x);
    case TypeDecl(name, members) =>
      FurnishedUnder(m, [Bind(name, false)], k, x);
      assert name == x ==> [Bind(name, false)][0].x == x;
  }

  lemma {:induction false} LetCounts(m: Model, names: seq<string>, value: seq<Expr>, k: nat, x: string)
    requires Innermost(m, k, x) && k < |m.stack| - 1 && WalkExprs(value).ok
    ensures var m' := Run(m, WalkStmt(Let(names, value)).ops);
      && CountsUnder(m, m', k, x, TallyAll(value, x))
      && if x in names then x in m'.stack[|m.stack| - 1] else Counts(m, m', k, x, TallyAll(value, x))
    decreases Let(names, value), 0
  {
    var m1, n := Run(m, WalkExprs(value).ops), TallyAll(value, x);
    ExprsCount(m, value, k, x);
    BindsUnder(m1, names, k, x);
    RunConcat(m, WalkExprs(value).ops, Binds(names, true));
    CountsUnderThen(m, m1, Run(m1, Binds(names, true)), k, x, n, 0);
    if x !in names {
      CountsThen(m, m1, Run(m1, Binds(names, true)), k, x, n, 0);
    }
  }

  lemma BindsUnder(m: Model, names: seq<string>, k: nat, x: string)
    requires Innermost(m, k, x) && k < |m.stack| - 1
    ensures var m' := Run(m, Binds(names, true));
      CountsUnder(m, m', k, x, 0) && if x in names then x in m'.stack[|m.stack| - 1] else Counts(m, m', k, x, 0)
  {
    OpsAre(names, true);
    FurnishedUnder(m, Binds(names, true), k, x);
    if x in names {
      var i :| 0 <= i < |names| && names[i] == x;
      assert Binds(names, true)[i].x == x;
    } else {
      assert Quiet(Binds(names, true), x);
    }
  }

  lemma CountsUnderThen(m0: Model, m1: Model, m2: Model, k: nat, x: string, a: nat, b: nat)
    requires Counts(m0, m1, k, x, a) && CountsUnder(m1, m2, k, x, b)
    ensures CountsUnder(m0, m2, k, x, a + b)
  {
  }

  lemma {:induction false} FunctionCounts(m: Model, name: string, params: seq<string>, body: Expr, k: nat, x: string)
    requires Innermost(m, k, x) && k < |m.stack| - 1 && WalkExpr(body).ok
    ensures var m' := Run(m, WalkStmt(Function(name, params, body)).ops);
      && CountsUnder(m, m', k, x, TallyStmt(Function(name, params, body), x))
      && if name == x then x in m'.stack[|m.stack| - 1]
         else Counts(m, m', k, x, TallyStmt(Function(name, params, body), x))
    decreases Function(name, params, body), 0
  {
    var scoped := Scoped(Binds(params, false), WalkExpr(body));
    var m1 := Run(m, [BindFunction(name)]);
    RunConcat(m, [BindFunction(name)], scoped.ops);
    if name == x {
      FunctionShadows(m, x, params, body, k);
    } else {
      OneCounts(m, BindFunction(name), k, x);
      OpsAre(params, false);
      InnerCounts(m1, Binds(params, false), params, body, k, x);
      TwoCount(m, [BindFunction(name)], scoped.ops, k, x, 0, if x in params then 0 else Tally(body, x));
      CountsIsUnder(m, Run(m1, scoped.ops), k, x, if x in params then 0 else Tally(body, x));
    }
  }

  lemma FunctionShadows(m: Model, x: string, params: seq<string>, body: Expr, k: nat)
    requires Innermost(m, k, x) && k < |m.stack| - 1 && WalkExpr(body).ok
    ensures var m' := Run(Run(m, [BindFunction(x)]), Scoped(Binds(params, false), WalkExpr(body)).ops);
      CountsUnder(m, m', k, x, 0) && x in m'.stack[|m.stack| - 1]
  {
    var m1, scoped := Run(m, [BindFunction(x)]), Scoped(Binds(params, false), WalkExpr(body));
    FurnishedUnder(m, [BindFunction(x)], k, x);
    assert [BindFunction(x)][0].x == x;
    WalkExprPaired(body);
    FlatOps(params, false, 1);
    ScopedPaired(Binds(params, false), WalkExpr(body));
    ShadowedUnder(m, m1, scoped.ops, k, x, 0);
    BodyKeepsTop(m1, params, body, x);
  }

  lemma ScopeKeepsTop(m: Model, ops: seq<Op>, x: string)
    requires m.stack != [] && Depth(ops, 0) == Some(0) && x in m.stack[|m.stack| - 1]
    ensures var m' := Run(m, [Enter] + ops + [Exit]);
      |m'.stack| == |m.stack| && x in m'.stack[|m.stack| - 1]
  {
    ScopeLeavesOuter(m, ops, |m.stack| - 1);
  }

  lemma BodyKeepsTop(m: Model, params: seq<string>, body: Expr, x: string)
    requires m.stack != [] && WalkExpr(body).ok && x in m.stack[|m.stack| - 1]
    ensures var m' := Run(m, Scoped(Binds(params, false), WalkExpr(body)).ops);
      |m'.stack| == |m.stack| && x in m'.stack[|m.stack| - 1]
  {
    var inside := Binds(params, false) + WalkExpr(body).ops;
    WalkExprPaired(body);
    FlatOps(params, false, 0);
    DepthConcat(Binds(params, false), WalkExpr(body).ops, 0);
    ScopeKeepsTop(m, inside, x);
    assert Scoped(Binds(params, false), WalkExpr(body)).ops == [Enter] + inside + [Exit];
  }

  lemma {:induction false} StmtsCount(m: Model, stmts: seq<Stmt>, k: nat, x: string)
    requires Innermost(m, k, x) && k < |m.stack| - 1 && WalkStmts(stmts).ok
    ensures CountsUnder(m, Run(m, WalkStmts(stmts).ops), k, x, TallyStmts(stmts, x))
    decreases stmts, 0
  {
    if stmts == [] {
      SameCounts(m, m, k, x);
    } else {
      var m1, rest := Run(m, WalkStmt(stmts[0]).ops), WalkStmts(stmts[1..]);
      StmtCounts(m, stmts[0], k, x);
      RunConcat(m, WalkStmt(stmts[0]).ops, rest.ops);
      if Redeclares(stmts[0], x) {
        WalkStmtsPaired(stmts[1..]);
        ShadowedUnder(m, m1, rest.ops, k, x, TallyStmt(stmts[0], x));
      } else {
        StmtsCount(m1, stmts[1..], k, x);
        CountsUnderThen(m, m1, Run(m1, rest.ops), k, x, TallyStmt(stmts[0], x), TallyStmts(stmts[1..], x));
      }
    }
  }

  // ── At the top level ──

  predicate Rebinds(s: Stmt, x: string) {
    (s.Let? && x in s.names) || (s.TypeDecl? && s.name == x)
  }

  predicate IsFunction(s: Stmt, x: string) {
    s.Function? && s.name == x
  }

  /** In the scope of `x` itself: a function's own body refers to it like any other. */
  function TallyTop(s: Stmt, x: string): nat {
    match s
    case Evaluate(e) => Tally(e, x)
    case Let(_, value) => TallyAll(value, x)
    case Function(_, params, body) => if x in params then 0 else Tally(body, x)
    case TypeDecl(_, _) => 0
  }

  function TallyTops(stmts: seq<Stmt>, x: string): nat {
    if stmts == [] then 0 else TallyTop(stmts[0], x) + TallyTops(stmts[1..], x)
  }

  lemma FunctionTop(m: Model, s: Stmt, x: string)
    requires |m.stack| == 1 && x in m.stack[0] && s.Function? && WalkStmt(s).ok
    requires s.name == x ==> x in m.hoisted
    ensures var m' := Run(m, WalkStmt(s).ops);
      && |m'.stack| == 1 && x in m'.stack[0] && m'.stack[0][x] == More(m.stack[0][x], TallyTop(s, x))
      && m'.hoisted == m.hoisted - {s.name} && (x in m'.builtins <==> x in m.builtins)
  {
    var m1, scoped := Apply(m, BindFunction(s.name)), Scoped(Binds(s.params, false), WalkExpr(s.body));
    if s.name !in m.hoisted {
      BoundCounts(m, s.name, false, 0, x);
    }
    OpsAre(s.params, false);
    InnerCounts(m1, Binds(s.params, false), s.params, s.body, 0, x);
    RunOne(m, BindFunction(s.name));
    RunConcat(m, [BindFunction(s.name)], scoped.ops);
  }

  lemma BindsQuietly(m: Model, names: seq<string>, x: string)
    requires |m.stack| == 1 && x in m.stack[0] && x !in names
    ensures Counts(m, Run(m, Binds(names, true)), 0, x, 0)
  {
    OpsAre(names, true);
    assert Quiet(Binds(names, true), x);
    QuietCounts(m, Binds(names, true), 0, x);
  }

  lemma LetTop(m: Model, names: seq<string>, value: seq<Expr>, x: string)
    requires |m.stack| == 1 && x in m.stack[0] && WalkExprs(value).ok && x !in names
    ensures Counts(m, Run(m, WalkStmt(Let(names, value)).ops), 0, x, TallyAll(value, x))
  {
    var m1 := Run(m, WalkExprs(value).ops);
    ExprsCount(m, value, 0, x);
    BindsQuietly(m1, names, x);
    TwoCount(m, WalkExprs(value).ops, Binds(names, true), 0, x, TallyAll(value, x), 0);
  }

  /** A statement at the top level that binds `x` to nothing new. */
  lemma TopCountsUses(m: Model, s: Stmt, x: string)
    requires |m.stack| == 1 && x in m.stack[0] && CleanStmt(s) && !Rebinds(s, x)
    requires IsFunction(s, x) ==> x in m.hoisted
    ensures var m' := StmtDone(m, s);
      && |m'.stack| == 1 && x in m'.stack[0] && m'.stack[0][x] == More(m.stack[0][x], TallyTop(s, x))
      && (x in m.hoisted && !IsFunction(s, x) ==> x in m'.hoisted) && (x in m'.builtins <==> x in m.builtins)
  {
    StmtIsClean(s);
    match s
    case Evaluate(e) => ExprCounts(m, e, 0, x);
    case Let(names, value) => LetTop(m, names, value, x);
    case Function(_, _, _) => FunctionTop(m, s, x);
    case TypeDecl(name, _) =>
      OneCounts(m, Bind(name, false), 0, x);
  }

  /** How many of these statements declare the function `x`. */
  function FunctionsOf(stmts: seq<Stmt>, x: string): nat {
    if stmts == [] then 0 else (if IsFunction(stmts[0], x) then 1 else 0) + FunctionsOf(stmts[1..], x)
  }

  ghost predicate NeverRebound(stmts: seq<Stmt>, x: string) {
    forall i {:trigger stmts[i]} :: 0 <= i < |stmts| ==> !Rebinds(stmts[i], x)
  }

  lemma {:induction false} TopsCount(m: Model, stmts: seq<Stmt>, x: string)
    requires |m.stack| == 1 && x in m.stack[0] && CleanStmts(stmts) && NeverRebound(stmts, x)
    requires FunctionsOf(stmts, x) <= if x in m.hoisted then 1 else 0
    ensures var m' := StmtsDone(m, stmts);
      && |m'.stack| == 1 && x in m'.stack[0] && m'.stack[0][x] == More(m.stack[0][x], TallyTops(stmts, x))
      && (x in m'.builtins <==> x in m.builtins)
    decreases |stmts|
  {
    if stmts != [] {
      assert !Rebinds(stmts[0], x);
      TopCountsUses(m, stmts[0], x);
      assert forall i :: 0 <= i < |stmts[1..]| ==> stmts[1..][i] == stmts[i + 1];
      TopsCount(StmtDone(m, stmts[0]), stmts[1..], x);
    }
  }

  lemma {:induction false} BindsWrite(m: Model, names: seq<string>, x: string)
    requires |m.stack| == 1 && x in names
    ensures var m' := Run(m, Binds(names, true));
      && |m'.stack| == 1 && x in m'.stack[0] && x !in m'.builtins
      && m'.stack[0][x] == Some(Info(0, true, if x in m.undefined then 1 else 0))
    decreases |names|
  {
    var m1 := Apply(m, Bind(names[0], true));
    DeclareTops(m.stack, names[0]);
    assert Binds(names, true)[1..] == Binds(names[1..], true);
    if x in names[1..] {
      BindsWrite(m1, names[1..], x);
    } else {
      OpsAre(names[1..], true);
      assert Quiet(Binds(names[1..], true), x);
      QuietCounts(m1, Binds(names[1..], true), 0, x);
    }
  }

  /** A variable declared at the top level, and not again, ends with as many uses as
      references reach it from there on, and one more if its name had been reported
      before it was declared: with none if and only if it is unused. */
  lemma LetIsCounted(m: Model, names: seq<string>, value: seq<Expr>, after: seq<Stmt>, x: string)
    requires Ready(m) && |m.stack| == 1 && x in names && CleanExprs(value) && CleanStmts(after)
    requires NeverRebound(after, x) && FunctionsOf(after, x) == 0
    ensures var m' := StmtsDone(m, [Let(names, value)] + after);
      var early := x in m.undefined || x in FreeExprs(value, OpenNames(m.stack)).0;
      && |m'.stack| == 1 && x in m'.stack[0] && x !in m'.builtins
      && m'.stack[0][x] == Some(Info(0, true, (if early then 1 else 0) + TallyTops(after, x)))
  {
    var m1 := Run(m, WalkExprs(value).ops);
    var free := FreeExprs(value, OpenNames(m.stack)).0;
    ExprsAreClean(value);
    ExprsReport(m, value);
    FirstsNames(free, Names(m.undefined));
    NamesConcat(m.undefined, Firsts(free, Names(m.undefined)));
    assert x in Names(m1.undefined) <==> x in Names(m.undefined) + Names(free);
    BindsWrite(m1, names, x);
    RunConcat(m, WalkExprs(value).ops, Binds(names, true));
    var stmts := [Let(names, value)] + after;
    assert stmts[1..] == after;
    TopsCount(StmtDone(m, stmts[0]), after, x);
  }

  lemma HoistKeeps(m: Model, y: string, x: string)
    requires |m.stack| == 1 && x in m.stack[0]
    ensures var m' := Apply(m, Hoist(y));
      && |m'.stack| == 1 && x in m'.stack[0] && m'.stack[0][x] == m.stack[0][x]
      && (x in m.hoisted ==> x in m'.hoisted)
  {
    if y !in m.stack[0] {
      DeclareKeepsOthers(m.stack, y, Info(0, false, 0), x);
    }
  }

  lemma {:induction false} HoistsKeep(m: Model, stmts: seq<Stmt>, x: string)
    requires |m.stack| == 1 && x in m.stack[0] && x in m.hoisted
    ensures var m' := Run(m, HoistOps(stmts));
      |m'.stack| == 1 && x in m'.stack[0] && m'.stack[0][x] == m.stack[0][x] && x in m'.hoisted
    decreases |stmts|
  {
    if stmts != [] {
      if stmts[0].Function? {
        HoistKeeps(m, stmts[0].name, x);
        assert HoistOps(stmts)[1..] == HoistOps(stmts[1..]);
        HoistsKeep(Apply(m, Hoist(stmts[0].name)), stmts[1..], x);
      } else {
        assert HoistOps(stmts) == HoistOps(stmts[1..]);
        HoistsKeep(m, stmts[1..], x);
      }
    }
  }

  lemma {:induction false} HoistsWrite(m: Model, stmts: seq<Stmt>, x: string)
    requires |m.stack| == 1 && x !in m.stack[0] && FunctionsOf(stmts, x) >= 1
    ensures var m' := Run(m, HoistOps(stmts));
      |m'.stack| == 1 && x in m'.stack[0] && m'.stack[0][x] == Some(Info(0, false, 0)) && x in m'.hoisted
    decreases |stmts|
  {
    if stmts[0].Function? {
      var m1 := Apply(m, Hoist(stmts[0].name));
      DeclareTops(m.stack, stmts[0].name);
      assert HoistOps(stmts)[1..] == HoistOps(stmts[1..]);
      if stmts[0].name == x {
        HoistsKeep(m1, stmts[1..], x);
      } else {
        HoistsWrite(m1, stmts[1..], x);
      }
    } else {
      assert HoistOps(stmts) == HoistOps(stmts[1..]);
      HoistsWrite(m, stmts[1..], x);
    }
  }

  /** A function declared once at the top level, and bound to nothing else, ends with as
      many uses as references reach it anywhere, before its declaration and in its own
      body too. */
  lemma FunctionIsCounted(m: Model, stmts: seq<Stmt>, x: string)
    requires |m.stack| == 1 && x !in m.stack[0] && CleanStmts(stmts)
    requires FunctionsOf(stmts, x) == 1 && NeverRebound(stmts, x)
    ensures var m' := StmtsDone(Run(m, HoistOps(stmts)), stmts);
      |m'.stack| == 1 && x in m'.stack[0] && m'.stack[0][x] == Some(Info(0, false, TallyTops(stmts, x)))
  {
    HoistsWrite(m, stmts, x);
    TopsCount(Run(m, HoistOps(stmts)), stmts, x);
  }
}
