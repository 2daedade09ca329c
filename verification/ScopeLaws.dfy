/** What scopes guarantee over whole walks, and the names a walk reports. */
module ScopeLaws {
  import opened Scopes
  import opened ScopeWalk
  import opened Wrappers

  // ── Scopes around a walk ──

  /** The same names with the same entries, but for more uses counted. */
  ghost predicate UsesOnly(f: Frame, f': Frame) {
    && f'.Keys == f.Keys
    && forall x {:trigger f[x]} :: x in f ==>
         match f[x]
         case None => f'[x] == None
         case Some(i) => f'[x].Some? && f'[x].value == i.(uses := f'[x].value.uses) && f'[x].value.uses >= i.uses
  }

  lemma UsesOnlyThen(f: Frame, g: Frame, h: Frame)
    requires UsesOnly(f, g) && UsesOnly(g, h)
    ensures UsesOnly(f, h)
  {
    forall x | x in f
      ensures f[x].None? ==> h[x] == None
      ensures f[x].Some? ==>
        h[x].Some? && h[x].value == f[x].value.(uses := h[x].value.uses) && h[x].value.uses >= f[x].value.uses
    {
      assert g[x] == g[x];
    }
  }

  lemma {:induction false} CountUsesOnly(stack: seq<Frame>, x: string, k: nat)
    requires k < |stack|
    ensures |Count(stack, x)| == |stack| && UsesOnly(stack[k], Count(stack, x)[k])
    ensures (exists j :: k < j < |stack| && x in stack[j]) || x !in stack[k] ==> Count(stack, x)[k] == stack[k]
    ensures forall y :: y in stack[k] && y != x ==> Count(stack, x)[k][y] == stack[k][y]
    decreases |stack|
  {
    CountKeeps(stack, x);
    var rest, top := stack[..|stack| - 1], stack[|stack| - 1];
    if x !in top && k < |rest| {
      CountUsesOnly(rest, x, k);
      if j: int :| k < j < |stack| && x in stack[j] {
        assert rest[j] == stack[j];
      }
    }
  }

  /** One operation inside scopes opened above the first `n`: those change in
      counted uses only. */
  lemma ApplyProtects(m: Model, op: Op, n: nat, k: nat)
    requires k < n < |m.stack| && (op.Exit? ==> n + 1 < |m.stack|)
    ensures |Apply(m, op).stack| == |m.stack| + (if op.Enter? then 1 else if op.Exit? then -1 else 0)
    ensures UsesOnly(m.stack[k], Apply(m, op).stack[k])
  {
    if op.Enter? || op.Exit? {
      Unchanged(m.stack[k]);
    } else if op.Use? || ((op.Check? || op.Assign?) && Open(m.stack, op.x)) {
      CountUsesOnly(m.stack, op.x, k);
    } else {
      TopOnly(m, op);
      Unchanged(m.stack[k]);
      assert m.stack[..|m.stack| - 1][k] == m.stack[k];
    }
  }

  lemma {:induction false} RunProtects(m: Model, ops: seq<Op>, n: nat, d: nat, k: nat)
    requires |m.stack| == n + 1 + d && Depth(ops, d).Some? && k < n
    ensures |Run(m, ops).stack| == n + 1 + Depth(ops, d).value
    ensures UsesOnly(m.stack[k], Run(m, ops).stack[k])
    decreases |ops|
  {
    if ops != [] {
      var m1 := Apply(m, ops[0]);
      ApplyProtects(m, ops[0], n, k);
      var d1 := if ops[0].Enter? then d + 1 else if ops[0].Exit? then d - 1 else d;
      RunProtects(m1, ops[1..], n, d1, k);
      UsesOnlyThen(m.stack[k], m1.stack[k], Run(m, ops).stack[k]);
    } else {
      Unchanged(m.stack[k]);
    }
  }

  lemma Unchanged(f: Frame)
    ensures UsesOnly(f, f)
  {
    forall x | x in f ensures f[x].Some? ==> f[x].value == f[x].value.(uses := f[x].value.uses) {
    }
  }

  lemma {:induction false} RunDepth(m: Model, ops: seq<Op>, d: nat)
    requires |m.stack| == 1 + d && Depth(ops, d).Some?
    ensures |Run(m, ops).stack| == 1 + Depth(ops, d).value
    decreases |ops|
  {
    if ops != [] {
      if ops[0].Use? || ops[0].Check? || ops[0].Assign? {
        CountKeeps(m.stack, ops[0].x);
      }
      if !ops[0].Enter? && !ops[0].Exit? {
        DeclareTops(m.stack, ops[0].x);
      }
      RunDepth(Apply(m, ops[0]), ops[1..], if ops[0].Enter? then d + 1 else if ops[0].Exit? then d - 1 else d);
    }
  }

  /** A name that scope `n` declares is not seen under it: the scopes beneath keep
      its entries exactly. */
  lemma ApplyShields(m: Model, op: Op, n: nat, k: nat, x: string)
    requires k < n < |m.stack| && (op.Exit? ==> n + 1 < |m.stack|)
    requires x in m.stack[n] && x in m.stack[k]
    ensures |Apply(m, op).stack| > n && x in Apply(m, op).stack[n]
    ensures x in Apply(m, op).stack[k] && Apply(m, op).stack[k][x] == m.stack[k][x]
  {
    if op.Enter? || op.Exit? {
    } else if op.Use? || ((op.Check? || op.Assign?) && Open(m.stack, op.x)) {
      CountUsesOnly(m.stack, op.x, k);
      CountUsesOnly(m.stack, op.x, n);
    } else {
      TopOnly(m, op);
      assert m.stack[..|m.stack| - 1][k] == m.stack[k];
      assert n < |m.stack| - 1 ==> m.stack[..|m.stack| - 1][n] == m.stack[n];
    }
  }

  /** An operation that declares touches the innermost scope alone. */
  lemma TopOnly(m: Model, op: Op)
    requires m.stack != [] && !op.Enter? && !op.Exit? && !op.Use?
    requires op.Check? || op.Assign? ==> !Open(m.stack, op.x)
    ensures var last := |m.stack| - 1; var stack' := Apply(m, op).stack;
      |stack'| == |m.stack| && stack'[..last] == m.stack[..last] && m.stack[last].Keys <= stack'[last].Keys
  {
    DeclareTops(m.stack, op.x);
  }

  lemma {:induction false} RunShields(m: Model, ops: seq<Op>, n: nat, d: nat, k: nat, x: string)
    requires |m.stack| == n + 1 + d && Depth(ops, d).Some? && k < n
    requires x in m.stack[n] && x in m.stack[k]
    ensures |Run(m, ops).stack| == n + 1 + Depth(ops, d).value
    ensures x in Run(m, ops).stack[k] && Run(m, ops).stack[k][x] == m.stack[k][x]
    decreases |ops|
  {
    if ops != [] {
      ApplyProtects(m, ops[0], n, k);
      ApplyShields(m, ops[0], n, k, x);
      var d1 := if ops[0].Enter? then d + 1 else if ops[0].Exit? then d - 1 else d;
      RunShields(Apply(m, ops[0]), ops[1..], n, d1, k, x);
    }
  }

  /** Whatever is done inside a scope, leaving it gives back the scopes around it:
      the same names with the same entries, but for uses counted through. */
  lemma ScopeLeavesOuter(m: Model, ops: seq<Op>, k: nat)
    requires k < |m.stack| && Depth(ops, 0) == Some(0)
    ensures |Run(m, [Enter] + ops + [Exit]).stack| == |m.stack|
    ensures UsesOnly(m.stack[k], Run(m, [Enter] + ops + [Exit]).stack[k])
  {
    var m1 := Apply(m, Enter);
    RunProtects(m1, ops, |m.stack|, 0, k);
    RunConcat(m, [Enter] + ops, [Exit]);
    RunConcat(m, [Enter], ops);
    assert Run(m, [Enter]) == m1;
    assert Run(Run(m1, ops), [Exit]) == Apply(Run(m1, ops), Exit);
  }

  /** A scope that declares `x` before anything else restores the entries it
      shadows exactly, uses and all. */
  lemma ShadowIsRestored(m: Model, op: Op, x: string, ops: seq<Op>, k: nat)
    requires k < |m.stack| && x in m.stack[k] && Depth(ops, 0) == Some(0)
    requires op == DeclareOnly(x) || op == Track(x) || (op.Bind? && op.x == x)
    ensures var m' := Run(m, [Enter, op] + ops + [Exit]);
      |m'.stack| == |m.stack| && x in m'.stack[k] && m'.stack[k][x] == m.stack[k][x]
  {
    var m1 := Apply(m, Enter);
    DeclareTops(m1.stack, x);
    var m2 := Apply(m1, op);
    assert m1.stack[..|m.stack|][k] == m.stack[k];
    assert m2.stack[k] == m.stack[k];
    RunShields(m2, ops, |m.stack|, 0, k, x);
    RunConcat(m, [Enter, op] + ops, [Exit]);
    RunConcat(m, [Enter, op], ops);
    assert Run(m1, [op]) == m2;
    assert [Enter, op][1..] == [op];
    assert Run(m, [Enter, op]) == m2;
    assert Run(Run(m2, ops), [Exit]) == Apply(Run(m2, ops), Exit);
  }

  /** A walk leaves the scopes around the innermost changed in counted uses only,
      wherever it stops; one that goes through leaves as many scopes as it met. */
  lemma WalkLeavesOuter(m: Model, e: Expr, k: nat)
    requires k < |m.stack| - 1
    ensures |Run(m, WalkExpr(e).ops).stack| >= |m.stack|
    ensures WalkExpr(e).ok ==> |Run(m, WalkExpr(e).ops).stack| == |m.stack|
    ensures UsesOnly(m.stack[k], Run(m, WalkExpr(e).ops).stack[k])
  {
    WalkExprPaired(e);
    RunProtects(m, WalkExpr(e).ops, |m.stack| - 1, 0, k);
  }

  // ── Whole programs, and recovery ──

  /** Every top-level function declared ahead of the walk. */
  function HoistOps(stmts: seq<Stmt>): seq<Op> {
    if stmts == [] then []
    else (if stmts[0].Function? then [Hoist(stmts[0].name)] else []) + HoistOps(stmts[1..])
  }

  /** One statement: if the walk cannot follow it, back to the outermost scope. */
  function StmtDone(m: Model, s: Stmt): Model
    requires m.stack != []
    ensures StmtDone(m, s).stack != []
  {
    var m' := Run(m, WalkStmt(s).ops);
    if WalkStmt(s).ok then m' else m'.(stack := m'.stack[..1])
  }

  function StmtsDone(m: Model, stmts: seq<Stmt>): Model
    requires m.stack != []
    ensures StmtsDone(m, stmts).stack != []
    decreases |stmts|
  {
    if stmts == [] then m else StmtsDone(StmtDone(m, stmts[0]), stmts[1..])
  }

  method AnalyzeProgram(a: Analyzer, stmts: seq<Stmt>) returns (first: Option<string>)
    requires a.Valid()
    modifies a
    ensures a.Valid() && a.View() == StmtsDone(Run(old(a.View()), HoistOps(stmts)), stmts)
    ensures first == if a.undefined == [] then None else Some(a.undefined[0])
    ensures Fresh(old(a.View())) ==>
      var free := FreeProgram(stmts, OpenNames(old(a.View()).stack) + FunctionNames(stmts));
      first == if free == [] then None else Some(free[0])
  {
    ghost var before := a.View();
    HoistAll(a, stmts);
    for i := 0 to |stmts|
      invariant a.Valid()
      invariant StmtsDone(a.View(), stmts[i..]) == StmtsDone(Run(old(a.View()), HoistOps(stmts)), stmts)
    {
      ghost var m := a.View();
      var ok := AnalyzeStmt(a, stmts[i]);
      if !ok {
        a.Recover();
      }
      assert a.View() == StmtDone(m, stmts[i]);
      assert stmts[i..][1..] == stmts[i + 1..];
    }
    assert stmts[|stmts|..] == [];
    first := if a.undefined == [] then None else Some(a.undefined[0]);
    if Fresh(before) {
      ProgramReports(before, stmts);
    }
  }

  /** The state an analysis begins in: one scope, and nothing reported. */
  ghost predicate Fresh(m: Model) {
    Ready(m) && |m.stack| == 1 && m.undefined == []
  }

  method HoistAll(a: Analyzer, stmts: seq<Stmt>)
    requires a.Valid()
    modifies a
    ensures a.Valid() && a.View() == Run(old(a.View()), HoistOps(stmts))
  {
    for i := 0 to |stmts|
      invariant a.Valid() && Run(a.View(), HoistOps(stmts[i..])) == Run(old(a.View()), HoistOps(stmts))
    {
      assert stmts[i..][1..] == stmts[i + 1..];
      if stmts[i].Function? {
        a.Hoist(stmts[i].name);
        assert HoistOps(stmts[i..])[1..] == HoistOps(stmts[i + 1..]);
      } else {
        assert HoistOps(stmts[i..]) == HoistOps(stmts[i + 1..]);
      }
    }
  }

  /** From the outermost scope every statement, followed or not, ends back in it,
      with every name it had. */
  lemma StmtEndsOutermost(m: Model, s: Stmt)
    requires |m.stack| == 1
    ensures |StmtDone(m, s).stack| == 1
    ensures m.stack[0].Keys <= StmtDone(m, s).stack[0].Keys
  {
    WalkStmtPaired(s);
    RunDepth(m, WalkStmt(s).ops, 0);
    RunKeepsNames(m, WalkStmt(s).ops, 0);
  }

  lemma {:induction false} RunKeepsNames(m: Model, ops: seq<Op>, d: nat)
    requires |m.stack| == 1 + d && Depth(ops, d).Some?
    ensures m.stack[0].Keys <= Run(m, ops).stack[0].Keys
    decreases |ops|
  {
    if ops != [] {
      RunDepth(m, [ops[0]], d);
      assert Run(m, [ops[0]]) == Apply(m, ops[0]);
      ApplyKeepsNames(m, ops[0]);
      RunKeepsNames(Apply(m, ops[0]), ops[1..],
                    if ops[0].Enter? then d + 1 else if ops[0].Exit? then d - 1 else d);
    }
  }

  lemma ApplyKeepsNames(m: Model, op: Op)
    requires m.stack != []
    ensures Apply(m, op).stack != [] && m.stack[0].Keys <= Apply(m, op).stack[0].Keys
  {
    if op.Enter? || op.Exit? {
    } else if op.Use? || ((op.Check? || op.Assign?) && Open(m.stack, op.x)) {
      CountKeeps(m.stack, op.x);
    } else {
      TopOnly(m, op);
      assert |m.stack| > 1 ==> m.stack[..|m.stack| - 1][0] == m.stack[0];
    }
  }

  lemma {:induction false} ProgramEndsOutermost(m: Model, stmts: seq<Stmt>)
    requires |m.stack| == 1
    ensures |StmtsDone(m, stmts).stack| == 1
    ensures m.stack[0].Keys <= StmtsDone(m, stmts).stack[0].Keys
    decreases |stmts|
  {
    if stmts != [] {
      StmtEndsOutermost(m, stmts[0]);
      ProgramEndsOutermost(StmtDone(m, stmts[0]), stmts[1..]);
    }
  }

  // ── The names reported ──

  function Names(xs: seq<string>): set<string> {
    set x | x in xs
  }

  /** What `xs` adds to the names known: each at its first occurrence, in order. */
  function Firsts(xs: seq<string>, known: set<string>): seq<string> {
    if xs == [] then []
    else if xs[0] in known then Firsts(xs[1..], known)
    else [xs[0]] + Firsts(xs[1..], known + {xs[0]})
  }

  lemma {:induction false} FirstsConcat(xs: seq<string>, ys: seq<string>, known: set<string>)
    ensures Firsts(xs + ys, known) == Firsts(xs, known) + Firsts(ys, known + Names(xs))
  {
    if xs == [] {
      assert xs + ys == ys && known + Names(xs) == known;
    } else {
      assert (xs + ys)[1..] == xs[1..] + ys;
      var next := if xs[0] in known then known else known + {xs[0]};
      FirstsConcat(xs[1..], ys, next);
      assert next + Names(xs[1..]) == known + Names(xs);
    }
  }

  lemma {:induction false} FirstsNames(xs: seq<string>, known: set<string>)
    ensures known + Names(Firsts(xs, known)) == known + Names(xs)
    ensures forall x :: x in Firsts(xs, known) ==> x !in known && x in xs
    ensures forall i, j :: 0 <= i < j < |Firsts(xs, known)| ==> Firsts(xs, known)[i] != Firsts(xs, known)[j]
  {
    if xs != [] {
      var next := if xs[0] in known then known else known + {xs[0]};
      FirstsNames(xs[1..], next);
      assert next + Names(xs[1..]) == known + Names(xs);
      if xs[0] !in known {
        var rest := Firsts(xs[1..], next);
        assert Names([xs[0]] + rest) == {xs[0]} + Names(rest);
      }
    }
  }

  lemma NamesConcat(xs: seq<string>, ys: seq<string>)
    ensures Names(xs + ys) == Names(xs) + Names(ys)
  {
  }

  /** The free names of an expression where `bound` are bound, and what is bound
      after it: an assignment to an unbound name binds it. Where the walk gives up,
      these are the names met and bound before that, but for those that scopes left
      open declare. */
  function FreeExpr(e: Expr, bound: set<string>): (seq<string>, set<string>)
    decreases e, 1
  {
    match e
    case Parts(parts) => FreeExprs(parts, bound)
    case Name(x) => (if x in bound then [] else [x], bound)
    case Lambda(params, body) => (FreeExpr(body, bound + Names(params)).0, bound)
    case Block(stmts) => (FreeStmts(stmts, bound).0, bound)
    case For(variable, iterable, body) =>
      var (f, b) := FreeExpr(iterable, bound);
      if CleanExpr(iterable) then (f + FreeExpr(body, b + {variable}).0, b) else (f, b)
    case Match(value, arms) =>
      var (f, b) := FreeExpr(value, bound);
      if CleanExpr(value) then (f + FreeArms(arms, b), b) else (f, b)
    case AssignTo(target, value) =>
      var (f, b) := FreeExpr(value, bound);
      (f, if CleanExpr(value) then b + {target} else b)
    case StructLiteral(_, _, values) => FreeExprs(values, bound)
    case ObjectLiteral(entries) => FreeFields(entries, {}, bound)
    case Skipped(_) => ([], bound)
  }

  function FreeFields(entries: seq<Field>, seen: set<string>, bound: set<string>): (seq<string>, set<string>)
    decreases entries, 0
  {
    if entries == [] || entries[0].name in seen then ([], bound)
    else
      var (f, b) := FreeExpr(entries[0].value, bound);
      if !CleanExpr(entries[0].value) then (f, b)
      else
        var (f', b') := FreeFields(entries[1..], seen + {entries[0].name}, b);
        (f + f', b')
  }

  function FreeExprs(es: seq<Expr>, bound: set<string>): (seq<string>, set<string>)
    decreases es, 0
  {
    if es == [] then ([], bound)
    else
      var (f, b) := FreeExpr(es[0], bound);
      if !CleanExpr(es[0]) then (f, b)
      else
        var (f', b') := FreeExprs(es[1..], b);
        (f + f', b')
  }

  function FreeArm(arm: Arm, bound: set<string>): seq<string>
    decreases arm, 0
  {
    var (f, b) := FreeExprs(arm.guards, bound + Names(arm.binds));
    if CleanExprs(arm.guards) then f + FreeExpr(arm.body, b).0 else f
  }

  function FreeArms(arms: seq<Arm>, bound: set<string>): seq<string>
    decreases arms, 0
  {
    if arms == [] then []
    else if CleanExprs(arms[0].guards) && CleanExpr(arms[0].body)
    then FreeArm(arms[0], bound) + FreeArms(arms[1..], bound)
    else FreeArm(arms[0], bound)
  }

  function FreeStmt(s: Stmt, bound: set<string>): (seq<string>, set<string>)
    decreases s, 1
  {
    match s
    case Evaluate(e) => FreeExpr(e, bound)
    case Let(names, value) =>
      var (f, b) := FreeExprs(value, bound);
      (f, if CleanExprs(value) then b + Names(names) else b)
    case Function(name, params, body) =>
      (FreeExpr(body, bound + {name} + Names(params)).0, bound + {name})
    case TypeDecl(name, _) => ([], bound + {name})
  }

  function FreeStmts(stmts: seq<Stmt>, bound: set<string>): (seq<string>, set<string>)
    decreases stmts, 0
  {
    if stmts == [] then ([], bound)
    else
      var (f, b) := FreeStmt(stmts[0], bound);
      if !CleanStmt(stmts[0]) then (f, b)
      else
        var (f', b') := FreeStmts(stmts[1..], b);
        (f + f', b')
  }

  /** The free names of a program: a statement given up costs only itself. */
  function FreeProgram(stmts: seq<Stmt>, bound: set<string>): seq<string>
    decreases stmts, 0
  {
    if stmts == [] then []
    else
      var (f, b) := FreeStmt(stmts[0], bound);
      f + FreeProgram(stmts[1..], b)
  }

  /** Every name some scope declares. */
  function OpenNames(stack: seq<Frame>): set<string> {
    if stack == [] then {} else OpenNames(stack[..|stack| - 1]) + stack[|stack| - 1].Keys
  }

  lemma {:induction false} OpenNamesIs(stack: seq<Frame>, x: string)
    ensures x in OpenNames(stack) <==> Open(stack, x)
    decreases |stack|
  {
    if stack != [] {
      var rest := stack[..|stack| - 1];
      OpenNamesIs(rest, x);
      if Open(rest, x) {
        var k :| 0 <= k < |rest| && x in rest[k];
        assert x in stack[k];
      }
      if Open(stack, x) && x !in stack[|stack| - 1] {
        var k :| 0 <= k < |stack| && x in stack[k];
        assert x in rest[k];
      }
    }
  }

  lemma {:induction false} OpenNamesSame(stack: seq<Frame>, stack': seq<Frame>)
    requires |stack| == |stack'| && forall k :: 0 <= k < |stack| ==> stack[k].Keys == stack'[k].Keys
    ensures OpenNames(stack) == OpenNames(stack')
    decreases |stack|
  {
    if stack != [] {
      OpenNamesSame(stack[..|stack| - 1], stack'[..|stack| - 1]);
    }
  }

  /** A state a walk is in: the functions declared ahead are declared outermost. */
  ghost predicate Ready(m: Model) {
    m.stack != [] && m.hoisted <= m.stack[0].Keys
  }

  /** The outermost `n` scopes. */
  function Level(stack: seq<Frame>, n: nat): seq<Frame> {
    if |stack| <= n then stack else stack[..n]
  }

  /** What was reported, and what is bound at the level it began on, after a piece of
      a walk; one that went through ends on that level. */
  ghost predicate Reports(m: Model, m': Model, ok: bool, free: seq<string>, bound: set<string>) {
    && Ready(m')
    && m'.hoisted <= m.hoisted
    && |m.stack| <= |m'.stack| && (ok ==> |m'.stack| == |m.stack|)
    && m'.undefined == m.undefined + Firsts(free, Names(m.undefined))
    && OpenNames(Level(m'.stack, |m.stack|)) == bound
  }

  lemma OpenNamesTop(stack: seq<Frame>, stack': seq<Frame>, x: string)
    requires stack != [] && |stack'| == |stack|
    requires stack'[..|stack| - 1] == stack[..|stack| - 1]
    requires stack'[|stack| - 1].Keys == stack[|stack| - 1].Keys + {x}
    ensures OpenNames(stack') == OpenNames(stack) + {x}
  {
  }

  /** What an operation that writes an entry for `x` does to the names. */
  lemma DeclaringKeys(m: Model, op: Op)
    requires m.stack != []
    requires op.DeclareOnly? || op.Bind? || op.Track? || (op.Assign? && !Open(m.stack, op.x))
      || (op.BindFunction? && !(|m.stack| == 1 && op.x in m.hoisted))
    ensures var last := |m.stack| - 1; var m' := Apply(m, op);
      && |m'.stack| == |m.stack| && m'.stack[..last] == m.stack[..last]
      && m'.stack[last].Keys == m.stack[last].Keys + {op.x}
      && m'.undefined == m.undefined && m'.hoisted == m.hoisted
  {
    var last := |m.stack| - 1;
    DeclareTops(m.stack, op.x);
    assert Declare(m.stack, op.x)[last].Keys == m.stack[last].Keys + {op.x};
  }

  /** An operation that declares `x` binds it and reports nothing. */
  lemma DeclaringReports(m: Model, op: Op)
    requires Ready(m)
    requires op.DeclareOnly? || op.Bind? || op.Track? || op.BindFunction?
      || (op.Assign? && !Open(m.stack, op.x))
    ensures Reports(m, Apply(m, op), true, [], OpenNames(m.stack) + {op.x})
  {
    var m' := Apply(m, op);
    ApplyKeepsNames(m, op);
    if op.BindFunction? && |m.stack| == 1 && op.x in m.hoisted {
      OpenNamesIs(m.stack, op.x);
      assert op.x in m.stack[0];
      assert OpenNames(m.stack) + {op.x} == OpenNames(m.stack);
    } else {
      DeclaringKeys(m, op);
      OpenNamesTop(m.stack, m'.stack, op.x);
    }
  }

  lemma NamesAppend(xs: seq<string>, x: string)
    ensures Names(xs + [x]) == Names(xs) + {x}
  {
    assert forall y :: y in xs + [x] <==> y in xs || y == x;
  }

  /** A use counted reports nothing and binds nothing. */
  lemma CountingReports(m: Model, x: string)
    requires Ready(m)
    ensures Reports(m, m.(stack := Count(m.stack, x)), true, [], OpenNames(m.stack))
  {
    CountKeeps(m.stack, x);
    OpenNamesSame(m.stack, Count(m.stack, x));
  }

  lemma CheckReports(m: Model, x: string)
    requires Ready(m)
    ensures Reports(m, Apply(m, Check(x)), true, if x in OpenNames(m.stack) then [] else [x], OpenNames(m.stack))
  {
    OpenNamesIs(m.stack, x);
    if Open(m.stack, x) {
      CountingReports(m, x);
    } else {
      NamesAppend(m.undefined, x);
      assert Firsts([x], Names(m.undefined)) == if x in m.undefined then [] else [x];
    }
  }

  lemma AssignReports(m: Model, x: string)
    requires Ready(m)
    ensures Reports(m, Apply(m, Assign(x)), true, [], OpenNames(m.stack) + {x})
  {
    OpenNamesIs(m.stack, x);
    if Open(m.stack, x) {
      CountingReports(m, x);
      assert OpenNames(m.stack) + {x} == OpenNames(m.stack);
    } else {
      DeclaringReports(m, Assign(x));
    }
  }

  lemma ReportsThen(m0: Model, m1: Model, m2: Model, f1: seq<string>, b1: set<string>,
                    ok: bool, f2: seq<string>, b2: set<string>)
    requires Reports(m0, m1, true, f1, b1) && Reports(m1, m2, ok, f2, b2)
    ensures Reports(m0, m2, ok, f1 + f2, b2)
  {
    var known := Names(m0.undefined);
    FirstsConcat(f1, f2, known);
    FirstsNames(f1, known);
    NamesConcat(m0.undefined, Firsts(f1, known));
  }

  lemma {:induction false} DeclaresReport(m: Model, xs: seq<string>)
    requires Ready(m)
    ensures Reports(m, Run(m, Declares(xs)), true, [], OpenNames(m.stack) + Names(xs))
    decreases |xs|
  {
    if xs != [] {
      DeclaringReports(m, DeclareOnly(xs[0]));
      var m1 := Apply(m, DeclareOnly(xs[0]));
      DeclaresReport(m1, xs[1..]);
      assert Declares(xs)[1..] == Declares(xs[1..]);
      assert OpenNames(m1.stack) + Names(xs[1..]) == OpenNames(m.stack) + Names(xs);
    }
  }

  lemma {:induction false} BindsReport(m: Model, xs: seq<string>, isMutable: bool)
    requires Ready(m)
    ensures Reports(m, Run(m, Binds(xs, isMutable)), true, [], OpenNames(m.stack) + Names(xs))
    decreases |xs|
  {
    if xs != [] {
      DeclaringReports(m, Bind(xs[0], isMutable));
      var m1 := Apply(m, Bind(xs[0], isMutable));
      BindsReport(m1, xs[1..], isMutable);
      assert Binds(xs, isMutable)[1..] == Binds(xs[1..], isMutable);
      assert OpenNames(m1.stack) + Names(xs[1..]) == OpenNames(m.stack) + Names(xs);
    }
  }

  lemma {:induction false} UsesReport(m: Model, xs: seq<string>)
    requires Ready(m)
    ensures Reports(m, Run(m, Uses(xs)), true, [], OpenNames(m.stack))
    decreases |xs|
  {
    if xs != [] {
      CountingReports(m, xs[0]);
      UsesReport(Apply(m, Use(xs[0])), xs[1..]);
      assert Uses(xs)[1..] == Uses(xs[1..]);
    }
  }

  lemma RunOne(m: Model, op: Op)
    requires m.stack != []
    ensures Run(m, [op]) == Apply(m, op)
  {
    assert [op][1..] == [];
  }

  /** Inside a scope, whatever is done and wherever it stops, the scopes around it
      keep their names. */
  lemma InsideKeepsNames(m: Model, ops: seq<Op>)
    requires m.stack != [] && Depth(ops, 0).Some?
    ensures var m' := Run(Apply(m, Enter), ops);
      && |m'.stack| == |m.stack| + 1 + Depth(ops, 0).value
      && OpenNames(m'.stack[..|m.stack|]) == OpenNames(m.stack)
      && m'.stack[0].Keys == m.stack[0].Keys
  {
    var m1 := Apply(m, Enter);
    var m' := Run(m1, ops);
    RunProtects(m1, ops, |m.stack|, 0, 0);
    forall k | 0 <= k < |m.stack| ensures m.stack[k].Keys == m'.stack[k].Keys {
      RunProtects(m1, ops, |m.stack|, 0, k);
      assert m1.stack[k] == m.stack[k];
    }
    OpenNamesSame(m.stack, m'.stack[..|m.stack|]);
  }

  lemma ScopedOps(m: Model, opening: seq<Op>, inside: Trip)
    requires m.stack != [] && Run(Apply(m, Enter), opening).stack != []
    requires Run(Run(Apply(m, Enter), opening), inside.ops).stack != []
    ensures Run(Apply(m, Enter), opening + inside.ops) == Run(Run(Apply(m, Enter), opening), inside.ops)
    ensures Run(m, Scoped(opening, inside).ops)
      == if inside.ok then Apply(Run(Apply(m, Enter), opening + inside.ops), Exit)
         else Run(Apply(m, Enter), opening + inside.ops)
  {
    var m1 := Run(Apply(m, Enter), opening);
    var m2 := Run(m1, inside.ops);
    RunConcat(Apply(m, Enter), opening, inside.ops);
    WalkedScoped(m, m1, m2, if inside.ok then Apply(m2, Exit) else m2, opening, inside);
  }

  /** A scope opened and walked binds nothing around it: closed if the walk goes
      through, and left for recovery to drop if it gives up. */
  lemma ScopedReports(m: Model, opening: seq<Op>, names: set<string>, inside: Trip,
                      free: seq<string>, bound: set<string>)
    requires Ready(m) && Paired(inside) && Depth(opening, 0) == Some(0)
    requires Reports(Apply(m, Enter), Run(Apply(m, Enter), opening), true, [], names)
    requires Reports(Run(Apply(m, Enter), opening), Run(Run(Apply(m, Enter), opening), inside.ops),
                     inside.ok, free, bound)
    ensures Reports(m, Run(m, Scoped(opening, inside).ops), inside.ok, free, OpenNames(m.stack))
  {
    var m1 := Run(Apply(m, Enter), opening);
    ScopedOps(m, opening, inside);
    DepthConcat(opening, inside.ops, 0);
    InsideKeepsNames(m, opening + inside.ops);
    ClosedReports(m, m1, Run(m1, inside.ops), inside.ok, names, free, bound);
  }

  lemma ClosedReports(m: Model, m1: Model, m2: Model, ok: bool, names: set<string>,
                      free: seq<string>, bound: set<string>)
    requires Ready(m) && Reports(Apply(m, Enter), m1, true, [], names) && Reports(m1, m2, ok, free, bound)
    requires |m.stack| < |m2.stack| && (ok ==> |m2.stack| == |m.stack| + 1)
    requires OpenNames(m2.stack[..|m.stack|]) == OpenNames(m.stack) && m2.stack[0].Keys == m.stack[0].Keys
    ensures Reports(m, if ok then Apply(m2, Exit) else m2, ok, free, OpenNames(m.stack))
  {
    assert m1.undefined == m.undefined;
  }

  lemma EnterReports(m: Model)
    requires Ready(m)
    ensures OpenNames(Apply(m, Enter).stack) == OpenNames(m.stack) && Ready(Apply(m, Enter))
  {
    assert Apply(m, Enter).stack[..|m.stack|] == m.stack;
  }

  /** What is bound where a piece that went through ends, is all that is open there. */
  lemma AllIsLevel(m: Model, m': Model, free: seq<string>, bound: set<string>)
    requires Reports(m, m', true, free, bound)
    ensures OpenNames(m'.stack) == bound
  {
  }

  /** The walk reports the free names, and binds what the program does, as far as it
      goes. */
  lemma {:induction false} ExprReports(m: Model, e: Expr)
    requires Ready(m)
    ensures Reports(m, Run(m, WalkExpr(e).ops), WalkExpr(e).ok,
                    FreeExpr(e, OpenNames(m.stack)).0, FreeExpr(e, OpenNames(m.stack)).1)
    decreases e, 1
  {
    match e
    case Parts(parts) => ExprsReport(m, parts);
    case Name(x) =>
      CheckReports(m, x);
      RunOne(m, Check(x));
    case Lambda(params, body) => LambdaReports(m, params, body);
    case Block(stmts) => BlockReports(m, stmts);
    case For(variable, iterable, body) => ForReports(m, variable, iterable, body);
    case Match(value, arms) => MatchReports(m, value, arms);
    case AssignTo(target, value) => AssignToReports(m, target, value);
    case StructLiteral(typeName, fields, values) => LiteralReports(m, typeName, fields, values);
    case ObjectLiteral(entries) => FieldsReport(m, entries, {});
    case Skipped(_) =>
  }

  lemma {:induction false} ForReports(m: Model, variable: string, iterable: Expr, body: Expr)
    requires Ready(m)
    ensures var e := For(variable, iterable, body); var (f, b) := FreeExpr(e, OpenNames(m.stack));
      Reports(m, Run(m, WalkExpr(e).ops), WalkExpr(e).ok, f, b)
    decreases For(variable, iterable, body), 0
  {
    var (f, b) := FreeExpr(iterable, OpenNames(m.stack));
    ExprReports(m, iterable);
    ExprIsClean(iterable);
    if WalkExpr(iterable).ok {
      var m1 := Run(m, WalkExpr(iterable).ops);
      AllIsLevel(m, m1, f, b);
      LoopReports(m1, variable, body);
      var loop := Scoped([Track(variable)], WalkExpr(body));
      RunConcat(m, WalkExpr(iterable).ops, loop.ops);
      ReportsThen(m, m1, Run(m1, loop.ops), f, b, loop.ok, FreeExpr(body, b + {variable}).0, b);
    }
  }

  lemma {:induction false} MatchReports(m: Model, value: Expr, arms: seq<Arm>)
    requires Ready(m)
    ensures var e := Match(value, arms); var (f, b) := FreeExpr(e, OpenNames(m.stack));
      Reports(m, Run(m, WalkExpr(e).ops), WalkExpr(e).ok, f, b)
    decreases Match(value, arms), 0
  {
    var (f, b) := FreeExpr(value, OpenNames(m.stack));
    ExprReports(m, value);
    ExprIsClean(value);
    if WalkExpr(value).ok {
      var m1 := Run(m, WalkExpr(value).ops);
      AllIsLevel(m, m1, f, b);
      ArmsReport(m1, arms);
      RunConcat(m, WalkExpr(value).ops, WalkArms(arms).ops);
      ReportsThen(m, m1, Run(m1, WalkArms(arms).ops), f, b, WalkArms(arms).ok, FreeArms(arms, b), b);
    }
  }

  lemma {:induction false} AssignToReports(m: Model, target: string, value: Expr)
    requires Ready(m)
    ensures var e := AssignTo(target, value); var (f, b) := FreeExpr(e, OpenNames(m.stack));
      Reports(m, Run(m, WalkExpr(e).ops), WalkExpr(e).ok, f, b)
    decreases AssignTo(target, value), 0
  {
    var (f, b) := FreeExpr(value, OpenNames(m.stack));
    ExprReports(m, value);
    ExprIsClean(value);
    if WalkExpr(value).ok {
      var m1 := Run(m, WalkExpr(value).ops);
      AllIsLevel(m, m1, f, b);
      AssignReports(m1, target);
      RunOne(m1, Assign(target));
      RunConcat(m, WalkExpr(value).ops, [Assign(target)]);
      ReportsThen(m, m1, Apply(m1, Assign(target)), f, b, true, [], b + {target});
    }
  }

  lemma LambdaReports(m: Model, params: seq<string>, body: Expr)
    requires Ready(m)
    ensures Reports(m, Run(m, Scoped(Declares(params), WalkExpr(body)).ops), WalkExpr(body).ok,
                    FreeExpr(body, OpenNames(m.stack) + Names(params)).0, OpenNames(m.stack))
    decreases body, 3
  {
    EnterReports(m);
    DeclaresReport(Apply(m, Enter), params);
    FlatOps(params, false, 0);
    InnerReports(m, Declares(params), OpenNames(m.stack) + Names(params), body);
  }

  /** An expression walked in a scope of its own, once the scope is furnished. */
  lemma InnerReports(m: Model, opening: seq<Op>, names: set<string>, body: Expr)
    requires Ready(m) && Depth(opening, 0) == Some(0)
    requires Reports(Apply(m, Enter), Run(Apply(m, Enter), opening), true, [], names)
    ensures Reports(m, Run(m, Scoped(opening, WalkExpr(body)).ops), WalkExpr(body).ok,
                    FreeExpr(body, names).0, OpenNames(m.stack))
    decreases body, 2
  {
    var m1 := Run(Apply(m, Enter), opening);
    AllIsLevel(Apply(m, Enter), m1, [], names);
    ExprReports(m1, body);
    WalkExprPaired(body);
    var (f, b) := FreeExpr(body, names);
    ScopedReports(m, opening, names, WalkExpr(body), f, b);
  }

  lemma BlockReports(m: Model, stmts: seq<Stmt>)
    requires Ready(m)
    ensures Reports(m, Run(m, Scoped([], WalkStmts(stmts)).ops), WalkStmts(stmts).ok,
                    FreeStmts(stmts, OpenNames(m.stack)).0, OpenNames(m.stack))
    decreases stmts, 2
  {
    EnterReports(m);
    var m1 := Apply(m, Enter);
    StmtsReport(m1, stmts);
    WalkStmtsPaired(stmts);
    var (f, b) := FreeStmts(stmts, OpenNames(m.stack));
    ScopedReports(m, [], OpenNames(m.stack), WalkStmts(stmts), f, b);
  }

  lemma LoopReports(m: Model, variable: string, body: Expr)
    requires Ready(m)
    ensures Reports(m, Run(m, Scoped([Track(variable)], WalkExpr(body)).ops), WalkExpr(body).ok,
                    FreeExpr(body, OpenNames(m.stack) + {variable}).0, OpenNames(m.stack))
    decreases body, 3
  {
    EnterReports(m);
    DeclaringReports(Apply(m, Enter), Track(variable));
    RunOne(Apply(m, Enter), Track(variable));
    InnerReports(m, [Track(variable)], OpenNames(m.stack) + {variable}, body);
  }

  lemma LiteralOps(m: Model, typeName: string, fields: seq<string>, values: seq<Expr>)
    requires m.stack != []
    ensures var t := Then(Trip([Use(typeName)], true), Then(WalkExprs(values), Trip([], !Duplicates(fields))));
      t.ops == [Use(typeName)] + WalkExprs(values).ops && t.ok == (WalkExprs(values).ok && !Duplicates(fields))
  {
    assert WalkExprs(values).ops + [] == WalkExprs(values).ops;
  }

  lemma {:induction false} LiteralReports(m: Model, typeName: string, fields: seq<string>, values: seq<Expr>)
    requires Ready(m)
    ensures var t := Then(Trip([Use(typeName)], true), Then(WalkExprs(values), Trip([], !Duplicates(fields))));
      Reports(m, Run(m, t.ops), t.ok, FreeExprs(values, OpenNames(m.stack)).0, FreeExprs(values, OpenNames(m.stack)).1)
    decreases values, 1
  {
    CountingReports(m, typeName);
    var m1 := Apply(m, Use(typeName));
    ExprsReport(m1, values);
    RunOne(m, Use(typeName));
    RunConcat(m, [Use(typeName)], WalkExprs(values).ops);
    LiteralOps(m, typeName, fields, values);
    var (f, b) := FreeExprs(values, OpenNames(m.stack));
    ReportsThen(m, m1, Run(m1, WalkExprs(values).ops), [], OpenNames(m.stack), WalkExprs(values).ok, f, b);
  }

  lemma {:induction false} ExprsReport(m: Model, es: seq<Expr>)
    requires Ready(m)
    ensures Reports(m, Run(m, WalkExprs(es).ops), WalkExprs(es).ok,
                    FreeExprs(es, OpenNames(m.stack)).0, FreeExprs(es, OpenNames(m.stack)).1)
    decreases es, 0
  {
    if es != [] {
      var (f, b) := FreeExpr(es[0], OpenNames(m.stack));
      ExprReports(m, es[0]);
      ExprIsClean(es[0]);
      if WalkExpr(es[0]).ok {
        var m1 := Run(m, WalkExpr(es[0]).ops);
        var rest := WalkExprs(es[1..]);
        AllIsLevel(m, m1, f, b);
        ExprsReport(m1, es[1..]);
        RunConcat(m, WalkExpr(es[0]).ops, rest.ops);
        var (f', b') := FreeExprs(es[1..], b);
        ReportsThen(m, m1, Run(m1, rest.ops), f, b, rest.ok, f', b');
      }
    }
  }

  lemma {:induction false} FieldsReport(m: Model, entries: seq<Field>, seen: set<string>)
    requires Ready(m)
    ensures var (f, b) := FreeFields(entries, seen, OpenNames(m.stack));
      Reports(m, Run(m, WalkFields(entries, seen).ops), WalkFields(entries, seen).ok, f, b)
    decreases entries, 0
  {
    if entries != [] && entries[0].name !in seen {
      var e, more := entries[0].value, seen + {entries[0].name};
      var (f, b) := FreeExpr(e, OpenNames(m.stack));
      ExprReports(m, e);
      ExprIsClean(e);
      if WalkExpr(e).ok {
        var m1 := Run(m, WalkExpr(e).ops);
        var rest := WalkFields(entries[1..], more);
        AllIsLevel(m, m1, f, b);
        FieldsReport(m1, entries[1..], more);
        RunConcat(m, WalkExpr(e).ops, rest.ops);
        var (f', b') := FreeFields(entries[1..], more, b);
        ReportsThen(m, m1, Run(m1, rest.ops), f, b, rest.ok, f', b');
      }
    }
  }

  lemma {:induction false} ArmsReport(m: Model, arms: seq<Arm>)
    requires Ready(m)
    ensures Reports(m, Run(m, WalkArms(arms).ops), WalkArms(arms).ok,
                    FreeArms(arms, OpenNames(m.stack)), OpenNames(m.stack))
    decreases arms, 0
  {
    if arms != [] {
      var arm, bound := arms[0], OpenNames(m.stack);
      var scoped := Scoped(Declares(arm.binds), Then(WalkExprs(arm.guards), WalkExpr(arm.body)));
      var rest := WalkArms(arms[1..]);
      ExprsAreClean(arm.guards);
      ExprIsClean(arm.body);
      UsesReport(m, arm.uses);
      var m1 := Run(m, Uses(arm.uses));
      AllIsLevel(m, m1, [], bound);
      ArmReports(m1, arm);
      var m2 := Run(m1, scoped.ops);
      ReportsThen(m, m1, m2, [], bound, scoped.ok, FreeArm(arm, bound), bound);
      assert [] + FreeArm(arm, bound) == FreeArm(arm, bound);
      RunConcat(m, Uses(arm.uses), Then(scoped, rest).ops);
      if scoped.ok {
        AllIsLevel(m1, m2, FreeArm(arm, bound), bound);
        ArmsReport(m2, arms[1..]);
        RunConcat(m1, scoped.ops, rest.ops);
        ReportsThen(m, m2, Run(m2, rest.ops), FreeArm(arm, bound), bound, rest.ok, FreeArms(arms[1..], bound), bound);
      }
    }
  }

  lemma ArmReports(m: Model, arm: Arm)
    requires Ready(m)
    ensures var scoped := Scoped(Declares(arm.binds), Then(WalkExprs(arm.guards), WalkExpr(arm.body)));
      Reports(m, Run(m, scoped.ops), scoped.ok, FreeArm(arm, OpenNames(m.stack)), OpenNames(m.stack))
    decreases arm, 1
  {
    EnterReports(m);
    DeclaresReport(Apply(m, Enter), arm.binds);
    var m1, names := Run(Apply(m, Enter), Declares(arm.binds)), OpenNames(m.stack) + Names(arm.binds);
    AllIsLevel(Apply(m, Enter), m1, [], names);
    var b := GuardedReports(m1, arm);
    WalkExprsPaired(arm.guards);
    WalkExprPaired(arm.body);
    ThenPaired(WalkExprs(arm.guards), WalkExpr(arm.body));
    FlatOps(arm.binds, false, 0);
    ScopedReports(m, Declares(arm.binds), names, Then(WalkExprs(arm.guards), WalkExpr(arm.body)),
                  FreeArm(arm, OpenNames(m.stack)), b);
  }

  /** An arm's guards and its body, its names bound. */
  lemma GuardedReports(m: Model, arm: Arm) returns (bound: set<string>)
    requires Ready(m)
    ensures var inside := Then(WalkExprs(arm.guards), WalkExpr(arm.body));
      var (f, b) := FreeExprs(arm.guards, OpenNames(m.stack));
      Reports(m, Run(m, inside.ops), inside.ok,
              if CleanExprs(arm.guards) then f + FreeExpr(arm.body, b).0 else f, bound)
    decreases arm, 0
  {
    var (f, b) := FreeExprs(arm.guards, OpenNames(m.stack));
    ExprsReport(m, arm.guards);
    ExprsAreClean(arm.guards);
    bound := b;
    if WalkExprs(arm.guards).ok {
      var m1 := Run(m, WalkExprs(arm.guards).ops);
      AllIsLevel(m, m1, f, b);
      ExprReports(m1, arm.body);
      RunConcat(m, WalkExprs(arm.guards).ops, WalkExpr(arm.body).ops);
      var (f', b') := FreeExpr(arm.body, b);
      ReportsThen(m, m1, Run(m1, WalkExpr(arm.body).ops), f, b, WalkExpr(arm.body).ok, f', b');
      bound := b';
    }
  }

  lemma {:induction false} StmtReports(m: Model, s: Stmt)
    requires Ready(m)
    ensures Reports(m, Run(m, WalkStmt(s).ops), WalkStmt(s).ok,
                    FreeStmt(s, OpenNames(m.stack)).0, FreeStmt(s, OpenNames(m.stack)).1)
    decreases s, 1
  {
    match s
    case Evaluate(e) => ExprReports(m, e);
    case Let(names, value) => LetReports(m, names, value);
    case Function(name, params, body) =>
      DeclaringReports(m, BindFunction(name));
      var m1, bound := Apply(m, BindFunction(name)), OpenNames(m.stack) + {name};
      AllIsLevel(m, m1, [], bound);
      BodyReports(m1, params, body);
      var scoped := Scoped(Binds(params, false), WalkExpr(body));
      RunOne(m, BindFunction(name));
      RunConcat(m, [BindFunction(name)], scoped.ops);
      ReportsThen(m, m1, Run(m1, scoped.ops), [], bound, scoped.ok, FreeExpr(body, bound + Names(params)).0, bound);
    case TypeDecl(name, members) =>
      DeclaringReports(m, Bind(name, false));
      RunOne(m, Bind(name, false));
  }

  lemma {:induction false} LetReports(m: Model, names: seq<string>, value: seq<Expr>)
    requires Ready(m)
    ensures var s := Let(names, value); var (f, b) := FreeStmt(s, OpenNames(m.stack));
      Reports(m, Run(m, WalkStmt(s).ops), WalkStmt(s).ok, f, b)
    decreases Let(names, value), 0
  {
    var (f, b) := FreeExprs(value, OpenNames(m.stack));
    ExprsReport(m, value);
    ExprsAreClean(value);
    if WalkExprs(value).ok {
      var m1 := Run(m, WalkExprs(value).ops);
      AllIsLevel(m, m1, f, b);
      BindsReport(m1, names, true);
      RunConcat(m, WalkExprs(value).ops, Binds(names, true));
      ReportsThen(m, m1, Run(m1, Binds(names, true)), f, b, true, [], b + Names(names));
    }
  }

  lemma BodyReports(m: Model, params: seq<string>, body: Expr)
    requires Ready(m)
    ensures Reports(m, Run(m, Scoped(Binds(params, false), WalkExpr(body)).ops), WalkExpr(body).ok,
                    FreeExpr(body, OpenNames(m.stack) + Names(params)).0, OpenNames(m.stack))
    decreases body, 3
  {
    EnterReports(m);
    BindsReport(Apply(m, Enter), params, false);
    FlatOps(params, false, 0);
    InnerReports(m, Binds(params, false), OpenNames(m.stack) + Names(params), body);
  }

  lemma {:induction false} StmtsReport(m: Model, stmts: seq<Stmt>)
    requires Ready(m)
    ensures Reports(m, Run(m, WalkStmts(stmts).ops), WalkStmts(stmts).ok,
                    FreeStmts(stmts, OpenNames(m.stack)).0, FreeStmts(stmts, OpenNames(m.stack)).1)
    decreases stmts, 0
  {
    if stmts != [] {
      var (f, b) := FreeStmt(stmts[0], OpenNames(m.stack));
      StmtReports(m, stmts[0]);
      StmtIsClean(stmts[0]);
      if WalkStmt(stmts[0]).ok {
        var m1 := Run(m, WalkStmt(stmts[0]).ops);
        var rest := WalkStmts(stmts[1..]);
        AllIsLevel(m, m1, f, b);
        StmtsReport(m1, stmts[1..]);
        RunConcat(m, WalkStmt(stmts[0]).ops, rest.ops);
        var (f', b') := FreeStmts(stmts[1..], b);
        ReportsThen(m, m1, Run(m1, rest.ops), f, b, rest.ok, f', b');
      }
    }
  }

  /** The names of the functions a program declares at its top level. */
  function FunctionNames(stmts: seq<Stmt>): set<string> {
    if stmts == [] then {}
    else (if stmts[0].Function? then {stmts[0].name} else {}) + FunctionNames(stmts[1..])
  }

  lemma {:induction false} HoistsBind(m: Model, stmts: seq<Stmt>)
    requires Ready(m) && |m.stack| == 1
    ensures var m' := Run(m, HoistOps(stmts));
      Ready(m') && |m'.stack| == 1 && m'.undefined == m.undefined
      && OpenNames(m'.stack) == OpenNames(m.stack) + FunctionNames(stmts)
    decreases |stmts|
  {
    if stmts != [] {
      if stmts[0].Function? {
        var m1 := Apply(m, Hoist(stmts[0].name));
        HoistBinds(m, stmts[0].name);
        HoistsBind(m1, stmts[1..]);
        assert HoistOps(stmts)[1..] == HoistOps(stmts[1..]);
        assert OpenNames(m1.stack) + FunctionNames(stmts[1..]) == OpenNames(m.stack) + FunctionNames(stmts);
      } else {
        HoistsBind(m, stmts[1..]);
        assert HoistOps(stmts) == HoistOps(stmts[1..]);
      }
    }
  }

  lemma HoistBinds(m: Model, x: string)
    requires Ready(m) && |m.stack| == 1
    ensures var m' := Apply(m, Hoist(x));
      Ready(m') && |m'.stack| == 1 && m'.undefined == m.undefined && OpenNames(m'.stack) == OpenNames(m.stack) + {x}
  {
    OpenNamesIs(m.stack, x);
    if x in m.stack[0] {
      assert OpenNames(m.stack) + {x} == OpenNames(m.stack);
    } else {
      var m' := Apply(m, Hoist(x));
      DeclareTops(m.stack, x);
      assert m'.stack[0].Keys == m.stack[0].Keys + {x};
      OpenNamesTop(m.stack, m'.stack, x);
    }
  }

  /** A statement done, whether followed or recovered from. */
  lemma StmtDoneReports(m: Model, s: Stmt)
    requires Ready(m) && |m.stack| == 1
    ensures var m' := StmtDone(m, s); var (f, b) := FreeStmt(s, OpenNames(m.stack));
      && Ready(m') && |m'.stack| == 1
      && m'.undefined == m.undefined + Firsts(f, Names(m.undefined)) && OpenNames(m'.stack) == b
  {
    StmtReports(m, s);
  }

  lemma {:induction false} StmtsDoneReports(m: Model, stmts: seq<Stmt>)
    requires Ready(m) && |m.stack| == 1
    ensures StmtsDone(m, stmts).undefined
      == m.undefined + Firsts(FreeProgram(stmts, OpenNames(m.stack)), Names(m.undefined))
    decreases |stmts|
  {
    if stmts != [] {
      var m', known := StmtDone(m, stmts[0]), Names(m.undefined);
      var (f, b) := FreeStmt(stmts[0], OpenNames(m.stack));
      StmtDoneReports(m, stmts[0]);
      StmtsDoneReports(m', stmts[1..]);
      FirstsConcat(f, FreeProgram(stmts[1..], b), known);
      FirstsNames(f, known);
      NamesConcat(m.undefined, Firsts(f, known));
    }
  }

  /** A program is reported exactly its free names: those met that neither an earlier
      statement nor a function declared anywhere at the top level binds where they
      are used. A statement the walk gives up is reported as far as the walk went,
      and the statements after it are reported as ever. */
  lemma {:induction false} ProgramReports(m: Model, stmts: seq<Stmt>)
    requires Ready(m) && |m.stack| == 1
    ensures var free := FreeProgram(stmts, OpenNames(m.stack) + FunctionNames(stmts));
      StmtsDone(Run(m, HoistOps(stmts)), stmts).undefined == m.undefined + Firsts(free, Names(m.undefined))
  {
    HoistsBind(m, stmts);
    StmtsDoneReports(Run(m, HoistOps(stmts)), stmts);
  }
}
