/** The names reported for a program whose every statement can be followed. */
module ScopeNames {
  import opened Scopes
  import opened ScopeWalk
  import opened ScopeLaws

  // ── Free names, by the language's scoping alone ──

  /** The free names of an expression where `bound` are bound, and what is bound
      after it. */
  function PlainExpr(e: Expr, bound: set<string>): (seq<string>, set<string>)
    decreases e, 1
  {
    match e
    case Parts(parts) => PlainExprs(parts, bound)
    case Name(x) => (if x in bound then [] else [x], bound)
    case Lambda(params, body) => (PlainExpr(body, bound + Names(params)).0, bound)
    case Block(stmts) => (PlainStmts(stmts, bound).0, bound)
    case For(variable, iterable, body) =>
      var (f, b) := PlainExpr(iterable, bound);
      (f + PlainExpr(body, b + {variable}).0, b)
    case Match(value, arms) =>
      var (f, b) := PlainExpr(value, bound);
      (f + PlainArms(arms, b), b)
    case AssignTo(target, value) =>
      var (f, b) := PlainExpr(value, bound);
      (f, b + {target})
    case StructLiteral(_, _, values) => PlainExprs(values, bound)
    case ObjectLiteral(entries) => PlainFields(entries, bound)
    case Skipped(_) => ([], bound)
  }

  function PlainFields(entries: seq<Field>, bound: set<string>): (seq<string>, set<string>)
    decreases entries, 0
  {
    if entries == [] then ([], bound)
    else
      var (f, b) := PlainExpr(entries[0].value, bound);
      var (f', b') := PlainFields(entries[1..], b);
      (f + f', b')
  }

  function PlainExprs(es: seq<Expr>, bound: set<string>): (seq<string>, set<string>)
    decreases es, 0
  {
    if es == [] then ([], bound)
    else
      var (f, b) := PlainExpr(es[0], bound);
      var (f', b') := PlainExprs(es[1..], b);
      (f + f', b')
  }

  function PlainArms(arms: seq<Arm>, bound: set<string>): seq<string>
    decreases arms, 0
  {
    if arms == [] then []
    else
      var (f, b) := PlainExprs(arms[0].guards, bound + Names(arms[0].binds));
      f + PlainExpr(arms[0].body, b).0 + PlainArms(arms[1..], bound)
  }

  function PlainStmt(s: Stmt, bound: set<string>): (seq<string>, set<string>)
    decreases s, 1
  {
    match s
    case Evaluate(e) => PlainExpr(e, bound)
    case Let(names, value) =>
      var (f, b) := PlainExprs(value, bound);
      (f, b + Names(names))
    case Function(name, params, body) =>
      (PlainExpr(body, bound + {name} + Names(params)).0, bound + {name})
    case TypeDecl(name, _) => ([], bound + {name})
  }

  function PlainStmts(stmts: seq<Stmt>, bound: set<string>): (seq<string>, set<string>)
    decreases stmts, 0
  {
    if stmts == [] then ([], bound)
    else
      var (f, b) := PlainStmt(stmts[0], bound);
      var (f', b') := PlainStmts(stmts[1..], b);
      (f + f', b')
  }

  // ── They are what is reported ──

  lemma {:induction false} ExprIsPlain(e: Expr, bound: set<string>)
    requires CleanExpr(e)
    ensures FreeExpr(e, bound) == PlainExpr(e, bound)
    decreases e, 1
  {
    match e
    case Parts(parts) => ExprsArePlain(parts, bound);
    case Name(_) =>
    case Lambda(params, body) => ExprIsPlain(body, bound + Names(params));
    case Block(stmts) => StmtsArePlain(stmts, bound);
    case For(variable, iterable, body) =>
      ExprIsPlain(iterable, bound);
      ExprIsPlain(body, PlainExpr(iterable, bound).1 + {variable});
    case Match(value, arms) =>
      ExprIsPlain(value, bound);
      ArmsArePlain(arms, PlainExpr(value, bound).1);
    case AssignTo(_, value) => ExprIsPlain(value, bound);
    case StructLiteral(_, _, values) => ExprsArePlain(values, bound);
    case ObjectLiteral(entries) => FieldsArePlain(entries, {}, bound);
    case Skipped(_) =>
  }

  lemma {:induction false} FieldsArePlain(entries: seq<Field>, seen: set<string>, bound: set<string>)
    requires CleanFields(entries) && !Duplicates(FieldNames(entries))
    requires forall x :: x in seen ==> x !in FieldNames(entries)
    ensures FreeFields(entries, seen, bound) == PlainFields(entries, bound)
    decreases entries, 0
  {
    if entries != [] {
      var name := entries[0].name;
      assert name == FieldNames(entries)[0];
      FirstDuplicate(name, FieldNames(entries[1..]));
      ExprIsPlain(entries[0].value, bound);
      FieldsArePlain(entries[1..], seen + {name}, PlainExpr(entries[0].value, bound).1);
    }
  }

  lemma {:induction false} ExprsArePlain(es: seq<Expr>, bound: set<string>)
    requires CleanExprs(es)
    ensures FreeExprs(es, bound) == PlainExprs(es, bound)
    decreases es, 0
  {
    if es != [] {
      ExprIsPlain(es[0], bound);
      ExprsArePlain(es[1..], PlainExpr(es[0], bound).1);
    }
  }

  lemma {:induction false} ArmsArePlain(arms: seq<Arm>, bound: set<string>)
    requires CleanArms(arms)
    ensures FreeArms(arms, bound) == PlainArms(arms, bound)
    decreases arms, 0
  {
    if arms != [] {
      var inner := bound + Names(arms[0].binds);
      ExprsArePlain(arms[0].guards, inner);
      ExprIsPlain(arms[0].body, PlainExprs(arms[0].guards, inner).1);
      ArmsArePlain(arms[1..], bound);
    }
  }

  lemma {:induction false} StmtIsPlain(s: Stmt, bound: set<string>)
    requires CleanStmt(s)
    ensures FreeStmt(s, bound) == PlainStmt(s, bound)
    decreases s, 1
  {
    match s
    case Evaluate(e) => ExprIsPlain(e, bound);
    case Let(_, value) => ExprsArePlain(value, bound);
    case Function(name, params, body) => ExprIsPlain(body, bound + {name} + Names(params));
    case TypeDecl(_, _) =>
  }

  lemma {:induction false} StmtsArePlain(stmts: seq<Stmt>, bound: set<string>)
    requires CleanStmts(stmts)
    ensures FreeStmts(stmts, bound) == PlainStmts(stmts, bound)
    ensures FreeProgram(stmts, bound) == PlainStmts(stmts, bound).0
    decreases stmts, 0
  {
    if stmts != [] {
      StmtIsPlain(stmts[0], bound);
      StmtsArePlain(stmts[1..], PlainStmt(stmts[0], bound).1);
    }
  }

  /** A program that names no field twice is walked whole, and is reported its free
      names as scoping alone has them, in the order they are first met. */
  lemma CleanProgramReports(m: Model, stmts: seq<Stmt>)
    requires Ready(m) && |m.stack| == 1 && CleanStmts(stmts)
    ensures WalkStmts(stmts).ok
    ensures var free := PlainStmts(stmts, OpenNames(m.stack) + FunctionNames(stmts)).0;
      StmtsDone(Run(m, HoistOps(stmts)), stmts).undefined == m.undefined + Firsts(free, Names(m.undefined))
  {
    StmtsAreClean(stmts);
    ProgramReports(m, stmts);
    StmtsArePlain(stmts, OpenNames(m.stack) + FunctionNames(stmts));
  }
}
