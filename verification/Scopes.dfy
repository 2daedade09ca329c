/** Scope tracking: one flat map and its logs, standing for a stack of scopes. */
module Scopes {
  import opened Wrappers

  datatype Info = Info(scope: nat, isMutable: bool, uses: nat)

  /** A scope: each name it declares, with its tracking entry if it has one. */
  type Frame = map<string, Option<Info>>

  /** What the analyzer's state stands for. */
  datatype Model = Model(stack: seq<Frame>, undefined: seq<string>, builtins: set<string>, hoisted: set<string>)

  predicate Open(stack: seq<Frame>, x: string) {
    exists k :: 0 <= k < |stack| && x in stack[k]
  }

  /** The entry a name shows: that of the innermost scope declaring it. */
  function Visible(stack: seq<Frame>, x: string): Option<Info>
    decreases |stack|
  {
    if stack == [] then None
    else
      var top := stack[|stack| - 1];
      if x in top then top[x] else Visible(stack[..|stack| - 1], x)
  }

  function Top(stack: seq<Frame>, frame: Frame): seq<Frame>
    requires stack != []
  {
    stack[..|stack| - 1] + [frame]
  }

  // ── The operations, on the stack ──

  /** A name declared in the innermost scope: the visible entry is copied there. */
  function Declare(stack: seq<Frame>, x: string): seq<Frame>
    requires stack != []
  {
    var top := stack[|stack| - 1];
    if x in top then stack else Top(stack, top[x := Visible(stack, x)])
  }

  function Put(stack: seq<Frame>, x: string, info: Info): seq<Frame>
    requires stack != []
  {
    Top(stack, stack[|stack| - 1][x := Some(info)])
  }

  /** A use counted in the innermost scope declaring the name, if it is tracked
      there. */
  function Count(stack: seq<Frame>, x: string): seq<Frame>
    decreases |stack|
  {
    if stack == [] then []
    else
      var top := stack[|stack| - 1];
      if x in top then
        match top[x]
        case None => stack
        case Some(info) => Top(stack, top[x := Some(info.(uses := info.uses + 1))])
      else Count(stack[..|stack| - 1], x) + [top]
  }

  datatype Op =
    | Enter
    | Exit
    | DeclareOnly(x: string)
    | Bind(x: string, isMutable: bool)
    | BindFunction(x: string)
    | Track(x: string)
    | Hoist(x: string)
    | Use(x: string)
    | Check(x: string)
    | Assign(x: string)

  function Bound(m: Model, x: string, isMutable: bool): Model
    requires m.stack != []
  {
    var outermost := |m.stack| == 1;
    var uses := if outermost && x in m.undefined then 1 else 0;
    m.(stack := Put(Declare(m.stack, x), x, Info(|m.stack| - 1, isMutable, uses)),
       builtins := if outermost then m.builtins - {x} else m.builtins)
  }

  function Apply(m: Model, op: Op): Model
    requires m.stack != []
  {
    match op
    case Enter => m.(stack := m.stack + [map[]])
    case Exit => if |m.stack| > 1 then m.(stack := m.stack[..|m.stack| - 1]) else m
    case DeclareOnly(x) => m.(stack := Declare(m.stack, x))
    case Bind(x, isMutable) => Bound(m, x, isMutable)
    case BindFunction(x) =>
      if |m.stack| == 1 && x in m.hoisted then m.(hoisted := m.hoisted - {x}) else Bound(m, x, false)
    case Track(x) => m.(stack := Put(Declare(m.stack, x), x, Info(|m.stack| - 1, false, 0)))
    case Hoist(x) =>
      if x in m.stack[|m.stack| - 1] then m
      else m.(stack := Put(Declare(m.stack, x), x, Info(|m.stack| - 1, false, 0)), hoisted := m.hoisted + {x})
    case Use(x) => m.(stack := Count(m.stack, x))
    case Check(x) =>
      if Open(m.stack, x) then m.(stack := Count(m.stack, x))
      else if x in m.undefined then m
      else m.(undefined := m.undefined + [x])
    case Assign(x) =>
      if Open(m.stack, x) then m.(stack := Count(m.stack, x))
      else m.(stack := Put(Declare(m.stack, x), x, Info(|m.stack| - 1, true, 1)))
  }

  // ── Facts about them ──

  lemma {:induction false} CountKeeps(stack: seq<Frame>, x: string)
    ensures |Count(stack, x)| == |stack|
    ensures forall k :: 0 <= k < |stack| ==> Count(stack, x)[k].Keys == stack[k].Keys
    decreases |stack|
  {
    if stack != [] {
      CountKeeps(stack[..|stack| - 1], x);
    }
  }

  lemma {:induction false} CountShows(stack: seq<Frame>, x: string, y: string)
    ensures Visible(Count(stack, x), y) ==
      if y == x && Visible(stack, x).Some?
      then Some(Visible(stack, x).value.(uses := Visible(stack, x).value.uses + 1))
      else Visible(stack, y)
    decreases |stack|
  {
    if stack != [] {
      var rest, top := stack[..|stack| - 1], stack[|stack| - 1];
      if x in top {
        if top[x].Some? {
          var top' := top[x := Some(top[x].value.(uses := top[x].value.uses + 1))];
          assert Top(stack, top')[..|stack| - 1] == rest;
        }
      } else {
        CountShows(rest, x, y);
        assert (Count(rest, x) + [top])[..|Count(rest, x)|] == Count(rest, x);
      }
    }
  }

  lemma TopShows(stack: seq<Frame>, frame: Frame, x: string)
    requires stack != []
    ensures Visible(Top(stack, frame), x)
      == if x in frame then frame[x] else Visible(stack[..|stack| - 1], x)
  {
    assert Top(stack, frame)[..|stack| - 1] == stack[..|stack| - 1];
  }

  lemma DeclareShows(stack: seq<Frame>, x: string, y: string)
    requires stack != []
    ensures Visible(Declare(stack, x), y) == Visible(stack, y)
  {
    var top := stack[|stack| - 1];
    if x !in top {
      TopShows(stack, top[x := Visible(stack, x)], y);
    }
  }

  lemma DeclareTops(stack: seq<Frame>, x: string)
    requires stack != []
    ensures |Declare(stack, x)| == |stack| && x in Declare(stack, x)[|stack| - 1]
    ensures Declare(stack, x)[..|stack| - 1] == stack[..|stack| - 1]
  {
  }

  // ── The analyzer ──

  /** What the log of one scope must hold: for each name it declares, the entry
      that showed through beneath, and nothing else. */
  ghost predicate Logged(log: seq<(string, Info)>, beneath: seq<Frame>, frame: Frame) {
    && (forall i {:trigger log[i]} :: 0 <= i < |log| ==>
          log[i].0 in frame && Visible(beneath, log[i].0) == Some(log[i].1))
    && (forall x {:trigger x in frame} :: x in frame && Visible(beneath, x).Some? ==> Logs(log, x))
  }

  ghost predicate Logs(log: seq<(string, Info)>, x: string) {
    exists i :: 0 <= i < |log| && log[i].0 == x
  }

  /** The flat map is the view from the innermost scope. */
  ghost predicate Flattens(variables: map<string, Info>, stack: seq<Frame>) {
    && (forall x {:trigger x in variables} :: x in variables <==> Visible(stack, x).Some?)
    && (forall x {:trigger variables[x]} :: x in variables ==> Visible(stack, x) == Some(variables[x]))
  }

  ghost predicate Refines(variables: map<string, Info>, scopes: seq<set<string>>,
                          shadowed: seq<seq<(string, Info)>>, stack: seq<Frame>)
  {
    && |stack| == |scopes| == |shadowed| + 1
    && (forall k {:trigger scopes[k]} :: 0 <= k < |stack| ==> scopes[k] == stack[k].Keys)
    && Flattens(variables, stack)
    && (forall k {:trigger shadowed[k]} :: 0 <= k < |shadowed| ==>
          Logged(shadowed[k], stack[..k + 1], stack[k + 1]))
  }

  // ── Each step keeps the two in step ──

  lemma EnterRefines(variables: map<string, Info>, scopes: seq<set<string>>,
                     shadowed: seq<seq<(string, Info)>>, stack: seq<Frame>)
    requires Refines(variables, scopes, shadowed, stack)
    ensures Refines(variables, scopes + [{}], shadowed + [[]], stack + [map[]])
  {
    var stack' := stack + [map[]];
    assert stack'[..|stack|] == stack;
    forall x ensures Visible(stack', x) == Visible(stack, x) {
    }
    forall k | 0 <= k < |shadowed| + 1
      ensures Logged((shadowed + [[]])[k], stack'[..k + 1], stack'[k + 1])
    {
      if k < |shadowed| {
        assert Logged(shadowed[k], stack[..k + 1], stack[k + 1]);
        assert stack'[..k + 1] == stack[..k + 1];
      }
    }
  }

  /** The scopes beneath the innermost, and their logs. */
  lemma TopReplaced(variables: map<string, Info>, scopes: seq<set<string>>,
                    shadowed: seq<seq<(string, Info)>>, stack: seq<Frame>, frame: Frame,
                    variables': map<string, Info>, log: seq<(string, Info)>)
    requires Refines(variables, scopes, shadowed, stack)
    requires Flattens(variables', Top(stack, frame))
    requires |stack| > 1 ==> Logged(log, stack[..|stack| - 1], frame)
    ensures Refines(variables', scopes[|stack| - 1 := frame.Keys],
                    if |stack| > 1 then shadowed[|stack| - 2 := log] else shadowed, Top(stack, frame))
  {
    var stack' := Top(stack, frame);
    var shadowed' := if |stack| > 1 then shadowed[|stack| - 2 := log] else shadowed;
    forall k | 0 <= k < |shadowed'| ensures Logged(shadowed'[k], stack'[..k + 1], stack'[k + 1]) {
      assert stack'[..k + 1] == stack[..k + 1];
      assert Logged(shadowed[k], stack[..k + 1], stack[k + 1]);
    }
  }

  /** `declare_in_scope`: the entry it shadows is logged before the name goes in. */
  lemma DeclareRefines(variables: map<string, Info>, scopes: seq<set<string>>,
                       shadowed: seq<seq<(string, Info)>>, stack: seq<Frame>, x: string)
    requires Refines(variables, scopes, shadowed, stack) && x !in stack[|stack| - 1]
    ensures Refines(variables, scopes[|stack| - 1 := scopes[|stack| - 1] + {x}],
                    if |stack| > 1 && x in variables
                    then shadowed[|stack| - 2 := shadowed[|stack| - 2] + [(x, variables[x])]] else shadowed,
                    Declare(stack, x))
  {
    var beneath, top := stack[..|stack| - 1], stack[|stack| - 1];
    var frame := top[x := Visible(stack, x)];
    forall y ensures Visible(Top(stack, frame), y) == Visible(stack, y) {
      DeclareShows(stack, x, y);
    }
    var log := [];
    if |stack| > 1 {
      var before := shadowed[|stack| - 2];
      log := if x in variables then before + [(x, variables[x])] else before;
      assert Logged(before, beneath, top);
      forall y | y in frame && Visible(beneath, y).Some? ensures Logs(log, y) {
        if y == x {
          assert log[|before|].0 == x;
        } else {
          assert Logs(before, y);
          var i :| 0 <= i < |before| && before[i].0 == y;
          assert log[i].0 == y;
        }
      }
    }
    TopReplaced(variables, scopes, shadowed, stack, frame, variables, log);
    assert frame.Keys == scopes[|stack| - 1] + {x};
    assert |stack| > 1 && x !in variables ==> shadowed[|stack| - 2 := log] == shadowed;
  }

  /** An entry written over in the innermost scope, which declares it. */
  lemma PutRefines(variables: map<string, Info>, scopes: seq<set<string>>,
                   shadowed: seq<seq<(string, Info)>>, stack: seq<Frame>, x: string, info: Info)
    requires Refines(variables, scopes, shadowed, stack) && x in stack[|stack| - 1]
    ensures Refines(variables[x := info], scopes, shadowed, Put(stack, x, info))
  {
    var frame := stack[|stack| - 1][x := Some(info)];
    forall y ensures Visible(Top(stack, frame), y) == if y == x then Some(info) else Visible(stack, y) {
      TopShows(stack, frame, y);
    }
    var log := if |stack| > 1 then shadowed[|stack| - 2] else [];
    if |stack| > 1 {
      assert Logged(log, stack[..|stack| - 1], stack[|stack| - 1]);
      forall y | y in frame && Visible(stack[..|stack| - 1], y).Some? ensures Logs(log, y) {
        assert y in stack[|stack| - 1];
      }
    }
    TopReplaced(variables, scopes, shadowed, stack, frame, variables[x := info], log);
    assert frame.Keys == stack[|stack| - 1].Keys;
    SetToItself(scopes, |stack| - 1);
    assert scopes[|stack| - 1 := frame.Keys] == scopes;
    if |stack| > 1 {
      SetToItself(shadowed, |stack| - 2);
      assert shadowed[|stack| - 2 := log] == shadowed;
    }
    assert Top(stack, frame) == Put(stack, x, info);
  }

  lemma SetToItself<T>(s: seq<T>, k: nat)
    requires k < |s|
    ensures s[k := s[k]] == s
  {
  }

  /** A use beneath a scope either leaves what is under it alone, or is a use
      there of a name no scope above declares. */
  lemma {:induction false} CountPrefix(stack: seq<Frame>, x: string, k: nat)
    requires k <= |stack|
    ensures |Count(stack, x)| == |stack|
    ensures Count(stack, x)[..k] == stack[..k]
      || (Count(stack, x)[..k] == Count(stack[..k], x) && forall i :: k <= i < |stack| ==> x !in stack[i])
    decreases |stack|
  {
    CountKeeps(stack, x);
    if k == |stack| {
      assert stack[..k] == stack && Count(stack, x)[..k] == Count(stack, x);
    } else {
      var rest, top := stack[..|stack| - 1], stack[|stack| - 1];
      if x in top {
        assert Count(stack, x)[..k] == stack[..k];
      } else {
        CountPrefix(rest, x, k);
        CountKeeps(rest, x);
        assert Count(stack, x)[..k] == Count(rest, x)[..k];
        assert stack[..k] == rest[..k];
      }
    }
  }

  lemma CountRefines(variables: map<string, Info>, scopes: seq<set<string>>,
                     shadowed: seq<seq<(string, Info)>>, stack: seq<Frame>, x: string)
    requires Refines(variables, scopes, shadowed, stack)
    ensures Refines(
      if x in variables then variables[x := variables[x].(uses := variables[x].uses + 1)] else variables,
      scopes, shadowed, Count(stack, x))
  {
    var stack' := Count(stack, x);
    CountKeeps(stack, x);
    forall y ensures Visible(stack', y) ==
      if y == x && x in variables then Some(variables[x].(uses := variables[x].uses + 1)) else Visible(stack, y)
    {
      CountShows(stack, x, y);
    }
    forall k | 0 <= k < |shadowed| ensures Logged(shadowed[k], stack'[..k + 1], stack'[k + 1]) {
      CountLogged(shadowed[k], stack, x, k + 1);
    }
  }

  lemma CountLogged(log: seq<(string, Info)>, stack: seq<Frame>, x: string, k: nat)
    requires k < |stack| == |Count(stack, x)| && Logged(log, stack[..k], stack[k])
    ensures Logged(log, Count(stack, x)[..k], Count(stack, x)[k])
  {
    CountPrefix(stack, x, k);
    CountKeeps(stack, x);
    var beneath, beneath' := stack[..k], Count(stack, x)[..k];
    if beneath' != beneath {
      forall y | y in stack[k] ensures Visible(beneath', y) == Visible(beneath, y) {
        CountShows(beneath, x, y);
      }
    }
  }

  /** The logged entries put back, one after another. */
  function Restored(variables: map<string, Info>, log: seq<(string, Info)>): map<string, Info> {
    if log == [] then variables
    else Restored(variables, log[..|log| - 1])[log[|log| - 1].0 := log[|log| - 1].1]
  }

  lemma {:induction false} RestoredShows(variables: map<string, Info>, log: seq<(string, Info)>,
                                         beneath: seq<Frame>, x: string)
    requires forall i {:trigger log[i]} :: 0 <= i < |log| ==> Visible(beneath, log[i].0) == Some(log[i].1)
    ensures x in Restored(variables, log) <==> x in variables || Logs(log, x)
    ensures Logs(log, x) ==> Visible(beneath, x) == Some(Restored(variables, log)[x])
    ensures x in variables && !Logs(log, x) ==> Restored(variables, log)[x] == variables[x]
    decreases |log|
  {
    if log != [] {
      var rest, last := log[..|log| - 1], log[|log| - 1];
      RestoredShows(variables, rest, beneath, x);
      if Logs(rest, x) {
        var i :| 0 <= i < |rest| && rest[i].0 == x;
        assert log[i].0 == x;
      }
      if last.0 == x {
        assert Logs(log, x);
      } else if Logs(log, x) {
        var i :| 0 <= i < |log| && log[i].0 == x;
        assert rest[i].0 == x;
      }
    }
  }

  lemma ExitRefines(variables: map<string, Info>, scopes: seq<set<string>>,
                    shadowed: seq<seq<(string, Info)>>, stack: seq<Frame>)
    requires Refines(variables, scopes, shadowed, stack) && |stack| > 1
    ensures var last := |stack| - 1;
      Refines(Restored(variables - scopes[last], shadowed[last - 1]), scopes[..last], shadowed[..last - 1],
              stack[..last])
  {
    var last := |stack| - 1;
    var beneath, log := stack[..last], shadowed[last - 1];
    assert Logged(log, beneath, stack[last]);
    var kept := variables - scopes[last];
    var variables' := Restored(kept, log);
    forall x ensures x in variables' <==> Visible(beneath, x).Some?
      ensures x in variables' ==> Visible(beneath, x) == Some(variables'[x])
    {
      RestoredShows(kept, log, beneath, x);
      if x in stack[last] {
        assert x in scopes[last];
        if Logs(log, x) {
          var i :| 0 <= i < |log| && log[i].0 == x;
          assert Visible(beneath, log[i].0) == Some(log[i].1);
        }
      } else {
        assert x !in scopes[last];
        assert !Logs(log, x);
      }
    }
    forall k | 0 <= k < last - 1 ensures Logged(shadowed[k], beneath[..k + 1], beneath[k + 1]) {
      assert Logged(shadowed[k], stack[..k + 1], stack[k + 1]);
      assert beneath[..k + 1] == stack[..k + 1];
    }
  }

  class Analyzer {
    var variables: map<string, Info>
    var currentScope: nat
    var scopes: seq<set<string>>
    var shadowed: seq<seq<(string, Info)>>
    var builtinNames: set<string>
    var hoisted: set<string>
    var undefined: seq<string>
    ghost var stack: seq<Frame>

    /** An analyzer with the language's own names in its one scope. */
    constructor (names: set<string>)
      ensures Valid() && fresh(this)
      ensures View() == Model([map x | x in names :: Some(Info(0, false, 0))], [], names, {})
    {
      variables := map x | x in names :: Info(0, false, 0);
      currentScope := 0;
      scopes, shadowed := [names], [];
      builtinNames, hoisted, undefined := names, {}, [];
      stack := [map x | x in names :: Some(Info(0, false, 0))];
    }

    ghost predicate Valid()
      reads this
    {
      |stack| == currentScope + 1 && Refines(variables, scopes, shadowed, stack)
    }

    ghost function View(): Model
      reads this
    {
      Model(stack, undefined, builtinNames, hoisted)
    }

    method EnterScope()
      requires Valid()
      modifies this`currentScope, this`scopes, this`shadowed, this`stack
      ensures Valid() && View() == Apply(old(View()), Enter)
    {
      EnterRefines(variables, scopes, shadowed, stack);
      currentScope := currentScope + 1;
      scopes := scopes + [{}];
      shadowed := shadowed + [[]];
      stack := stack + [map[]];
    }

    method Restore(log: seq<(string, Info)>)
      modifies this`variables
      ensures variables == Restored(old(variables), log)
    {
      for i := 0 to |log|
        invariant variables == Restored(old(variables), log[..i])
      {
        variables := variables[log[i].0 := log[i].1];
        assert log[..i + 1][..i] == log[..i];
      }
      assert log[..|log|] == log;
    }

    method ExitScope()
      requires Valid()
      modifies this`variables, this`currentScope, this`scopes, this`shadowed, this`stack
      ensures Valid() && View() == Apply(old(View()), Exit)
    {
      if currentScope > 0 {
        ExitRefines(variables, scopes, shadowed, stack);
        variables := variables - scopes[currentScope];
        var restored := shadowed[|shadowed| - 1];
        shadowed := shadowed[..|shadowed| - 1];
        Restore(restored);
        scopes := scopes[..|scopes| - 1];
        currentScope := currentScope - 1;
        stack := stack[..|stack| - 1];
      }
    }

    method DeclareInScope(x: string)
      requires Valid()
      modifies this`scopes, this`shadowed, this`stack
      ensures Valid() && View() == Apply(old(View()), DeclareOnly(x))
      ensures x in stack[|stack| - 1]
    {
      DeclareTops(stack, x);
      assert scopes[currentScope] == stack[currentScope].Keys;
      if x !in scopes[currentScope] {
        DeclareRefines(variables, scopes, shadowed, stack, x);
        if currentScope > 0 && x in variables {
          shadowed := shadowed[currentScope - 1 := shadowed[currentScope - 1] + [(x, variables[x])]];
        }
        scopes := scopes[currentScope := scopes[currentScope] + {x}];
        stack := Declare(stack, x);
      }
    }

    /** A tracking entry written for a name just declared. */
    method Insert(x: string, info: Info)
      requires Valid() && x in stack[|stack| - 1]
      modifies this`variables, this`stack
      ensures Valid() && stack == Put(old(stack), x, info)
    {
      PutRefines(variables, scopes, shadowed, stack, x, info);
      variables := variables[x := info];
      stack := Put(stack, x, info);
    }

    method Bind(x: string, isMutable: bool)
      requires Valid()
      modifies this`variables, this`scopes, this`shadowed, this`builtinNames, this`stack
      ensures Valid() && View() == Apply(old(View()), Op.Bind(x, isMutable))
    {
      DeclareTops(stack, x);
      DeclareInScope(x);
      var uses := 0;
      if currentScope == 0 {
        if x in undefined {
          uses := 1;
        }
        builtinNames := builtinNames - {x};
      }
      Insert(x, Info(currentScope, isMutable, uses));
    }

    /** A function's own name: a top-level one was declared ahead of the walk. */
    method BindFunction(x: string)
      requires Valid()
      modifies this`variables, this`scopes, this`shadowed, this`builtinNames, this`hoisted, this`stack
      ensures Valid() && View() == Apply(old(View()), Op.BindFunction(x))
    {
      if currentScope == 0 && x in hoisted {
        hoisted := hoisted - {x};
      } else {
        Bind(x, false);
      }
    }

    /** A loop's variable: declared, with an entry of its own. */
    method Track(x: string)
      requires Valid()
      modifies this`variables, this`scopes, this`shadowed, this`stack
      ensures Valid() && View() == Apply(old(View()), Op.Track(x))
    {
      DeclareTops(stack, x);
      DeclareInScope(x);
      Insert(x, Info(currentScope, false, 0));
    }

    /** A top-level function declared ahead of the walk. */
    method Hoist(x: string)
      requires Valid()
      modifies this`variables, this`scopes, this`shadowed, this`hoisted, this`stack
      ensures Valid() && View() == Apply(old(View()), Op.Hoist(x))
    {
      assert scopes[currentScope] == stack[currentScope].Keys;
      if x !in scopes[currentScope] {
        DeclareTops(stack, x);
        DeclareInScope(x);
        Insert(x, Info(currentScope, false, 0));
        hoisted := hoisted + {x};
      }
    }

    method NoteUse(x: string)
      requires Valid()
      modifies this`variables, this`stack
      ensures Valid() && View() == Apply(old(View()), Use(x))
    {
      CountKeeps(stack, x);
      CountRefines(variables, scopes, shadowed, stack, x);
      if x in variables {
        variables := variables[x := variables[x].(uses := variables[x].uses + 1)];
      }
      stack := Count(stack, x);
    }

    method InSomeScope(x: string) returns (found: bool)
      requires Valid()
      ensures found <==> Open(stack, x)
    {
      var k := |scopes|;
      while k > 0
        invariant 0 <= k <= |stack| == |scopes|
        invariant forall i :: k <= i < |stack| ==> x !in stack[i]
      {
        k := k - 1;
        assert scopes[k] == stack[k].Keys;
        if x in scopes[k] {
          return true;
        }
      }
      found := false;
    }

    /** A name read. One that no scope declares is recorded, once, and the walk
        goes on. */
    method CheckUsage(x: string)
      requires Valid()
      modifies this`variables, this`undefined, this`stack
      ensures Valid() && View() == Apply(old(View()), Check(x))
    {
      var found := InSomeScope(x);
      if found {
        NoteUse(x);
      } else if x !in undefined {
        undefined := undefined + [x];
      }
    }

    /** A name assigned. One that no scope declares is declared here, used once. */
    method AssignName(x: string)
      requires Valid()
      modifies this`variables, this`scopes, this`shadowed, this`stack
      ensures Valid() && View() == Apply(old(View()), Assign(x))
    {
      var found := InSomeScope(x);
      if found {
        NoteUse(x);
      } else {
        DeclareTops(stack, x);
        DeclareInScope(x);
        Insert(x, Info(currentScope, true, 1));
      }
    }

    /** After a statement the walk could not follow: back to the outermost scope. */
    method Recover()
      requires Valid()
      modifies this`variables, this`currentScope, this`scopes, this`shadowed, this`stack
      ensures Valid() && View() == old(View()).(stack := old(stack)[..1])
    {
      while currentScope > 0
        invariant Valid() && 0 < |stack| <= old(|stack|) && stack == old(stack)[..|stack|]
        invariant View() == old(View()).(stack := stack)
      {
        ExitScope();
      }
    }
  }

  // ── Over every run ──

  /** The model after a sequence of operations. */
  function Run(m: Model, ops: seq<Op>): Model
    requires m.stack != []
    ensures Run(m, ops).stack != []
    decreases |ops|
  {
    if ops == [] then m else Run(Apply(m, ops[0]), ops[1..])
  }

  method Perform(a: Analyzer, op: Op)
    requires a.Valid()
    modifies a
    ensures a.Valid() && a.View() == Apply(old(a.View()), op)
  {
    match op
    case Enter => a.EnterScope();
    case Exit => a.ExitScope();
    case DeclareOnly(x) => a.DeclareInScope(x);
    case Bind(x, isMutable) => a.Bind(x, isMutable);
    case BindFunction(x) => a.BindFunction(x);
    case Track(x) => a.Track(x);
    case Hoist(x) => a.Hoist(x);
    case Use(x) => a.NoteUse(x);
    case Check(x) => a.CheckUsage(x);
    case Assign(x) => a.AssignName(x);
  }

  /** Whatever is done in whatever order, the flat map with its logs stands for
      the stack of scopes. */
  method PerformAll(a: Analyzer, ops: seq<Op>)
    requires a.Valid()
    modifies a
    ensures a.Valid() && a.View() == Run(old(a.View()), ops)
  {
    for i := 0 to |ops|
      invariant a.Valid() && Run(a.View(), ops[i..]) == Run(old(a.View()), ops)
    {
      Perform(a, ops[i]);
      assert ops[i..][1..] == ops[i + 1..];
    }
    assert ops[|ops|..] == [];
  }
}
