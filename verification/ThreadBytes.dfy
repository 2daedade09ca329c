/** Bytes counted per thread: slots, tasks and folded balances, one atomic access a step. */
module ThreadBytes {
  import opened Wrappers

  const SLOTS: nat := 192
  /** Slots below this are shared out among threads that claimed none. */
  const ANONYMOUS: nat := 128

  datatype Guard = Guard(slot: nat, before: nat)

  /** Where a thread is between the steps of entering or leaving a task. */
  datatype Phase =
    | Running
    | Claimed(slot: nat, before: nat)
    | Leaving(guard: Guard)
    | Folding(guard: Guard, left: int)
    | Releasing(slot: nat)

  datatype Thread = Thread(slot: Option<nat>, guards: seq<Guard>, phase: Phase)

  /** `gained` and `lost` are the bytes allocated and freed in all; the program
      keeps neither. */
  datatype State = State(
    live: seq<int>,
    names: seq<Option<string>>,
    nextAnonymous: nat,
    threads: seq<Thread>,
    gained: int,
    lost: int)

  datatype Step =
    | Spawn
    | Assign(t: nat)
    | Alloc(t: nat, size: nat)
    | Dealloc(t: nat, size: nat)
    | Claim(t: nat, name: string)
    | Enter(t: nat)
    | Leave(t: nat)
    | Swap(t: nat)
    | Fold(t: nat)
    | Release(t: nat)

  function Start(): State {
    State(Repeat(0, SLOTS), Repeat(None, SLOTS), 0, [], 0, 0)
  }

  /** The first named slot nobody has, or `SLOTS`. */
  function FirstFree(names: seq<Option<string>>, i: nat): (k: nat)
    requires i <= |names|
    ensures i <= k <= |names|
    ensures k < |names| ==> names[k].None?
    ensures forall j :: i <= j < k ==> names[j].Some?
    decreases |names| - i
  {
    if i == |names| || names[i].None? then i else FirstFree(names, i + 1)
  }

  predicate InRange(s: State) {
    |s.live| == SLOTS && |s.names| == SLOTS
  }

  predicate Enabled(s: State, step: Step) {
    if step.Spawn? then true
    else
      step.t < |s.threads| &&
      var th := s.threads[step.t];
      match step
      case Spawn => true
      case Assign(_) => th.slot.None?
      case Alloc(_, _) => th.slot.Some?
      case Dealloc(_, _) => th.slot.Some?
      case Claim(_, _) => th.slot.Some? && th.phase.Running?
      case Enter(_) => th.phase.Claimed?
      case Leave(_) => th.phase.Running? && th.guards != []
      case Swap(_) => th.phase.Leaving?
      case Fold(_) => th.phase.Folding?
      case Release(_) => th.phase.Releasing?
  }

  function Bump(live: seq<int>, i: nat, d: int): seq<int> {
    if i < |live| then live[i := live[i] + d] else live
  }

  function At(live: seq<int>, i: nat): int {
    if i < |live| then live[i] else 0
  }

  function WithThread(s: State, t: nat, th: Thread): State
    requires t < |s.threads|
  {
    s.(threads := s.threads[t := th])
  }

  /** One step. A task's guard is the last its thread took: guards are dropped
      last-in first-out. */
  function Apply(s: State, step: Step): State
    requires InRange(s) && Enabled(s, step)
  {
    match step
    case Spawn => s.(threads := s.threads + [Thread(None, [], Running)])
    case Assign(t) =>
      var th := s.threads[t];
      WithThread(s, t, th.(slot := Some(s.nextAnonymous % ANONYMOUS))).(nextAnonymous := s.nextAnonymous + 1)
    case Alloc(t, size) =>
      s.(live := Bump(s.live, s.threads[t].slot.value, size), gained := s.gained + size)
    case Dealloc(t, size) =>
      s.(live := Bump(s.live, s.threads[t].slot.value, 0 - size), lost := s.lost + size)
    case Claim(t, name) =>
      var th := s.threads[t];
      var before := th.slot.value;
      var i := FirstFree(s.names, ANONYMOUS);
      if i < SLOTS then
        WithThread(s, t, th.(phase := Claimed(i, before))).(names := s.names[i := Some(name)])
      else
        WithThread(s, t, th.(guards := th.guards + [Guard(before, before)]))
    case Enter(t) =>
      var th := s.threads[t];
      WithThread(s, t, Thread(Some(th.phase.slot), th.guards + [Guard(th.phase.slot, th.phase.before)], Running))
    case Leave(t) =>
      var th := s.threads[t];
      var rest, g := th.guards[..|th.guards| - 1], th.guards[|th.guards| - 1];
      WithThread(s, t,
        if g.slot == g.before then th.(guards := rest)
        else Thread(Some(g.before), rest, Leaving(g)))
    case Swap(t) =>
      var th := s.threads[t];
      var g := th.phase.guard;
      WithThread(s, t, th.(phase := Folding(g, At(s.live, g.slot))))
        .(live := Bump(s.live, g.slot, -At(s.live, g.slot)))
    case Fold(t) =>
      var th := s.threads[t];
      var g := th.phase.guard;
      WithThread(s, t, th.(phase := Releasing(g.slot))).(live := Bump(s.live, g.before, th.phase.left))
    case Release(t) =>
      var th := s.threads[t];
      WithThread(s, t, th.(phase := Running)).(names :=
        if th.phase.slot < |s.names| then s.names[th.phase.slot := None] else s.names)
  }

  // ── What is always so ──

  function Sum(xs: seq<int>): int {
    if xs == [] then 0 else xs[0] + Sum(xs[1..])
  }

  /** A balance taken out of a slot and not yet put in another. */
  function InFlight(th: Thread): int {
    if th.phase.Folding? then th.phase.left else 0
  }

  function AllInFlight(threads: seq<Thread>): int {
    if threads == [] then 0 else InFlight(threads[0]) + AllInFlight(threads[1..])
  }

  /** How often a thread's guards and phase stand for the claim of slot `i`. */
  function Claims(th: Thread, i: nat): nat {
    GuardClaims(th.guards, i) + PhaseClaims(th.phase, i)
  }

  function GuardClaims(guards: seq<Guard>, i: nat): nat {
    if guards == [] then 0
    else (if guards[0].slot == i != guards[0].before then 1 else 0) + GuardClaims(guards[1..], i)
  }

  function PhaseClaims(phase: Phase, i: nat): nat {
    match phase
    case Running => 0
    case Claimed(slot, _) => if slot == i then 1 else 0
    case Leaving(g) => if g.slot == i then 1 else 0
    case Folding(g, _) => if g.slot == i then 1 else 0
    case Releasing(slot) => if slot == i then 1 else 0
  }

  function AllClaims(threads: seq<Thread>, i: nat): nat {
    if threads == [] then 0 else Claims(threads[0], i) + AllClaims(threads[1..], i)
  }

  predicate Named(i: nat) {
    ANONYMOUS <= i < SLOTS
  }

  /** A thread's guards lead from an anonymous slot to the slot it counts in. */
  predicate Chained(guards: seq<Guard>, slot: nat)
    decreases |guards|
  {
    if guards == [] then slot < ANONYMOUS
    else
      var g := guards[|guards| - 1];
      && g.slot == slot
      && (g.slot == g.before || Named(g.slot))
      && Chained(guards[..|guards| - 1], g.before)
  }

  predicate ThreadOk(th: Thread) {
    match th.slot
    case None => th.guards == [] && th.phase.Running?
    case Some(slot) =>
      && Chained(th.guards, slot)
      && (match th.phase
          case Running => true
          case Claimed(i, before) => Named(i) && before == slot && i != before
          case Leaving(g) => Named(g.slot) && g.before == slot && g.slot != g.before
          case Folding(g, _) => Named(g.slot) && g.before == slot
          case Releasing(i) => Named(i))
  }

  /** A slot claimed and not counted in yet, or one that a fold has emptied, until it is
      offered again. */
  predicate Emptied(phase: Phase, i: nat) {
    || (phase.Claimed? && phase.slot == i)
    || (phase.Folding? && phase.guard.slot == i)
    || (phase.Releasing? && phase.slot == i)
  }

  ghost predicate Inv(s: State) {
    && InRange(s)
    && (forall t {:trigger s.threads[t]} :: 0 <= t < |s.threads| ==> ThreadOk(s.threads[t]))
    && Sum(s.live) + AllInFlight(s.threads) == s.gained - s.lost
    && (forall i: nat {:trigger AllClaims(s.threads, i)} :: Named(i) ==>
          AllClaims(s.threads, i) == if s.names[i].Some? then 1 else 0)
    && (forall i: nat {:trigger s.live[i]} :: Named(i) && s.names[i].None? ==> s.live[i] == 0)
    && (forall t, i: nat {:trigger Emptied(s.threads[t].phase, i)} ::
          0 <= t < |s.threads| && Named(i) && Emptied(s.threads[t].phase, i) ==> s.live[i] == 0)
  }

  // ── Sums under one change ──

  lemma {:induction false} SumBump(xs: seq<int>, i: nat, d: int)
    requires i < |xs|
    ensures Sum(Bump(xs, i, d)) == Sum(xs) + d
  {
    if i > 0 {
      SumBump(xs[1..], i - 1, d);
      assert Bump(xs, i, d)[1..] == Bump(xs[1..], i - 1, d);
    }
  }

  lemma {:induction false} InFlightUpdate(threads: seq<Thread>, t: nat, th: Thread)
    requires t < |threads|
    ensures AllInFlight(threads[t := th]) == AllInFlight(threads) - InFlight(threads[t]) + InFlight(th)
  {
    if t > 0 {
      InFlightUpdate(threads[1..], t - 1, th);
      assert threads[t := th][1..] == threads[1..][t - 1 := th];
    }
  }

  lemma {:induction false} ClaimsUpdate(threads: seq<Thread>, t: nat, th: Thread, i: nat)
    requires t < |threads|
    ensures AllClaims(threads[t := th], i) == AllClaims(threads, i) - Claims(threads[t], i) + Claims(th, i)
    ensures AllClaims(threads, i) >= Claims(threads[t], i)
  {
    if t > 0 {
      ClaimsUpdate(threads[1..], t - 1, th, i);
      assert threads[t := th][1..] == threads[1..][t - 1 := th];
    }
  }

  lemma {:induction false} ClaimsOfTwo(threads: seq<Thread>, t: nat, u: nat, i: nat)
    requires t < u < |threads|
    ensures AllClaims(threads, i) >= Claims(threads[t], i) + Claims(threads[u], i)
  {
    if t > 0 {
      ClaimsOfTwo(threads[1..], t - 1, u - 1, i);
    } else {
      ClaimsUpdate(threads[1..], u - 1, threads[u], i);
    }
  }

  lemma {:induction false} GuardClaimsLast(guards: seq<Guard>, g: Guard, i: nat)
    ensures GuardClaims(guards + [g], i) == GuardClaims(guards, i) + if g.slot == i != g.before then 1 else 0
  {
    if guards != [] {
      GuardClaimsLast(guards[1..], g, i);
      assert (guards + [g])[1..] == guards[1..] + [g];
    } else {
      assert guards + [g] == [g];
    }
  }

  lemma {:induction false} ThreadsAppend(threads: seq<Thread>, th: Thread, i: nat)
    ensures AllClaims(threads + [th], i) == AllClaims(threads, i) + Claims(th, i)
    ensures AllInFlight(threads + [th]) == AllInFlight(threads) + InFlight(th)
  {
    if threads != [] {
      ThreadsAppend(threads[1..], th, i);
      assert (threads + [th])[1..] == threads[1..] + [th];
    } else {
      assert threads + [th] == [th];
    }
  }

  /** A thread that counts in a named slot holds its claim among its guards. */
  lemma {:induction false} CurrentIsClaimed(guards: seq<Guard>, slot: nat)
    requires Chained(guards, slot) && Named(slot)
    ensures GuardClaims(guards, slot) >= 1
    decreases |guards|
  {
    var rest, g := guards[..|guards| - 1], guards[|guards| - 1];
    assert guards == rest + [g];
    GuardClaimsLast(rest, g, slot);
    if g.slot == g.before {
      CurrentIsClaimed(rest, g.before);
    }
  }

  lemma CurrentInRange(guards: seq<Guard>, slot: nat)
    requires Chained(guards, slot)
    ensures slot < SLOTS
    decreases |guards|
  {
    if guards != [] {
      CurrentInRange(guards[..|guards| - 1], guards[|guards| - 1].before);
    }
  }

  /** Nobody else has the named slot that a thread counts in, and no fold has
      emptied it. */
  lemma CurrentIsOwn(s: State, t: nat, i: nat)
    requires Inv(s) && t < |s.threads| && s.threads[t].slot == Some(i) && Named(i)
    ensures s.names[i].Some? && PhaseClaims(s.threads[t].phase, i) == 0
    ensures forall u {:trigger s.threads[u]} :: 0 <= u < |s.threads| && u != t ==> Claims(s.threads[u], i) == 0
  {
    var th := s.threads[t];
    CurrentIsClaimed(th.guards, i);
    ClaimsUpdate(s.threads, t, th, i);
    assert AllClaims(s.threads, i) <= 1;
    forall u | 0 <= u < |s.threads| && u != t ensures Claims(s.threads[u], i) == 0 {
      if u < t {
        ClaimsOfTwo(s.threads, u, t, i);
      } else {
        ClaimsOfTwo(s.threads, t, u, i);
      }
    }
  }

  // ── Every step keeps it ──

  lemma {:induction false} SumOfZeros(n: nat)
    ensures Sum(Repeat(0, n)) == 0
  {
    if n > 0 {
      SumOfZeros(n - 1);
      assert Repeat(0, n)[1..] == Repeat(0, n - 1);
    }
  }

  lemma StartInv()
    ensures Inv(Start())
  {
    SumOfZeros(SLOTS);
    var s := Start();
    assert s.threads == [] && AllInFlight([]) == 0;
    forall i: nat | Named(i) ensures AllClaims(s.threads, i) == 0 && s.names[i].None? && s.live[i] == 0 {
    }
  }

  /** Bytes counted in the thread's slot. */
  lemma CountInv(s: State, t: nat, d: int, s': State)
    requires Inv(s) && t < |s.threads| && s.threads[t].slot.Some?
    requires s'.live == Bump(s.live, s.threads[t].slot.value, d)
    requires s'.names == s.names && s'.threads == s.threads
    requires s'.gained - s'.lost == s.gained - s.lost + d
    ensures Inv(s')
  {
    var th := s.threads[t];
    var c := th.slot.value;
    assert ThreadOk(th);
    CurrentInRange(th.guards, c);
    SumBump(s.live, c, d);
    if Named(c) {
      CurrentIsOwn(s, t, c);
      forall u, i: nat | 0 <= u < |s.threads| && Named(i) && Emptied(s.threads[u].phase, i)
        ensures s'.live[i] == 0
      {
        assert s.live[i] == 0;
        assert Claims(s.threads[u], i) >= PhaseClaims(s.threads[u].phase, i) == 1;
      }
    } else {
      forall u, i: nat | 0 <= u < |s.threads| && Named(i) && Emptied(s.threads[u].phase, i)
        ensures s'.live[i] == 0
      {
        assert s.live[i] == 0;
      }
    }
  }

  /** A thread changed that keeps its claims, with nothing counted. */
  lemma SameClaimsInv(s: State, t: nat, th: Thread, s': State)
    requires Inv(s) && t < |s.threads| && ThreadOk(th)
    requires s'.threads == s.threads[t := th] && s'.names == s.names && s'.live == s.live
    requires s'.gained == s.gained && s'.lost == s.lost
    requires InFlight(th) == InFlight(s.threads[t])
    requires forall i: nat {:trigger Claims(th, i)} :: Named(i) ==> Claims(th, i) == Claims(s.threads[t], i)
    requires forall i: nat {:trigger Emptied(th.phase, i)} :: Named(i) && Emptied(th.phase, i) ==> s.live[i] == 0
    ensures Inv(s')
  {
    InFlightUpdate(s.threads, t, th);
    forall i: nat | Named(i) ensures AllClaims(s'.threads, i) == if s'.names[i].Some? then 1 else 0 {
      ClaimsUpdate(s.threads, t, th, i);
      assert Claims(th, i) == Claims(s.threads[t], i);
      assert AllClaims(s.threads, i) == if s.names[i].Some? then 1 else 0;
    }
    forall u, i: nat | 0 <= u < |s'.threads| && Named(i) && Emptied(s'.threads[u].phase, i)
      ensures s'.live[i] == 0
    {
      if u != t {
        assert Emptied(s.threads[u].phase, i);
      }
    }
  }

  lemma SpawnInv(s: State)
    requires Inv(s)
    ensures Inv(Apply(s, Spawn))
  {
    var th := Thread(None, [], Running);
    var s' := Apply(s, Spawn);
    forall i: nat | Named(i) ensures AllClaims(s'.threads, i) == if s'.names[i].Some? then 1 else 0 {
      ThreadsAppend(s.threads, th, i);
      assert AllClaims(s.threads, i) == if s.names[i].Some? then 1 else 0;
    }
    ThreadsAppend(s.threads, th, 0);
    forall u, i: nat | 0 <= u < |s'.threads| && Named(i) && Emptied(s'.threads[u].phase, i)
      ensures s'.live[i] == 0
    {
      assert u < |s.threads| && Emptied(s.threads[u].phase, i);
    }
  }

  lemma ClaimInv(s: State, t: nat, name: string)
    requires Inv(s) && Enabled(s, Claim(t, name))
    ensures Inv(Apply(s, Claim(t, name)))
  {
    var th := s.threads[t];
    assert ThreadOk(th);
    var before := th.slot.value;
    var k := FirstFree(s.names, ANONYMOUS);
    var s' := Apply(s, Claim(t, name));
    CurrentInRange(th.guards, before);
    if k < SLOTS {
      if Named(before) {
        CurrentIsOwn(s, t, before);
      }
      var th' := th.(phase := Claimed(k, before));
      assert ThreadOk(th');
      InFlightUpdate(s.threads, t, th');
      forall i: nat | Named(i) ensures AllClaims(s'.threads, i) == if s'.names[i].Some? then 1 else 0 {
        ClaimsUpdate(s.threads, t, th', i);
        assert AllClaims(s.threads, i) == if s.names[i].Some? then 1 else 0;
      }
      forall u, i: nat | 0 <= u < |s'.threads| && Named(i) && Emptied(s'.threads[u].phase, i)
        ensures s'.live[i] == 0
      {
        if u == t {
          assert s.names[k].None? && s.live[k] == 0;
        } else {
          assert Emptied(s.threads[u].phase, i);
        }
      }
    } else {
      var g := Guard(before, before);
      var th' := th.(guards := th.guards + [g]);
      assert th'.guards[..|th'.guards| - 1] == th.guards;
      forall i: nat | Named(i) ensures Claims(th', i) == Claims(th, i) {
        GuardClaimsLast(th.guards, g, i);
      }
      SameClaimsInv(s, t, th', s');
    }
  }

  lemma EnterInv(s: State, t: nat)
    requires Inv(s) && Enabled(s, Enter(t))
    ensures Inv(Apply(s, Enter(t)))
  {
    var th := s.threads[t];
    assert ThreadOk(th);
    var g := Guard(th.phase.slot, th.phase.before);
    var th' := Thread(Some(g.slot), th.guards + [g], Running);
    assert th'.guards[..|th'.guards| - 1] == th.guards;
    forall i: nat | Named(i) ensures Claims(th', i) == Claims(th, i) {
      GuardClaimsLast(th.guards, g, i);
    }
    SameClaimsInv(s, t, th', Apply(s, Enter(t)));
  }

  lemma LeaveInv(s: State, t: nat)
    requires Inv(s) && Enabled(s, Leave(t))
    ensures Inv(Apply(s, Leave(t)))
  {
    var th := s.threads[t];
    assert ThreadOk(th);
    var rest, g := th.guards[..|th.guards| - 1], th.guards[|th.guards| - 1];
    assert th.guards == rest + [g];
    var s' := Apply(s, Leave(t));
    forall i: nat | Named(i) ensures Claims(s'.threads[t], i) == Claims(th, i) {
      GuardClaimsLast(rest, g, i);
    }
    SameClaimsInv(s, t, s'.threads[t], s');
  }

  /** The claims' half of the invariant, for a thread that keeps its own. */
  lemma ClaimsKept(s: State, t: nat, th: Thread, i: nat)
    requires Inv(s) && t < |s.threads| && Named(i) && Claims(th, i) == Claims(s.threads[t], i)
    ensures AllClaims(s.threads[t := th], i) == if s.names[i].Some? then 1 else 0
  {
    ClaimsUpdate(s.threads, t, th, i);
    assert AllClaims(s.threads, i) == if s.names[i].Some? then 1 else 0;
  }

  lemma SwapInv(s: State, t: nat)
    requires Inv(s) && Enabled(s, Swap(t))
    ensures Inv(Apply(s, Swap(t)))
  {
    var th := s.threads[t];
    assert ThreadOk(th);
    var g := th.phase.guard;
    var left := s.live[g.slot];
    var th' := th.(phase := Folding(g, left));
    var s' := Apply(s, Swap(t));
    assert s'.live == Bump(s.live, g.slot, -left) && s'.threads == s.threads[t := th'] && s'.names == s.names;
    SumBump(s.live, g.slot, -left);
    InFlightUpdate(s.threads, t, th');
    SwapClaims(s, t, th');
    SwapZeros(s, t, g, left, s');
  }

  lemma SwapClaims(s: State, t: nat, th: Thread)
    requires Inv(s) && t < |s.threads|
    requires forall i: nat {:trigger Claims(th, i)} :: Named(i) ==> Claims(th, i) == Claims(s.threads[t], i)
    ensures forall i: nat {:trigger AllClaims(s.threads[t := th], i)} :: Named(i) ==>
      AllClaims(s.threads[t := th], i) == if s.names[i].Some? then 1 else 0
  {
    forall i: nat | Named(i) ensures AllClaims(s.threads[t := th], i) == if s.names[i].Some? then 1 else 0 {
      ClaimsKept(s, t, th, i);
    }
  }

  lemma SwapZeros(s: State, t: nat, g: Guard, left: int, s': State)
    requires Inv(s) && t < |s.threads| && Named(g.slot) && left == s.live[g.slot]
    requires s'.live == s.live[g.slot := 0] && s'.names == s.names
    requires s'.threads == s.threads[t := s.threads[t].(phase := Folding(g, left))]
    ensures forall i: nat {:trigger s'.live[i]} :: Named(i) && s'.names[i].None? ==> s'.live[i] == 0
    ensures forall u, i: nat {:trigger Emptied(s'.threads[u].phase, i)} ::
      0 <= u < |s'.threads| && Named(i) && Emptied(s'.threads[u].phase, i) ==> s'.live[i] == 0
  {
    forall u, i: nat | 0 <= u < |s'.threads| && Named(i) && Emptied(s'.threads[u].phase, i)
      ensures s'.live[i] == 0
    {
      if u != t {
        assert Emptied(s.threads[u].phase, i) && s.live[i] == 0;
      }
    }
  }

  lemma FoldInv(s: State, t: nat)
    requires Inv(s) && Enabled(s, Fold(t))
    ensures Inv(Apply(s, Fold(t)))
  {
    var th := s.threads[t];
    assert ThreadOk(th);
    var g, left := th.phase.guard, th.phase.left;
    var th' := th.(phase := Releasing(g.slot));
    assert Emptied(th.phase, g.slot);
    // the balance's last moment in flight, counted as if the thread allocated it
    var mid := s.(live := Bump(s.live, g.before, left), gained := s.gained + left);
    CountInv(s, t, left, mid);
    var s' := Apply(s, Fold(t));
    InFlightUpdate(s.threads, t, th');
    forall i: nat | Named(i) ensures AllClaims(s'.threads, i) == if s'.names[i].Some? then 1 else 0 {
      ClaimsUpdate(s.threads, t, th', i);
      assert AllClaims(s.threads, i) == if s.names[i].Some? then 1 else 0;
    }
    forall u, i: nat | 0 <= u < |s'.threads| && Named(i) && Emptied(s'.threads[u].phase, i)
      ensures s'.live[i] == 0
    {
      assert Emptied(mid.threads[u].phase, i);
    }
  }

  lemma ReleaseInv(s: State, t: nat)
    requires Inv(s) && Enabled(s, Release(t))
    ensures Inv(Apply(s, Release(t)))
  {
    var th := s.threads[t];
    assert ThreadOk(th);
    var k := th.phase.slot;
    assert Emptied(th.phase, k);
    var th' := th.(phase := Running);
    var s' := Apply(s, Release(t));
    InFlightUpdate(s.threads, t, th');
    forall i: nat | Named(i) ensures AllClaims(s'.threads, i) == if s'.names[i].Some? then 1 else 0 {
      ClaimsUpdate(s.threads, t, th', i);
      assert AllClaims(s.threads, i) == if s.names[i].Some? then 1 else 0;
    }
    forall u, i: nat | 0 <= u < |s'.threads| && Named(i) && Emptied(s'.threads[u].phase, i)
      ensures s'.live[i] == 0
    {
      assert u != t && Emptied(s.threads[u].phase, i);
    }
  }

  lemma StepInv(s: State, step: Step)
    requires Inv(s) && Enabled(s, step)
    ensures Inv(Apply(s, step))
  {
    match step
    case Spawn => SpawnInv(s);
    case Assign(t) =>
      assert ThreadOk(s.threads[t]);
      SameClaimsInv(s, t, Apply(s, step).threads[t], Apply(s, step));
    case Alloc(t, size) => CountInv(s, t, size, Apply(s, step));
    case Dealloc(t, size) => CountInv(s, t, 0 - size, Apply(s, step));
    case Claim(t, name) => ClaimInv(s, t, name);
    case Enter(t) => EnterInv(s, t);
    case Leave(t) => LeaveInv(s, t);
    case Swap(t) => SwapInv(s, t);
    case Fold(t) => FoldInv(s, t);
    case Release(t) => ReleaseInv(s, t);
  }

  // ── Over every interleaving ──

  /** Where an interleaving of steps comes to, if each can be taken. */
  function Run(steps: seq<Step>): Option<State>
    decreases |steps|
  {
    if steps == [] then Some(Start())
    else
      match Run(steps[..|steps| - 1])
      case None => None
      case Some(s) =>
        var last := steps[|steps| - 1];
        if InRange(s) && Enabled(s, last) then Some(Apply(s, last)) else None
  }

  lemma {:induction false} RunInv(steps: seq<Step>)
    requires Run(steps).Some?
    ensures Inv(Run(steps).value)
    decreases |steps|
  {
    if steps == [] {
      StartInv();
    } else {
      RunInv(steps[..|steps| - 1]);
      StepInv(Run(steps[..|steps| - 1]).value, steps[|steps| - 1]);
    }
  }

  /** The bytes that these steps allocate, and those they free. */
  function Allocated(steps: seq<Step>): nat {
    if steps == [] then 0
    else Allocated(steps[1..]) + if steps[0].Alloc? then steps[0].size else 0
  }

  function Freed(steps: seq<Step>): nat {
    if steps == [] then 0
    else Freed(steps[1..]) + if steps[0].Dealloc? then steps[0].size else 0
  }

  /** How many threads were given a shared slot. */
  function Assigned(steps: seq<Step>): nat {
    if steps == [] then 0
    else Assigned(steps[1..]) + if steps[0].Assign? then 1 else 0
  }

  lemma {:induction false} TotalsLast(steps: seq<Step>, step: Step)
    ensures Allocated(steps + [step]) == Allocated(steps) + if step.Alloc? then step.size else 0
    ensures Freed(steps + [step]) == Freed(steps) + if step.Dealloc? then step.size else 0
    ensures Assigned(steps + [step]) == Assigned(steps) + if step.Assign? then 1 else 0
  {
    if steps == [] {
      assert steps + [step] == [step];
    } else {
      assert (steps + [step])[1..] == steps[1..] + [step];
      TotalsLast(steps[1..], step);
    }
  }

  /** Over a run the totals are those of its steps. */
  lemma {:induction false} RunTotals(steps: seq<Step>, s: State)
    requires Run(steps) == Some(s)
    ensures s.gained == Allocated(steps) && s.lost == Freed(steps) && s.nextAnonymous == Assigned(steps)
    decreases |steps|
  {
    if steps != [] {
      var init, last := steps[..|steps| - 1], steps[|steps| - 1];
      assert steps == init + [last];
      RunTotals(init, Run(init).value);
      TotalsLast(init, last);
    }
  }

  /** Threads with no name are given the shared slots in turn. */
  lemma SlotsInTurn(steps: seq<Step>, s: State, t: nat)
    requires Run(steps) == Some(s) && Enabled(s, Assign(t)) && InRange(s)
    ensures Apply(s, Assign(t)).threads[t].slot == Some(Assigned(steps) % 128)
  {
    RunTotals(steps, s);
  }

  /** What `heap_bytes` reports with nothing between its loads: the slots' sum, never
      below nothing. */
  function HeapBytes(s: State): nat {
    if Sum(s.live) < 0 then 0 else Sum(s.live)
  }

  /** Nothing is lost: in every state, what the slots and the balances being
      folded come to is what was allocated and not freed; with no fold under
      way that is the total reported. */
  lemma NothingLost(steps: seq<Step>, s: State)
    requires Run(steps) == Some(s)
    ensures Sum(s.live) + AllInFlight(s.threads) == s.gained - s.lost == Allocated(steps) - Freed(steps)
    ensures NoFold(s.threads) && s.lost <= s.gained ==> HeapBytes(s) == Allocated(steps) - Freed(steps)
  {
    RunInv(steps);
    RunTotals(steps, s);
    if NoFold(s.threads) {
      NoneInFlight(s.threads);
    }
  }

  ghost predicate NoFold(threads: seq<Thread>) {
    forall t {:trigger threads[t]} :: 0 <= t < |threads| ==> !threads[t].phase.Folding?
  }

  lemma {:induction false} NoneInFlight(threads: seq<Thread>)
    requires NoFold(threads)
    ensures AllInFlight(threads) == 0
  {
    if threads != [] {
      assert !threads[0].phase.Folding?;
      forall t | 0 <= t < |threads[1..]| ensures !threads[1..][t].phase.Folding? {
        assert threads[1..][t] == threads[t + 1];
      }
      NoneInFlight(threads[1..]);
    }
  }

  /** A claimed slot is one thread's; an unclaimed one reads zero. */
  lemma OneOwnerEach(steps: seq<Step>, s: State, i: nat)
    requires Run(steps) == Some(s) && Named(i)
    ensures |s.live| == SLOTS && |s.names| == SLOTS
    ensures s.names[i].None? ==> s.live[i] == 0
    ensures forall t, u {:trigger s.threads[t], s.threads[u]} :: 0 <= t < u < |s.threads| ==>
      Claims(s.threads[t], i) == 0 || Claims(s.threads[u], i) == 0
    ensures forall t, u {:trigger s.threads[t], s.threads[u]} :: 0 <= t < u < |s.threads| ==>
      s.threads[t].slot != Some(i) || s.threads[u].slot != Some(i)
  {
    RunInv(steps);
    assert AllClaims(s.threads, i) <= 1;
    forall t, u | 0 <= t < u < |s.threads|
      ensures Claims(s.threads[t], i) == 0 || Claims(s.threads[u], i) == 0
      ensures s.threads[t].slot != Some(i) || s.threads[u].slot != Some(i)
    {
      ClaimsOfTwo(s.threads, t, u, i);
      assert ThreadOk(s.threads[t]) && ThreadOk(s.threads[u]);
      if s.threads[t].slot == Some(i) {
        CurrentIsClaimed(s.threads[t].guards, i);
      }
      if s.threads[u].slot == Some(i) {
        CurrentIsClaimed(s.threads[u].guards, i);
      }
    }
  }

  // ── A task's bytes ──

  /** What thread `t` allocates and frees in these steps. */
  function NetOf(t: nat, steps: seq<Step>): int {
    if steps == [] then 0
    else
      var last := steps[|steps| - 1];
      NetOf(t, steps[..|steps| - 1])
      + if last == Alloc(t, StepSize(last)) then StepSize(last)
        else if last == Dealloc(t, StepSize(last)) then 0 - StepSize(last)
        else 0
  }

  function StepSize(step: Step): nat {
    if step.Alloc? || step.Dealloc? then step.size else 0
  }

  /** `t` begins no other task, and does not end its own. */
  predicate StaysIn(t: nat, step: Step) {
    !((step.Claim? || step.Leave?) && step.t == t)
  }

  /** Thread `t` counts in the named slot `i`, and is about nothing else. */
  ghost predicate Within(s: State, t: nat, i: nat, name: string) {
    && Inv(s) && t < |s.threads| && Named(i)
    && s.threads[t].slot == Some(i) && s.threads[t].phase == Running && s.names[i] == Some(name)
  }

  /** Whatever another thread does, a task keeps its slot, its name and its bytes. */
  lemma OthersLeaveIt(s: State, t: nat, i: nat, name: string, step: Step)
    requires Within(s, t, i, name) && Enabled(s, step) && (step.Spawn? || step.t != t)
    ensures Within(Apply(s, step), t, i, name) && Apply(s, step).live[i] == s.live[i]
  {
    StepInv(s, step);
    CurrentIsOwn(s, t, i);
    if !step.Spawn? {
      var u := step.t;
      var th := s.threads[u];
      assert ThreadOk(th) && Claims(th, i) == 0;
      if th.slot == Some(i) {
        CurrentIsClaimed(th.guards, i);
      }
    }
  }

  lemma OwnStep(s: State, t: nat, i: nat, name: string, step: Step)
    requires Within(s, t, i, name) && Enabled(s, step) && !step.Spawn? && step.t == t && StaysIn(t, step)
    ensures Within(Apply(s, step), t, i, name)
    ensures Apply(s, step).live[i] == s.live[i] + NetOf(t, [step])
  {
    StepInv(s, step);
    assert [step][..0] == [];
  }

  lemma NetOfLast(t: nat, steps: seq<Step>, step: Step)
    ensures NetOf(t, steps + [step]) == NetOf(t, steps) + NetOf(t, [step])
  {
    assert (steps + [step])[..|steps|] == steps && [step][..0] == [];
  }

  /** From where a task is entered, and for as long as its thread stays in it, its slot
      bears its name and holds just what that thread allocated and did not free,
      whatever the others do meanwhile. */
  lemma {:induction false} TaskHoldsItsOwn(steps: seq<Step>, t: nat, more: seq<Step>, s: State)
    requires Run(steps).Some? && Enabled(Run(steps).value, Enter(t)) && InRange(Run(steps).value)
    requires Run(steps + [Enter(t)] + more) == Some(s) && forall k :: 0 <= k < |more| ==> StaysIn(t, more[k])
    ensures var i := Run(steps).value.threads[t].phase.slot;
      && Named(i) && Run(steps).value.names[i].Some?
      && Within(s, t, i, Run(steps).value.names[i].value) && s.live[i] == NetOf(t, more)
    decreases |more|
  {
    var s0 := Run(steps).value;
    EnteredIsEmpty(steps, s0, t);
    if more == [] {
      assert steps + [Enter(t)] + more == steps + [Enter(t)];
      var _ := RunLast(steps, Enter(t), s);
    } else {
      var init, last := more[..|more| - 1], more[|more| - 1];
      assert more == init + [last];
      assert steps + [Enter(t)] + more == (steps + [Enter(t)] + init) + [last];
      var before := RunLast(steps + [Enter(t)] + init, last, s);
      TaskHoldsItsOwn(steps, t, init, before);
      NetOfLast(t, init, last);
      TaskStep(before, t, s0.threads[t].phase.slot, s0.names[s0.threads[t].phase.slot].value, last);
    }
  }

  lemma RunLast(steps: seq<Step>, step: Step, s: State) returns (before: State)
    requires Run(steps + [step]) == Some(s)
    ensures Run(steps) == Some(before) && InRange(before) && Enabled(before, step) && s == Apply(before, step)
  {
    assert (steps + [step])[..|steps|] == steps;
    before := Run(steps).value;
  }

  lemma TaskStep(s: State, t: nat, i: nat, name: string, step: Step)
    requires Within(s, t, i, name) && Enabled(s, step) && StaysIn(t, step)
    ensures Within(Apply(s, step), t, i, name) && Apply(s, step).live[i] == s.live[i] + NetOf(t, [step])
  {
    if !step.Spawn? && step.t == t {
      OwnStep(s, t, i, name, step);
    } else {
      OthersLeaveIt(s, t, i, name, step);
      assert [step][..0] == [];
    }
  }

  /** A task takes the first named slot that is free, and gives it its name; with none
      free its thread goes on counting where it did. */
  lemma ClaimTakesFirst(s: State, t: nat, name: string)
    requires InRange(s) && Enabled(s, Claim(t, name))
    ensures var s' := Apply(s, Claim(t, name)); var th := s'.threads[t];
      && s'.live == s.live && th.slot == s.threads[t].slot
      && (th.phase.Running? <==> forall i :: ANONYMOUS <= i < SLOTS ==> s.names[i].Some?)
      && (th.phase.Running? ==> s'.names == s.names)
      && (!th.phase.Running? ==>
            && th.phase.Claimed? && Named(th.phase.slot) && s.names[th.phase.slot] == None
            && s'.names == s.names[th.phase.slot := Some(name)]
            && forall i :: ANONYMOUS <= i < th.phase.slot ==> s.names[i].Some?)
  {
  }

  lemma EnteredIsEmpty(steps: seq<Step>, s: State, t: nat)
    requires Run(steps) == Some(s) && Enabled(s, Enter(t))
    ensures Inv(s)
    ensures var i := s.threads[t].phase.slot;
      Named(i) && s.names[i].Some? && Within(Apply(s, Enter(t)), t, i, s.names[i].value)
      && Apply(s, Enter(t)).live[i] == 0
  {
    RunInv(steps);
    StepInv(s, Enter(t));
    var th := s.threads[t];
    assert ThreadOk(th) && Emptied(th.phase, th.phase.slot);
    ClaimsUpdate(s.threads, t, th, th.phase.slot);
  }

  // ── The total as it is read ──

  /** `heap_bytes` loads the slots one after another; between two loads other threads
      go on. */
  datatype Move = Load | Other(step: Step)

  /** A read under way: the state, the next slot to load, and the total so far. */
  datatype Reading = Reading(s: State, at: nat, total: int)

  predicate CanMove(r: Reading, move: Move) {
    InRange(r.s) && if move.Load? then r.at < SLOTS else Enabled(r.s, move.step)
  }

  function Moved(r: Reading, move: Move): Reading
    requires CanMove(r, move)
  {
    if move.Load? then Reading(r.s, r.at + 1, r.total + r.s.live[r.at]) else r.(s := Apply(r.s, move.step))
  }

  /** Where a read comes to, if each of its moves can be made. */
  function Read(r: Reading, moves: seq<Move>): Option<Reading>
    decreases |moves|
  {
    if moves == [] then Some(r)
    else if CanMove(r, moves[0]) then Read(Moved(r, moves[0]), moves[1..])
    else None
  }

  /** The slot a step writes, and by how much. */
  function Change(s: State, step: Step): (nat, int)
    requires InRange(s) && Enabled(s, step)
  {
    match step
    case Alloc(t, size) => (s.threads[t].slot.value, size)
    case Dealloc(t, size) => (s.threads[t].slot.value, 0 - size)
    case Swap(t) =>
      var slot := s.threads[t].phase.guard.slot;
      (slot, -At(s.live, slot))
    case Fold(t) => (s.threads[t].phase.guard.before, s.threads[t].phase.left)
    case _ => (0, 0)
  }

  /** What a read sees of the steps that fall into it: those that write a slot not
      loaded yet. */
  function Seen(r: Reading, moves: seq<Move>): int
    requires Read(r, moves).Some?
    decreases |moves|
  {
    if moves == [] then 0
    else
      var rest := Seen(Moved(r, moves[0]), moves[1..]);
      if moves[0].Load? then rest
      else
        var (slot, d) := Change(r.s, moves[0].step);
        if r.at <= slot < SLOTS then d + rest else rest
  }

  lemma StepChanges(s: State, step: Step)
    requires InRange(s) && Enabled(s, step)
    ensures InRange(Apply(s, step))
    ensures Apply(s, step).live == Bump(s.live, Change(s, step).0, Change(s, step).1)
  {
    assert s.live[0 := s.live[0] + 0] == s.live;
  }

  lemma {:induction false} BumpTail(live: seq<int>, i: nat, d: int, at: nat)
    requires at <= |live|
    ensures Sum(Bump(live, i, d)[at..]) == Sum(live[at..]) + if at <= i < |live| then d else 0
  {
    if i < |live| {
      if at <= i {
        SumBump(live[at..], i - at, d);
        assert Bump(live, i, d)[at..] == Bump(live[at..], i - at, d);
      } else {
        assert Bump(live, i, d)[at..] == live[at..];
      }
    }
  }

  /** The total read is what the slots held when the read began, and what was written
      meanwhile to slots not loaded yet. */
  lemma {:induction false} ReadIs(r: Reading, moves: seq<Move>)
    requires InRange(r.s) && r.at <= SLOTS && Read(r, moves).Some?
    ensures var r' := Read(r, moves).value;
      InRange(r'.s) && r'.at <= SLOTS && r'.total + Sum(r'.s.live[r'.at..])
        == r.total + Sum(r.s.live[r.at..]) + Seen(r, moves)
    decreases |moves|
  {
    if moves != [] {
      var next := Moved(r, moves[0]);
      if moves[0].Load? {
        assert r.s.live[r.at..] == [r.s.live[r.at]] + r.s.live[r.at + 1..];
      } else {
        StepChanges(r.s, moves[0].step);
        BumpTail(r.s.live, Change(r.s, moves[0].step).0, Change(r.s, moves[0].step).1, r.at);
      }
      ReadIs(next, moves[1..]);
    }
  }

  /** A whole read, over any interleaving: bytes allocated minus bytes freed when it
      began, but for balances then being folded and for the steps it saw. */
  lemma WholeReadIs(steps: seq<Step>, s: State, moves: seq<Move>)
    requires Run(steps) == Some(s)
    requires Read(Reading(s, 0, 0), moves).Some? && Read(Reading(s, 0, 0), moves).value.at == SLOTS
    ensures Read(Reading(s, 0, 0), moves).value.total
      == s.gained - s.lost - AllInFlight(s.threads) + Seen(Reading(s, 0, 0), moves)
  {
    RunInv(steps);
    ReadIs(Reading(s, 0, 0), moves);
    assert s.live[0..] == s.live;
  }

  // ── Reads without a fold, and across one ──

  predicate Folds(move: Move) {
    move.Other? && (move.step.Swap? || move.step.Fold?)
  }

  /** Without a fold, what a read sees is bytes allocated and freed while it ran. */
  lemma {:induction false} SeenWithoutFolds(r: Reading, moves: seq<Move>)
    requires Read(r, moves).Some? && forall i :: 0 <= i < |moves| ==> !Folds(moves[i])
    ensures var s' := Read(r, moves).value.s;
      s'.gained >= r.s.gained && s'.lost >= r.s.lost && r.s.lost - s'.lost <= Seen(r, moves) <= s'.gained - r.s.gained
    decreases |moves|
  {
    if moves != [] {
      assert !Folds(moves[0]);
      SeenWithoutFolds(Moved(r, moves[0]), moves[1..]);
    }
  }

  /** So a whole read that no fold falls into, from the first step of one to the
      last, misses nothing: it is off by no more than was allocated or freed while
      it ran, and by nothing if nothing was. */
  lemma ReadWithoutFolds(steps: seq<Step>, s: State, moves: seq<Move>)
    requires Run(steps) == Some(s) && NoFold(s.threads)
    requires Read(Reading(s, 0, 0), moves).Some? && Read(Reading(s, 0, 0), moves).value.at == SLOTS
    requires forall i :: 0 <= i < |moves| ==> !Folds(moves[i])
    ensures var r := Read(Reading(s, 0, 0), moves).value;
      s.gained - s.lost - (r.s.lost - s.lost) <= r.total <= s.gained - s.lost + (r.s.gained - s.gained)
  {
    WholeReadIs(steps, s, moves);
    NoneInFlight(s.threads);
    SeenWithoutFolds(Reading(s, 0, 0), moves);
  }

  function Loads(n: nat): seq<Move> {
    if n == 0 then [] else [Load] + Loads(n - 1)
  }

  /** A whole read that thread `t`'s fold falls into, between the fold's two slots. */
  function Across(t: nat, g: Guard): seq<Move>
    requires g.slot < SLOTS && g.before < SLOTS
  {
    var first := if g.before < g.slot then g.before else g.slot;
    Loads(first + 1) + [Other(Swap(t)), Other(Fold(t))] + Loads(SLOTS - first - 1)
  }

  lemma {:induction false} ReadConcat(r: Reading, a: seq<Move>, b: seq<Move>)
    requires Read(r, a).Some?
    ensures Read(r, a + b) == Read(Read(r, a).value, b)
    ensures Read(r, a + b).Some? ==> Seen(r, a + b) == Seen(r, a) + Seen(Read(r, a).value, b)
    decreases |a|
  {
    if a == [] {
      assert a + b == b;
    } else {
      assert (a + b)[1..] == a[1..] + b;
      ReadConcat(Moved(r, a[0]), a[1..], b);
    }
  }

  lemma {:induction false} LoadsRead(r: Reading, n: nat)
    requires InRange(r.s) && r.at + n <= SLOTS
    ensures Read(r, Loads(n)).Some? && Seen(r, Loads(n)) == 0
    ensures Read(r, Loads(n)).value.s == r.s && Read(r, Loads(n)).value.at == r.at + n
    decreases n
  {
    if n > 0 {
      LoadsRead(Moved(r, Load), n - 1);
      assert Loads(n)[1..] == Loads(n - 1);
    }
  }

  /** A fold while a read stands between the fold's two slots: the balance is missed
      if the slot it goes to is loaded already, and seen twice if the slot it comes
      from is. */
  lemma FoldSeen(r: Reading, t: nat, g: Guard) returns (r': Reading)
    requires InRange(r.s) && t < |r.s.threads| && r.s.threads[t].phase == Leaving(g)
    requires g.before < r.at <= g.slot < SLOTS || g.slot < r.at <= g.before < SLOTS
    ensures Read(r, [Other(Swap(t)), Other(Fold(t))]) == Some(r')
    ensures InRange(r'.s) && r'.at == r.at && r'.s.gained == r.s.gained && r'.s.lost == r.s.lost
    ensures Seen(r, [Other(Swap(t)), Other(Fold(t))])
      == if g.before < g.slot then -r.s.live[g.slot] else r.s.live[g.slot]
  {
    var fold := [Other(Swap(t)), Other(Fold(t))];
    var r1 := Moved(r, fold[0]);
    StepChanges(r.s, Swap(t));
    assert fold[1..] == [Other(Fold(t))] && fold[1..][1..] == [];
    StepChanges(r1.s, Fold(t));
    r' := Moved(r1, fold[1]);
    assert Read(r1, fold[1..]) == Some(r');
    assert Seen(r', fold[1..][1..]) == 0;
  }

  lemma ReadAround(r0: Reading, n: nat, fold: seq<Move>, r1: Reading, r2: Reading, rest: nat)
    requires InRange(r0.s) && r0.at + n <= SLOTS && Read(r0, Loads(n)) == Some(r1)
    requires Read(r1, fold) == Some(r2) && InRange(r2.s) && r2.at + rest == SLOTS
    ensures var r := Read(r0, Loads(n) + fold + Loads(rest));
      && r.Some? && r.value.at == SLOTS && r.value.s == r2.s
      && Seen(r0, Loads(n) + fold + Loads(rest)) == Seen(r1, fold)
  {
    LoadsRead(r0, n);
    ReadConcat(r0, Loads(n), fold);
    LoadsRead(r2, rest);
    ReadConcat(r0, Loads(n) + fold, Loads(rest));
  }

  lemma AcrossIsRead(s: State, t: nat, g: Guard)
    requires InRange(s) && t < |s.threads| && s.threads[t].phase == Leaving(g)
    requires g.slot < SLOTS && g.before < SLOTS && g.slot != g.before
    ensures var r := Read(Reading(s, 0, 0), Across(t, g));
      && r.Some? && r.value.at == SLOTS && r.value.s.gained == s.gained && r.value.s.lost == s.lost
      && Seen(Reading(s, 0, 0), Across(t, g)) == if g.before < g.slot then -s.live[g.slot] else s.live[g.slot]
  {
    var first := if g.before < g.slot then g.before else g.slot;
    var start := Reading(s, 0, 0);
    LoadsRead(start, first + 1);
    var r1 := Read(start, Loads(first + 1)).value;
    var r2 := FoldSeen(r1, t, g);
    ReadAround(start, first + 1, [Other(Swap(t)), Other(Fold(t))], r1, r2, SLOTS - first - 1);
  }

  /** A whole read that answers `total`, nothing being allocated or freed meanwhile. */
  predicate Answers(s: State, moves: seq<Move>, total: int) {
    var r := Read(Reading(s, 0, 0), moves);
    r.Some? && r.value.at == SLOTS && r.value.total == total
    && r.value.s.gained == s.gained && r.value.s.lost == s.lost
  }

  /** Wherever a thread is about to fold a task's balance back, there is a whole read
      with nothing allocated or freed in it that is wrong by that balance. */
  lemma FoldIsMisread(steps: seq<Step>, s: State, t: nat)
    requires Run(steps) == Some(s) && t < |s.threads| && s.threads[t].phase.Leaving?
    ensures var g := s.threads[t].phase.guard;
      && g.slot < SLOTS && g.before < SLOTS && g.slot != g.before && |s.live| == SLOTS
      && Answers(s, Across(t, g), s.gained - s.lost - AllInFlight(s.threads)
                                    + if g.before < g.slot then -s.live[g.slot] else s.live[g.slot])
  {
    RunInv(steps);
    var g := s.threads[t].phase.guard;
    assert ThreadOk(s.threads[t]);
    CurrentInRange(s.threads[t].guards, g.before);
    AcrossIsRead(s, t, g);
    WholeReadIs(steps, s, Across(t, g));
  }

  // ── A read that misses all there is ──

  /** A thread's task allocates a byte and ends. */
  const ONE_BYTE: seq<Step> := [Spawn, Assign(0), Claim(0, "task"), Enter(0), Alloc(0, 1), Leave(0)]

  lemma {:induction false} FirstFreeIs(names: seq<Option<string>>, i: nat)
    requires i < |names| && names[i].None?
    ensures FirstFree(names, i) == i
  {
  }

  lemma RunNext(steps: seq<Step>, n: nat, s: State)
    requires n < |steps| && Run(steps[..n]) == Some(s) && InRange(s) && Enabled(s, steps[n])
    ensures Run(steps[..n + 1]) == Some(Apply(s, steps[n]))
  {
    assert steps[..n + 1][..n] == steps[..n];
  }

  lemma OneByteAssigns()
    ensures Run(ONE_BYTE[..2])
      == Some(State(Repeat(0, SLOTS), Repeat(None, SLOTS), 1, [Thread(Some(0), [], Running)], 0, 0))
  {
    RunNext(ONE_BYTE, 0, Start());
    var s := Apply(Start(), Spawn);
    assert s.threads == [Thread(None, [], Running)];
    RunNext(ONE_BYTE, 1, s);
    assert s.threads[0 := Thread(Some(0), [], Running)] == [Thread(Some(0), [], Running)];
  }

  lemma OneByteClaims() returns (s: State)
    ensures Run(ONE_BYTE[..3]) == Some(s) && s.live == Repeat(0, SLOTS) && |s.names| == SLOTS
    ensures s.gained == 0 && s.lost == 0 && s.threads == [Thread(Some(0), [], Claimed(ANONYMOUS, 0))]
  {
    OneByteAssigns();
    s := Run(ONE_BYTE[..2]).value;
    RunNext(ONE_BYTE, 2, s);
    FirstFreeIs(s.names, ANONYMOUS);
    s := Apply(s, Claim(0, "task"));
  }

  lemma OneByteEnters() returns (s: State)
    ensures Run(ONE_BYTE[..4]) == Some(s) && s.live == Repeat(0, SLOTS) && |s.names| == SLOTS
    ensures s.gained == 0 && s.lost == 0
    ensures s.threads == [Thread(Some(ANONYMOUS), [Guard(ANONYMOUS, 0)], Running)]
  {
    s := OneByteClaims();
    RunNext(ONE_BYTE, 3, s);
    assert [] + [Guard(ANONYMOUS, 0)] == [Guard(ANONYMOUS, 0)];
    s := Apply(s, Enter(0));
  }

  lemma OneByteRuns() returns (s: State)
    ensures Run(ONE_BYTE) == Some(s) && |s.live| == SLOTS && s.live[ANONYMOUS] == 1
    ensures s.gained == 1 && s.lost == 0
    ensures s.threads == [Thread(Some(0), [], Leaving(Guard(ANONYMOUS, 0)))]
  {
    s := OneByteEnters();
    RunNext(ONE_BYTE, 4, s);
    s := Apply(s, Alloc(0, 1));
    RunNext(ONE_BYTE, 5, s);
    s := Apply(s, Leave(0));
    assert ONE_BYTE[..6] == ONE_BYTE;
  }

  /** One byte is allocated and not freed, and a read answers that there is none. */
  lemma FoldEscapes()
    ensures Run(ONE_BYTE).Some?
    ensures var s := Run(ONE_BYTE).value;
      && s.gained - s.lost == 1 && NoFold(s.threads)
      && Answers(s, Across(0, Guard(ANONYMOUS, 0)), 0)
  {
    var s := OneByteRuns();
    FoldIsMisread(ONE_BYTE, s, 0);
    NoneInFlight(s.threads);
  }
}
