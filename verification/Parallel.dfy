/** `parallel_apply`: a list cut into chunks, each run by a worker, answering what
    one loop over the list would. */
module Parallel {

  /** What one call of the kernel comes to. */
  datatype Call<V, E> = Value(v: V) | Fail(e: E) | Panic

  datatype Answer<V, E> = Ok(values: seq<V>) | Err(error: E) | Panicked

  /** A worker's answer for its chunk: an error comes with the index it stands
      for in the whole list, a panic with the largest index there is. */
  datatype Joined<V, E> = Done(values: seq<V>) | Stopped(index: nat, cause: Answer<V, E>)

  const USIZE_MAX: nat := 0xFFFF_FFFF_FFFF_FFFF

  /** One loop over the list, which the first item not to answer ends. */
  function Sequential<T, V, E>(items: seq<T>, f: T -> Call<V, E>): Answer<V, E> {
    if items == [] then Ok([])
    else
      match f(items[0])
      case Fail(e) => Err(e)
      case Panic => Panicked
      case Value(v) =>
        match Sequential(items[1..], f)
        case Ok(vs) => Ok([v] + vs)
        case Err(e) => Err(e)
        case Panicked => Panicked
  }

  /** One answer, then another: what stops the first stops both. */
  function Then<V, E>(a: Answer<V, E>, b: Answer<V, E>): Answer<V, E> {
    if !a.Ok? then a else if !b.Ok? then b else Ok(a.values + b.values)
  }

  /** The loop answers every item's value in order, or stops at the first item that has
      none, as that item does. */
  lemma {:induction false} SequentialIs<T, V, E>(items: seq<T>, f: T -> Call<V, E>)
    ensures Sequential(items, f).Ok? ==>
      |Sequential(items, f).values| == |items|
      && forall i :: 0 <= i < |items| ==> f(items[i]) == Value(Sequential(items, f).values[i])
    ensures !Sequential(items, f).Ok? ==>
      exists i :: 0 <= i < |items| && !f(items[i]).Value? && (forall j :: 0 <= j < i ==> f(items[j]).Value?)
        && Sequential(items, f) == if f(items[i]).Fail? then Err(f(items[i]).e) else Panicked
  {
    if items != [] && f(items[0]).Value? {
      SequentialIs(items[1..], f);
      if !Sequential(items, f).Ok? {
        var rest := items[1..];
        var i :| 0 <= i < |rest| && !f(rest[i]).Value? && (forall j :: 0 <= j < i ==> f(rest[j]).Value?)
          && Sequential(rest, f) == if f(rest[i]).Fail? then Err(f(rest[i]).e) else Panicked;
        assert f(items[i + 1]) == f(rest[i]);
        forall j | 0 <= j < i + 1 ensures f(items[j]).Value? {
          assert j > 0 ==> items[j] == rest[j - 1];
        }
      }
    }
  }

  lemma {:induction false} SequentialConcat<T, V, E>(a: seq<T>, b: seq<T>, f: T -> Call<V, E>)
    ensures Sequential(a + b, f) == Then(Sequential(a, f), Sequential(b, f))
  {
    if a == [] {
      assert a + b == b;
      if Sequential(b, f).Ok? {
        assert [] + Sequential(b, f).values == Sequential(b, f).values;
      }
    } else {
      assert (a + b)[0] == a[0] && (a + b)[1..] == a[1..] + b;
      if f(a[0]).Value? {
        SequentialConcat(a[1..], b, f);
        if Sequential(a[1..], f).Ok? && Sequential(b, f).Ok? {
          Reassociate([f(a[0]).v], Sequential(a[1..], f).values, Sequential(b, f).values);
        }
      }
    }
  }

  lemma Reassociate<V>(x: seq<V>, y: seq<V>, z: seq<V>)
    ensures x + (y + z) == (x + y) + z
  {
  }

  /** What is right for the chunk `[lo, hi)`: its values, or where and why it
      stopped. */
  ghost predicate RightFor<T, V, E>(j: Joined<V, E>, items: seq<T>, lo: nat, hi: nat, f: T -> Call<V, E>)
    requires lo <= hi <= |items|
  {
    match Sequential(items[lo..hi], f)
    case Ok(vs) => j == Done(vs)
    case Err(e) => j.Stopped? && j.cause == Err(e) && lo <= j.index < hi
    case Panicked => j == Stopped(USIZE_MAX, Panicked)
  }

  /** One worker: the whole chunk through the native tier when that takes it (an
      error then stands at the chunk's start), else item by item. */
  method RunChunk<T, V, E>(items: seq<T>, lo: nat, hi: nat, f: T -> Call<V, E>, native: bool)
    returns (j: Joined<V, E>)
    requires lo < hi <= |items|
    ensures RightFor(j, items, lo, hi, f)
    ensures j.Stopped? && j.cause.Err? && native ==> j.index == lo
    ensures j.Stopped? && j.cause.Err? && !native ==>
      lo <= j.index < hi && Sequential(items[lo..j.index], f).Ok? && f(items[j.index]) == Fail(j.cause.error)
  {
    if native {
      var all := Sequential(items[lo..hi], f);
      return match all
        case Ok(vs) => Done(vs)
        case Err(e) => Stopped(lo, Err(e))
        case Panicked => Stopped(USIZE_MAX, Panicked);
    }
    var out: seq<V> := [];
    for i := lo to hi
      invariant Sequential(items[lo..i], f) == Ok(out)
    {
      var rest := items[i..hi];
      assert items[lo..hi] == items[lo..i] + rest;
      assert items[lo..i + 1] == items[lo..i] + [items[i]];
      SequentialConcat(items[lo..i], rest, f);
      SequentialConcat(items[lo..i], [items[i]], f);
      match f(items[i])
      case Value(v) => out := out + [v];
      case Fail(e) => return Stopped(i, Err(e));
      case Panic => return Stopped(USIZE_MAX, Panicked);
    }
    j := Done(out);
  }

  function Clamp(x: nat, lo: nat, hi: nat): nat {
    if x < lo then lo else if x > hi then hi else x
  }

  function DivCeil(a: nat, b: nat): (q: nat)
    requires b > 0
    ensures a > 0 ==> q > 0
  {
    if a % b == 0 then a / b else a / b + 1
  }

  /** Where each chunk begins, and the end. */
  ghost predicate Bounds(bounds: seq<nat>, size: nat, total: nat) {
    && |bounds| > 0
    && bounds[0] == 0
    && (forall c :: 0 <= c < |bounds| ==> bounds[c] <= total)
    && (forall c :: 0 <= c < |bounds| - 1 ==>
          bounds[c] < bounds[c + 1] == if bounds[c] + size < total then bounds[c] + size else total)
  }

  /** `parallel_apply`: whatever the settings and whichever chunks the native
      tier takes, the sequential loop's answer, where that loop answers. */
  method ParallelApply<T, V, E>(items: seq<T>, f: T -> Call<V, E>, enabled: bool, maxThreads: nat, native: nat -> bool)
    returns (r: Answer<V, E>)
    requires |items| <= USIZE_MAX / 2
    ensures !Sequential(items, f).Panicked? ==> r == Sequential(items, f)
    ensures Sequential(items, f).Panicked? ==> !r.Ok?
  {
    if items == [] {
      return Ok([]);
    }
    var workers := if enabled then Clamp(maxThreads, 1, |items|) else 1;
    if workers > 1 {
      var size := DivCeil(|items|, workers);
      var joined: seq<Joined<V, E>>;
      ghost var bounds;
      joined, bounds := RunChunks(items, size, f, native);
      r := Collect(items, size, f, joined, bounds);
      return;
    }
    var out: seq<V> := [];
    for i := 0 to |items|
      invariant Sequential(items[..i], f) == Ok(out)
    {
      assert items == items[..i] + items[i..];
      assert items[..i + 1] == items[..i] + [items[i]];
      SequentialConcat(items[..i], items[i..], f);
      SequentialConcat(items[..i], [items[i]], f);
      match f(items[i])
      case Value(v) => out := out + [v];
      case Fail(e) => return Err(e);
      case Panic => return Panicked;
    }
    assert items[..|items|] == items;
    r := Ok(out);
  }

  /** Every chunk's answer is right for it. */
  ghost predicate AllRight<T, V, E>(joined: seq<Joined<V, E>>, items: seq<T>, bounds: seq<nat>, f: T -> Call<V, E>) {
    && |bounds| == |joined| + 1
    && forall c: nat {:trigger RightAt(joined, items, bounds, f, c)} :: c < |joined| ==>
         RightAt(joined, items, bounds, f, c)
  }

  ghost predicate RightAt<T, V, E>(joined: seq<Joined<V, E>>, items: seq<T>, bounds: seq<nat>, f: T -> Call<V, E>,
                                   c: nat)
    requires |bounds| == |joined| + 1 && c < |joined|
  {
    bounds[c] <= bounds[c + 1] <= |items| && RightFor(joined[c], items, bounds[c], bounds[c + 1], f)
  }

  lemma OneMoreBound(bounds: seq<nat>, size: nat, total: nat, hi: nat)
    requires Bounds(bounds, size, total) && bounds[|bounds| - 1] < total
    requires hi == if bounds[|bounds| - 1] + size < total then bounds[|bounds| - 1] + size else total
    requires size > 0
    ensures Bounds(bounds + [hi], size, total)
  {
  }

  lemma OneMoreRight<T, V, E>(joined: seq<Joined<V, E>>, items: seq<T>, bounds: seq<nat>, f: T -> Call<V, E>,
                              j: Joined<V, E>, hi: nat)
    requires AllRight(joined, items, bounds, f) && bounds[|joined|] <= hi <= |items|
    requires RightFor(j, items, bounds[|joined|], hi, f)
    ensures AllRight(joined + [j], items, bounds + [hi], f)
  {
    forall c: nat | c < |joined| + 1 ensures RightAt(joined + [j], items, bounds + [hi], f, c) {
      if c < |joined| {
        assert RightAt(joined, items, bounds, f, c);
      }
    }
  }

  method RunChunks<T, V, E>(items: seq<T>, size: nat, f: T -> Call<V, E>, native: nat -> bool)
    returns (joined: seq<Joined<V, E>>, ghost bounds: seq<nat>)
    requires size > 0
    ensures Bounds(bounds, size, |items|) && bounds[|bounds| - 1] == |items| && |joined| == |bounds| - 1
    ensures AllRight(joined, items, bounds, f)
  {
    var lo := 0;
    joined, bounds := [], [0];
    while lo < |items|
      invariant Bounds(bounds, size, |items|) && bounds[|bounds| - 1] == lo && |joined| == |bounds| - 1
      invariant AllRight(joined, items, bounds, f)
      decreases |items| - lo
    {
      var hi := if lo + size < |items| then lo + size else |items|;
      var j := RunChunk(items, lo, hi, f, native(|joined|));
      OneMoreRight(joined, items, bounds, f, j, hi);
      OneMoreBound(bounds, size, |items|, hi);
      joined, bounds := joined + [j], bounds + [hi];
      lo := hi;
    }
  }

  /** The chunks put together in order: the error of the lowest index, if any. */
  method Collect<T, V, E>(items: seq<T>, size: nat, f: T -> Call<V, E>,
                          joined: seq<Joined<V, E>>, ghost bounds: seq<nat>) returns (r: Answer<V, E>)
    requires |items| <= USIZE_MAX / 2
    requires Bounds(bounds, size, |items|) && bounds[|bounds| - 1] == |items| && |joined| == |bounds| - 1
    requires AllRight(joined, items, bounds, f)
    ensures !Sequential(items, f).Panicked? ==> r == Sequential(items, f)
    ensures Sequential(items, f).Panicked? ==> !r.Ok?
  {
    var values: seq<V> := [];
    var stopped := false;
    var first: (nat, Answer<V, E>) := (0, Panicked);
    for c := 0 to |joined|
      invariant stopped ==> !first.1.Ok?
      invariant !stopped ==> Sequential(items[..bounds[c]], f) == Ok(values)
      invariant stopped ==> !Sequential(items[..bounds[c]], f).Ok?
      invariant stopped && Sequential(items[..bounds[c]], f).Err? ==>
        first.0 < bounds[c] && first.1 == Sequential(items[..bounds[c]], f)
    {
      assert RightAt(joined, items, bounds, f, c);
      assert items[..bounds[c + 1]] == items[..bounds[c]] + items[bounds[c]..bounds[c + 1]];
      SequentialConcat(items[..bounds[c]], items[bounds[c]..bounds[c + 1]], f);
      match joined[c]
      case Done(vs) => values := values + vs;
      case Stopped(index, cause) =>
        if !stopped || index < first.0 {
          first := (index, cause);
        }
        stopped := true;
    }
    assert items[..|items|] == items;
    r := if stopped then first.1 else Ok(values);
  }

  // ── Filtering ──

  /** The sequential filter: an item is kept when its verdict is `true`. */
  function Filter<T, V, E>(items: seq<T>, f: T -> Call<V, E>, isTrue: V -> bool): Answer<T, E> {
    if items == [] then Ok([])
    else
      match f(items[0])
      case Fail(e) => Err(e)
      case Panic => Panicked
      case Value(v) =>
        match Filter(items[1..], f, isTrue)
        case Ok(kept) => Ok(if isTrue(v) then [items[0]] + kept else kept)
        case Err(e) => Err(e)
        case Panicked => Panicked
  }

  /** The items zipped with their verdicts, those with `true` kept. */
  function Kept<T, V>(items: seq<T>, verdicts: seq<V>, isTrue: V -> bool): seq<T> {
    if items == [] || verdicts == [] then []
    else
      var rest := Kept(items[1..], verdicts[1..], isTrue);
      if isTrue(verdicts[0]) then [items[0]] + rest else rest
  }

  function Chosen<T, V, E>(items: seq<T>, verdicts: Answer<V, E>, isTrue: V -> bool): Answer<T, E> {
    match verdicts
    case Ok(vs) => Ok(Kept(items, vs, isTrue))
    case Err(e) => Err(e)
    case Panicked => Panicked
  }

  lemma {:induction false} FilterIsKept<T, V, E>(items: seq<T>, f: T -> Call<V, E>, isTrue: V -> bool)
    ensures Filter(items, f, isTrue) == Chosen(items, Sequential(items, f), isTrue)
  {
    if items != [] {
      FilterIsKept(items[1..], f, isTrue);
      if f(items[0]).Value? && Sequential(items[1..], f).Ok? {
        assert Sequential(items, f).values[1..] == Sequential(items[1..], f).values;
      }
    }
  }

  method ParFilter<T, V, E>(items: seq<T>, f: T -> Call<V, E>, isTrue: V -> bool,
                            enabled: bool, maxThreads: nat, native: nat -> bool)
    returns (r: Answer<T, E>)
    requires |items| <= USIZE_MAX / 2
    ensures !Filter(items, f, isTrue).Panicked? ==> r == Filter(items, f, isTrue)
  {
    FilterIsKept(items, f, isTrue);
    var verdicts := ParallelApply(items, f, enabled, maxThreads, native);
    r := Chosen(items, verdicts, isTrue);
  }
}
