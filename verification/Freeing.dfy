/** Dropping a value: what it alone holds is freed by recursion down to a fixed
    depth, and past that queued for the outermost drop to free. What is left to
    free is a number, and every step of the drain makes it smaller. */
module Freeing {
  import opened Heap

  const FREE_DEPTH: nat := 64

  /** Whether dropping `v` would free children of its own. */
  predicate Owns(h: Cells, v: Value) {
    match v
    case Unit => false
    case Scalar(_) => false
    case Boxed(_, inner) => inner.Boxed? || inner.Shared?
    case Shared(id) =>
      && id in h
      && h[id].count == 1
      && (if h[id].kind.Enum? then h[id].kind.filled else h[id].items != [])
  }

  /** Whether a drop sees that it does. What a closure captured it does not see, nor
      a closure in a box. */
  predicate OwnsNested(h: Cells, v: Value) {
    && Owns(h, v)
    && (v.Shared? ==> !h[v.id].kind.Closure?)
    && (v.Boxed? && v.inner.Shared? && v.inner.id in h ==> !h[v.inner.id].kind.Closure?)
  }

  /** A value with nothing left to free but its own cell or box. */
  predicate Spent(h: Cells, v: Value) {
    && !Owns(h, v)
    && (v.Boxed? || (v.Shared? && v.id in h && h[v.id].count == 1 && h[v.id].items == []))
  }

  ghost predicate AllOwn(h: Cells, vs: seq<Value>) {
    forall k {:trigger vs[k]} :: 0 <= k < |vs| ==> OwnsNested(h, vs[k])
  }

  /** The holds on a cell beyond those of the heap and of the queue. */
  ghost function Spare(h: Cells, queue: seq<Value>, id: nat): int {
    Outside(h, id) - HoldsAll(queue, id)
  }

  /** The state between steps: every hold counted, and every queued value owning
      what it held when it was queued. */
  ghost predicate Sound(h: Cells, queue: seq<Value>) {
    && Coherent(h)
    && AllOwn(h, queue)
    && forall id {:trigger Spare(h, queue, id)} :: Spare(h, queue, id) >= 0
  }

  /** `v` is held outside the heap and the queue. */
  ghost predicate Held(h: Cells, queue: seq<Value>, v: Value) {
    forall id {:trigger Spare(h, queue, id)} :: Holds(v, id) <= Spare(h, queue, id)
  }

  /** Between the two states, `v`'s holds were given up and `w`'s taken, and no
      other. */
  ghost predicate Traded(h: Cells, queue: seq<Value>, h': Cells, queue': seq<Value>, v: Value, w: Value) {
    forall id {:trigger Spare(h', queue', id)} ::
      Spare(h', queue', id) == Spare(h, queue, id) - Holds(v, id) + Holds(w, id)
  }

  /** What is left to free: cells, and boxes wherever they are. */
  ghost function Mass(h: Cells, queue: seq<Value>, v: Value): nat {
    |h| + Refs(h, Box) + CountAll(queue, Box) + Count(v, Box)
  }

  /** Between `h` and `h'` cells only went, each given back exactly once. */
  ghost predicate Gave(h: Cells, h': Cells, freed: multiset<nat>, freed': multiset<nat>) {
    && (forall id {:trigger id in h'} :: id in h' ==> id in h)
    && (forall id {:trigger freed'[id]} :: freed'[id] == freed[id] + (if id in h && id !in h' then 1 else 0))
  }

  lemma GaveThen(h0: Cells, h1: Cells, h2: Cells, f0: multiset<nat>, f1: multiset<nat>, f2: multiset<nat>)
    requires Gave(h0, h1, f0, f1) && Gave(h1, h2, f1, f2)
    ensures Gave(h0, h2, f0, f2)
  {
    forall id ensures f2[id] == f0[id] + (if id in h0 && id !in h2 then 1 else 0) {
      assert f1[id] == f0[id] + (if id in h0 && id !in h1 then 1 else 0);
    }
  }

  lemma ShrunkThen(h0: Cells, h1: Cells, h2: Cells)
    requires Shrunk(h0, h1) && Shrunk(h1, h2)
    ensures Shrunk(h0, h2)
  {
    forall id | id in h2
      ensures id in h0 && h2[id].count <= h0[id].count && SameContents(h0[id], h2[id])
    {
      assert SameContents(h0[id], h1[id]);
    }
  }

  /** One or more steps: `v`'s holds traded for `w`'s, and cells only gone. */
  ghost predicate Stepped(h: Cells, queue: seq<Value>, freed: multiset<nat>, v: Value,
                          h': Cells, queue': seq<Value>, freed': multiset<nat>, w: Value)
  {
    && Traded(h, queue, h', queue', v, w)
    && Shrunk(h, h')
    && Gave(h, h', freed, freed')
  }

  lemma SteppedThen(h0: Cells, q0: seq<Value>, f0: multiset<nat>, u: Value,
                    h1: Cells, q1: seq<Value>, f1: multiset<nat>, v: Value,
                    h2: Cells, q2: seq<Value>, f2: multiset<nat>, w: Value)
    requires Stepped(h0, q0, f0, u, h1, q1, f1, v) && Stepped(h1, q1, f1, v, h2, q2, f2, w)
    ensures Stepped(h0, q0, f0, u, h2, q2, f2, w)
  {
    forall id ensures Spare(h2, q2, id) == Spare(h0, q0, id) - Holds(u, id) + Holds(w, id) {
      assert Spare(h1, q1, id) == Spare(h0, q0, id) - Holds(u, id) + Holds(v, id);
    }
    GaveThen(h0, h1, h2, f0, f1, f2);
  }

  /** What is still held keeps its cell, and the cell what it holds. */
  lemma SpentStays(h: Cells, queue: seq<Value>, h': Cells, queue': seq<Value>, v: Value)
    requires Spent(h, v) && Shrunk(h, h') && Coherent(h')
    requires Sound(h', queue') && Held(h', queue', v)
    ensures Spent(h', v)
  {
    if v.Shared? {
      assert Holds(v, v.id) <= Spare(h', queue', v.id);
      assert Outside(h', v.id) >= 1;
    }
  }

  function Emptied(c: Cell): Cell {
    c.(kind := if c.kind.Enum? then Enum(false) else c.kind, keys := [], items := [])
  }

  /** A cell that emptying would change. */
  predicate Full(c: Cell) {
    c.items != [] || c.keys != [] || c.kind == Enum(true)
  }

  ghost function FullCells(h: Cells): set<nat> {
    set id | id in h && Full(h[id])
  }

  /** How many cells hold something still. */
  ghost function Loaded(h: Cells): nat {
    |FullCells(h)|
  }

  lemma SmallerSet(a: set<nat>, b: set<nat>)
    requires a <= b
    ensures |a| <= |b| && (a != b ==> |a| < |b|)
  {
    assert b == a + (b - a);
    if a != b {
      assert b - a != {};
    }
  }

  function Max(a: nat, b: nat): nat { if a < b then b else a }

  ghost function FullClosures(h: Cells): set<nat> {
    set id | id in FullCells(h) && h[id].kind.Closure?
  }

  /** How many closures hold something still. */
  ghost function Closures(h: Cells): nat {
    |FullClosures(h)|
  }

  /** How many of them there are but for `v`. */
  ghost function Room(h: Cells, v: Value): nat {
    if v.Shared? then |FullClosures(h) - {v.id}| else Closures(h)
  }

  lemma LoadedShrinks(h: Cells, h': Cells)
    requires Shrunk(h, h')
    ensures Loaded(h') <= Loaded(h) && Closures(h') <= Closures(h)
  {
    forall id | id in FullCells(h') ensures id in FullCells(h) && h'[id].kind == h[id].kind {
      assert SameContents(h[id], h'[id]);
    }
    SmallerSet(FullCells(h'), FullCells(h));
    SmallerSet(FullClosures(h'), FullClosures(h));
  }

  /** The closures that held something and are gone. */
  ghost function ClosuresGone(h: Cells, h': Cells): set<nat> {
    set id | id in FullClosures(h) && id !in h'
  }

  lemma GoneIsCounted(h: Cells, h': Cells)
    requires Shrunk(h, h')
    ensures |ClosuresGone(h, h')| == Closures(h) - Closures(h')
  {
    forall id | id in h' && id in FullClosures(h) ensures id in FullClosures(h') {
      assert SameContents(h[id], h'[id]);
    }
    forall id | id in FullClosures(h') ensures id in FullClosures(h) {
      assert SameContents(h[id], h'[id]);
    }
    assert FullClosures(h) == FullClosures(h') + ClosuresGone(h, h');
  }

  lemma LoadedEmptied(h: Cells, id: nat)
    requires Owns(h, Shared(id))
    ensures var h' := h[id := Emptied(h[id])];
      Loaded(h') < Loaded(h) && Closures(h') <= Room(h, Shared(id)) <= Closures(h)
  {
    var h' := h[id := Emptied(h[id])];
    assert id in FullCells(h) && id !in FullCells(h');
    SmallerSet(FullCells(h'), FullCells(h));
    SmallerSet(FullClosures(h'), FullClosures(h) - {id});
    SmallerSet(FullClosures(h) - {id}, FullClosures(h));
  }

  lemma RoomForClosure(h: Cells, id: nat)
    requires id in FullClosures(h)
    ensures Room(h, Shared(id)) == Closures(h) - 1
  {
  }

  // ── Closures that hold closures ──

  /** `n` closures, each the only holder of the next, `v` holding the first. */
  ghost predicate Tower(h: Cells, v: Value, n: nat)
    decreases n
  {
    n > 0 ==>
      && v.Shared? && v.id in h && h[v.id].kind.Closure? && h[v.id].count == 1
      && exists k {:trigger h[v.id].items[k]} :: 0 <= k < |h[v.id].items| && Tower(h, h[v.id].items[k], n - 1)
  }

  /** No tower under `v` is higher. */
  ghost predicate Tops(h: Cells, v: Value, top: nat) {
    forall n: nat {:trigger Tower(h, v, n)} :: Tower(h, v, n) ==> n <= top
  }

  ghost predicate TopsAll(h: Cells, vs: seq<Value>, top: nat) {
    forall k {:trigger vs[k]} :: 0 <= k < |vs| ==> Tops(h, vs[k], top)
  }

  /** The cell `v` names, if it names one, is among `ids`. */
  predicate Among(v: Value, ids: set<nat>) {
    v.Shared? ==> v.id in ids
  }

  ghost predicate Alike(h: Cells, h': Cells, ids: set<nat>) {
    forall id {:trigger h[id]} :: id in ids && id in h && h[id].count == 1 ==>
      && id in h' && h'[id].count == 1 && SameContents(h[id], h'[id])
      && forall k {:trigger h[id].items[k]} :: 0 <= k < |h[id].items| ==> Among(h[id].items[k], ids)
  }

  /** A tower stands where all its cells are as they were. */
  lemma {:induction false} TowerStands(h: Cells, h': Cells, ids: set<nat>, v: Value, n: nat)
    requires Alike(h, h', ids) && Among(v, ids) && Tower(h, v, n)
    ensures Tower(h', v, n)
    decreases n
  {
    if n > 0 {
      var items := h[v.id].items;
      var k :| 0 <= k < |items| && Tower(h, items[k], n - 1);
      TowerStands(h, h', ids, items[k], n - 1);
    }
  }

  lemma ItemCounted(h: Cells, id: nat, k: nat, j: nat)
    requires Coherent(h) && id in h && k < |h[id].items| && h[id].items[k] == Shared(j)
    ensures j in h && Outside(h, j) < h[j].count
  {
    RefsAt(h, id, Hold(j));
    CountAllSplit(h[id].items, k, Hold(j));
    assert Outside(h, j) >= 0;
  }

  /** What is dropped elsewhere leaves a tower that somebody holds. */
  lemma TopsBefore(h: Cells, h': Cells, v: Value, top: nat)
    requires Coherent(h') && Shrunk(h, h') && Among(v, h'.Keys) && Tops(h', v, top)
    ensures Tops(h, v, top)
  {
    forall id | id in h'.Keys && id in h && h[id].count == 1
      ensures h'[id].count == 1 && SameContents(h[id], h'[id])
      ensures forall k :: 0 <= k < |h[id].items| ==> Among(h[id].items[k], h'.Keys)
    {
      assert CellOk(h'[id]);
      forall k | 0 <= k < |h[id].items| ensures Among(h[id].items[k], h'.Keys) {
        if h[id].items[k].Shared? {
          ItemCounted(h', id, k, h[id].items[k].id);
        }
      }
    }
    forall n: nat | Tower(h, v, n) ensures n <= top {
      TowerStands(h, h', h'.Keys, v, n);
    }
  }

  /** A closure is one more than what stands on it. */
  lemma TopsCell(h: Cells, id: nat, top: nat)
    requires Coherent(h) && id in h && Outside(h, id) >= h[id].count
    requires TopsAll(h[id := Emptied(h[id])], h[id].items, top)
    ensures Tops(h, Shared(id), top + 1)
  {
    var h', ids, items := h[id := Emptied(h[id])], h.Keys - {id}, h[id].items;
    forall j, k | j in h && 0 <= k < |h[j].items| ensures Among(h[j].items[k], ids) {
      if h[j].items[k].Shared? {
        ItemCounted(h, j, k, h[j].items[k].id);
      }
    }
    forall n: nat | Tower(h, Shared(id), n) ensures n <= top + 1 {
      if n > 0 {
        var k :| 0 <= k < |items| && Tower(h, items[k], n - 1);
        TowerStands(h, h', ids, items[k], n - 1);
        assert Tops(h', items[k], top);
      }
    }
  }

  /** What is held is there. */
  lemma HeldAmong(h: Cells, queue: seq<Value>, items: seq<Value>, v: Value, k: nat)
    requires Sound(h, queue) && HeldAll(h, queue, items, v) && k < |items|
    ensures Among(items[k], h.Keys)
  {
    if items[k].Shared? {
      var id := items[k].id;
      CountAllSplit(items, k, Hold(id));
      assert HoldsAll(items, id) + Holds(v, id) <= Spare(h, queue, id);
    }
  }

  lemma HeldAlone(h: Cells, queue: seq<Value>, id: nat)
    requires Sound(h, queue) && Held(h, queue, Shared(id)) && Owns(h, Shared(id))
    ensures Outside(h, id) >= h[id].count
  {
    assert Holds(Shared(id), id) <= Spare(h, queue, id);
  }

  lemma TopsItems(h: Cells, items: seq<Value>, h1: Cells, queue: seq<Value>, v: Value, first: nat, rest: nat)
    requires items != [] && Tops(h, items[0], first) && TopsAll(h1, items[1..], rest)
    requires Sound(h1, queue) && HeldAll(h1, queue, items[1..], v) && Shrunk(h, h1)
    ensures TopsAll(h, items, Max(first, rest))
  {
    forall k | 0 <= k < |items| ensures Tops(h, items[k], Max(first, rest)) {
      if k > 0 {
        assert items[1..][k - 1] == items[k];
        HeldAmong(h1, queue, items[1..], v, k - 1);
        TopsBefore(h, h1, items[k], rest);
      }
    }
  }

  /** Towers come in every height. */
  lemma {:induction false} TallTower(n: nat) returns (h: Cells, v: Value)
    ensures Sound(h, []) && Held(h, [], v) && Tower(h, v, n)
    ensures forall id :: id in h ==> id < n
    ensures forall id {:trigger Outside(h, id)} :: Outside(h, id) == Holds(v, id)
  {
    if n == 0 {
      h, v := map[], Unit;
    } else {
      var h0, v0 := TallTower(n - 1);
      var c := Cell(Closure, 1, [], [v0]);
      forall id ensures HoldsAll(c.items, id) == Holds(v0, id) {
        CountAllOne(v0, Hold(id));
      }
      CellAdded(h0, n - 1, c);
      h, v := h0[n - 1 := c], Shared(n - 1);
      assert v0.Shared? ==> Outside(h0, v0.id) == 1;
      TowerRaised(h0, n - 1, c, v0, n - 1);
      assert h[v.id].items[0] == v0;
    }
  }

  lemma TowerRaised(h: Cells, id: nat, c: Cell, v: Value, n: nat)
    requires Coherent(h) && id !in h && Tower(h, v, n) && Among(v, h.Keys)
    ensures Tower(h[id := c], v, n)
  {
    forall j, k | j in h && 0 <= k < |h[j].items| ensures Among(h[j].items[k], h.Keys) {
      if h[j].items[k].Shared? {
        ItemCounted(h, j, k, h[j].items[k].id);
      }
    }
    TowerStands(h, h[id := c], h.Keys, v, n);
  }

  ghost function EmptiedAt(h: Cells, v: Value): Cells {
    if v.Shared? && v.id in h then h[v.id := Emptied(h[v.id])] else h
  }

  lemma QueueStillOwns(h: Cells, h': Cells, queue: seq<Value>)
    requires AllOwn(h, queue) && Shrunk(h, h') && Coherent(h')
    requires forall id {:trigger Spare(h', queue, id)} :: Spare(h', queue, id) >= 0
    ensures AllOwn(h', queue)
  {
    forall k | 0 <= k < |queue| ensures OwnsNested(h', queue[k]) {
      var v := queue[k];
      if v.Shared? {
        CountAllSplit(queue, k, Hold(v.id));
        assert Spare(h', queue, v.id) >= 0;
      }
    }
  }

  /** A hold given up is a hold fewer, and the last takes its cell with it. */
  lemma ReleaseShared(h: Cells, queue: seq<Value>, freed: multiset<nat>, id: nat)
    returns (h': Cells, freed': multiset<nat>)
    requires Sound(h, queue) && Held(h, queue, Shared(id)) && !Owns(h, Shared(id))
    ensures id in h && Sound(h', queue)
    ensures Stepped(h, queue, freed, Shared(id), h', queue, freed', Unit)
    ensures h[id].count == 1 ==> h' == h - {id} && freed' == freed + multiset{id}
    ensures h[id].count != 1 ==>
      h[id].count > 1 && h' == h[id := h[id].(count := h[id].count - 1)] && freed' == freed
    ensures Mass(h', queue, Unit) + (if id in h' then 0 else 1) == Mass(h, queue, Shared(id))
  {
    assert Spare(h, queue, id) >= 1 && Outside(h, id) >= 1;
    freed' := freed;
    if h[id].count == 1 {
      CellRemoved(h, id);
      h', freed' := h - {id}, freed + multiset{id};
    } else {
      CountChanged(h, id, -1);
      h' := h[id := h[id].(count := h[id].count - 1)];
      assert h'.Keys == h.Keys && |h'| == |h'.Keys| && |h| == |h.Keys|;
    }
    forall j ensures Spare(h', queue, j) == Spare(h, queue, j) - Holds(Shared(id), j) >= 0 {
      assert Outside(h', j) == Outside(h, j) - Holds(Shared(id), j);
    }
    QueueStillOwns(h, h', queue);
  }

  lemma ReleaseOther(h: Cells, queue: seq<Value>, freed: multiset<nat>, v: Value)
    requires Sound(h, queue) && !Owns(h, v) && !v.Shared?
    ensures Stepped(h, queue, freed, v, h, queue, freed, Unit)
    ensures Mass(h, queue, Unit) + (if v.Boxed? then 1 else 0) == Mass(h, queue, v)
  {
    forall id ensures Holds(v, id) == 0 {
      if v.Boxed? {
        assert Holds(v.inner, id) == 0;
      }
    }
    forall id ensures Spare(h, queue, id) == Spare(h, queue, id) - Holds(v, id) + Holds(Unit, id) {
      assert Holds(v, id) == 0 == Holds(Unit, id);
    }
    assert Traded(h, queue, h, queue, v, Unit);
    assert Shrunk(h, h);
    if v.Boxed? {
      assert Count(v.inner, Box) == 0;
    }
  }

  lemma Dequeued(h: Cells, queue: seq<Value>, v: Value)
    requires Sound(h, queue + [v])
    ensures Sound(h, queue) && Held(h, queue, v) && OwnsNested(h, v)
    ensures Traded(h, queue + [v], h, queue, Unit, v)
    ensures Mass(h, queue, v) == Mass(h, queue + [v], Unit)
  {
    CountAllLast(queue, v, Box);
    forall id ensures Spare(h, queue + [v], id) == Spare(h, queue, id) - Holds(v, id) {
      CountAllLast(queue, v, Hold(id));
    }
    assert (queue + [v])[|queue|] == v;
    forall k | 0 <= k < |queue| ensures OwnsNested(h, queue[k]) {
      assert (queue + [v])[k] == queue[k];
    }
  }

  /** `v` cleared, or queued whole: `w` is what is left of it. */
  ghost predicate Cleared(h: Cells, queue: seq<Value>, freed: multiset<nat>, v: Value,
                          h': Cells, queue': seq<Value>, freed': multiset<nat>, w: Value)
  {
    && Traded(h, queue, h', queue', v, w)
    && Gave(h, h', freed, freed')
    && (w == Unit ==> Shrunk(h, h'))
    && (w != Unit ==> Shrunk(EmptiedAt(h, v), h') && (v.Shared? ==> w == v) && (v.Boxed? ==> w.Boxed?))
  }

  lemma Enqueued(h: Cells, queue: seq<Value>, freed: multiset<nat>, v: Value)
    requires Sound(h, queue) && Held(h, queue, v) && OwnsNested(h, v)
    ensures Sound(h, queue + [v]) && Held(h, queue + [v], Unit)
    ensures Cleared(h, queue, freed, v, h, queue + [v], freed, Unit)
    ensures Mass(h, queue + [v], Unit) == Mass(h, queue, v)
  {
    CountAllLast(queue, v, Box);
    forall id ensures Spare(h, queue + [v], id) == Spare(h, queue, id) - Holds(v, id) + Holds(Unit, id) {
      CountAllLast(queue, v, Hold(id));
    }
    assert Shrunk(h, h);
  }

  lemma ClearedThen(h0: Cells, q0: seq<Value>, f0: multiset<nat>, v: Value,
                    h1: Cells, q1: seq<Value>, f1: multiset<nat>, w: Value,
                    h2: Cells, q2: seq<Value>, f2: multiset<nat>)
    requires Cleared(h0, q0, f0, v, h1, q1, f1, w) && Stepped(h1, q1, f1, Unit, h2, q2, f2, Unit)
    ensures Cleared(h0, q0, f0, v, h2, q2, f2, w)
  {
    ShrunkThen(if w == Unit then h0 else EmptiedAt(h0, v), h1, h2);
    forall id ensures Spare(h2, q2, id) == Spare(h0, q0, id) - Holds(v, id) + Holds(w, id) {
      assert Spare(h1, q1, id) == Spare(h0, q0, id) - Holds(v, id) + Holds(w, id);
    }
    GaveThen(h0, h1, h2, f0, f1, f2);
  }

  /** Clearing a value and releasing what is left of it is one drop. */
  lemma DropSteps(h0: Cells, q0: seq<Value>, f0: multiset<nat>, v: Value,
                  h1: Cells, q1: seq<Value>, f1: multiset<nat>, w: Value,
                  h2: Cells, f2: multiset<nat>)
    requires Owns(h0, v) && Cleared(h0, q0, f0, v, h1, q1, f1, w)
    requires w == Unit || Spent(h1, w)
    requires Stepped(h1, q1, f1, w, h2, q1, f2, Unit)
    requires w.Shared? ==> w.id !in h2
    ensures Stepped(h0, q0, f0, v, h2, q1, f2, Unit)
  {
    forall id ensures Spare(h2, q1, id) == Spare(h0, q0, id) - Holds(v, id) {
      assert Spare(h1, q1, id) == Spare(h0, q0, id) - Holds(v, id) + Holds(w, id);
    }
    GaveThen(h0, h1, h2, f0, f1, f2);
  }

  lemma DrainStep(left: Value, v: Value, h: Cells, queue: seq<Value>, freed: multiset<nat>,
                  h': Cells, queue': seq<Value>, freed': multiset<nat>)
    requires queue != [] && v == queue[|queue| - 1]
    requires Sound(h, queue) && Held(h, queue, left) && Spent(h, left) && Sound(h', queue')
    requires Stepped(h, queue[..|queue| - 1], freed, v, h', queue', freed', Unit)
    ensures Stepped(h, queue, freed, Unit, h', queue', freed', Unit)
    ensures Held(h', queue', left) && Spent(h', left)
  {
    var rest := queue[..|queue| - 1];
    assert queue == rest + [v];
    forall id ensures Spare(h', queue', id) == Spare(h, queue, id) {
      CountAllLast(rest, v, Hold(id));
      assert Spare(h, rest, id) == Spare(h, queue, id) + Holds(v, id);
    }
    forall id ensures Holds(left, id) <= Spare(h', queue', id) {
      assert Holds(left, id) <= Spare(h, queue, id);
    }
    SpentStays(h, queue, h', queue', left);
  }

  /** All of `items`, and `v` besides, are held outside the heap and the queue. */
  ghost predicate HeldAll(h: Cells, queue: seq<Value>, items: seq<Value>, v: Value) {
    forall id {:trigger Spare(h, queue, id)} ::
      HoldsAll(items, id) + Holds(v, id) <= Spare(h, queue, id)
  }

  ghost predicate SteppedAll(h: Cells, queue: seq<Value>, freed: multiset<nat>, items: seq<Value>,
                             h': Cells, queue': seq<Value>, freed': multiset<nat>)
  {
    && (forall id {:trigger Spare(h', queue', id)} ::
          Spare(h', queue', id) == Spare(h, queue, id) - HoldsAll(items, id))
    && Shrunk(h, h')
    && Gave(h, h', freed, freed')
  }

  lemma ItemDropped(h: Cells, queue: seq<Value>, freed: multiset<nat>, items: seq<Value>, v: Value,
                    h': Cells, queue': seq<Value>, freed': multiset<nat>)
    requires items != [] && HeldAll(h, queue, items, v) && Spent(h, v) && Sound(h', queue')
    requires Stepped(h, queue, freed, items[0], h', queue', freed', Unit)
    ensures HeldAll(h', queue', items[1..], v) && Spent(h', v)
  {
    forall id ensures HoldsAll(items[1..], id) + Holds(v, id) <= Spare(h', queue', id) {
      assert HoldsAll(items, id) + Holds(v, id) <= Spare(h, queue, id);
    }
    SpentStays(h, queue, h', queue', v);
  }

  lemma NothingDropped(h: Cells, queue: seq<Value>, freed: multiset<nat>, v: Value)
    requires HeldAll(h, queue, [], v)
    ensures SteppedAll(h, queue, freed, [], h, queue, freed) && Held(h, queue, v)
  {
    forall id ensures Holds(v, id) <= Spare(h, queue, id) {
      assert HoldsAll([], id) + Holds(v, id) <= Spare(h, queue, id);
    }
    forall id ensures HoldsAll([], id) == 0 {
    }
    assert Shrunk(h, h);
  }

  lemma SteppedAllThen(h0: Cells, q0: seq<Value>, f0: multiset<nat>, items: seq<Value>,
                       h1: Cells, q1: seq<Value>, f1: multiset<nat>,
                       h2: Cells, q2: seq<Value>, f2: multiset<nat>)
    requires items != [] && Stepped(h0, q0, f0, items[0], h1, q1, f1, Unit)
    requires SteppedAll(h1, q1, f1, items[1..], h2, q2, f2)
    ensures SteppedAll(h0, q0, f0, items, h2, q2, f2)
  {
    forall id ensures Spare(h2, q2, id) == Spare(h0, q0, id) - HoldsAll(items, id) {
      assert Spare(h1, q1, id) == Spare(h0, q0, id) - Holds(items[0], id);
    }
    GaveThen(h0, h1, h2, f0, f1, f2);
  }

  /** A container taken out of by its only holder: no queued value is it, and
      what it held is now held outside. */
  lemma EmptiedCell(h: Cells, queue: seq<Value>, id: nat)
    requires Sound(h, queue) && Held(h, queue, Shared(id)) && Owns(h, Shared(id))
    ensures var h' := h[id := Emptied(h[id])];
      && Sound(h', queue) && Spent(h', Shared(id))
      && HeldAll(h', queue, h[id].items, Shared(id))
      && Mass(h', queue, Shared(id)) + CountAll(h[id].items, Box) == Mass(h, queue, Shared(id))
      && (forall j {:trigger Spare(h', queue, j)} ::
            Spare(h', queue, j) == Spare(h, queue, j) + HoldsAll(h[id].items, j))
  {
    var h' := h[id := Emptied(h[id])];
    CellRefilled(h, id, h'[id]);
    assert h'.Keys == h.Keys && |h'| == |h'.Keys| && |h| == |h.Keys|;
    forall j ensures Spare(h', queue, j) == Spare(h, queue, j) + HoldsAll(h[id].items, j) {
      assert Outside(h', j) == Outside(h, j) + HoldsAll(h[id].items, j);
    }
    forall j ensures HoldsAll(h[id].items, j) + Holds(Shared(id), j) <= Spare(h', queue, j) {
      assert Holds(Shared(id), j) <= Spare(h, queue, j);
    }
    assert Holds(Shared(id), id) == 1 <= Spare(h, queue, id);
    forall k | 0 <= k < |queue| ensures queue[k] != Shared(id) {
      if queue[k] == Shared(id) {
        CountAllSplit(queue, k, Hold(id));
        assert false;
      }
    }
  }

  lemma ItemsCleared(h: Cells, queue: seq<Value>, freed: multiset<nat>, id: nat,
                     h': Cells, queue': seq<Value>, freed': multiset<nat>)
    requires Sound(h, queue) && Held(h, queue, Shared(id)) && Owns(h, Shared(id))
    requires SteppedAll(h[id := Emptied(h[id])], queue, freed, h[id].items, h', queue', freed')
    ensures Cleared(h, queue, freed, Shared(id), h', queue', freed', Shared(id))
  {
    EmptiedCell(h, queue, id);
    var h1 := h[id := Emptied(h[id])];
    forall j ensures Spare(h', queue', j) == Spare(h, queue, j) {
      assert Spare(h1, queue, j) == Spare(h, queue, j) + HoldsAll(h[id].items, j);
    }
  }

  /** One thread's freeing: the heap, the queue, and how many frees deep it is.
      `active` counts the activations of `FreeBounded` on the stack, `peak` the
      most there have been at once, and `freed` the cells given back. What a method
      returns as `nest` is how many closures were being freed one inside another,
      which the depth cell does not count. */
  class Memory {
    const limit: nat
    var heap: Cells
    var next: nat
    var queue: seq<Value>
    var freeing: nat
    ghost var active: nat
    ghost var peak: nat
    ghost var freed: multiset<nat>

    constructor (limit: nat)
      ensures this.limit == limit && heap == map[] && queue == []
      ensures Depth() && freeing == 0 && peak == 0 && freed == multiset{}
      ensures Sound(heap, queue)
    {
      this.limit := limit;
      heap, next, queue, freeing := map[], 0, [], 0;
      active, peak, freed := 0, 0, multiset{};
    }

    /** The depth cell is the number of frees on the stack, and the queue waits
        only while there is one. */
    ghost predicate Depth()
      reads this
    {
      && freeing <= limit
      && active == freeing
      && peak <= limit + 1
      && (freeing == 0 ==> queue == [])
    }

    /** `Value`'s drop. What it does not see, the closures, the drop glue frees after
        it by plain recursion. */
    method Drop(v: Value) returns (ghost nest: nat)
      requires 1 <= limit && (freeing < limit ==> 2 <= limit)
      requires Depth() && Sound(heap, queue) && Held(heap, queue, v)
      modifies this`heap, this`queue, this`freeing, this`active, this`peak, this`freed
      ensures Depth() && Sound(heap, queue) && freeing == old(freeing)
      ensures Stepped(old(heap), old(queue), old(freed), v, heap, queue, freed, Unit)
      ensures Mass(heap, queue, Unit) <= old(Mass(heap, queue, v))
      ensures old(Owns(heap, v) && (freeing < limit || !OwnsNested(heap, v))) ==>
        Mass(heap, queue, Unit) < old(Mass(heap, queue, v))
      ensures old(OwnsNested(heap, v)) && freeing >= limit ==>
        heap == old(heap) && queue == old(queue) + [v]
      ensures nest + Closures(heap) <= old(Closures(heap))
      ensures Tops(old(heap), v, nest)
      decreases limit - freeing, Loaded(heap), Count(v, Box), 2
    {
      if OwnsNested(heap, v) {
        var left;
        left, nest := FreeBounded(v);
        ghost var h1, q1, f1 := heap, queue, freed;
        Release(left);
        LoadedShrinks(h1, heap);
        DropSteps(old(heap), old(queue), old(freed), v, h1, q1, f1, left, heap, freed);
      } else if Owns(heap, v) {
        var left;
        left, nest := ClearChildren(v);
        if v.Shared? {
          RoomForClosure(old(heap), v.id);
          nest := nest + 1;
        }
        ghost var h1, q1, f1 := heap, queue, freed;
        Release(left);
        LoadedShrinks(h1, heap);
        DropSteps(old(heap), old(queue), old(freed), v, h1, q1, f1, left, heap, freed);
      } else {
        nest := 0;
        Release(v);
        LoadedShrinks(old(heap), heap);
      }
    }

    /** The drop glue that runs after `Drop`'s own body: one hold given up, and
        the cell with it when that was the last. */
    method Release(v: Value)
      requires Sound(heap, queue) && Held(heap, queue, v) && !Owns(heap, v)
      modifies this`heap, this`freed
      ensures Sound(heap, queue)
      ensures Stepped(old(heap), queue, old(freed), v, heap, queue, freed, Unit)
      ensures Mass(heap, queue, Unit) <= old(Mass(heap, queue, v))
      ensures old(Spent(heap, v)) ==> Mass(heap, queue, Unit) < old(Mass(heap, queue, v))
      ensures old(Spent(heap, v)) && v.Shared? ==> v.id !in heap
      ensures !v.Shared? ==> heap == old(heap)
    {
      match v
      case Unit => ReleaseOther(heap, queue, freed, v);
      case Scalar(_) => ReleaseOther(heap, queue, freed, v);
      case Boxed(_, inner) => ReleaseOther(heap, queue, freed, v);
      case Shared(id) =>
        ghost var h', freed' := ReleaseShared(heap, queue, freed, id);
        if heap[id].count == 1 {
          freed := freed + multiset{id};
          heap := heap - {id};
        } else {
          heap := heap[id := heap[id].(count := heap[id].count - 1)];
        }
    }

    /** Frees what `v` alone holds, in place, or queues it, leaving `Unit`. */
    method FreeBounded(v: Value) returns (left: Value, ghost nest: nat)
      requires 1 <= limit && (freeing < limit ==> 2 <= limit)
      requires Depth() && Sound(heap, queue) && Held(heap, queue, v) && OwnsNested(heap, v)
      modifies this`heap, this`queue, this`freeing, this`active, this`peak, this`freed
      ensures Depth() && Sound(heap, queue) && freeing == old(freeing) && Held(heap, queue, left)
      ensures old(freeing) >= limit ==>
        left == Unit && heap == old(heap) && freed == old(freed) && queue == old(queue) + [v]
      ensures old(freeing) < limit ==> Spent(heap, left)
      ensures Cleared(old(heap), old(queue), old(freed), v, heap, queue, freed, left)
      ensures Mass(heap, queue, left) <= old(Mass(heap, queue, v))
      ensures nest + Closures(heap) <= old(Closures(heap))
      decreases limit - freeing, 0, 0, 1
    {
      var depth := freeing;
      active := active + 1;
      peak := if peak < active then active else peak;
      if depth >= limit {
        Enqueued(heap, queue, freed, v);
        queue := queue + [v];
        left, nest := Unit, 0;
        active := active - 1;
        return;
      }
      left, nest := FreeBelow(v);
      active := active - 1;
    }

    /** The part below the limit: `v` cleared one deeper and, outermost, the queue
        emptied. */
    method FreeBelow(v: Value) returns (left: Value, ghost nest: nat)
      requires freeing < limit && 2 <= limit && active == freeing + 1 && peak <= limit + 1
      requires freeing == 0 ==> queue == []
      requires Sound(heap, queue) && Held(heap, queue, v) && OwnsNested(heap, v)
      modifies this`heap, this`queue, this`freeing, this`active, this`peak, this`freed
      ensures freeing == old(freeing) && active == old(active) && peak <= limit + 1
      ensures freeing == 0 ==> queue == []
      ensures Sound(heap, queue) && Held(heap, queue, left) && Spent(heap, left)
      ensures Cleared(old(heap), old(queue), old(freed), v, heap, queue, freed, left)
      ensures Mass(heap, queue, left) <= old(Mass(heap, queue, v))
      ensures nest + Closures(heap) <= old(Closures(heap))
      decreases limit - freeing, 0, 0, 0
    {
      var depth := freeing;
      freeing := depth + 1;
      ghost var h, q, f := heap, queue, freed;
      left, nest := ClearChildren(v);
      if depth == 0 {
        ghost var drained := DrainAfter(v, left, h, q, f);
        nest := Max(nest, drained);
      }
      freeing := depth;
    }

    /** The queue emptied once `v` is cleared. */
    method DrainAfter(ghost v: Value, ghost left: Value, ghost h: Cells, ghost q: seq<Value>, ghost f: multiset<nat>)
      returns (ghost nest: nat)
      requires 2 <= limit && Depth() && Sound(heap, queue) && Held(heap, queue, left) && freeing == 1
      requires Spent(heap, left) && Cleared(h, q, f, v, heap, queue, freed, left)
      modifies this`heap, this`queue, this`freeing, this`active, this`peak, this`freed
      ensures Depth() && Sound(heap, queue) && freeing == 1 && queue == []
      ensures Held(heap, queue, left) && Spent(heap, left)
      ensures Cleared(h, q, f, v, heap, queue, freed, left)
      ensures Mass(heap, queue, left) <= old(Mass(heap, queue, left))
      ensures nest + Closures(heap) <= old(Closures(heap))
      decreases limit - 1, Loaded(heap) + 3, 0, 0
    {
      ghost var h1, q1, f1 := heap, queue, freed;
      nest := Drain(left);
      ClearedThen(h, q, f, v, h1, q1, f1, left, heap, queue, freed);
    }

    /** The outermost drop's loop: each queued value is dropped at depth 1, where
        it frees its own children and queues deeper ones. */
    method Drain(ghost left: Value) returns (ghost nest: nat)
      requires 2 <= limit && Depth() && Sound(heap, queue) && Held(heap, queue, left) && freeing == 1
      requires Spent(heap, left)
      modifies this`heap, this`queue, this`freeing, this`active, this`peak, this`freed
      ensures Depth() && Sound(heap, queue) && freeing == 1 && queue == []
      ensures Held(heap, queue, left) && Spent(heap, left)
      ensures Stepped(old(heap), old(queue), old(freed), Unit, heap, queue, freed, Unit)
      ensures Mass(heap, queue, left) <= old(Mass(heap, queue, left))
      ensures nest + Closures(heap) <= old(Closures(heap))
      decreases limit - 1, Loaded(heap) + 2, 0, 0
    {
      nest := 0;
      while queue != []
        invariant Depth() && Sound(heap, queue) && freeing == 1
        invariant Held(heap, queue, left) && Spent(heap, left)
        invariant Stepped(old(heap), old(queue), old(freed), Unit, heap, queue, freed, Unit)
        invariant Mass(heap, queue, left) <= old(Mass(heap, queue, left))
        invariant nest + Closures(heap) <= old(Closures(heap))
        decreases Mass(heap, queue, Unit)
      {
        ghost var h1, q1, f1 := heap, queue, freed;
        LoadedShrinks(old(heap), heap);
        ghost var dropped := DropLast(left);
        nest := Max(nest, dropped);
        SteppedThen(old(heap), old(queue), old(freed), Unit, h1, q1, f1, Unit, heap, queue, freed, Unit);
      }
    }

    /** One step of the loop: the value queued last is taken out and dropped. */
    method DropLast(ghost left: Value) returns (ghost nest: nat)
      requires 2 <= limit && Depth() && Sound(heap, queue) && Held(heap, queue, left) && freeing == 1
      requires Spent(heap, left) && queue != []
      modifies this`heap, this`queue, this`freeing, this`active, this`peak, this`freed
      ensures Depth() && Sound(heap, queue) && freeing == 1
      ensures Held(heap, queue, left) && Spent(heap, left)
      ensures Stepped(old(heap), old(queue), old(freed), Unit, heap, queue, freed, Unit)
      ensures Mass(heap, queue, Unit) < old(Mass(heap, queue, Unit))
      ensures nest + Closures(heap) <= old(Closures(heap))
      decreases limit - 1, Loaded(heap) + 1, 0, 0
    {
      var last := |queue| - 1;
      var v := queue[last];
      assert queue == queue[..last] + [v];
      Dequeued(heap, queue[..last], v);
      queue := queue[..last];
      nest := Drop(v);
      DrainStep(left, v, old(heap), old(queue), old(freed), heap, queue, freed);
    }

    method ClearChildren(v: Value) returns (left: Value, ghost nest: nat)
      requires 1 <= limit && (freeing < limit ==> 2 <= limit)
      requires Depth() && Sound(heap, queue) && Held(heap, queue, v) && Owns(heap, v)
      modifies this`heap, this`queue, this`freeing, this`active, this`peak, this`freed
      ensures Depth() && Sound(heap, queue) && freeing == old(freeing) && Held(heap, queue, left)
      ensures Spent(heap, left)
      ensures Cleared(old(heap), old(queue), old(freed), v, heap, queue, freed, left)
      ensures Mass(heap, queue, left) <= old(Mass(heap, queue, v))
      ensures nest + Closures(heap) <= old(Room(heap, v)) <= old(Closures(heap))
      ensures v.Shared? ==> Tops(old(heap), v, nest + 1)
      decreases limit - freeing, Loaded(heap), Count(v, Box), 1
    {
      match v
      case Boxed(isOk, inner) =>
        left := Boxed(isOk, Unit);
        assert Held(heap, queue, inner);
        nest := Drop(inner);
        LoadedShrinks(old(heap), heap);
      case Shared(id) =>
        left := v;
        nest := ClearCell(id);
    }

    /** A cell's only holder clears it. */
    method ClearCell(id: nat) returns (ghost nest: nat)
      requires 1 <= limit && (freeing < limit ==> 2 <= limit)
      requires Depth() && Sound(heap, queue) && Held(heap, queue, Shared(id)) && Owns(heap, Shared(id))
      modifies this`heap, this`queue, this`freeing, this`active, this`peak, this`freed
      ensures Depth() && Sound(heap, queue) && freeing == old(freeing) && Held(heap, queue, Shared(id))
      ensures Spent(heap, Shared(id))
      ensures Cleared(old(heap), old(queue), old(freed), Shared(id), heap, queue, freed, Shared(id))
      ensures Mass(heap, queue, Shared(id)) <= old(Mass(heap, queue, Shared(id)))
      ensures nest + Closures(heap) <= old(Room(heap, Shared(id))) <= old(Closures(heap))
      ensures Tops(old(heap), Shared(id), nest + 1)
      decreases limit - freeing, Loaded(heap), 0, 0
    {
      var items := heap[id].items;
      EmptiedCell(heap, queue, id);
      LoadedEmptied(heap, id);
      heap := heap[id := Emptied(heap[id])];
      ghost var h1 := heap;
      nest := ClearItems(items, Shared(id));
      LoadedShrinks(h1, heap);
      HeldAlone(old(heap), old(queue), id);
      TopsCell(old(heap), id, nest);
      ItemsCleared(old(heap), old(queue), old(freed), id, heap, queue, freed);
    }

    /** A container's items dropped in order, once they are out of it. */
    method ClearItems(items: seq<Value>, ghost v: Value) returns (ghost nest: nat)
      requires 1 <= limit && (freeing < limit ==> 2 <= limit)
      requires Depth() && Sound(heap, queue) && Spent(heap, v)
      requires HeldAll(heap, queue, items, v)
      modifies this`heap, this`queue, this`freeing, this`active, this`peak, this`freed
      ensures Depth() && Sound(heap, queue) && freeing == old(freeing)
      ensures Held(heap, queue, v) && Spent(heap, v)
      ensures SteppedAll(old(heap), old(queue), old(freed), items, heap, queue, freed)
      ensures Mass(heap, queue, v) <= old(Mass(heap, queue, v)) + CountAll(items, Box)
      ensures nest + Closures(heap) <= old(Closures(heap))
      ensures TopsAll(old(heap), items, nest)
      decreases limit - freeing, Loaded(heap), CountAll(items, Box), 3, |items|
    {
      if items != [] {
        nest := Drop(items[0]);
        ItemDropped(old(heap), old(queue), old(freed), items, v, heap, queue, freed);
        ghost var h1, q1, f1 := heap, queue, freed;
        LoadedShrinks(old(heap), heap);
        ghost var rest := ClearItems(items[1..], v);
        TopsItems(old(heap), items, h1, q1, v, nest, rest);
        nest := Max(nest, rest);
        SteppedAllThen(old(heap), old(queue), old(freed), items, h1, q1, f1, heap, queue, freed);
      } else {
        nest := 0;
        NothingDropped(heap, queue, freed, v);
      }
    }

    /** A drop from outside any other: the queue is empty again, and what the heap has
        left is what the remaining holders reach. Never more than `limit + 1`
        activations were on the stack, and that is all there is to say of a drop that
        frees no closure; of closures, no more are freed one inside another than are
        freed at all, and no fewer than stand one on another under `v`. */
    method DropOutermost(v: Value) returns (ghost nest: nat)
      requires 2 <= limit && Depth() && freeing == 0
      requires Sound(heap, []) && Held(heap, [], v)
      modifies this`heap, this`queue, this`freeing, this`active, this`peak, this`freed
      ensures Depth() && freeing == 0 && queue == [] && peak <= limit + 1
      ensures nest <= |ClosuresGone(old(heap), heap)| && Tops(old(heap), v, nest)
      ensures Acyclic(old(heap)) && (forall id :: id in FullClosures(old(heap)) ==> Reachable(old(heap), v, id)) ==>
        nest == 0
      ensures Sound(heap, []) && Shrunk(old(heap), heap)
      ensures forall id :: freed[id] == old(freed)[id] + (if id in old(heap) && id !in heap then 1 else 0)
      ensures Acyclic(old(heap)) ==>
        forall id :: id in old(heap) ==> (id in heap <==> Reachable(old(heap), v, id))
    {
      nest := Drop(v);
      GoneIsCounted(old(heap), heap);
      if Acyclic(old(heap)) {
        FreesTheUnreachable(old(heap), v, heap);
        if forall id :: id in FullClosures(old(heap)) ==> Reachable(old(heap), v, id) {
          assert ClosuresGone(old(heap), heap) == {};
        }
      }
    }

    /** Why the limit must be two or more: with one, the loop's step pops a value
        and queues it again, for ever. */
    method DrainStepAtLimitOne()
      requires limit == 1 && freeing == 1 && Depth() && Sound(heap, queue) && queue != []
      modifies this`heap, this`queue, this`freeing, this`active, this`peak, this`freed
      ensures heap == old(heap) && queue == old(queue)
    {
      var last := |queue| - 1;
      var v := queue[last];
      assert queue == queue[..last] + [v];
      Dequeued(heap, queue[..last], v);
      queue := queue[..last];
      var _ := Drop(v);
    }
  }

  /** A thread at its start. */
  method NewThread() returns (m: Memory)
    ensures fresh(m) && m.limit == 64
    ensures m.Depth() && m.freeing == 0 && m.queue == [] && m.heap == map[] && Sound(m.heap, [])
  {
    m := new Memory(FREE_DEPTH);
  }

  // ── What a drop frees is what nothing else reaches ──

  /** No cell holds itself, through however many others. */
  ghost predicate Ranked(h: Cells, rank: nat -> nat, top: nat) {
    && (forall id {:trigger h[id]} :: id in h ==> rank(id) <= top)
    && (forall id, j {:trigger HoldsAll(h[id].items, j)} ::
          id in h && HoldsAll(h[id].items, j) > 0 ==> rank(j) < rank(id))
  }

  ghost predicate Acyclic(h: Cells) {
    exists rank: nat -> nat, top: nat :: Ranked(h, rank, top)
  }

  /** A chain of `steps` cells leads to `id` from a holder other than `v`. */
  ghost predicate Chain(h: Cells, v: Value, id: nat, steps: nat)
    decreases steps
  {
    if steps == 0 then Outside(h, id) - Holds(v, id) > 0
    else exists j :: j in h && HoldsAll(h[j].items, id) > 0 && Chain(h, v, j, steps - 1)
  }

  ghost predicate Reachable(h: Cells, v: Value, id: nat) {
    exists steps: nat :: Chain(h, v, id, steps)
  }

  lemma {:induction false} LiveIsReachable(h: Cells, id: nat, rank: nat -> nat, top: nat)
    requires Coherent(h) && Ranked(h, rank, top) && id in h
    ensures Reachable(h, Unit, id)
    decreases top - rank(id)
  {
    if Outside(h, id) > 0 {
      assert Chain(h, Unit, id, 0);
    } else {
      assert CellOk(h[id]);
      var j := HeldBySome(h, Hold(id));
      assert HoldsAll(h[j].items, id) > 0;
      assert rank(id) < rank(j) && rank(j) <= top;
      LiveIsReachable(h, j, rank, top);
      var steps: nat :| Chain(h, Unit, j, steps);
      assert Chain(h, Unit, id, steps + 1);
    }
  }

  lemma {:induction false} ChainKept(h: Cells, v: Value, h': Cells, id: nat, steps: nat)
    requires Shrunk(h, h') && Traded(h, [], h', [], v, Unit) && Chain(h', Unit, id, steps)
    ensures Chain(h, v, id, steps)
    decreases steps
  {
    if steps == 0 {
      assert Spare(h', [], id) == Spare(h, [], id) - Holds(v, id);
    } else {
      var j :| j in h' && HoldsAll(h'[j].items, id) > 0 && Chain(h', Unit, j, steps - 1);
      ChainKept(h, v, h', j, steps - 1);
      assert SameContents(h[j], h'[j]);
    }
  }

  lemma {:induction false} ChainLives(h: Cells, v: Value, h': Cells, id: nat, steps: nat)
    requires Coherent(h') && Shrunk(h, h') && Traded(h, [], h', [], v, Unit) && Chain(h, v, id, steps)
    ensures id in h'
    decreases steps
  {
    assert Outside(h', id) >= 0;
    if steps == 0 {
      assert Spare(h', [], id) == Spare(h, [], id) - Holds(v, id);
    } else {
      var j :| j in h && HoldsAll(h[j].items, id) > 0 && Chain(h, v, j, steps - 1);
      ChainLives(h, v, h', j, steps - 1);
      assert SameContents(h[j], h'[j]);
      RefsAt(h', j, Hold(id));
    }
  }

  lemma FreesTheUnreachable(h: Cells, v: Value, h': Cells)
    requires Acyclic(h) && Coherent(h') && Shrunk(h, h') && Traded(h, [], h', [], v, Unit)
    ensures forall id :: id in h ==> (id in h' <==> Reachable(h, v, id))
  {
    var rank: nat -> nat, top: nat :| Ranked(h, rank, top);
    forall id | id in h ensures id in h' <==> Reachable(h, v, id) {
      if id in h' {
        StillRanked(h, h', rank, top);
        LiveIsReachable(h', id, rank, top);
        var steps: nat :| Chain(h', Unit, id, steps);
        ChainKept(h, v, h', id, steps);
      }
      if Reachable(h, v, id) {
        var steps: nat :| Chain(h, v, id, steps);
        ChainLives(h, v, h', id, steps);
      }
    }
  }

  lemma StillRanked(h: Cells, h': Cells, rank: nat -> nat, top: nat)
    requires Ranked(h, rank, top) && Shrunk(h, h')
    ensures Ranked(h', rank, top)
  {
    forall id | id in h' ensures rank(id) <= top {
      assert SameContents(h[id], h'[id]);
    }
    forall id, j | id in h' && HoldsAll(h'[id].items, j) > 0 ensures rank(j) < rank(id) {
      assert SameContents(h[id], h'[id]);
      assert HoldsAll(h[id].items, j) > 0;
    }
  }
}
