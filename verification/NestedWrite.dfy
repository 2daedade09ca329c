/** `set_in` on the counted heap: a level with one holder is written in place, a
    level with more is copied first, and only the target's contents change. Each
    step is stated by what it moves: the holds given up and taken, and that whatever
    else is held shows what it showed. */
module NestedWrite {
  import opened Heap
  import opened Freeing
  import opened NestedMap
  import opened Wrappers

  /** `v`'s deep contents in `h` are `t`. */
  ghost predicate Shows(h: Cells, v: Value, t: Tree)
    decreases t
  {
    match v
    case Unit => t.Nothing?
    case Scalar(n) => t == Leaf(n)
    case Boxed(isOk, inner) => t.Wrapped? && t.isOk == isOk && Shows(h, inner, t.inner)
    case Shared(id) =>
      && t.Node?
      && id in h
      && h[id].kind == t.kind
      && h[id].keys == t.keys
      && |h[id].items| == |t.kids|
      && forall i :: 0 <= i < |t.kids| ==> Shows(h, h[id].items[i], t.kids[i])
  }

  /** A value's contents in a heap are one tree at most. */
  lemma {:induction false} ShowsOne(h: Cells, v: Value, t: Tree, u: Tree)
    requires Shows(h, v, t) && Shows(h, v, u)
    ensures t == u
    decreases t
  {
    match v
    case Unit =>
    case Scalar(_) =>
    case Boxed(_, inner) => ShowsOne(h, inner, t.inner, u.inner);
    case Shared(id) =>
      forall i | 0 <= i < |t.kids| ensures t.kids[i] == u.kids[i] {
        ShowsOne(h, h[id].items[i], t.kids[i], u.kids[i]);
      }
  }

  predicate FieldsCell(h: Cells, v: Value) {
    v.Shared? && v.id in h && (h[v.id].kind.Map? || h[v.id].kind.Struct?)
  }

  function TypeIn(h: Cells, v: Value): TypeName
    requires v.Shared? ==> v.id in h
  {
    match v
    case Unit => UnitType
    case Scalar(_) => ScalarType
    case Boxed(isOk, _) => BoxType(isOk)
    case Shared(id) => CellType(h[id].kind)
  }

  // ── What a step may do to everything else ──

  /** `r` is held besides `a` and `b`. */
  ghost predicate Besides(h: Cells, r: Value, a: Value, b: Value) {
    forall j {:trigger Outside(h, j)} :: Holds(r, j) + Holds(a, j) + Holds(b, j) <= Outside(h, j)
  }

  /** The holds are the same but for `a` and `b` given up and `a'` and `b'` taken. */
  ghost predicate Balanced(h: Cells, a: Value, b: Value, h': Cells, a': Value, b': Value) {
    forall j {:trigger Outside(h', j)} ::
      Outside(h', j) - Holds(a', j) - Holds(b', j) == Outside(h, j) - Holds(a, j) - Holds(b, j)
  }

  /** Whatever else is held shows what it showed. */
  ghost predicate Unseen(h: Cells, a: Value, b: Value, h': Cells) {
    forall r, t {:trigger Shows(h', r, t)} :: Shows(h, r, t) && Besides(h, r, a, b) ==> Shows(h', r, t)
  }

  /** A cell that no cell, nor `a` nor `b`, has a hold on. */
  ghost predicate Apart(h: Cells, id: nat, a: Value, b: Value) {
    id in h && Refs(h, Hold(id)) == 0 && Holds(a, id) == 0 && Holds(b, id) == 0
  }

  ghost predicate Untouched(h: Cells, a: Value, b: Value, h': Cells, a': Value, b': Value) {
    forall id {:trigger Apart(h', id, a', b')} :: Apart(h, id, a, b) ==>
      Apart(h', id, a', b') && SameContents(h[id], h'[id])
  }

  ghost predicate Moved(h: Cells, a: Value, b: Value, h': Cells, a': Value, b': Value) {
    && Balanced(h, a, b, h', a', b')
    && Unseen(h, a, b, h')
    && Untouched(h, a, b, h', a', b')
  }

  lemma BesidesMoves(h: Cells, a: Value, b: Value, h': Cells, a': Value, b': Value, r: Value)
    requires Balanced(h, a, b, h', a', b') && Besides(h, r, a, b)
    ensures Besides(h', r, a', b')
  {
    forall j ensures Holds(r, j) + Holds(a', j) + Holds(b', j) <= Outside(h', j) {
      assert Holds(r, j) + Holds(a, j) + Holds(b, j) <= Outside(h, j);
    }
  }

  lemma MovedThen(h0: Cells, a0: Value, b0: Value, h1: Cells, a1: Value, b1: Value,
                  h2: Cells, a2: Value, b2: Value)
    requires Moved(h0, a0, b0, h1, a1, b1) && Moved(h1, a1, b1, h2, a2, b2)
    ensures Moved(h0, a0, b0, h2, a2, b2)
  {
    forall j ensures Outside(h2, j) - Holds(a2, j) - Holds(b2, j) == Outside(h0, j) - Holds(a0, j) - Holds(b0, j) {
      assert Outside(h1, j) - Holds(a1, j) - Holds(b1, j) == Outside(h0, j) - Holds(a0, j) - Holds(b0, j);
    }
    forall r, t | Shows(h0, r, t) && Besides(h0, r, a0, b0) ensures Shows(h2, r, t) {
      BesidesMoves(h0, a0, b0, h1, a1, b1, r);
      assert Shows(h1, r, t);
    }
    forall id | Apart(h0, id, a0, b0) ensures Apart(h2, id, a2, b2) && SameContents(h0[id], h2[id]) {
      assert Apart(h1, id, a1, b1);
    }
  }

  // ── The same contents in a changed heap ──

  /** A heap that has every cell of another, as it was but for its count. */
  ghost predicate Extends(h: Cells, h': Cells) {
    forall id {:trigger h[id]} :: id in h ==> id in h' && SameContents(h[id], h'[id])
  }

  lemma {:induction false} ShowsExtended(h: Cells, h': Cells, v: Value, t: Tree)
    requires Extends(h, h') && Shows(h, v, t)
    ensures Shows(h', v, t)
    decreases t
  {
    match v
    case Unit =>
    case Scalar(_) =>
    case Boxed(_, inner) => ShowsExtended(h, h', inner, t.inner);
    case Shared(id) =>
      assert SameContents(h[id], h'[id]);
      forall i | 0 <= i < |t.kids| ensures Shows(h', h'[id].items[i], t.kids[i]) {
        ShowsExtended(h, h', h[id].items[i], t.kids[i]);
      }
  }

  lemma ItemHolds(h: Cells, id: nat, i: nat, j: nat)
    requires id in h && i < |h[id].items|
    ensures Holds(h[id].items[i], j) <= Refs(h, Hold(j))
  {
    RefsAt(h, id, Hold(j));
    CountAllSplit(h[id].items, i, Hold(j));
  }

  /** A write to a cell that nothing in the heap refers to is not seen by a value
      that does not name it. */
  lemma {:induction false} ShowsBesideWrite(h: Cells, h': Cells, id: nat, v: Value, t: Tree)
    requires forall j {:trigger h[j]} :: j in h && j != id ==> j in h' && SameContents(h[j], h'[j])
    requires Refs(h, Hold(id)) == 0 && Holds(v, id) == 0 && Shows(h, v, t)
    ensures Shows(h', v, t)
    decreases t
  {
    match v
    case Unit =>
    case Scalar(_) =>
    case Boxed(_, inner) => ShowsBesideWrite(h, h', id, inner, t.inner);
    case Shared(k) =>
      assert SameContents(h[k], h'[k]);
      forall i | 0 <= i < |t.kids| ensures Shows(h', h'[k].items[i], t.kids[i]) {
        ItemHolds(h, k, i, id);
        ShowsBesideWrite(h, h', id, h[k].items[i], t.kids[i]);
      }
  }

  /** What is still held shows what it showed after cells have gone. */
  lemma {:induction false} ShowsShrunk(h: Cells, h': Cells, v: Value, t: Tree)
    requires Shrunk(h, h') && Coherent(h') && Shows(h, v, t)
    requires forall j {:trigger Holds(v, j)} :: Holds(v, j) > 0 ==> j in h'
    ensures Shows(h', v, t)
    decreases t
  {
    match v
    case Unit =>
    case Scalar(_) =>
    case Boxed(_, inner) =>
      forall j | Holds(inner, j) > 0 ensures j in h' {
        assert Holds(v, j) == Holds(inner, j);
      }
      ShowsShrunk(h, h', inner, t.inner);
    case Shared(k) =>
      assert Holds(v, k) == 1;
      assert SameContents(h[k], h'[k]);
      forall i | 0 <= i < |t.kids| ensures Shows(h', h'[k].items[i], t.kids[i]) {
        forall j | Holds(h'[k].items[i], j) > 0 ensures j in h' {
          ItemHolds(h', k, i, j);
          assert Outside(h', j) >= 0;
        }
        ShowsShrunk(h, h', h[k].items[i], t.kids[i]);
      }
  }

  // ── One level of the write ──

  /** `a` and `b` are held outside the heap. */
  ghost predicate InHand(h: Cells, a: Value, b: Value) {
    forall j {:trigger Outside(h, j)} :: Holds(a, j) + Holds(b, j) <= Outside(h, j)
  }

  /** The level at `id` belongs to the write alone. */
  ghost predicate Open(h: Cells, id: nat, value: Value) {
    && Coherent(h)
    && FieldsCell(h, Shared(id))
    && h[id].count == 1
    && InHand(h, Shared(id), value)
  }

  lemma OpenIsApart(h: Cells, id: nat, value: Value)
    requires Open(h, id, value)
    ensures Outside(h, id) == 1 && Refs(h, Hold(id)) == 0 && Holds(value, id) == 0
  {
    assert Holds(Shared(id), id) == 1;
    assert Holds(Shared(id), id) + Holds(value, id) <= Outside(h, id);
  }

  /** The cell with an entry for `k`, made `Unit` at the end if it had none. */
  function Entry(c: Cell, k: string): Cell {
    if IndexOf(c.keys, k) < |c.keys| then c
    else c.(keys := c.keys + [k], items := c.items + [Unit])
  }

  /** The value in `k`'s entry, borrowed out of the cell. */
  function Taken(c: Cell, k: string): Cell
    requires |c.keys| == |c.items|
  {
    var i := IndexOf(c.keys, k);
    Entry(c, k).(items := Entry(c, k).items[i := Unit])
  }

  function Borrowed(c: Cell, k: string): Value
    requires |c.keys| == |c.items|
  {
    Entry(c, k).items[IndexOf(c.keys, k)]
  }

  function Filled(c: Cell, i: nat, v: Value): Cell {
    if i < |c.items| then c.(items := c.items[i := v]) else c
  }

  lemma SlotTaken(h: Cells, id: nat, k: string, value: Value)
    requires Open(h, id, value)
    ensures var h' := h[id := Taken(h[id], k)]; var child := Borrowed(h[id], k);
      && Coherent(h')
      && InHand(h', child, value)
      && Apart(h', id, child, value)
      && (forall j {:trigger Outside(h', j)} :: Outside(h', j) == Outside(h, j) + Holds(child, j))
  {
    OpenIsApart(h, id, value);
    var c := h[id];
    assert CellOk(c);
    var i := IndexOf(c.keys, k);
    var child := Borrowed(c, k);
    forall j ensures HoldsAll(c.items, j) == HoldsAll(Taken(c, k).items, j) + Holds(child, j) {
      CountAllLast(c.items, Unit, Hold(j));
      CountAllUpdate(Entry(c, k).items, i, Unit, Hold(j));
    }
    CellRefilled(h, id, Taken(c, k));
    var h' := h[id := Taken(c, k)];
    forall j ensures Outside(h', j) == Outside(h, j) + Holds(child, j) {
    }
    forall j ensures Holds(child, j) + Holds(value, j) <= Outside(h', j) {
      assert Holds(Shared(id), j) + Holds(value, j) <= Outside(h, j);
    }
    assert Outside(h', id) == 1 + Holds(child, id) && h'[id].count == 1;
  }

  /** The written value put back in its entry. */
  lemma SlotFilled(h: Cells, id: nat, i: nat, v: Value, rest: Value)
    requires Coherent(h) && Apart(h, id, v, rest) && InHand(h, v, rest)
    requires i < |h[id].items| && h[id].items[i] == Unit
    ensures var h' := h[id := Filled(h[id], i, v)];
      && Coherent(h')
      && Apart(h', id, Unit, rest)
      && h'[id].count == h[id].count
      && (forall j {:trigger Outside(h', j)} :: Outside(h', j) == Outside(h, j) - Holds(v, j))
  {
    var c := Filled(h[id], i, v);
    assert CellOk(h[id]) && CellOk(c);
    forall j ensures HoldsAll(c.items, j) == HoldsAll(h[id].items, j) + Holds(v, j) {
      CountAllUpdate(h[id].items, i, v, Hold(j));
      assert Holds(Unit, j) == 0;
    }
    forall j ensures Outside(h, j) + HoldsAll(h[id].items, j) >= HoldsAll(c.items, j) {
      assert Holds(v, j) + Holds(rest, j) <= Outside(h, j);
    }
    CellRefilled(h, id, c);
    var h' := h[id := c];
    forall j ensures Outside(h', j) == Outside(h, j) - Holds(v, j) {
    }
    assert Outside(h', id) == Outside(h, id);
  }

  /** A level written: what was done below with the borrowed value, and its
      result put back, is a move of the level itself. */
  lemma SlotWritten(h1: Cells, id: nat, k: string, value: Value, h2: Cells, child: Value,
                    h3: Cells, child': Value, rest: Value, h4: Cells)
    requires Open(h1, id, value)
    requires h2 == h1[id := Taken(h1[id], k)] && child == Borrowed(h1[id], k)
    requires Moved(h2, child, value, h3, child', rest)
    requires Coherent(h3) && InHand(h3, child', rest)
    requires id in h3 && h4 == h3[id := Filled(h3[id], IndexOf(h1[id].keys, k), child')]
    ensures Apart(h3, id, child', rest) && SameContents(h2[id], h3[id])
    ensures Coherent(h4) && h4[id].count == 1 && InHand(h4, Shared(id), rest)
    ensures Moved(h1, Shared(id), value, h4, Shared(id), rest)
  {
    SlotTaken(h1, id, k, value);
    assert Apart(h3, id, child', rest) && SameContents(h2[id], h3[id]);
    var i := IndexOf(h1[id].keys, k);
    SlotFilled(h3, id, i, child', rest);
    SlotCounts(h1, id, value, h2, child, h3, child', rest, h4);
    SlotUnseen(h1, id, k, value, h2, child, h3, child', rest, h4);
    SlotUntouched(h1, id, k, value, h2, child, h3, child', rest, h4);
  }

  lemma SlotCounts(h1: Cells, id: nat, value: Value, h2: Cells, child: Value,
                   h3: Cells, child': Value, rest: Value, h4: Cells)
    requires Open(h1, id, value) && Coherent(h3) && Coherent(h4)
    requires Apart(h3, id, child', rest) && id in h4 && h4[id].count == h3[id].count
    requires forall j {:trigger Outside(h2, j)} :: Outside(h2, j) == Outside(h1, j) + Holds(child, j)
    requires forall j {:trigger Outside(h4, j)} :: Outside(h4, j) == Outside(h3, j) - Holds(child', j)
    requires Balanced(h2, child, value, h3, child', rest) && InHand(h3, child', rest)
    requires Apart(h2, id, child, value)
    ensures Balanced(h1, Shared(id), value, h4, Shared(id), rest)
    ensures h4[id].count == 1 && InHand(h4, Shared(id), rest)
  {
    OpenIsApart(h1, id, value);
    assert Outside(h2, id) == 1 && Outside(h3, id) == 1;
    forall j ensures Outside(h4, j) - Holds(rest, j) == Outside(h1, j) - Holds(value, j) {
      assert Outside(h3, j) - Holds(child', j) - Holds(rest, j) == Outside(h2, j) - Holds(child, j) - Holds(value, j);
    }
    forall j ensures Holds(Shared(id), j) + Holds(rest, j) <= Outside(h4, j) {
      assert Outside(h4, j) - Holds(rest, j) == Outside(h1, j) - Holds(value, j);
      assert Holds(Shared(id), j) + Holds(value, j) <= Outside(h1, j);
    }
  }

  lemma SlotUnseen(h1: Cells, id: nat, k: string, value: Value, h2: Cells, child: Value,
                   h3: Cells, child': Value, rest: Value, h4: Cells)
    requires Open(h1, id, value) && Apart(h3, id, child', rest)
    requires h2 == h1[id := Taken(h1[id], k)] && Unseen(h2, child, value, h3)
    requires forall j {:trigger Outside(h2, j)} :: Outside(h2, j) == Outside(h1, j) + Holds(child, j)
    requires h4 == h3[id := Filled(h3[id], IndexOf(h1[id].keys, k), child')]
    ensures Unseen(h1, Shared(id), value, h4)
  {
    OpenIsApart(h1, id, value);
    forall r, t | Shows(h1, r, t) && Besides(h1, r, Shared(id), value) ensures Shows(h4, r, t) {
      assert Holds(r, id) + Holds(Shared(id), id) + Holds(value, id) <= Outside(h1, id);
      assert Holds(Shared(id), id) == 1;
      ShowsBesideWrite(h1, h2, id, r, t);
      forall j ensures Holds(r, j) + Holds(child, j) + Holds(value, j) <= Outside(h2, j) {
        assert Holds(r, j) + Holds(Shared(id), j) + Holds(value, j) <= Outside(h1, j);
      }
      assert Besides(h2, r, child, value);
      assert Shows(h3, r, t);
      ShowsBesideWrite(h3, h4, id, r, t);
    }
  }

  lemma SlotUntouched(h1: Cells, id: nat, k: string, value: Value, h2: Cells, child: Value,
                      h3: Cells, child': Value, rest: Value, h4: Cells)
    requires Open(h1, id, value) && Apart(h3, id, child', rest) && Coherent(h4) && Coherent(h3)
    requires h2 == h1[id := Taken(h1[id], k)] && child == Borrowed(h1[id], k)
    requires SameContents(h2[id], h3[id])
    requires Untouched(h2, child, value, h3, child', rest)
    requires h4 == h3[id := Filled(h3[id], IndexOf(h1[id].keys, k), child')]
    requires forall j {:trigger Outside(h4, j)} :: Outside(h4, j) == Outside(h3, j) - Holds(child', j)
    ensures Untouched(h1, Shared(id), value, h4, Shared(id), rest)
  {
    var c := h1[id];
    forall j | Apart(h1, j, Shared(id), value)
      ensures Apart(h4, j, Shared(id), rest) && SameContents(h1[j], h4[j])
    {
      assert Holds(Shared(id), id) == 1;
      SlotApart(h1, id, k, j);
      assert Apart(h2, j, child, value);
      assert Apart(h3, j, child', rest);
      assert Outside(h4, j) == Outside(h3, j);
    }
  }

  lemma SlotApart(h: Cells, id: nat, k: string, j: nat)
    requires id in h && CellOk(h[id]) && (h[id].kind.Map? || h[id].kind.Struct?)
    requires Refs(h, Hold(j)) == 0
    ensures Refs(h[id := Taken(h[id], k)], Hold(j)) == 0 && Holds(Borrowed(h[id], k), j) == 0
  {
    var c := h[id];
    RefsUpdate(h, id, Taken(c, k), Hold(j));
    RefsAt(h, id, Hold(j));
    CountAllLast(c.items, Unit, Hold(j));
    CountAllUpdate(Entry(c, k).items, IndexOf(c.keys, k), Unit, Hold(j));
  }

  // ── The other steps of a write ──

  /** Dropping `b` moves nothing else. */
  lemma DropMoves(h: Cells, a: Value, b: Value, h': Cells)
    requires Coherent(h) && Coherent(h') && InHand(h, a, b)
    requires Shrunk(h, h') && Traded(h, [], h', [], b, Unit)
    ensures Moved(h, a, b, h', a, Unit) && InHand(h', a, Unit)
    ensures forall t :: Shows(h, a, t) ==> Shows(h', a, t)
  {
    forall j ensures Outside(h', j) == Outside(h, j) - Holds(b, j) {
      assert Spare(h', [], j) == Spare(h, [], j) - Holds(b, j);
    }
    forall r, t | Shows(h, r, t) && Besides(h, r, a, b) ensures Shows(h', r, t) {
      forall j | Holds(r, j) > 0 ensures j in h' {
        assert Holds(r, j) + Holds(a, j) + Holds(b, j) <= Outside(h, j);
        assert Outside(h', j) > 0;
      }
      ShowsShrunk(h, h', r, t);
    }
    forall t | Shows(h, a, t) ensures Shows(h', a, t) {
      forall j | Holds(a, j) > 0 ensures j in h' {
        assert Holds(a, j) + Holds(b, j) <= Outside(h, j);
        assert Outside(h', j) > 0;
      }
      ShowsShrunk(h, h', a, t);
    }
    forall id | Apart(h, id, a, b) ensures Apart(h', id, a, Unit) && SameContents(h[id], h'[id]) {
      assert CellOk(h[id]);
      assert Outside(h', id) == Outside(h, id);
      assert id in h';
    }
  }

  /** `h'` has one more hold on whatever `v` holds, and is else the same. */
  ghost predicate Raised(h: Cells, h': Cells, vs: seq<Value>) {
    && Coherent(h')
    && h'.Keys == h.Keys
    && Extends(h, h')
    && (forall id {:trigger h'[id]} :: id in h' ==> h'[id].count >= h[id].count)
    && (forall j {:trigger Outside(h', j)} :: Outside(h', j) == Outside(h, j) + HoldsAll(vs, j))
    && (forall j {:trigger Refs(h', Hold(j))} :: Refs(h', Hold(j)) == Refs(h, Hold(j)))
  }

  lemma RaisedNone(h: Cells)
    requires Coherent(h)
    ensures Raised(h, h, [])
  {
    forall id | id in h ensures SameContents(h[id], h[id]) {
    }
    forall j ensures HoldsAll([], j) == 0 {
    }
    forall j {:trigger Outside(h, j)} ensures Outside(h, j) == Outside(h, j) + HoldsAll([], j) {
      assert HoldsAll([], j) == 0;
    }
  }

  lemma RaisedThen(h0: Cells, h1: Cells, h2: Cells, vs: seq<Value>, ws: seq<Value>)
    requires Raised(h0, h1, vs) && Raised(h1, h2, ws)
    ensures Raised(h0, h2, vs + ws)
  {
    forall id | id in h0 ensures id in h2 && SameContents(h0[id], h2[id]) && h2[id].count >= h0[id].count {
      assert SameContents(h0[id], h1[id]);
      assert h1[id].count >= h0[id].count;
    }
    forall j {:trigger Outside(h2, j)} ensures Outside(h2, j) == Outside(h0, j) + HoldsAll(vs + ws, j) {
      assert Outside(h1, j) == Outside(h0, j) + HoldsAll(vs, j);
      CountAllConcat(vs, ws, Hold(j));
    }
    forall j {:trigger Refs(h2, Hold(j))} ensures Refs(h2, Hold(j)) == Refs(h0, Hold(j)) {
      assert Refs(h1, Hold(j)) == Refs(h0, Hold(j));
    }
  }

  lemma RaisedOne(h: Cells, id: nat)
    requires Coherent(h) && id in h
    ensures Raised(h, h[id := h[id].(count := h[id].count + 1)], [Shared(id)])
  {
    assert CellOk(h[id]);
    var h' := h[id := h[id].(count := h[id].count + 1)];
    CountChanged(h, id, 1);
    forall k | k in h ensures k in h' && SameContents(h[k], h'[k]) && h'[k].count >= h[k].count {
    }
    forall j ensures Outside(h', j) == Outside(h, j) + HoldsAll([Shared(id)], j) {
      CountAllOne(Shared(id), Hold(j));
    }
    forall j {:trigger Refs(h', Hold(j))} ensures Refs(h', Hold(j)) == Refs(h, Hold(j)) {
      RefsUpdate(h, id, h'[id], Hold(j));
    }
  }

  lemma RaisedSame(h: Cells, h': Cells, vs: seq<Value>, ws: seq<Value>)
    requires Raised(h, h', vs) && forall j :: HoldsAll(vs, j) == HoldsAll(ws, j)
    ensures Raised(h, h', ws)
  {
    forall j {:trigger Outside(h', j)} ensures Outside(h', j) == Outside(h, j) + HoldsAll(ws, j) {
      assert HoldsAll(vs, j) == HoldsAll(ws, j);
    }
  }

  /** A level copied: `n` is a new cell with the same contents, held once, in
      place of one hold on `id`. */
  lemma CopyMoved(h: Cells, h1: Cells, id: nat, n: nat, value: Value) returns (h3: Cells)
    requires Coherent(h) && FieldsCell(h, Shared(id)) && h[id].count > 1
    requires InHand(h, Shared(id), value) && n !in h
    requires Raised(h, h1, h[id].items)
    ensures h3 == h1[n := h[id].(count := 1)][id := h1[id].(count := h1[id].count - 1)]
    ensures Open(h3, n, value) && Extends(h, h3)
    ensures Moved(h, Shared(id), value, h3, Shared(n), value)
  {
    var h2 := CopyAdded(h, h1, id, n, value);
    CountChanged(h2, id, -1);
    h3 := h2[id := h2[id].(count := h2[id].count - 1)];
    CopyBalanced(h, id, n, value, h2, h3);
    forall k | k in h ensures k in h3 && SameContents(h[k], h3[k]) {
      assert SameContents(h[k], h1[k]);
    }
    forall r, t | Shows(h, r, t) && Besides(h, r, Shared(id), value) ensures Shows(h3, r, t) {
      ShowsExtended(h, h3, r, t);
    }
    CopyUntouched(h, h1, id, n, value, h3);
  }

  lemma CopyAdded(h: Cells, h1: Cells, id: nat, n: nat, value: Value) returns (h2: Cells)
    requires Coherent(h) && FieldsCell(h, Shared(id)) && h[id].count > 1
    requires InHand(h, Shared(id), value) && n !in h
    requires Raised(h, h1, h[id].items)
    ensures h2 == h1[n := h[id].(count := 1)] && Coherent(h2)
    ensures h2[id] == h1[id] && h2[id].count > 1 && Outside(h2, id) >= 1
    ensures forall j {:trigger Outside(h2, j)} :: Outside(h2, j) == Outside(h, j) + Holds(Shared(n), j)
  {
    var items := h[id].items;
    assert CellOk(h[id]) && SameContents(h[id], h1[id]) && h1[id].count >= h[id].count;
    h2 := h1[n := h[id].(count := 1)];
    forall j {:trigger Outside(h1, j)} ensures Outside(h1, j) >= HoldsAll(items, j) {
      assert Outside(h, j) >= 0;
    }
    CellAdded(h1, n, h2[n]);
    forall j ensures Outside(h2, j) == Outside(h, j) + Holds(Shared(n), j) {
      assert Outside(h1, j) == Outside(h, j) + HoldsAll(items, j);
    }
    assert Holds(Shared(id), id) + Holds(value, id) <= Outside(h, id);
  }

  lemma CopyUntouched(h: Cells, h1: Cells, id: nat, n: nat, value: Value, h3: Cells)
    requires id in h && n !in h && h1.Keys == h.Keys
    requires forall j {:trigger Refs(h1, Hold(j))} :: Refs(h1, Hold(j)) == Refs(h, Hold(j))
    requires h1[id].count > 1
    requires h3 == h1[n := h[id].(count := 1)][id := h1[id].(count := h1[id].count - 1)]
    requires Extends(h, h3)
    ensures Untouched(h, Shared(id), value, h3, Shared(n), value)
  {
    var h2 := h1[n := h[id].(count := 1)];
    forall j | Apart(h, j, Shared(id), value)
      ensures Apart(h3, j, Shared(n), value) && SameContents(h[j], h3[j])
    {
      RefsAt(h, id, Hold(j));
      assert Refs(h1, Hold(j)) == 0;
      RefsAdd(h1, n, h2[n], Hold(j));
      RefsUpdate(h2, id, h3[id], Hold(j));
    }
  }

  lemma CopyBalanced(h: Cells, id: nat, n: nat, value: Value, h2: Cells, h3: Cells)
    requires id in h && InHand(h, Shared(id), value)
    requires forall j {:trigger Outside(h2, j)} :: Outside(h2, j) == Outside(h, j) + Holds(Shared(n), j)
    requires forall j {:trigger Outside(h3, j)} :: Outside(h3, j) == Outside(h2, j) + (if j == id then -1 else 0)
    ensures Balanced(h, Shared(id), value, h3, Shared(n), value) && InHand(h3, Shared(n), value)
  {
    forall j ensures Outside(h3, j) == Outside(h, j) + Holds(Shared(n), j) - Holds(Shared(id), j) {
      assert Outside(h2, j) == Outside(h, j) + Holds(Shared(n), j);
    }
    forall j ensures Holds(Shared(n), j) + Holds(value, j) <= Outside(h3, j) {
      assert Holds(Shared(id), j) + Holds(value, j) <= Outside(h, j);
    }
  }

  /** A missing level made: a new map, held once. */
  lemma NewMapMoved(h: Cells, n: nat, value: Value) returns (h': Cells)
    requires Coherent(h) && InHand(h, Unit, value) && n !in h
    ensures h' == h[n := Cell(Map, 1, [], [])]
    ensures Coherent(h') && InHand(h', Shared(n), value) && Extends(h, h')
    ensures Moved(h, Unit, value, h', Shared(n), value)
    ensures Shows(h', Shared(n), EMPTY_MAP)
  {
    var c := Cell(Map, 1, [], []);
    h' := h[n := c];
    forall j ensures HoldsAll([], j) == 0 {
    }
    forall j {:trigger Outside(h, j)} ensures Outside(h, j) >= HoldsAll(c.items, j) {
    }
    CellAdded(h, n, c);
    forall j ensures Outside(h', j) == Outside(h, j) + Holds(Shared(n), j) {
    }
    forall j ensures Holds(Shared(n), j) + Holds(value, j) <= Outside(h', j) {
      assert Holds(Unit, j) + Holds(value, j) <= Outside(h, j);
    }
    forall k | k in h ensures k in h' && SameContents(h[k], h'[k]) {
    }
    forall r, t | Shows(h, r, t) && Besides(h, r, Unit, value) ensures Shows(h', r, t) {
      ShowsExtended(h, h', r, t);
    }
    forall j | Apart(h, j, Unit, value)
      ensures Apart(h', j, Shared(n), value) && SameContents(h[j], h'[j])
    {
      RefsAdd(h, n, c, Hold(j));
    }
  }

  // ── What the target shows ──

  datatype Outcome = Done | Refused(error: PathError)

  /** The target shows what `map_set_in` means, or on a refusal what it did. */
  ghost predicate Hit(h: Cells, at: Value, keys: seq<string>, value: Value,
                      h': Cells, at': Value, outcome: Outcome)
    requires keys != []
  {
    forall t, tv {:trigger Shows(h, at, t), Shows(h, value, tv)} ::
      Shows(h, at, t) && Shows(h, value, tv) ==>
        match PutIn(t, keys, tv)
        case Ok(t') => outcome.Done? && Shows(h', at', t')
        case Err(e) => outcome == Refused(e) && Shows(h', at', t)
  }

  lemma FieldsShown(h: Cells, v: Value, t: Tree)
    requires Coherent(h) && Shows(h, v, t)
    ensures IsFields(t) <==> FieldsCell(h, v)
    ensures v.Shared? ==> v.id in h
    ensures TypeOf(t) == TypeIn(h, v)
  {
    if v.Shared? {
      assert CellOk(h[v.id]);
    }
  }

  /** The level with its entry borrowed shows `Nothing` there. */
  lemma BorrowedShown(h1: Cells, id: nat, k: string, value: Value, t: Tree) returns (tslot: Tree)
    requires Open(h1, id, value) && Shows(h1, Shared(id), t)
    ensures IsFields(t)
    ensures tslot == WithField(t, k, Nothing)
    ensures Shows(h1[id := Taken(h1[id], k)], Shared(id), tslot)
    ensures Shows(h1[id := Taken(h1[id], k)], Borrowed(h1[id], k), Field(t, k))
  {
    OpenIsApart(h1, id, value);
    FieldsShown(h1, Shared(id), t);
    tslot := WithField(t, k, Nothing);
    var h2 := h1[id := Taken(h1[id], k)];
    forall q | 0 <= q < |t.kids| ensures Shows(h2, h1[id].items[q], t.kids[q]) {
      ItemHolds(h1, id, q, id);
      ShowsBesideWrite(h1, h2, id, h1[id].items[q], t.kids[q]);
    }
    var i := IndexOf(t.keys, k);
    forall q | 0 <= q < |tslot.kids| ensures Shows(h2, h2[id].items[q], tslot.kids[q]) {
      if q != i {
        assert h2[id].items[q] == h1[id].items[q];
      }
    }
  }

  /** A level filled shows its entry filled. */
  lemma FilledShown(h3: Cells, id: nat, k: string, child': Value, rest: Value, t: Tree, x: Tree)
    requires Apart(h3, id, child', rest) && IsFields(t)
    requires Shows(h3, Shared(id), WithField(t, k, Nothing)) && Shows(h3, child', x)
    ensures Shows(h3[id := Filled(h3[id], IndexOf(t.keys, k), child')], Shared(id), WithField(t, k, x))
  {
    var i := IndexOf(t.keys, k);
    var c := Filled(h3[id], i, child');
    var h4 := h3[id := c];
    var tslot, t' := WithField(t, k, Nothing), WithField(t, k, x);
    assert h4[id] == c && c.kind == t'.kind && c.keys == t'.keys;
    assert |c.items| == |t'.kids|;
    forall q | 0 <= q < |t'.kids| ensures Shows(h4, c.items[q], t'.kids[q]) {
      if q == i {
        ShowsBesideWrite(h3, h4, id, child', x);
      } else {
        ItemHolds(h3, id, q, id);
        assert Shows(h3, h3[id].items[q], tslot.kids[q]);
        ShowsBesideWrite(h3, h4, id, h3[id].items[q], tslot.kids[q]);
      }
    }
  }

  /** What the write below a level came to is what the level comes to. */
  lemma LevelShown(h1: Cells, id: nat, k: string, value: Value, h2: Cells, child: Value,
                   h3: Cells, child': Value, rest: Value, h4: Cells, t: Tree, x: Tree)
    requires Open(h1, id, value) && Apart(h3, id, child', rest) && Unseen(h2, child, value, h3)
    requires h2 == h1[id := Taken(h1[id], k)] && child == Borrowed(h1[id], k)
    requires h4 == h3[id := Filled(h3[id], IndexOf(h1[id].keys, k), child')]
    requires Shows(h1, Shared(id), t) && Shows(h3, child', x)
    ensures IsFields(t) && Shows(h4, Shared(id), WithField(t, k, x))
  {
    var tslot := BorrowedShown(h1, id, k, value, t);
    SlotTaken(h1, id, k, value);
    forall j ensures Holds(Shared(id), j) + Holds(child, j) + Holds(value, j) <= Outside(h2, j) {
      assert Holds(Shared(id), j) + Holds(value, j) <= Outside(h1, j);
    }
    assert Besides(h2, Shared(id), child, value);
    assert Shows(h3, Shared(id), tslot);
    FilledShown(h3, id, k, child', rest, t, x);
  }

  // ── The write ──

  ghost predicate Idle(m: Memory)
    reads m
  {
    && 2 <= m.limit
    && m.Depth()
    && m.freeing == 0
    && Coherent(m.heap)
    && forall id {:trigger id in m.heap} :: id in m.heap ==> id < m.next
  }

  lemma CoherentIsSound(h: Cells, v: Value, w: Value)
    requires Coherent(h) && InHand(h, v, w)
    ensures Sound(h, []) && Held(h, [], v) && Held(h, [], w)
  {
    forall id ensures Spare(h, [], id) == Outside(h, id) {
    }
    forall id ensures Holds(v, id) <= Spare(h, [], id) && Holds(w, id) <= Spare(h, [], id) {
      assert Holds(v, id) + Holds(w, id) <= Outside(h, id);
    }
  }

  /** A value's clone: one more hold on the cell it names. */
  method Retain(m: Memory, v: Value)
    requires Idle(m) && forall j :: Holds(v, j) > 0 ==> j in m.heap
    modifies m`heap
    ensures Idle(m) && Raised(old(m.heap), m.heap, [v])
  {
    match v
    case Unit => RetainedNone(m.heap, v);
    case Scalar(_) => RetainedNone(m.heap, v);
    case Boxed(_, inner) =>
      forall j ensures Holds(inner, j) == Holds(v, j) {
      }
      Retain(m, inner);
      RetainedInner(old(m.heap), m.heap, v);
    case Shared(id) =>
      assert Holds(v, id) == 1;
      RaisedOne(m.heap, id);
      m.heap := m.heap[id := m.heap[id].(count := m.heap[id].count + 1)];
  }

  lemma RetainedNone(h: Cells, v: Value)
    requires Coherent(h) && (v.Unit? || v.Scalar?)
    ensures Raised(h, h, [v])
  {
    RaisedNone(h);
    forall j ensures HoldsAll([v], j) == HoldsAll([], j) {
      CountAllOne(v, Hold(j));
    }
    RaisedSame(h, h, [], [v]);
  }

  lemma RetainedInner(h: Cells, h': Cells, v: Value)
    requires v.Boxed? && Raised(h, h', [v.inner])
    ensures Raised(h, h', [v])
  {
    forall j ensures HoldsAll([v], j) == HoldsAll([v.inner], j) {
      CountAllOne(v, Hold(j));
      CountAllOne(v.inner, Hold(j));
    }
    RaisedSame(h, h', [v.inner], [v]);
  }

  method RetainAll(m: Memory, items: seq<Value>)
    requires Idle(m) && forall j :: HoldsAll(items, j) > 0 ==> j in m.heap
    modifies m`heap
    ensures Idle(m) && Raised(old(m.heap), m.heap, items)
  {
    RaisedNone(m.heap);
    for i := 0 to |items|
      invariant Idle(m) && Raised(old(m.heap), m.heap, items[..i])
    {
      ghost var h1 := m.heap;
      forall j | Holds(items[i], j) > 0 ensures j in m.heap {
        CountAllSplit(items, i, Hold(j));
        assert HoldsAll(items, j) > 0;
      }
      Retain(m, items[i]);
      RaisedThen(old(m.heap), h1, m.heap, items[..i], [items[i]]);
      assert items[..i + 1] == items[..i] + [items[i]];
    }
    assert items[..|items|] == items;
  }

  /** `Arc::make_mut`: the level itself when it has one holder, else a copy. */
  method MakeMut(m: Memory, id: nat, ghost value: Value) returns (n: nat)
    requires Idle(m) && FieldsCell(m.heap, Shared(id)) && InHand(m.heap, Shared(id), value)
    modifies m`heap, m`next
    ensures Idle(m) && Open(m.heap, n, value)
    ensures Moved(old(m.heap), Shared(id), value, m.heap, Shared(n), value)
    ensures Extends(old(m.heap), m.heap) && SameContents(old(m.heap)[id], m.heap[n])
    ensures old(m.heap[id].count) == 1 ==> n == id && m.heap == old(m.heap)
    ensures old(m.heap[id].count) > 1 ==> n !in old(m.heap)
  {
    ghost var h := m.heap;
    assert CellOk(h[id]);
    if m.heap[id].count == 1 {
      forall k | k in h ensures SameContents(h[k], h[k]) {
      }
      return id;
    }
    var items := m.heap[id].items;
    forall j | HoldsAll(items, j) > 0 ensures j in m.heap {
      RefsAt(h, id, Hold(j));
      assert Outside(h, j) >= 0;
    }
    RetainAll(m, items);
    n := m.next;
    ghost var h3 := CopyMoved(h, m.heap, id, n, value);
    assert SameContents(h[id], m.heap[id]);
    m.heap := m.heap[n := m.heap[id].(count := 1)];
    m.heap := m.heap[id := m.heap[id].(count := m.heap[id].count - 1)];
    m.next := m.next + 1;
    assert m.heap == h3;
  }

  /** The last level's insert, before the value it replaces is dropped. */
  lemma InsertMoves(h1: Cells, id: nat, k: string, value: Value) returns (h4: Cells)
    requires Open(h1, id, value)
    ensures h4 == h1[id := Filled(Taken(h1[id], k), IndexOf(h1[id].keys, k), value)]
    ensures Coherent(h4) && InHand(h4, Shared(id), Borrowed(h1[id], k))
    ensures Moved(h1, Shared(id), value, h4, Shared(id), Borrowed(h1[id], k))
    ensures forall t, tv {:trigger Shows(h1, Shared(id), t), Shows(h1, value, tv)} ::
      Shows(h1, Shared(id), t) && Shows(h1, value, tv) ==>
        IsFields(t) && Shows(h4, Shared(id), WithField(t, k, tv))
  {
    var h2, child := h1[id := Taken(h1[id], k)], Borrowed(h1[id], k);
    SlotTaken(h1, id, k, value);
    OpenIsApart(h1, id, value);
    SwapMoves(h2, child, value);
    h4 := h2[id := Filled(h2[id], IndexOf(h1[id].keys, k), value)];
    SlotWritten(h1, id, k, value, h2, child, h2, value, child, h4);
    assert h4 == h1[id := Filled(Taken(h1[id], k), IndexOf(h1[id].keys, k), value)];
    forall t, tv | Shows(h1, Shared(id), t) && Shows(h1, value, tv)
      ensures IsFields(t) && Shows(h4, Shared(id), WithField(t, k, tv))
    {
      ShowsBesideWrite(h1, h2, id, value, tv);
      LevelShown(h1, id, k, value, h2, child, h2, value, child, h4, t, tv);
    }
  }

  lemma SwapMoves(h: Cells, a: Value, b: Value)
    requires InHand(h, a, b)
    ensures Moved(h, a, b, h, b, a) && InHand(h, b, a)
  {
    forall j {:trigger Outside(h, j)} ensures Holds(b, j) + Holds(a, j) <= Outside(h, j) {
      assert Holds(a, j) + Holds(b, j) <= Outside(h, j);
    }
    forall id | Apart(h, id, a, b) ensures Apart(h, id, b, a) && SameContents(h[id], h[id]) {
    }
  }

  method PutField(m: Memory, id: nat, k: string, value: Value)
    requires Idle(m) && Open(m.heap, id, value)
    modifies m
    ensures Idle(m) && InHand(m.heap, Shared(id), Unit)
    ensures Moved(old(m.heap), Shared(id), value, m.heap, Shared(id), Unit)
    ensures forall t, tv {:trigger Shows(old(m.heap), Shared(id), t), Shows(old(m.heap), value, tv)} ::
      Shows(old(m.heap), Shared(id), t) && Shows(old(m.heap), value, tv) ==>
        IsFields(t) && Shows(m.heap, Shared(id), WithField(t, k, tv))
  {
    ghost var h1 := m.heap;
    assert CellOk(h1[id]);
    var prior := Borrowed(m.heap[id], k);
    ghost var h4 := InsertMoves(h1, id, k, value);
    m.heap := m.heap[id := Filled(Taken(m.heap[id], k), IndexOf(m.heap[id].keys, k), value)];
    DropHeld(m, Shared(id), prior);
    MovedThen(h1, Shared(id), value, h4, Shared(id), prior, m.heap, Shared(id), Unit);
  }

  /** A drop between programs' steps, when nothing is being freed. */
  method DropHeld(m: Memory, ghost a: Value, b: Value)
    requires Idle(m) && InHand(m.heap, a, b)
    modifies m
    ensures Idle(m) && InHand(m.heap, a, Unit)
    ensures Moved(old(m.heap), a, b, m.heap, a, Unit)
    ensures forall t :: Shows(old(m.heap), a, t) ==> Shows(m.heap, a, t)
  {
    ghost var h := m.heap;
    CoherentIsSound(h, a, b);
    ghost var _ := m.Drop(b);
    DropMoves(h, a, b, m.heap);
  }

  lemma AtIsThere(h: Cells, at: Value, value: Value)
    requires Coherent(h) && InHand(h, at, value)
    ensures at.Shared? ==> at.id in h
  {
    if at.Shared? {
      assert Holds(at, at.id) + Holds(value, at.id) <= Outside(h, at.id);
    }
  }

  lemma HitRefused(h: Cells, at: Value, keys: seq<string>, value: Value, h': Cells)
    requires keys != [] && Coherent(h) && !FieldsCell(h, at)
    requires at.Shared? ==> at.id in h
    requires forall t :: Shows(h, at, t) ==> Shows(h', at, t)
    ensures Hit(h, at, keys, value, h', at, Refused(CannotSet(keys[0], TypeIn(h, at))))
  {
    forall t | Shows(h, at, t) ensures !IsFields(t) && TypeOf(t) == TypeIn(h, at) && Shows(h', at, t) {
      FieldsShown(h, at, t);
    }
  }

  lemma HitAfterCopy(h: Cells, at: Value, keys: seq<string>, value: Value,
                     h1: Cells, id: nat, h2: Cells, outcome: Outcome)
    requires keys != [] && FieldsCell(h, at) && Extends(h, h1) && id in h1 && SameContents(h[at.id], h1[id])
    requires Hit(h1, Shared(id), keys, value, h2, Shared(id), outcome)
    ensures Hit(h, at, keys, value, h2, Shared(id), outcome)
  {
    forall t, tv | Shows(h, at, t) && Shows(h, value, tv)
      ensures Shows(h1, Shared(id), t) && Shows(h1, value, tv)
    {
      ShowsExtended(h, h1, value, tv);
      forall i | 0 <= i < |t.kids| ensures Shows(h1, h1[id].items[i], t.kids[i]) {
        ShowsExtended(h, h1, h[at.id].items[i], t.kids[i]);
      }
    }
  }

  method SetIn(m: Memory, at: Value, keys: seq<string>, value: Value)
    returns (at': Value, outcome: Outcome)
    requires keys != [] && Idle(m) && InHand(m.heap, at, value)
    modifies m
    ensures Idle(m) && InHand(m.heap, at', Unit)
    ensures Moved(old(m.heap), at, value, m.heap, at', Unit)
    ensures Hit(old(m.heap), at, keys, value, m.heap, at', outcome)
    ensures old(FieldsCell(m.heap, at) && m.heap[at.id].count == 1) ==> at' == at
    ensures old(FieldsCell(m.heap, at) && m.heap[at.id].count > 1) ==>
      at'.Shared? && at'.id !in old(m.heap)
    decreases |keys|, 1
  {
    ghost var h := m.heap;
    if !(at.Shared? && at.id in m.heap && (m.heap[at.id].kind.Map? || m.heap[at.id].kind.Struct?)) {
      at' := at;
      AtIsThere(h, at, value);
      outcome := Refused(CannotSet(keys[0], TypeIn(m.heap, at)));
      DropHeld(m, at, value);
      HitRefused(h, at, keys, value, m.heap);
      return;
    }
    var id := MakeMut(m, at.id, value);
    ghost var h1 := m.heap;
    at' := Shared(id);
    if |keys| == 1 {
      PutField(m, id, keys[0], value);
      outcome := Done;
    } else {
      outcome := Descend(m, id, keys, value);
    }
    MovedThen(h, at, value, h1, at', value, m.heap, at', Unit);
    HitAfterCopy(h, at, keys, value, h1, id, m.heap, outcome);
  }

  lemma PutInNewMap(ks: seq<string>, v: Tree)
    requires ks != []
    ensures PutIn(EMPTY_MAP, ks, v).Ok?
    decreases |ks|
  {
    if |ks| > 1 {
      assert Field(EMPTY_MAP, ks[0]) == Nothing;
      PutInNewMap(ks[1..], v);
    }
  }

  /** Everything a write one level down has to show. */
  ghost predicate Below(h1: Cells, id: nat, keys: seq<string>, value: Value, h2: Cells, child: Value,
                        h2': Cells, level: Value, h3: Cells, below: Value, h4: Cells)
  {
    && |keys| > 1 && Open(h1, id, value)
    && |h1[id].keys| == |h1[id].items|
    && h2 == h1[id := Taken(h1[id], keys[0])] && child == Borrowed(h1[id], keys[0])
    && Extends(h2, h2')
    && (child != Unit ==> level == child && h2' == h2)
    && (child == Unit ==> Shows(h2', level, EMPTY_MAP))
    && Unseen(h2, child, value, h3) && Apart(h3, id, below, Unit)
    && h4 == h3[id := Filled(h3[id], IndexOf(h1[id].keys, keys[0]), below)]
  }

  lemma BelowStart(h1: Cells, id: nat, keys: seq<string>, value: Value, h2: Cells, child: Value,
                   h2': Cells, level: Value, h3: Cells, below: Value, h4: Cells, t: Tree, tv: Tree)
    requires Below(h1, id, keys, value, h2, child, h2', level, h3, below, h4)
    requires Shows(h1, Shared(id), t) && Shows(h1, value, tv)
    ensures IsFields(t) && Shows(h2', level, OrNewMap(Field(t, keys[0]))) && Shows(h2', value, tv)
  {
    OpenIsApart(h1, id, value);
    var tslot := BorrowedShown(h1, id, keys[0], value, t);
    ShowsBesideWrite(h1, h2, id, value, tv);
    ShowsExtended(h2, h2', value, tv);
  }

  lemma BelowEnd(h1: Cells, id: nat, keys: seq<string>, value: Value, h2: Cells, child: Value,
                 h2': Cells, level: Value, h3: Cells, below: Value, h4: Cells, t: Tree, tv: Tree)
    requires Below(h1, id, keys, value, h2, child, h2', level, h3, below, h4)
    requires Shows(h1, Shared(id), t) && IsFields(t)
    requires var sub := OrNewMap(Field(t, keys[0]));
      var r := PutIn(sub, keys[1..], tv);
      Shows(h3, below, if r.Ok? then r.value else sub)
    ensures var r := PutIn(OrNewMap(Field(t, keys[0])), keys[1..], tv);
      && (r.Ok? ==> PutIn(t, keys, tv).Ok? && Shows(h4, Shared(id), PutIn(t, keys, tv).value))
      && (r.Err? ==> PutIn(t, keys, tv) == Err(r.error) && Shows(h4, Shared(id), t))
  {
    var k := keys[0];
    var sub := OrNewMap(Field(t, k));
    match PutIn(sub, keys[1..], tv)
    case Ok(x) =>
      LevelShown(h1, id, k, value, h2, child, h3, below, Unit, h4, t, x);
    case Err(e) =>
      if sub == EMPTY_MAP {
        PutInNewMap(keys[1..], tv);
      }
      LevelShown(h1, id, k, value, h2, child, h3, below, Unit, h4, t, sub);
      var i := IndexOf(t.keys, k);
      assert t.kids[i := sub] == t.kids;
  }

  lemma DescendHit(h1: Cells, id: nat, keys: seq<string>, value: Value, h2: Cells, child: Value,
                   h2': Cells, level: Value, h3: Cells, below: Value, h4: Cells, outcome: Outcome)
    requires Below(h1, id, keys, value, h2, child, h2', level, h3, below, h4)
    requires Hit(h2', level, keys[1..], value, h3, below, outcome)
    ensures Hit(h1, Shared(id), keys, value, h4, Shared(id), outcome)
  {
    forall t, tv | Shows(h1, Shared(id), t) && Shows(h1, value, tv)
      ensures match PutIn(t, keys, tv)
              case Ok(t') => outcome.Done? && Shows(h4, Shared(id), t')
              case Err(e) => outcome == Refused(e) && Shows(h4, Shared(id), t)
    {
      BelowStart(h1, id, keys, value, h2, child, h2', level, h3, below, h4, t, tv);
      BelowEnd(h1, id, keys, value, h2, child, h2', level, h3, below, h4, t, tv);
    }
  }

  method Descend(m: Memory, id: nat, keys: seq<string>, value: Value) returns (outcome: Outcome)
    requires |keys| > 1 && Idle(m) && Open(m.heap, id, value)
    modifies m
    ensures Idle(m) && InHand(m.heap, Shared(id), Unit)
    ensures Moved(old(m.heap), Shared(id), value, m.heap, Shared(id), Unit)
    ensures Hit(old(m.heap), Shared(id), keys, value, m.heap, Shared(id), outcome)
    decreases |keys|, 0
  {
    ghost var h1 := m.heap;
    var k, c := keys[0], m.heap[id];
    assert CellOk(c);
    var child := Borrowed(c, k);
    SlotTaken(h1, id, k, value);
    m.heap := m.heap[id := Taken(c, k)];
    ghost var h2 := m.heap;
    var level := OpenLevel(m, child, value);
    ghost var h2' := m.heap;
    var below;
    below, outcome := SetIn(m, level, keys[1..], value);
    ghost var h3 := m.heap;
    MovedThen(h2, child, value, h2', level, value, h3, below, Unit);
    assert Apart(h3, id, below, Unit);
    m.heap := m.heap[id := Filled(m.heap[id], IndexOf(c.keys, k), below)];
    SlotWritten(h1, id, k, value, h2, child, h3, below, Unit, m.heap);
    DescendHit(h1, id, keys, value, h2, child, h2', level, h3, below, m.heap, outcome);
  }

  /** The level below: as it is, or a new map where there was nothing. */
  method OpenLevel(m: Memory, child: Value, ghost value: Value) returns (level: Value)
    requires Idle(m) && InHand(m.heap, child, value)
    modifies m`heap, m`next
    ensures Idle(m) && InHand(m.heap, level, value)
    ensures Extends(old(m.heap), m.heap)
    ensures Moved(old(m.heap), child, value, m.heap, level, value)
    ensures child != Unit ==> level == child && m.heap == old(m.heap)
    ensures child == Unit ==> Shows(m.heap, level, EMPTY_MAP)
  {
    forall k | k in m.heap ensures SameContents(m.heap[k], m.heap[k]) {
    }
    level := child;
    if child == Unit {
      var n := m.next;
      ghost var h' := NewMapMoved(m.heap, n, value);
      m.heap := m.heap[n := Cell(Map, 1, [], [])];
      m.next := n + 1;
      level := Shared(n);
    }
  }
}
