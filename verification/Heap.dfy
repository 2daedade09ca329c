/** The reference-counted heap that a program's values live in: cells shared by
    `Arc`, each with its count of holders, and the values that name them. A hold is
    counted wherever it is, in a cell, in a queue or in a caller's hands, and a box
    is an atom of its own. */
module Heap {

  /** A value. `Shared` names a counted cell (a list, tuple, map, struct, enum
      value or closure); `Boxed` is an `Ok` or `Err`, which owns its payload alone;
      `Scalar` stands for every value that holds no other. */
  datatype Value =
    | Unit
    | Scalar(n: int)
    | Boxed(isOk: bool, inner: Value)
    | Shared(id: nat)

  /** What a cell is. An enum value's cell remembers whether it carries data. A
      `Closure` is a function and what it captured, or any other shared value that
      its drop glue frees on its own. */
  datatype Kind = List | Map | Struct(typeName: string) | Enum(filled: bool) | Closure

  datatype Cell = Cell(kind: Kind, count: nat, keys: seq<string>, items: seq<Value>)

  type Cells = map<nat, Cell>

  /** What a value is made of: a hold on a cell, and the boxes it owns. */
  datatype Atom = Hold(id: nat) | Box

  ghost function Count(v: Value, a: Atom): nat {
    match v
    case Unit => 0
    case Scalar(_) => 0
    case Boxed(_, inner) => (if a == Box then 1 else 0) + Count(inner, a)
    case Shared(id) => if a == Hold(id) then 1 else 0
  }

  ghost function CountAll(vs: seq<Value>, a: Atom): nat {
    if vs == [] then 0 else Count(vs[0], a) + CountAll(vs[1..], a)
  }

  ghost function Holds(v: Value, id: nat): nat {
    Count(v, Hold(id))
  }

  ghost function HoldsAll(vs: seq<Value>, id: nat): nat {
    CountAll(vs, Hold(id))
  }

  /** How often `a` occurs inside the heap's cells. */
  ghost function Refs(h: Cells, a: Atom): nat {
    if h == map[] then 0
    else
      var id :| id in h;
      CountAll(h[id].items, a) + Refs(h - {id}, a)
  }

  /** The holds on a cell that no cell of the heap accounts for: those of the
      program's own variables, and of whatever is being dropped. */
  ghost function Outside(h: Cells, id: nat): int {
    (if id in h then h[id].count else 0) - Refs(h, Hold(id))
  }

  predicate Distinct<T(==)>(s: seq<T>) {
    forall i, j :: 0 <= i < j < |s| ==> s[i] != s[j]
  }

  ghost predicate CellOk(c: Cell) {
    && c.count >= 1
    && (c.kind.Map? || c.kind.Struct? ==> |c.keys| == |c.items| && Distinct(c.keys))
    && (c.kind == Enum(false) ==> c.items == [])
  }

  /** Every cell is held, and every hold inside the heap is counted by a cell
      that is there. */
  ghost predicate Coherent(h: Cells) {
    && (forall id {:trigger h[id]} :: id in h ==> CellOk(h[id]))
    && (forall id {:trigger Outside(h, id)} :: Outside(h, id) >= 0)
  }

  ghost predicate SameContents(c: Cell, c': Cell) {
    c.kind == c'.kind && c.keys == c'.keys && c.items == c'.items
  }

  /** `h'` is `h` with some cells gone and some counts lower: no cell that is
      left holds anything else than before. */
  ghost predicate Shrunk(h: Cells, h': Cells) {
    forall id {:trigger h'[id]} :: id in h' ==>
      && id in h
      && h'[id].count <= h[id].count
      && SameContents(h[id], h'[id])
  }

  // ── Facts about the sums ──

  lemma {:induction false} CountAllConcat(a: seq<Value>, b: seq<Value>, x: Atom)
    ensures CountAll(a + b, x) == CountAll(a, x) + CountAll(b, x)
  {
    if a == [] {
      assert a + b == b;
    } else {
      CountAllConcat(a[1..], b, x);
      assert (a + b)[1..] == a[1..] + b;
    }
  }

  lemma CountAllSplit(vs: seq<Value>, k: nat, x: Atom)
    requires k < |vs|
    ensures CountAll(vs, x) == CountAll(vs[..k], x) + Count(vs[k], x) + CountAll(vs[k + 1..], x)
  {
    CountAllConcat(vs[..k], vs[k..], x);
    assert vs == vs[..k] + vs[k..];
    assert vs[k..][1..] == vs[k + 1..];
  }

  lemma CountAllUpdate(vs: seq<Value>, k: nat, v: Value, x: Atom)
    requires k < |vs|
    ensures CountAll(vs[k := v], x) + Count(vs[k], x) == CountAll(vs, x) + Count(v, x)
  {
    CountAllSplit(vs, k, x);
    CountAllSplit(vs[k := v], k, x);
    assert vs[k := v][..k] == vs[..k];
    assert vs[k := v][k + 1..] == vs[k + 1..];
  }

  lemma CountAllLast(vs: seq<Value>, v: Value, x: Atom)
    ensures CountAll(vs + [v], x) == CountAll(vs, x) + Count(v, x)
  {
    CountAllConcat(vs, [v], x);
    CountAllOne(v, x);
  }

  lemma CountAllOne(v: Value, x: Atom)
    ensures CountAll([v], x) == Count(v, x)
  {
    assert [v][1..] == [];
  }

  /** The heap's sum is one cell's part and the rest's, whichever is taken. */
  lemma {:induction false} RefsAt(h: Cells, id: nat, x: Atom)
    requires id in h
    ensures Refs(h, x) == CountAll(h[id].items, x) + Refs(h - {id}, x)
    decreases |h|
  {
    var pick :| pick in h && Refs(h, x) == CountAll(h[pick].items, x) + Refs(h - {pick}, x);
    if pick != id {
      RefsAt(h - {pick}, id, x);
      RefsAt(h - {id}, pick, x);
      assert h - {pick} - {id} == h - {id} - {pick};
    }
  }

  lemma RefsUpdate(h: Cells, id: nat, c: Cell, x: Atom)
    requires id in h
    ensures Refs(h[id := c], x) == Refs(h, x) - CountAll(h[id].items, x) + CountAll(c.items, x)
  {
    RefsAt(h, id, x);
    RefsAt(h[id := c], id, x);
    assert h[id := c] - {id} == h - {id};
  }

  lemma RefsAdd(h: Cells, id: nat, c: Cell, x: Atom)
    requires id !in h
    ensures Refs(h[id := c], x) == Refs(h, x) + CountAll(c.items, x)
  {
    RefsAt(h[id := c], id, x);
    assert h[id := c] - {id} == h;
  }

  lemma {:induction false} HeldBySome(h: Cells, x: Atom) returns (id: nat)
    requires Refs(h, x) > 0
    ensures id in h && CountAll(h[id].items, x) > 0
    decreases |h|
  {
    id :| id in h && Refs(h, x) == CountAll(h[id].items, x) + Refs(h - {id}, x);
    if CountAll(h[id].items, x) == 0 {
      id := HeldBySome(h - {id}, x);
    }
  }

  // ── One step on one cell ──

  /** A count changed by `d`, what the cell holds left as it was. */
  lemma CountChanged(h: Cells, id: nat, d: int)
    requires Coherent(h) && id in h && h[id].count + d >= 1 && Outside(h, id) + d >= 0
    ensures var h' := h[id := h[id].(count := h[id].count + d)];
      && Coherent(h')
      && Refs(h', Box) == Refs(h, Box)
      && forall j {:trigger Outside(h', j)} :: Outside(h', j) == Outside(h, j) + (if j == id then d else 0)
  {
    var h' := h[id := h[id].(count := h[id].count + d)];
    RefsUpdate(h, id, h'[id], Box);
    forall j ensures Outside(h', j) == Outside(h, j) + (if j == id then d else 0) {
      RefsUpdate(h, id, h'[id], Hold(j));
    }
  }

  /** The last hold given up on a cell with nothing in it: the cell goes. */
  lemma CellRemoved(h: Cells, id: nat)
    requires Coherent(h) && id in h && h[id].count == 1 && h[id].items == [] && Outside(h, id) >= 1
    ensures Coherent(h - {id}) && Refs(h - {id}, Box) == Refs(h, Box)
    ensures forall j {:trigger Outside(h - {id}, j)} ::
      Outside(h - {id}, j) == Outside(h, j) - (if j == id then 1 else 0)
  {
    RefsAt(h, id, Box);
    forall j ensures Outside(h - {id}, j) == Outside(h, j) - (if j == id then 1 else 0) {
      RefsAt(h, id, Hold(j));
    }
  }

  /** One cell's items replaced: what it held before is held outside now, and
      what it holds now was. */
  lemma CellRefilled(h: Cells, id: nat, c: Cell)
    requires Coherent(h) && id in h && CellOk(c) && c.count == h[id].count
    requires forall j {:trigger Outside(h, j)} ::
      Outside(h, j) + HoldsAll(h[id].items, j) >= HoldsAll(c.items, j)
    ensures Coherent(h[id := c])
    ensures forall j {:trigger Outside(h[id := c], j)} ::
      Outside(h[id := c], j) == Outside(h, j) + HoldsAll(h[id].items, j) - HoldsAll(c.items, j)
    ensures Refs(h[id := c], Box) == Refs(h, Box) - CountAll(h[id].items, Box) + CountAll(c.items, Box)
  {
    RefsUpdate(h, id, c, Box);
    forall j {:trigger Outside(h[id := c], j)} ensures Outside(h[id := c], j)
      == Outside(h, j) + HoldsAll(h[id].items, j) - HoldsAll(c.items, j) >= 0
    {
      RefsUpdate(h, id, c, Hold(j));
    }
  }

  /** A new cell, holding what was held outside, and itself held once. */
  lemma CellAdded(h: Cells, id: nat, c: Cell)
    requires Coherent(h) && id !in h && CellOk(c) && c.count == 1
    requires forall j {:trigger Outside(h, j)} :: Outside(h, j) >= HoldsAll(c.items, j)
    ensures Coherent(h[id := c])
    ensures forall j {:trigger Outside(h[id := c], j)} ::
      Outside(h[id := c], j) == Outside(h, j) - HoldsAll(c.items, j) + (if j == id then 1 else 0)
    ensures Refs(h[id := c], Box) == Refs(h, Box) + CountAll(c.items, Box)
  {
    RefsAdd(h, id, c, Box);
    forall j {:trigger Outside(h[id := c], j)} ensures Outside(h[id := c], j)
      == Outside(h, j) - HoldsAll(c.items, j) + (if j == id then 1 else 0) >= 0
    {
      RefsAdd(h, id, c, Hold(j));
    }
  }
}
