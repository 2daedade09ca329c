/** What `map_get_in` and `map_set_in` mean, on values as trees, whatever the heap does. */
module NestedMap {
  import opened Heap
  import opened Wrappers

  /** A value's deep contents. Keys stand in the order each was first set. */
  datatype Tree =
    | Nothing
    | Leaf(n: int)
    | Wrapped(isOk: bool, inner: Tree)
    | Node(kind: Kind, keys: seq<string>, kids: seq<Tree>)

  datatype TypeName = UnitType | ScalarType | BoxType(isOk: bool) | CellType(kind: Kind)

  datatype PathError = CannotSet(key: string, found: TypeName)
                     | CannotRead(key: string, found: TypeName)
                     | NotAKey
                     | EmptyPath

  /** A key as a program writes it: its text, or a value no key can be. */
  datatype PathKey = Text(text: string) | Bad

  const EMPTY_MAP := Node(Map, [], [])

  function TypeOf(t: Tree): TypeName {
    match t
    case Nothing => UnitType
    case Leaf(_) => ScalarType
    case Wrapped(isOk, _) => BoxType(isOk)
    case Node(kind, _, _) => CellType(kind)
  }

  predicate IsFields(t: Tree) {
    t.Node? && (t.kind.Map? || t.kind.Struct?) && |t.keys| == |t.kids|
  }

  /** Where `k` stands among `keys`; their number when it does not. */
  function IndexOf(keys: seq<string>, k: string): (i: nat)
    ensures i <= |keys|
    ensures i < |keys| ==> keys[i] == k
    ensures forall j :: 0 <= j < i ==> keys[j] != k
  {
    if keys == [] || keys[0] == k then 0 else 1 + IndexOf(keys[1..], k)
  }

  function Field(t: Tree, k: string): Tree
    requires IsFields(t)
  {
    var i := IndexOf(t.keys, k);
    if i < |t.keys| then t.kids[i] else Nothing
  }

  function WithField(t: Tree, k: string, v: Tree): Tree
    requires IsFields(t)
  {
    var i := IndexOf(t.keys, k);
    if i < |t.keys| then t.(kids := t.kids[i := v])
    else t.(keys := t.keys + [k], kids := t.kids + [v])
  }

  function OrNewMap(t: Tree): Tree {
    if t.Nothing? then EMPTY_MAP else t
  }

  /** The write: a missing level is made a new map. */
  function PutIn(t: Tree, ks: seq<string>, v: Tree): Result<Tree, PathError>
    requires ks != []
    decreases |ks|
  {
    if !IsFields(t) then Err(CannotSet(ks[0], TypeOf(t)))
    else if |ks| == 1 then Ok(WithField(t, ks[0], v))
    else
      match PutIn(OrNewMap(Field(t, ks[0])), ks[1..], v)
      case Ok(kid) => Ok(WithField(t, ks[0], kid))
      case Err(e) => Err(e)
  }

  /** The read: the first missing level answers `Nothing`. */
  function GetIn(t: Tree, ks: seq<string>): Result<Tree, PathError>
    decreases |ks|
  {
    if ks == [] then Ok(t)
    else if IsFields(t) then GetIn(Field(t, ks[0]), ks[1..])
    else if t.Nothing? then Ok(Nothing)
    else Err(CannotRead(ks[0], TypeOf(t)))
  }

  // ── The builtins ──

  /** `map_get_in` over keys as written: one that is no key is an error only if
      the walk comes to it. */
  function Read(t: Tree, path: seq<PathKey>): Result<Tree, PathError>
    decreases |path|
  {
    if path == [] then Ok(t)
    else if path[0].Bad? then Err(NotAKey)
    else if IsFields(t) then Read(Field(t, path[0].text), path[1..])
    else if t.Nothing? then Ok(Nothing)
    else Err(CannotRead(path[0].text, TypeOf(t)))
  }

  method MapGetIn(t: Tree, path: seq<PathKey>) returns (r: Result<Tree, PathError>)
    ensures r == Read(t, path)
  {
    var current := t;
    for i := 0 to |path|
      invariant Read(t, path) == Read(current, path[i..])
    {
      if path[i].Bad? {
        return Err(NotAKey);
      }
      if IsFields(current) {
        current := Field(current, path[i].text);
      } else if current.Nothing? {
        return Ok(Nothing);
      } else {
        return Err(CannotRead(path[i].text, TypeOf(current)));
      }
    }
    r := Ok(current);
  }

  function Texts(path: seq<PathKey>): Result<seq<string>, PathError> {
    if path == [] then Ok([])
    else if path[0].Bad? then Err(NotAKey)
    else
      match Texts(path[1..])
      case Ok(ks) => Ok([path[0].text] + ks)
      case Err(e) => Err(e)
  }

  /** `map_set_in` refuses a path with something that is no key, or no key at
      all, before it writes. */
  function MapSetIn(t: Tree, path: seq<PathKey>, v: Tree): Result<Tree, PathError> {
    match Texts(path)
    case Err(e) => Err(e)
    case Ok(ks) => if ks == [] then Err(EmptyPath) else PutIn(t, ks, v)
  }

  lemma {:induction false} TextsAre(path: seq<PathKey>)
    ensures Texts(path) == Err(NotAKey) <==> exists i :: 0 <= i < |path| && path[i].Bad?
    ensures Texts(path).Ok? || Texts(path) == Err(NotAKey)
    ensures Texts(path).Ok? ==> |Texts(path).value| == |path|
    ensures Texts(path).Ok? ==> forall i :: 0 <= i < |path| ==> path[i] == Text(Texts(path).value[i])
  {
    if path != [] {
      TextsAre(path[1..]);
      if i :| 0 <= i < |path| && path[i].Bad? {
        assert i > 0 ==> path[1..][i - 1].Bad?;
      }
      if i :| 0 <= i < |path[1..]| && path[1..][i].Bad? {
        assert path[i + 1].Bad?;
      }
    }
  }

  lemma {:induction false} PutRefusesKinds(t: Tree, ks: seq<string>, v: Tree)
    requires ks != [] && PutIn(t, ks, v).Err?
    ensures PutIn(t, ks, v).error.CannotSet?
    decreases |ks|
  {
    if IsFields(t) {
      PutRefusesKinds(OrNewMap(Field(t, ks[0])), ks[1..], v);
    }
  }

  /** A path is refused for a key that is none exactly when it has one, wherever it
      stands and whatever the target; for being empty exactly when it is; and a path
      refused for neither is written along its texts. */
  lemma RefusedBeforeWriting(t: Tree, path: seq<PathKey>, v: Tree)
    ensures MapSetIn(t, path, v) == Err(NotAKey) <==> exists i :: 0 <= i < |path| && path[i].Bad?
    ensures MapSetIn(t, path, v) == Err(EmptyPath) <==> path == []
    ensures path != [] && Texts(path).Ok? ==> MapSetIn(t, path, v) == PutIn(t, Texts(path).value, v)
  {
    TextsAre(path);
    if path != [] && Texts(path).Ok? && PutIn(t, Texts(path).value, v).Err? {
      PutRefusesKinds(t, Texts(path).value, v);
    }
  }

  lemma {:induction false} ReadTexts(t: Tree, path: seq<PathKey>)
    requires Texts(path).Ok?
    ensures Read(t, path) == GetIn(t, Texts(path).value)
    decreases |path|
  {
    if path != [] {
      assert Texts(path).value[1..] == Texts(path[1..]).value;
      if IsFields(t) {
        ReadTexts(Field(t, path[0].text), path[1..]);
      }
    }
  }

  /** The value written is the value read back, through the builtins. */
  lemma SetThenGet(t: Tree, path: seq<PathKey>, v: Tree)
    requires MapSetIn(t, path, v).Ok?
    ensures Read(MapSetIn(t, path, v).value, path) == Ok(v)
  {
    var ks := Texts(path).value;
    PutThenGet(t, ks, v);
    ReadTexts(PutIn(t, ks, v).value, path);
  }

  // ── One level ──

  lemma {:induction false} IndexOfAppend(keys: seq<string>, k: string, q: string)
    requires IndexOf(keys, k) == |keys|
    ensures IndexOf(keys + [k], q)
      == if q == k then |keys| else if IndexOf(keys, q) < |keys| then IndexOf(keys, q) else |keys| + 1
  {
    if keys != [] {
      IndexOfAppend(keys[1..], k, q);
      assert (keys + [k])[1..] == keys[1..] + [k];
    }
  }

  lemma FieldOfWithField(t: Tree, k: string, v: Tree, q: string)
    requires IsFields(t)
    ensures IsFields(WithField(t, k, v))
    ensures Field(WithField(t, k, v), q) == if q == k then v else Field(t, q)
  {
    if IndexOf(t.keys, k) == |t.keys| {
      IndexOfAppend(t.keys, k, q);
    } else if q != k {
      var i, j := IndexOf(t.keys, k), IndexOf(t.keys, q);
      assert j < |t.keys| ==> t.keys[i] != t.keys[j];
    }
  }

  lemma WithFieldTwice(t: Tree, k: string, v: Tree, w: Tree)
    requires IsFields(t)
    ensures IsFields(WithField(t, k, v))
    ensures WithField(WithField(t, k, v), k, w) == WithField(t, k, w)
  {
    FieldOfWithField(t, k, v, k);
    if IndexOf(t.keys, k) == |t.keys| {
      IndexOfAppend(t.keys, k, k);
      assert (t.kids + [v])[|t.keys| := w] == t.kids + [w];
    }
  }

  // ── The laws ──

  lemma {:induction false} PutThenGet(t: Tree, ks: seq<string>, v: Tree)
    requires ks != [] && PutIn(t, ks, v).Ok?
    ensures GetIn(PutIn(t, ks, v).value, ks) == Ok(v)
    decreases |ks|
  {
    if |ks| == 1 {
      FieldOfWithField(t, ks[0], v, ks[0]);
      assert ks[1..] == [];
    } else {
      var kid := OrNewMap(Field(t, ks[0]));
      PutThenGet(kid, ks[1..], v);
      FieldOfWithField(t, ks[0], PutIn(kid, ks[1..], v).value, ks[0]);
    }
  }

  /** What a write leaves is a map or struct, so a later write goes through it. */
  lemma PutIsFields(t: Tree, ks: seq<string>, v: Tree)
    requires ks != [] && PutIn(t, ks, v).Ok?
    ensures IsFields(PutIn(t, ks, v).value) && PutIn(t, ks, v).value.kind == t.kind
  {
    var x := if |ks| == 1 then v else PutIn(OrNewMap(Field(t, ks[0])), ks[1..], v).value;
    FieldOfWithField(t, ks[0], x, ks[0]);
  }

  /** A second write at a path wins. */
  lemma {:induction false} PutThenPut(t: Tree, ks: seq<string>, v: Tree, w: Tree)
    requires ks != [] && PutIn(t, ks, v).Ok?
    ensures PutIn(PutIn(t, ks, v).value, ks, w) == PutIn(t, ks, w)
    decreases |ks|
  {
    if |ks| == 1 {
      WithFieldTwice(t, ks[0], v, w);
    } else {
      var kid := OrNewMap(Field(t, ks[0]));
      PutThenPut(kid, ks[1..], v, w);
      PutIsFields(kid, ks[1..], v);
      var kid' := PutIn(kid, ks[1..], v).value;
      FieldOfWithField(t, ks[0], kid', ks[0]);
      assert OrNewMap(kid') == kid';
      if PutIn(kid, ks[1..], w).Ok? {
        WithFieldTwice(t, ks[0], kid', PutIn(kid, ks[1..], w).value);
      }
    }
  }

  /** The path is there: each level a map or struct with its key. */
  predicate Present(t: Tree, ks: seq<string>) {
    ks == [] || (IsFields(t) && ks[0] in t.keys && Present(Field(t, ks[0]), ks[1..]))
  }

  lemma InIsIndexed(keys: seq<string>, k: string)
    ensures k in keys <==> IndexOf(keys, k) < |keys|
  {
  }

  /** Writing back what a path reads changes nothing exactly when the path is
      there; a missing one is made. */
  lemma {:induction false} GetThenPut(t: Tree, ks: seq<string>)
    requires ks != [] && GetIn(t, ks).Ok?
    ensures PutIn(t, ks, GetIn(t, ks).value) == Ok(t) <==> Present(t, ks)
    decreases |ks|
  {
    var v := GetIn(t, ks).value;
    if !IsFields(t) {
      return;
    }
    InIsIndexed(t.keys, ks[0]);
    if |ks| == 1 {
      assert ks[1..] == [] && v == Field(t, ks[0]);
      var i := IndexOf(t.keys, ks[0]);
      assert i < |t.keys| ==> t.kids[i := v] == t.kids;
    } else {
      var prior := Field(t, ks[0]);
      var kid := OrNewMap(prior);
      if PutIn(kid, ks[1..], v).Err? {
        GetThenPut(prior, ks[1..]);
        return;
      }
      var kid' := PutIn(kid, ks[1..], v).value;
      if prior.Nothing? {
        PutIsFields(kid, ks[1..], v);
        FieldOfWithField(t, ks[0], kid', ks[0]);
      } else {
        GetThenPut(prior, ks[1..]);
        FieldOfWithField(t, ks[0], kid', ks[0]);
        if kid' == prior {
          var i := IndexOf(t.keys, ks[0]);
          assert t.kids[i := prior] == t.kids;
        }
      }
    }
  }

  /** Two paths part at some level they both have. */
  predicate Diverge(ks: seq<string>, qs: seq<string>) {
    ks != [] && qs != [] && (ks[0] != qs[0] || Diverge(ks[1..], qs[1..]))
  }

  /** A write is not seen along a path that parts from its own. */
  lemma {:induction false} PutElsewhere(t: Tree, ks: seq<string>, v: Tree, qs: seq<string>)
    requires ks != [] && PutIn(t, ks, v).Ok? && Diverge(ks, qs)
    ensures GetIn(PutIn(t, ks, v).value, qs) == GetIn(t, qs)
    decreases |ks|
  {
    var x := if |ks| == 1 then v else PutIn(OrNewMap(Field(t, ks[0])), ks[1..], v).value;
    FieldOfWithField(t, ks[0], x, qs[0]);
    if ks[0] == qs[0] {
      var prior := Field(t, ks[0]);
      PutElsewhere(OrNewMap(prior), ks[1..], v, qs[1..]);
      if prior.Nothing? {
        ReadOfEmptyMap(qs[1..]);
        assert GetIn(Nothing, qs[1..]) == Ok(Nothing);
      }
    }
  }

  lemma ReadOfEmptyMap(qs: seq<string>)
    requires qs != []
    ensures GetIn(EMPTY_MAP, qs) == Ok(Nothing)
  {
    assert Field(EMPTY_MAP, qs[0]) == Nothing;
  }

  /** A write goes through exactly when the target is a map or struct and every
      level on the way is one too or is missing. */
  lemma {:induction false} PutGoesThrough(t: Tree, ks: seq<string>, v: Tree)
    requires ks != []
    ensures PutIn(t, ks, v).Ok? <==>
      IsFields(t) && forall i :: 0 < i < |ks| ==>
        var r := GetIn(t, ks[..i]); r.Ok? && (IsFields(r.value) || r.value.Nothing?)
    decreases |ks|
  {
    if |ks| > 1 && IsFields(t) {
      var kid := Field(t, ks[0]);
      forall i | 0 < i < |ks| ensures GetIn(t, ks[..i]) == GetIn(kid, ks[1..][..i - 1]) {
        assert ks[..i][1..] == ks[1..][..i - 1];
      }
      assert GetIn(t, ks[..1]) == Ok(kid);
      if kid.Nothing? {
        PutGoesThrough(EMPTY_MAP, ks[1..], v);
        forall i | 0 < i < |ks[1..]| ensures GetIn(EMPTY_MAP, ks[1..][..i]) == Ok(Nothing) {
          ReadOfEmptyMap(ks[1..][..i]);
        }
        forall i | 0 < i < |ks| ensures GetIn(t, ks[..i]) == Ok(Nothing) {
        }
      } else {
        PutGoesThrough(kid, ks[1..], v);
        forall i | 0 < i < |ks[1..]| ensures GetIn(kid, ks[1..][..i]) == GetIn(t, ks[..i + 1]) {
        }
      }
    }
  }

  /** Along the path written, the keys that were there keep their order: each
      level has the keys it had, and at most one more at the end. */
  lemma {:induction false} PutKeepsOrder(t: Tree, ks: seq<string>, v: Tree, i: nat)
    requires ks != [] && PutIn(t, ks, v).Ok? && i < |ks|
    requires GetIn(t, ks[..i]).Ok? && IsFields(GetIn(t, ks[..i]).value)
    ensures var before, after := GetIn(t, ks[..i]).value, GetIn(PutIn(t, ks, v).value, ks[..i]);
      && after.Ok? && IsFields(after.value)
      && after.value.kind == before.kind
      && after.value.keys == if ks[i] in before.keys then before.keys else before.keys + [ks[i]]
    decreases |ks|
  {
    var x := if |ks| == 1 then v else PutIn(OrNewMap(Field(t, ks[0])), ks[1..], v).value;
    FieldOfWithField(t, ks[0], x, ks[0]);
    InIsIndexed(t.keys, ks[0]);
    if i > 0 {
      var prior := Field(t, ks[0]);
      assert ks[..i][1..] == ks[1..][..i - 1];
      PutKeepsOrder(prior, ks[1..], v, i - 1);
    }
  }

  /** A level that was missing is a new map with the one key. */
  lemma {:induction false} MissingIsNewMap(t: Tree, ks: seq<string>, v: Tree, i: nat)
    requires 0 < i < |ks| && PutIn(t, ks, v).Ok? && GetIn(t, ks[..i]) == Ok(Nothing)
    ensures var after := GetIn(PutIn(t, ks, v).value, ks[..i]);
      && after.Ok? && after.value.Node? && after.value.kind == Map
      && after.value.keys == [ks[i]] && |after.value.kids| == 1
    decreases |ks|
  {
    var kid := OrNewMap(Field(t, ks[0]));
    var x := PutIn(kid, ks[1..], v).value;
    FieldOfWithField(t, ks[0], x, ks[0]);
    assert ks[..i][0] == ks[0] && ks[..i][1..] == ks[1..][..i - 1];
    if i > 1 {
      if Field(t, ks[0]).Nothing? {
        ReadOfEmptyMap(ks[1..][..i - 1]);
      }
      MissingIsNewMap(kid, ks[1..], v, i - 1);
    } else {
      assert ks[..1][1..] == [];
      assert IndexOf([], ks[1]) == 0;
    }
  }

  /** A refusal names the key, and what stands there instead of a map or struct. */
  lemma {:induction false} PutErrorNames(t: Tree, ks: seq<string>, v: Tree) returns (i: nat)
    requires ks != [] && PutIn(t, ks, v).Err?
    ensures i < |ks| && GetIn(t, ks[..i]).Ok? && !IsFields(GetIn(t, ks[..i]).value)
    ensures PutIn(t, ks, v).error == CannotSet(ks[i], TypeOf(GetIn(t, ks[..i]).value))
    ensures i > 0 ==> !GetIn(t, ks[..i]).value.Nothing?
    decreases |ks|
  {
    if !IsFields(t) {
      i := 0;
    } else {
      var kid := Field(t, ks[0]);
      i := PutErrorNames(OrNewMap(kid), ks[1..], v);
      if kid.Nothing? && i > 0 {
        ReadOfEmptyMap(ks[1..][..i]);
      }
      i := i + 1;
      assert ks[..i][0] == ks[0] && ks[..i][1..] == ks[1..][..i - 1];
    }
  }

  /** A read goes on while it meets maps and structs. A key that is none is refused if it
      is come to; past unit all reads are unit; past anything else the read names the key
      and what it met. */
  lemma {:induction false} ReadStops(t: Tree, path: seq<PathKey>) returns (i: nat)
    ensures i <= |path| && (forall j :: 0 <= j < i ==> path[j].Text?) && Reads(t, path[..i]).Some?
    ensures i == |path| ==> Read(t, path) == Ok(Reads(t, path[..i]).value)
    ensures i < |path| && path[i].Bad? ==> Read(t, path) == Err(NotAKey)
    ensures i < |path| && path[i].Text? ==>
      var here := Reads(t, path[..i]).value;
      && !IsFields(here)
      && Read(t, path) == if here.Nothing? then Ok(Nothing) else Err(CannotRead(path[i].text, TypeOf(here)))
    decreases |path|
  {
    assert path[..0] == [];
    if path == [] || path[0].Bad? || !IsFields(t) {
      i := 0;
    } else {
      i := ReadStops(Field(t, path[0].text), path[1..]);
      assert path[1..][..i] == path[..i + 1][1..];
      i := i + 1;
      if i == |path| {
        assert path[..i] == path;
      }
    }
  }

  /** What stands at the end of keys that each name a field of a map or struct. */
  function Reads(t: Tree, path: seq<PathKey>): Option<Tree>
    decreases |path|
  {
    if path == [] then Some(t)
    else if path[0].Text? && IsFields(t) then Reads(Field(t, path[0].text), path[1..])
    else None
  }
}
