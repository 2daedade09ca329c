/** The interpreter's binding of a named call, by moving its values, and what ties it
    to the compiler's plan and to the arguments themselves: each argument given
    stands in one place of the call. */
module NamedBinding {
  import opened NamedArgs
  import opened Wrappers

  // ── What a layout that stands means ──

  /** Each name was written once, is given by name alone, and is a parameter or an
      option the signature takes. */
  ghost predicate GoodName(sig: Sig, nPos: nat, names: seq<string>, j: nat)
    requires j < |names|
  {
    && names[j] !in names[..j]
    && match Position(sig.params, names[j])
       case Some(i) => i >= nPos
       case None => TakesOption(sig, names[j])
  }

  /** The layout `lay` reaches every name's place. */
  ghost predicate Reaches(sig: Sig, names: seq<string>, lay: Layout, j: nat)
    requires j < |names|
  {
    match Position(sig.params, names[j])
    case Some(i) => i < lay.len
    case None => lay.options
  }

  lemma {:induction false} CheckedIs(sig: Sig, nPos: nat, names: seq<string>, j: nat, lay: Layout)
    requires j <= |names|
    ensures var r := CheckedNames(sig, nPos, names, j, lay);
      && (r.Ok? <==> forall k :: j <= k < |names| ==> GoodName(sig, nPos, names, k))
      && (r.Ok? ==> r.value.len >= lay.len && (lay.options ==> r.value.options))
      && (r.Ok? ==> forall k :: j <= k < |names| ==> Reaches(sig, names, r.value, k))
    decreases |names| - j
  {
    if j < |names| {
      var at := Position(sig.params, names[j]);
      var next := if at.Some? then lay.(len := Max(lay.len, at.value + 1)) else lay.(options := true);
      CheckedIs(sig, nPos, names, j + 1, next);
      CheckedNext(sig, nPos, names, j, lay, next);
    }
  }

  lemma CheckedNext(sig: Sig, nPos: nat, names: seq<string>, j: nat, lay: Layout, next: Layout)
    requires j < |names|
    requires next == if Position(sig.params, names[j]).Some?
                     then lay.(len := Max(lay.len, Position(sig.params, names[j]).value + 1))
                     else lay.(options := true)
    ensures GoodName(sig, nPos, names, j) ==>
      CheckedNames(sig, nPos, names, j, lay) == CheckedNames(sig, nPos, names, j + 1, next)
    ensures !GoodName(sig, nPos, names, j) ==> CheckedNames(sig, nPos, names, j, lay).Err?
  {
  }

  /** A layout reaches no further than it must. */
  lemma {:induction false} CheckedReach(sig: Sig, nPos: nat, names: seq<string>, j: nat, lay: Layout)
    requires j <= |names| && CheckedNames(sig, nPos, names, j, lay).Ok?
    ensures var r := CheckedNames(sig, nPos, names, j, lay).value;
      && (r.options ==> lay.options || exists k :: j <= k < |names| && IsOption(sig, names[k]))
      && (r.len == lay.len || exists k :: j <= k < |names| && Position(sig.params, names[k]) == Some(r.len - 1))
      && r.len <= Max(lay.len, |sig.params|)
    decreases |names| - j
  {
    if j < |names| {
      PositionIs(sig.params, names[j]);
      match Position(sig.params, names[j])
      case Some(i) => CheckedReach(sig, nPos, names, j + 1, lay.(len := Max(lay.len, i + 1)));
      case None => CheckedReach(sig, nPos, names, j + 1, lay.(options := true));
    }
  }

  // ── Each argument has one place ──

  lemma {:induction false} PlaceIs(names: seq<string>, name: string)
    ensures match PlaceOf(names, name)
            case Some(j) => j < |names| && names[j] == name && forall k :: 0 <= k < j ==> names[k] != name
            case None => name !in names
  {
    if names != [] {
      PlaceIs(names[1..], name);
      assert forall k :: 1 <= k < |names| ==> names[k] == names[1..][k - 1];
    }
  }

  ghost predicate DistinctNames(names: seq<string>) {
    forall j, k :: 0 <= j < k < |names| ==> names[j] != names[k]
  }

  lemma PlaceOfIts(names: seq<string>, j: nat)
    requires DistinctNames(names) && j < |names|
    ensures PlaceOf(names, names[j]) == Some(j)
  {
    PlaceIs(names, names[j]);
  }

  lemma PositionOfIts(sig: Sig, i: nat)
    requires DistinctParams(sig) && i < |sig.params|
    ensures Position(sig.params, sig.params[i].name) == Some(i)
  {
    PositionIs(sig.params, sig.params[i].name);
  }

  lemma {:induction false} EntryIs(sig: Sig, nPos: nat, names: seq<string>, m: nat)
    requires m <= |names|
    ensures forall e {:trigger e in Entries(sig, nPos, names, m)} :: e in Entries(sig, nPos, names, m) <==>
      exists j :: 0 <= j < m && IsOption(sig, names[j]) && e == (names[j], nPos + j)
  {
    if m > 0 {
      EntryIs(sig, nPos, names, m - 1);
    }
  }

  /** The slot an argument belongs to: its own place, its parameter's, or the options. */
  function Owner(sig: Sig, nPos: nat, names: seq<string>, k: nat): nat
    requires k < nPos + |names|
  {
    if k < nPos then k
    else match Position(sig.params, names[k - nPos])
      case Some(i) => i
      case None => |sig.params|
  }

  lemma SlotUsesItsOwn(sig: Sig, lay: Layout, nPos: nat, names: seq<string>, i: nat, k: nat)
    requires DistinctParams(sig) && i < Max(nPos, if lay.options then |sig.params| + 1 else |sig.params|)
    requires k in Uses(SlotAt(sig, lay, nPos, names, i))
    ensures k < nPos + |names| && Owner(sig, nPos, names, k) == i
  {
    if lay.options && i == |sig.params| {
      EntryIs(sig, nPos, names, |names|);
      var entries := Entries(sig, nPos, names, |names|);
      if !(i < nPos && k == i) {
        var e :| 0 <= e < |entries| && entries[e].1 == k;
        assert entries[e] in entries;
      }
    } else if i >= nPos && i < |sig.params| {
      PlaceIs(names, sig.params[i].name);
      PositionOfIts(sig, i);
    }
  }

  /** The layout that stands when every name is good. */
  ghost predicate Stands(sig: Sig, lay: Layout, nPos: nat, names: seq<string>) {
    && DistinctParams(sig)
    && (forall k {:trigger names[k]} :: 0 <= k < |names| ==>
          GoodName(sig, nPos, names, k) && Reaches(sig, names, lay, k))
    && nPos <= lay.len <= Max(nPos, |sig.params| + 1)
    && (lay.options ==> lay.len >= |sig.params| + 1)
    && (!lay.options ==> lay.len <= Max(nPos, |sig.params|))
  }

  lemma LayoutStands(sig: Sig, nPos: nat, names: seq<string>)
    requires DistinctParams(sig) && LayoutOf(Some(sig), nPos, names).Ok?
    ensures var r := LayoutOf(Some(sig), nPos, names).value; r.0 == sig && Stands(sig, r.1, nPos, names)
  {
    var lay := Layout(nPos, false);
    CheckedIs(sig, nPos, names, 0, lay);
    CheckedReach(sig, nPos, names, 0, lay);
    var checked := CheckedNames(sig, nPos, names, 0, lay).value;
    assert LayoutOf(Some(sig), nPos, names).value == (sig, Whole(sig, checked));
    forall k | 0 <= k < |names| ensures GoodName(sig, nPos, names, k) && Reaches(sig, names, Whole(sig, checked), k) {
      assert Reaches(sig, names, checked, k);
    }
  }

  lemma GoodNamesDistinct(sig: Sig, nPos: nat, names: seq<string>)
    requires forall k :: 0 <= k < |names| ==> GoodName(sig, nPos, names, k)
    ensures DistinctNames(names)
  {
    forall j, k | 0 <= j < k < |names| ensures names[j] != names[k] {
      assert GoodName(sig, nPos, names, k) && names[j] in names[..k];
    }
  }

  /** Each argument given stands in exactly one slot of the plan: its owner. */
  lemma UsedExactlyOnce(sig: Sig, lay: Layout, nPos: nat, names: seq<string>, i: nat, k: nat)
    requires Stands(sig, lay, nPos, names) && i < lay.len && k < nPos + |names|
    ensures k in Uses(SlotAt(sig, lay, nPos, names, i)) <==> i == Owner(sig, nPos, names, k)
    ensures Owner(sig, nPos, names, k) < lay.len
  {
    OwnerUses(sig, lay, nPos, names, k);
    if k in Uses(SlotAt(sig, lay, nPos, names, i)) {
      SlotUsesItsOwn(sig, lay, nPos, names, i, k);
    }
  }

  lemma OwnerUses(sig: Sig, lay: Layout, nPos: nat, names: seq<string>, k: nat)
    requires Stands(sig, lay, nPos, names) && k < nPos + |names|
    ensures Owner(sig, nPos, names, k) < lay.len
    ensures k in Uses(SlotAt(sig, lay, nPos, names, Owner(sig, nPos, names, k)))
  {
    if k >= nPos {
      var j := k - nPos;
      assert GoodName(sig, nPos, names, j) && Reaches(sig, names, lay, j);
      PositionIs(sig.params, names[j]);
      if IsOption(sig, names[j]) {
        EntryIs(sig, nPos, names, |names|);
        var entries := Entries(sig, nPos, names, |names|);
        assert (names[j], nPos + j) in entries;
        var e :| 0 <= e < |entries| && entries[e] == (names[j], nPos + j);
        assert entries[e].1 == k;
      } else {
        GoodNamesDistinct(sig, nPos, names);
        PlaceOfIts(names, j);
      }
    }
  }

  lemma SlotsInRange(sig: Sig, lay: Layout, nPos: nat, names: seq<string>)
    requires Stands(sig, lay, nPos, names)
    ensures forall i :: 0 <= i < lay.len ==> InRange(SlotAt(sig, lay, nPos, names, i), nPos + |names|)
  {
    forall i, k | 0 <= i < lay.len && k in Uses(SlotAt(sig, lay, nPos, names, i)) ensures k < nPos + |names| {
      SlotUsesItsOwn(sig, lay, nPos, names, i, k);
    }
  }

  /** Every index of a plan is one of the call's arguments. */
  lemma PlanInRange(found: Option<Sig>, nPos: nat, names: seq<string>)
    requires found.Some? ==> DistinctParams(found.value)
    ensures Planned(found, nPos, names).Ok? ==>
      forall i :: 0 <= i < |Planned(found, nPos, names).value| ==>
        InRange(Planned(found, nPos, names).value[i], nPos + |names|)
  {
    if LayoutOf(found, nPos, names).Ok? {
      LayoutStands(found.value, nPos, names);
      SlotsInRange(found.value, LayoutOf(found, nPos, names).value.1, nPos, names);
    }
  }

  // ── Binding by moving ──

  /** What the plan of a call reads from its values. */
  ghost function PlanRead(found: Option<Sig>, nPos: nat, names: seq<string>, vals: seq<Value>)
    : Result<seq<Value>, Fault>
    requires found.Some? ==> DistinctParams(found.value)
    requires |vals| == nPos + |names|
  {
    PlanInRange(found, nPos, names);
    match Planned(found, nPos, names)
    case Err(fault) => Err(fault)
    case Ok(slots) => ReadSlots(slots, vals)
  }

  /** The values that slots from the `i`th on own are still in place. */
  ghost predicate Intact(sig: Sig, nPos: nat, names: seq<string>, vals: seq<Value>, left: seq<Value>, i: nat) {
    && |left| == |vals| == nPos + |names|
    && forall k {:trigger left[k]} :: 0 <= k < |left| && Owner(sig, nPos, names, k) >= i ==> left[k] == vals[k]
  }

  /** Takes a value out, leaving nothing in its place. */
  method Take(left: seq<Value>, k: nat) returns (v: Value, rest: seq<Value>)
    requires k < |left|
    ensures v == left[k] && rest == left[k := Unit]
  {
    v := left[k];
    rest := left[k := Unit];
  }

  lemma {:induction false} EntriesReach(sig: Sig, nPos: nat, names: seq<string>, m: nat)
    requires m <= |names|
    ensures forall i :: 0 <= i < |Entries(sig, nPos, names, m)| ==> Entries(sig, nPos, names, m)[i].1 < nPos + m
  {
    if m > 0 {
      EntriesReach(sig, nPos, names, m - 1);
    }
  }

  /** Before the `m`th name is looked at, its option is still in place. */
  ghost predicate OptionsLeft(sig: Sig, nPos: nat, names: seq<string>, vals: seq<Value>, left: seq<Value>, m: nat) {
    && |left| == |vals| == nPos + |names|
    && (forall k {:trigger left[k]} :: 0 <= k < |left| && Owner(sig, nPos, names, k) > |sig.params| ==>
          left[k] == vals[k])
    && (forall k {:trigger left[k]} :: nPos + m <= k < |left| && Owner(sig, nPos, names, k) == |sig.params| ==>
          left[k] == vals[k])
  }

  ghost function EntriesRead(sig: Sig, nPos: nat, names: seq<string>, vals: seq<Value>, m: nat): seq<(string, Value)>
    requires |vals| == nPos + |names| && m <= |names|
  {
    EntriesReach(sig, nPos, names, m);
    ReadEntries(Entries(sig, nPos, names, m), vals)
  }

  lemma EntriesReadNext(sig: Sig, nPos: nat, names: seq<string>, vals: seq<Value>, m: nat)
    requires |vals| == nPos + |names| && m < |names|
    ensures EntriesRead(sig, nPos, names, vals, m + 1) == EntriesRead(sig, nPos, names, vals, m)
      + if IsOption(sig, names[m]) then [(names[m], vals[nPos + m])] else []
  {
  }

  method TakeOptions(sig: Sig, nPos: nat, names: seq<string>, ghost vals: seq<Value>, held: seq<Value>)
    returns (entries: seq<(string, Value)>, left: seq<Value>)
    requires OptionsLeft(sig, nPos, names, vals, held, 0)
    ensures entries == EntriesRead(sig, nPos, names, vals, |names|)
    ensures Intact(sig, nPos, names, vals, left, |sig.params| + 1)
  {
    entries, left := [], held;
    for j := 0 to |names|
      invariant entries == EntriesRead(sig, nPos, names, vals, j)
      invariant OptionsLeft(sig, nPos, names, vals, left, j)
    {
      EntriesReadNext(sig, nPos, names, vals, j);
      if IsOption(sig, names[j]) {
        var v: Value;
        assert Owner(sig, nPos, names, nPos + j) == |sig.params|;
        v, left := Take(left, nPos + j);
        entries := entries + [(names[j], v)];
      }
    }
  }

  /** One slot's value, moved out of `held`. */
  method BindSlot(sig: Sig, lay: Layout, nPos: nat, names: seq<string>, ghost vals: seq<Value>, held: seq<Value>,
                  i: nat)
    returns (r: Result<Value, Fault>, left: seq<Value>)
    requires Stands(sig, lay, nPos, names) && i < lay.len
    requires Intact(sig, nPos, names, vals, held, i)
    ensures InRange(SlotAt(sig, lay, nPos, names, i), |vals|)
    ensures r == ReadSlot(SlotAt(sig, lay, nPos, names, i), vals)
    ensures Intact(sig, nPos, names, vals, left, i + 1)
  {
    ghost var slot := SlotAt(sig, lay, nPos, names, i);
    SlotsInRange(sig, lay, nPos, names);
    left := held;
    if lay.options && i == |sig.params| {
      EntriesInRange(slot, |vals|);
      var base: Option<Value> := None;
      if i < nPos {
        var v: Value;
        v, left := Take(left, i);
        base := Some(v);
      }
      var entries: seq<(string, Value)>;
      entries, left := TakeOptions(sig, nPos, names, vals, left);
      r := OptionsMap(base, entries);
    } else if i < nPos || i >= |sig.params| {
      var v: Value;
      assert i in Uses(slot);
      UsedExactlyOnce(sig, lay, nPos, names, i, i);
      v, left := Take(left, i);
      r := Ok(v);
    } else {
      var at := PlaceOf(names, sig.params[i].name);
      if at.Some? {
        var v: Value;
        assert nPos + at.value in Uses(slot);
        UsedExactlyOnce(sig, lay, nPos, names, i, nPos + at.value);
        v, left := Take(left, nPos + at.value);
        r := Ok(v);
      } else {
        r := Ok(Filler(sig.params[i]));
      }
    }
  }

  /** The interpreter binds what the compiler's plan reads, and fails where it fails. */
  method BindValues(found: Option<Sig>, vals: seq<Value>, nPos: nat, names: seq<string>)
    returns (r: Result<seq<Value>, Fault>)
    requires found.Some? ==> DistinctParams(found.value)
    requires |vals| == nPos + |names|
    ensures r == PlanRead(found, nPos, names, vals)
  {
    var laid := FindLayout(found, nPos, names);
    PlanInRange(found, nPos, names);
    if laid.Err? {
      return Err(laid.error);
    }
    var (sig, lay) := laid.value;
    LayoutStands(sig, nPos, names);
    ghost var slots := Planned(found, nPos, names).value;
    var out: seq<Value> := [];
    var left := vals;
    for i := 0 to Max(lay.len, nPos)
      invariant Intact(sig, nPos, names, vals, left, i)
      invariant ReadSlots(slots[..i], vals) == Ok(out)
    {
      assert slots[..i + 1][..i] == slots[..i];
      var v: Result<Value, Fault>;
      v, left := BindSlot(sig, lay, nPos, names, vals, left, i);
      if v.Err? {
        ReadStops(slots, vals, i + 1);
        return Err(v.error);
      }
      out := out + [v.value];
    }
    assert slots[..|slots|] == slots;
    return Ok(out);
  }

  /** The first fault is the call's. */
  lemma {:induction false} ReadStops(slots: seq<Slot>, vals: seq<Value>, n: nat)
    requires n <= |slots| && forall i :: 0 <= i < |slots| ==> InRange(slots[i], |vals|)
    requires ReadSlots(slots[..n], vals).Err?
    ensures ReadSlots(slots, vals) == ReadSlots(slots[..n], vals)
    decreases |slots| - n
  {
    if n < |slots| {
      assert slots[..n + 1][..n] == slots[..n];
      ReadStops(slots, vals, n + 1);
    } else {
      assert slots[..n] == slots;
    }
  }
}
