/** Named arguments of native functions: the positional call they stand for, planned
    when a call is compiled and bound when it is interpreted. */
module NamedArgs {
  import opened Wrappers

  // ── Signatures and values ──

  datatype Value = Unit
                 | Int(n: int)
                 | Float(x: real)
                 | Str(s: string)
                 | Bool(b: bool)
                 | Fields(kind: FieldsKind, fields: map<string, Value>)
                 | Other(typeName: string, id: nat)

  /** A map, an object written in place, or a declared struct. */
  datatype FieldsKind = PlainMap | AnyObject | Declared(name: string)

  datatype Default = Required | Optional | Literal(value: Value)

  datatype Param = Param(name: string, default: Default)

  datatype Sig = Sig(full: string, params: seq<Param>, options: Option<seq<string>>)

  datatype Fault = ByPositionOnly(first: string)
                 | DuplicateName(name: string)
                 | GivenTwice(name: string)
                 | NoSuch(name: string, orOption: bool)
                 | Missing(name: string, place: nat)
                 | NotOptions(found: Value)

  /** Where one argument of the positional call comes from. */
  datatype Slot = Arg(index: nat)
                | Lit(value: Value)
                | Options(base: Option<nat>, entries: seq<(string, nat)>)

  datatype Layout = Layout(len: nat, options: bool)

  function Max(a: nat, b: nat): nat { if a < b then b else a }

  function Min(a: nat, b: nat): nat { if a < b then a else b }

  /** No two parameters share a name. */
  ghost predicate DistinctParams(sig: Sig) {
    forall i, j :: 0 <= i < j < |sig.params| ==> sig.params[i].name != sig.params[j].name
  }

  /** The first parameter of this name. */
  function Position(params: seq<Param>, name: string): Option<nat> {
    if params == [] then None
    else if params[0].name == name then Some(0)
    else match Position(params[1..], name)
      case None => None
      case Some(i) => Some(i + 1)
  }

  lemma {:induction false} PositionIs(params: seq<Param>, name: string)
    ensures match Position(params, name)
            case Some(i) => i < |params| && params[i].name == name && forall k :: 0 <= k < i ==> params[k].name != name
            case None => forall k :: 0 <= k < |params| ==> params[k].name != name
  {
    if params != [] {
      PositionIs(params[1..], name);
      assert forall k :: 1 <= k < |params| ==> params[k] == params[1..][k - 1];
    }
  }

  /** An option the signature takes: any, when it lists none; one it lists; or a
      generator in place of a seed. */
  predicate TakesOption(sig: Sig, name: string) {
    && sig.options.Some?
    && (sig.options.value == [] || name in sig.options.value || (name == "rng" && "seed" in sig.options.value))
  }

  // ── Layout ──

  /** The names from the `j`th on, checked in the order they are written. */
  function CheckedNames(sig: Sig, nPos: nat, names: seq<string>, j: nat, lay: Layout): Result<Layout, Fault>
    requires j <= |names|
    decreases |names| - j
  {
    if j == |names| then Ok(lay)
    else if names[j] in names[..j] then Err(DuplicateName(names[j]))
    else match Position(sig.params, names[j])
      case Some(i) =>
        if i < nPos then Err(GivenTwice(names[j]))
        else CheckedNames(sig, nPos, names, j + 1, lay.(len := Max(lay.len, i + 1)))
      case None =>
        if TakesOption(sig, names[j]) then CheckedNames(sig, nPos, names, j + 1, lay.(options := true))
        else Err(NoSuch(names[j], sig.options.Some?))
  }

  /** The first required parameter the call skips over, from the `i`th on. */
  function Gap(sig: Sig, names: seq<string>, i: nat, stop: nat): Option<Fault>
    requires stop <= |sig.params|
    decreases stop - i
  {
    if i >= stop then None
    else if sig.params[i].default.Required? && sig.params[i].name !in names
    then Some(Missing(sig.params[i].name, i + 1))
    else Gap(sig, names, i + 1, stop)
  }

  /** A call's length with its options map, which stands after every parameter. */
  function Whole(sig: Sig, lay: Layout): Layout {
    if lay.options then lay.(len := Max(lay.len, |sig.params| + 1)) else lay
  }

  function LayoutOf(sig: Option<Sig>, nPos: nat, names: seq<string>): Result<(Sig, Layout), Fault> {
    match sig
    case None => Err(ByPositionOnly(if names == [] then "" else names[0]))
    case Some(sig) =>
      match CheckedNames(sig, nPos, names, 0, Layout(nPos, false))
      case Err(fault) => Err(fault)
      case Ok(checked) =>
        var lay := Whole(sig, checked);
        match Gap(sig, names, nPos, Min(lay.len, |sig.params|))
        case Some(fault) => Err(fault)
        case None => Ok((sig, lay))
  }

  method FindLayout(found: Option<Sig>, nPos: nat, names: seq<string>) returns (r: Result<(Sig, Layout), Fault>)
    ensures r == LayoutOf(found, nPos, names)
  {
    if found.None? {
      return Err(ByPositionOnly(if names == [] then "" else names[0]));
    }
    var sig := found.value;
    var lay := Layout(nPos, false);
    for j := 0 to |names|
      invariant CheckedNames(sig, nPos, names, j, lay) == CheckedNames(sig, nPos, names, 0, Layout(nPos, false))
    {
      var name := names[j];
      if name in names[..j] {
        return Err(DuplicateName(name));
      }
      var at := Position(sig.params, name);
      if at.Some? {
        if at.value < nPos {
          return Err(GivenTwice(name));
        }
        lay := lay.(len := Max(lay.len, at.value + 1));
      } else if TakesOption(sig, name) {
        lay := lay.(options := true);
      } else {
        return Err(NoSuch(name, sig.options.Some?));
      }
    }
    lay := Whole(sig, lay);
    var i, stop := nPos, Min(lay.len, |sig.params|);
    while i < stop
      invariant Gap(sig, names, i, stop) == Gap(sig, names, nPos, stop)
    {
      if sig.params[i].default.Required? && sig.params[i].name !in names {
        return Err(Missing(sig.params[i].name, i + 1));
      }
      i := i + 1;
    }
    return Ok((sig, lay));
  }

  // ── The plan ──

  predicate IsOption(sig: Sig, name: string) {
    Position(sig.params, name).None?
  }

  /** Where a name stands among those written. */
  function PlaceOf(names: seq<string>, name: string): Option<nat> {
    if names == [] then None
    else if names[0] == name then Some(0)
    else match PlaceOf(names[1..], name)
      case None => None
      case Some(j) => Some(j + 1)
  }

  /** The named options among the first `m` names, each with its argument. */
  function Entries(sig: Sig, nPos: nat, names: seq<string>, m: nat): seq<(string, nat)>
    requires m <= |names|
  {
    if m == 0 then []
    else Entries(sig, nPos, names, m - 1)
         + if IsOption(sig, names[m - 1]) then [(names[m - 1], nPos + m - 1)] else []
  }

  /** What a parameter left out is: its default, or nothing. */
  function Filler(p: Param): Value {
    if p.default.Literal? then p.default.value else Unit
  }

  /** What stands at place `i`: the options after every parameter, an argument given
      by position, or a parameter's named argument or filler. Past the parameters
      there is no place that is not the options' or given by position. */
  function SlotAt(sig: Sig, lay: Layout, nPos: nat, names: seq<string>, i: nat): Slot {
    if lay.options && i == |sig.params| then
      Options(if i < nPos then Some(i) else None, Entries(sig, nPos, names, |names|))
    else if i < nPos || i >= |sig.params| then Arg(i)
    else match PlaceOf(names, sig.params[i].name)
      case Some(j) => Arg(nPos + j)
      case None => Lit(Filler(sig.params[i]))
  }

  function Slots(sig: Sig, lay: Layout, nPos: nat, names: seq<string>, n: nat): (r: seq<Slot>)
    ensures |r| == n && forall i :: 0 <= i < n ==> r[i] == SlotAt(sig, lay, nPos, names, i)
  {
    seq(n, i requires 0 <= i < n => SlotAt(sig, lay, nPos, names, i))
  }

  function Planned(sig: Option<Sig>, nPos: nat, names: seq<string>): Result<seq<Slot>, Fault> {
    match LayoutOf(sig, nPos, names)
    case Err(fault) => Err(fault)
    case Ok((found, lay)) => Ok(Slots(found, lay, nPos, names, Max(lay.len, nPos)))
  }

  method Plan(found: Option<Sig>, nPos: nat, names: seq<string>) returns (r: Result<seq<Slot>, Fault>)
    ensures r == Planned(found, nPos, names)
  {
    var laid := FindLayout(found, nPos, names);
    if laid.Err? {
      return Err(laid.error);
    }
    var (sig, lay) := laid.value;
    var n := |sig.params|;
    var slots: seq<Slot> := [];
    for i := 0 to Max(lay.len, nPos)
      invariant slots == Slots(sig, lay, nPos, names, i)
    {
      if lay.options && i == n {
        var entries: seq<(string, nat)> := [];
        for j := 0 to |names|
          invariant entries == Entries(sig, nPos, names, j)
        {
          if IsOption(sig, names[j]) {
            entries := entries + [(names[j], nPos + j)];
          }
        }
        slots := slots + [Options(if i < nPos then Some(i) else None, entries)];
      } else if i < nPos || i >= n {
        slots := slots + [Arg(i)];
      } else {
        var at := PlaceOf(names, sig.params[i].name);
        slots := slots + [if at.Some? then Arg(nPos + at.value) else Lit(Filler(sig.params[i]))];
      }
    }
    return Ok(slots);
  }

  // ── Reading a plan ──

  /** The fields of an options value: a map's or an object's; nothing's are none. */
  function OptionFields(base: Option<Value>): Option<map<string, Value>> {
    if base.None? || base.value.Unit? then Some(map[])
    else if base.value.Fields? && !base.value.kind.Declared? then Some(base.value.fields)
    else None
  }

  function Laid(fields: map<string, Value>, entries: seq<(string, Value)>): map<string, Value> {
    if entries == [] then fields
    else
      var last := entries[|entries| - 1];
      Laid(fields, entries[..|entries| - 1])[last.0 := last.1]
  }

  /** The options map of a call: what was given by position, with the named options
      written over it in order. */
  function OptionsMap(base: Option<Value>, entries: seq<(string, Value)>): Result<Value, Fault> {
    var fields := OptionFields(base);
    if fields.None? then Err(NotOptions(base.value)) else Ok(Fields(PlainMap, Laid(fields.value, entries)))
  }

  function Uses(slot: Slot): set<nat> {
    match slot
    case Arg(k) => {k}
    case Lit(_) => {}
    case Options(base, entries) =>
      (if base.Some? then {base.value} else {}) + set i | 0 <= i < |entries| :: entries[i].1
  }

  predicate InRange(slot: Slot, n: nat) {
    forall k :: k in Uses(slot) ==> k < n
  }

  function ReadEntries(entries: seq<(string, nat)>, vals: seq<Value>): (r: seq<(string, Value)>)
    requires forall i :: 0 <= i < |entries| ==> entries[i].1 < |vals|
    ensures |r| == |entries|
  {
    seq(|entries|, i requires 0 <= i < |entries| => (entries[i].0, vals[entries[i].1]))
  }

  lemma EntriesInRange(slot: Slot, n: nat)
    requires slot.Options? && InRange(slot, n)
    ensures slot.base.Some? ==> slot.base.value < n
    ensures forall i :: 0 <= i < |slot.entries| ==> slot.entries[i].1 < n
  {
    assert slot.base.Some? ==> slot.base.value in Uses(slot);
    forall i | 0 <= i < |slot.entries| ensures slot.entries[i].1 < n {
      assert slot.entries[i].1 in Uses(slot);
    }
  }

  function ReadSlot(slot: Slot, vals: seq<Value>): Result<Value, Fault>
    requires InRange(slot, |vals|)
  {
    match slot
    case Arg(k) =>
      assert k in Uses(slot);
      Ok(vals[k])
    case Lit(v) => Ok(v)
    case Options(base, entries) =>
      EntriesInRange(slot, |vals|);
      OptionsMap(if base.Some? then Some(vals[base.value]) else None, ReadEntries(entries, vals))
  }

  /** Every slot's value in order, or the first fault. */
  function ReadSlots(slots: seq<Slot>, vals: seq<Value>): Result<seq<Value>, Fault>
    requires forall i :: 0 <= i < |slots| ==> InRange(slots[i], |vals|)
  {
    if slots == [] then Ok([])
    else
      var before := ReadSlots(slots[..|slots| - 1], vals);
      if before.Err? then before
      else match ReadSlot(slots[|slots| - 1], vals)
        case Err(fault) => Err(fault)
        case Ok(v) => Ok(before.value + [v])
  }
}
