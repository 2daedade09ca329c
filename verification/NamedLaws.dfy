/** What a named call means, whatever the order its names are written in. */
module NamedLaws {
  import opened NamedArgs
  import opened NamedBinding
  import opened Wrappers

  // ── The meaning of a call ──

  /** The named arguments as a map. */
  function NamedMap(names: seq<string>, vs: seq<Value>): map<string, Value>
    requires |names| == |vs|
  {
    if names == [] then map[] else NamedMap(names[..|names| - 1], vs[..|vs| - 1])[names[|names| - 1] := vs[|vs| - 1]]
  }

  /** One past the last parameter given by name. */
  function LastNamed(params: seq<Param>, keys: set<string>): nat {
    if params == [] then 0
    else if params[|params| - 1].name in keys then |params|
    else LastNamed(params[..|params| - 1], keys)
  }

  /** The names that are no parameter's. */
  function OptionNames(sig: Sig, keys: set<string>): set<string> {
    set x | x in keys && IsOption(sig, x)
  }

  /** How many arguments the positional call has. */
  function Length(sig: Sig, nPos: nat, keys: set<string>): nat {
    var len := Max(nPos, LastNamed(sig.params, keys));
    if OptionNames(sig, keys) != {} then Max(len, |sig.params| + 1) else len
  }

  /** Options listed as none are any; `rng` may stand for a seed. */
  predicate Offers(options: seq<string>, x: string) {
    |options| == 0 || (exists k :: 0 <= k < |options| && (options[k] == x || (x == "rng" && options[k] == "seed")))
  }

  /** Every name is a parameter not given by position or an option taken, and no
      required parameter is skipped. */
  ghost predicate Accepted(sig: Sig, nPos: nat, keys: set<string>) {
    && (forall x {:trigger x in keys} :: x in keys ==>
          match Position(sig.params, x)
          case Some(i) => i >= nPos
          case None => sig.options.Some? && Offers(sig.options.value, x))
    && (forall i {:trigger sig.params[i]} :: nPos <= i < Min(Length(sig, nPos, keys), |sig.params|) ==>
          !(sig.params[i].default.Required? && sig.params[i].name !in keys))
  }

  function BaseOf(sig: Sig, positional: seq<Value>): Option<Value> {
    if |sig.params| < |positional| then Some(positional[|sig.params|]) else None
  }

  /** What stands in the options' place is a map, an object, nothing, or not given. */
  predicate MayHoldOptions(sig: Sig, positional: seq<Value>) {
    |sig.params| < |positional| ==>
      match positional[|sig.params|]
      case Unit => true
      case Fields(kind, _) => kind.PlainMap? || kind.AnyObject?
      case _ => false
  }

  /** The options given in their place. */
  function GivenOptions(sig: Sig, positional: seq<Value>): map<string, Value> {
    if |sig.params| < |positional| && positional[|sig.params|].Fields? then positional[|sig.params|].fields
    else map[]
  }

  lemma OptionFieldsAre(sig: Sig, positional: seq<Value>)
    ensures OptionFields(BaseOf(sig, positional))
      == if MayHoldOptions(sig, positional) then Some(GivenOptions(sig, positional)) else None
  {
  }

  /** A parameter left out is its own default, or nothing. */
  function LeftOut(p: Param): Value {
    match p.default
    case Literal(v) => v
    case Optional => Unit
    case Required => Unit
  }

  /** One argument of the positional call. */
  function Denoted(sig: Sig, positional: seq<Value>, named: map<string, Value>, i: nat): Value {
    var options := OptionNames(sig, named.Keys);
    if options != {} && i == |sig.params| then
      Fields(PlainMap, GivenOptions(sig, positional) + map x | x in options :: named[x])
    else if i < |positional| then positional[i]
    else if i >= |sig.params| then Unit
    else if sig.params[i].name in named then named[sig.params[i].name]
    else LeftOut(sig.params[i])
  }

  /** The positional call a named one stands for, if it stands for one. */
  ghost function Meaning(sig: Sig, positional: seq<Value>, named: map<string, Value>): Option<seq<Value>> {
    if !Accepted(sig, |positional|, named.Keys) then None
    else if OptionNames(sig, named.Keys) != {} && !MayHoldOptions(sig, positional) then None
    else Some(seq(Length(sig, |positional|, named.Keys), i requires i >= 0 => Denoted(sig, positional, named, i)))
  }

  // ── Names as a map ──

  function NamesOf(names: seq<string>): set<string> {
    set x | x in names
  }

  lemma {:induction false} NamedMapKeys(names: seq<string>, vs: seq<Value>)
    requires |names| == |vs|
    ensures NamedMap(names, vs).Keys == NamesOf(names)
    decreases |names|
  {
    if names != [] {
      var n := |names| - 1;
      NamedMapKeys(names[..n], vs[..n]);
      assert names == names[..n] + [names[n]];
      assert NamesOf(names) == NamesOf(names[..n]) + {names[n]};
    }
  }

  lemma {:induction false} NamedMapIs(names: seq<string>, vs: seq<Value>)
    requires |names| == |vs| && DistinctNames(names)
    ensures forall j :: 0 <= j < |names| ==> names[j] in NamedMap(names, vs) && NamedMap(names, vs)[names[j]] == vs[j]
    decreases |names|
  {
    if names != [] {
      var n := |names| - 1;
      NamedMapIs(names[..n], vs[..n]);
      forall j | 0 <= j < |names|
        ensures names[j] in NamedMap(names, vs) && NamedMap(names, vs)[names[j]] == vs[j]
      {
        assert j < n ==> names[..n][j] == names[j] && vs[..n][j] == vs[j];
      }
    }
  }

  lemma {:induction false} LastNamedIs(params: seq<Param>, keys: set<string>)
    ensures var n := LastNamed(params, keys);
      && n <= |params| && (n > 0 ==> params[n - 1].name in keys)
      && forall i :: n <= i < |params| ==> params[i].name !in keys
    decreases |params|
  {
    if params != [] && params[|params| - 1].name !in keys {
      LastNamedIs(params[..|params| - 1], keys);
    }
  }

  // ── The layout, without its order ──

  lemma {:induction false} GapIs(sig: Sig, names: seq<string>, i: nat, stop: nat)
    requires stop <= |sig.params|
    ensures Gap(sig, names, i, stop).None? <==>
      forall k {:trigger sig.params[k]} :: i <= k < stop ==>
        !(sig.params[k].default.Required? && sig.params[k].name !in names)
    decreases stop - i
  {
    if i < stop {
      GapIs(sig, names, i + 1, stop);
    }
  }

  /** The length a layout measures is the one the set of names gives. */
  lemma WholeIsLength(sig: Sig, nPos: nat, names: seq<string>)
    requires DistinctParams(sig) && CheckedNames(sig, nPos, names, 0, Layout(nPos, false)).Ok?
    ensures var lay := Whole(sig, CheckedNames(sig, nPos, names, 0, Layout(nPos, false)).value);
      && lay.len == Length(sig, nPos, NamesOf(names))
      && (lay.options <==> OptionNames(sig, NamesOf(names)) != {})
  {
    var start := Layout(nPos, false);
    var checked := CheckedNames(sig, nPos, names, 0, start).value;
    CheckedIs(sig, nPos, names, 0, start);
    CheckedReach(sig, nPos, names, 0, start);
    OptionsReached(sig, names, checked);
    LenReached(sig, nPos, names, checked);
  }

  lemma OptionsReached(sig: Sig, names: seq<string>, lay: Layout)
    requires forall k :: 0 <= k < |names| ==> Reaches(sig, names, lay, k)
    requires lay.options ==> exists k :: 0 <= k < |names| && IsOption(sig, names[k])
    ensures lay.options <==> OptionNames(sig, NamesOf(names)) != {}
  {
    if lay.options {
      var k :| 0 <= k < |names| && IsOption(sig, names[k]);
      assert names[k] in OptionNames(sig, NamesOf(names));
    }
    if x :| x in OptionNames(sig, NamesOf(names)) {
      var k :| 0 <= k < |names| && names[k] == x;
      assert Reaches(sig, names, lay, k);
    }
  }

  lemma LenReached(sig: Sig, nPos: nat, names: seq<string>, lay: Layout)
    requires DistinctParams(sig) && lay.len >= nPos
    requires forall k :: 0 <= k < |names| ==> Reaches(sig, names, lay, k)
    requires lay.len == nPos || exists k :: 0 <= k < |names| && Position(sig.params, names[k]) == Some(lay.len - 1)
    ensures lay.len == Max(nPos, LastNamed(sig.params, NamesOf(names)))
  {
    var n := LastNamed(sig.params, NamesOf(names));
    LastNamedIs(sig.params, NamesOf(names));
    if n > 0 {
      var k :| 0 <= k < |names| && names[k] == sig.params[n - 1].name;
      PositionOfIts(sig, n - 1);
      assert Reaches(sig, names, lay, k);
    }
    if lay.len != nPos {
      var k :| 0 <= k < |names| && Position(sig.params, names[k]) == Some(lay.len - 1);
      PositionIs(sig.params, names[k]);
      assert names[k] in NamesOf(names);
    }
  }

  /** A layout stands exactly when no name is written twice and the names, as a set,
      are accepted. */
  lemma LayoutIsAccepted(sig: Sig, nPos: nat, names: seq<string>)
    requires DistinctParams(sig)
    ensures LayoutOf(Some(sig), nPos, names).Ok? <==> DistinctNames(names) && Accepted(sig, nPos, NamesOf(names))
    ensures LayoutOf(Some(sig), nPos, names).Ok? ==>
      LayoutOf(Some(sig), nPos, names).value.1
        == Layout(Length(sig, nPos, NamesOf(names)), OptionNames(sig, NamesOf(names)) != {})
  {
    var start, keys := Layout(nPos, false), NamesOf(names);
    var checked := CheckedNames(sig, nPos, names, 0, start);
    CheckedIs(sig, nPos, names, 0, start);
    if checked.Ok? {
      GoodNamesDistinct(sig, nPos, names);
      WholeIsLength(sig, nPos, names);
      GapIs(sig, names, nPos, Min(Whole(sig, checked.value).len, |sig.params|));
      forall x | x in keys
        ensures match Position(sig.params, x) case Some(i) => i >= nPos case None => TakesOption(sig, x)
      {
        var k :| 0 <= k < |names| && names[k] == x;
        assert GoodName(sig, nPos, names, k);
      }
    }
    if DistinctNames(names) && Accepted(sig, nPos, keys) {
      AcceptedIsGood(sig, nPos, names);
    }
  }

  lemma AcceptedIsGood(sig: Sig, nPos: nat, names: seq<string>)
    requires DistinctNames(names) && Accepted(sig, nPos, NamesOf(names))
    ensures forall k :: 0 <= k < |names| ==> GoodName(sig, nPos, names, k)
  {
    forall k | 0 <= k < |names| ensures GoodName(sig, nPos, names, k) {
      assert names[k] in NamesOf(names);
    }
  }

  // ── A call binds what its arguments mean ──

  lemma {:induction false} ReadSlotsIs(slots: seq<Slot>, vals: seq<Value>)
    requires forall i :: 0 <= i < |slots| ==> InRange(slots[i], |vals|)
    ensures var r := ReadSlots(slots, vals);
      && (r.Ok? <==> forall i :: 0 <= i < |slots| ==> ReadSlot(slots[i], vals).Ok?)
      && (r.Ok? ==> |r.value| == |slots|)
      && (r.Ok? ==> forall i :: 0 <= i < |slots| ==> ReadSlot(slots[i], vals) == Ok(r.value[i]))
    decreases |slots|
  {
    if slots != [] {
      var init := slots[..|slots| - 1];
      ReadSlotsIs(init, vals);
      assert forall i :: 0 <= i < |init| ==> init[i] == slots[i];
    }
  }

  /** The options among the first `m` names, each with its value. */
  function OptionsSoFar(sig: Sig, names: seq<string>, vs: seq<Value>, m: nat): map<string, Value>
    requires |names| == |vs| && m <= |names|
  {
    if m == 0 then map[]
    else
      var before := OptionsSoFar(sig, names, vs, m - 1);
      if IsOption(sig, names[m - 1]) then before[names[m - 1] := vs[m - 1]] else before
  }

  lemma {:induction false} OptionsSoFarIs(sig: Sig, names: seq<string>, vs: seq<Value>, m: nat)
    requires |names| == |vs| && m <= |names| && DistinctNames(names)
    ensures forall x {:trigger x in OptionsSoFar(sig, names, vs, m)} :: x in OptionsSoFar(sig, names, vs, m) ==>
      IsOption(sig, x) && exists j :: 0 <= j < m && names[j] == x && OptionsSoFar(sig, names, vs, m)[x] == vs[j]
    ensures forall j {:trigger names[j]} :: 0 <= j < m && IsOption(sig, names[j]) ==>
      names[j] in OptionsSoFar(sig, names, vs, m)
  {
    if m > 0 {
      OptionsSoFarIs(sig, names, vs, m - 1);
    }
  }

  /** Laid over a base one by one, the options are all there, each with its value. */
  lemma {:induction false} EntriesLaid(sig: Sig, nPos: nat, names: seq<string>, vals: seq<Value>,
                                       fields: map<string, Value>, m: nat)
    requires |vals| == nPos + |names| && m <= |names|
    ensures Laid(fields, EntriesRead(sig, nPos, names, vals, m)) == fields + OptionsSoFar(sig, names, vals[nPos..], m)
  {
    if m > 0 {
      EntriesLaid(sig, nPos, names, vals, fields, m - 1);
      EntriesReadNext(sig, nPos, names, vals, m - 1);
      LaidNext(fields, EntriesRead(sig, nPos, names, vals, m - 1), OptionsSoFar(sig, names, vals[nPos..], m - 1),
               names[m - 1], vals[nPos + m - 1], IsOption(sig, names[m - 1]));
    }
  }

  lemma LaidNext(fields: map<string, Value>, entries: seq<(string, Value)>, less: map<string, Value>,
                 x: string, v: Value, isOption: bool)
    requires Laid(fields, entries) == fields + less
    ensures Laid(fields, entries + if isOption then [(x, v)] else [])
      == fields + if isOption then less[x := v] else less
  {
    if isOption {
      LaidOne(fields, entries, x, v);
      OneOver(fields, less, x, v);
    } else {
      assert entries + [] == entries;
    }
  }

  lemma OneOver(fields: map<string, Value>, more: map<string, Value>, x: string, v: Value)
    ensures (fields + more)[x := v] == fields + more[x := v]
  {
  }

  lemma LaidOne(fields: map<string, Value>, entries: seq<(string, Value)>, name: string, v: Value)
    ensures Laid(fields, entries + [(name, v)]) == Laid(fields, entries)[name := v]
  {
    assert (entries + [(name, v)])[..|entries|] == entries;
  }

  lemma OptionsAll(sig: Sig, names: seq<string>, vs: seq<Value>)
    requires |names| == |vs| && DistinctNames(names)
    ensures var named := NamedMap(names, vs);
      OptionsSoFar(sig, names, vs, |names|) == map x | x in OptionNames(sig, named.Keys) :: named[x]
  {
    NamedMapKeys(names, vs);
    NamedMapIs(names, vs);
    OptionsSoFarIs(sig, names, vs, |names|);
    var all, named := OptionsSoFar(sig, names, vs, |names|), NamedMap(names, vs);
    forall x | x in OptionNames(sig, named.Keys) ensures x in all {
      var j :| 0 <= j < |names| && names[j] == x;
      assert names[j] in all;
    }
    forall x | x in all ensures x in OptionNames(sig, named.Keys) && all[x] == named[x] {
      var j :| 0 <= j < |names| && names[j] == x && all[x] == vs[j];
      assert names[j] in named;
    }
  }

  /** A slot of the plan reads what the arguments mean there. */
  ghost predicate Means(sig: Sig, positional: seq<Value>, named: map<string, Value>, i: nat, r: Result<Value, Fault>) {
    && (r.Err? <==>
          OptionNames(sig, named.Keys) != {} && i == |sig.params| && !MayHoldOptions(sig, positional))
    && (r.Ok? ==> r.value == Denoted(sig, positional, named, i))
  }

  lemma SlotMeans(sig: Sig, nPos: nat, names: seq<string>, vals: seq<Value>, lay: Layout, i: nat)
    requires |vals| == nPos + |names| && DistinctNames(names) && Stands(sig, lay, nPos, names) && i < lay.len
    requires lay.options <==> OptionNames(sig, NamesOf(names)) != {}
    ensures InRange(SlotAt(sig, lay, nPos, names, i), |vals|)
    ensures Means(sig, vals[..nPos], NamedMap(names, vals[nPos..]), i, ReadSlot(SlotAt(sig, lay, nPos, names, i), vals))
  {
    SlotsInRange(sig, lay, nPos, names);
    NamedMapKeys(names, vals[nPos..]);
    if lay.options && i == |sig.params| {
      OptionsMean(sig, nPos, names, vals);
    } else if i >= nPos {
      PastPositional(sig, lay, nPos, names, i);
      ParamMeans(sig, nPos, names, vals, i);
    }
  }

  lemma PastPositional(sig: Sig, lay: Layout, nPos: nat, names: seq<string>, i: nat)
    requires Stands(sig, lay, nPos, names) && nPos <= i < lay.len && !(lay.options && i == |sig.params|)
    ensures i < |sig.params|
  {
    if lay.options {
      assert lay.len <= Max(nPos, |sig.params| + 1) && i != |sig.params|;
    } else {
      assert lay.len <= Max(nPos, |sig.params|);
    }
  }

  lemma {:induction false} ParamMeans(sig: Sig, nPos: nat, names: seq<string>, vals: seq<Value>, i: nat)
    requires |vals| == nPos + |names| && DistinctNames(names) && nPos <= i < |sig.params|
    ensures var at := PlaceOf(names, sig.params[i].name);
      && (at.Some? ==> at.value < |names|)
      && Denoted(sig, vals[..nPos], NamedMap(names, vals[nPos..]), i)
        == if at.Some? then vals[nPos + at.value] else Filler(sig.params[i])
  {
    var name, named := sig.params[i].name, NamedMap(names, vals[nPos..]);
    NamedMapKeys(names, vals[nPos..]);
    NamedMapIs(names, vals[nPos..]);
    PlaceIs(names, name);
    assert name in named <==> name in NamesOf(names);
    if PlaceOf(names, name).Some? {
      var j := PlaceOf(names, name).value;
      assert names[j] in named && vals[nPos..][j] == vals[nPos + j];
    }
  }

  lemma OptionsMean(sig: Sig, nPos: nat, names: seq<string>, vals: seq<Value>)
    requires |vals| == nPos + |names| && DistinctNames(names)
    requires OptionNames(sig, NamesOf(names)) != {}
    ensures Means(sig, vals[..nPos], NamedMap(names, vals[nPos..]), |sig.params|,
                  OptionsMap(BaseOf(sig, vals[..nPos]), EntriesRead(sig, nPos, names, vals, |names|)))
  {
    NamedMapKeys(names, vals[nPos..]);
    NamedMapIs(names, vals[nPos..]);
    OptionsAll(sig, names, vals[nPos..]);
    var base := BaseOf(sig, vals[..nPos]);
    OptionFieldsAre(sig, vals[..nPos]);
    if OptionFields(base).Some? {
      EntriesLaid(sig, nPos, names, vals, OptionFields(base).value, |names|);
    }
  }

  /** Reading a call's plan gives what its arguments mean, taken as a map: names
      written twice are refused, and otherwise the order they are written in does
      not matter. */
  lemma CallMeans(sig: Sig, nPos: nat, names: seq<string>, vals: seq<Value>)
    requires DistinctParams(sig) && |vals| == nPos + |names|
    ensures !DistinctNames(names) ==> PlanRead(Some(sig), nPos, names, vals).Err?
    ensures DistinctNames(names) ==>
      var r := PlanRead(Some(sig), nPos, names, vals);
      var meaning := Meaning(sig, vals[..nPos], NamedMap(names, vals[nPos..]));
      (r.Ok? <==> meaning.Some?) && (r.Ok? ==> r.value == meaning.value)
  {
    LayoutIsAccepted(sig, nPos, names);
    if DistinctNames(names) {
      NamedMapKeys(names, vals[nPos..]);
      NamedMapIs(names, vals[nPos..]);
      if LayoutOf(Some(sig), nPos, names).Ok? {
        StandingCallMeans(sig, nPos, names, vals);
      }
    }
  }

  lemma StandingCallMeans(sig: Sig, nPos: nat, names: seq<string>, vals: seq<Value>)
    requires DistinctParams(sig) && |vals| == nPos + |names| && DistinctNames(names)
    requires LayoutOf(Some(sig), nPos, names).Ok?
    ensures var r := PlanRead(Some(sig), nPos, names, vals);
      var meaning := Meaning(sig, vals[..nPos], NamedMap(names, vals[nPos..]));
      (r.Ok? <==> meaning.Some?) && (r.Ok? ==> r.value == meaning.value)
  {
    var lay := LayoutOf(Some(sig), nPos, names).value.1;
    LayoutIsAccepted(sig, nPos, names);
    LayoutStands(sig, nPos, names);
    NamedMapKeys(names, vals[nPos..]);
    NamedMapIs(names, vals[nPos..]);
    PlanInRange(Some(sig), nPos, names);
    var slots := Planned(Some(sig), nPos, names).value;
    forall i | 0 <= i < |slots|
      ensures Means(sig, vals[..nPos], NamedMap(names, vals[nPos..]), i, ReadSlot(slots[i], vals))
    {
      SlotMeans(sig, nPos, names, vals, lay, i);
    }
    SlotsMean(sig, vals[..nPos], NamedMap(names, vals[nPos..]), slots, vals);
  }

  lemma {:induction false} SlotsMean(sig: Sig, positional: seq<Value>, named: map<string, Value>, slots: seq<Slot>,
                                     vals: seq<Value>)
    requires Accepted(sig, |positional|, named.Keys) && |slots| == Length(sig, |positional|, named.Keys)
    requires forall i :: 0 <= i < |slots| ==> InRange(slots[i], |vals|)
    requires forall i {:trigger slots[i]} :: 0 <= i < |slots| ==>
      Means(sig, positional, named, i, ReadSlot(slots[i], vals))
    ensures var r, meaning := ReadSlots(slots, vals), Meaning(sig, positional, named);
      (r.Ok? <==> meaning.Some?) && (r.Ok? ==> r.value == meaning.value)
  {
    ReadSlotsIs(slots, vals);
    var r, n := ReadSlots(slots, vals), |sig.params|;
    if OptionNames(sig, named.Keys) != {} {
      assert n < |slots| && Means(sig, positional, named, n, ReadSlot(slots[n], vals));
    }
    if r.Ok? {
      forall i | 0 <= i < |slots| ensures r.value[i] == Denoted(sig, positional, named, i) {
        assert Means(sig, positional, named, i, ReadSlot(slots[i], vals));
      }
    }
  }

  /** What a call that binds gives each parameter it reaches: its argument by position,
      its argument by name, or what it says for itself. */
  lemma BoundParam(sig: Sig, nPos: nat, names: seq<string>, vals: seq<Value>, i: nat)
    requires DistinctParams(sig) && |vals| == nPos + |names| && i < |sig.params|
    requires PlanRead(Some(sig), nPos, names, vals).Ok? && i < |PlanRead(Some(sig), nPos, names, vals).value|
    ensures var bound := PlanRead(Some(sig), nPos, names, vals).value[i];
      && (i < nPos ==> bound == vals[i])
      && (forall j :: 0 <= j < |names| && names[j] == sig.params[i].name ==> i >= nPos && bound == vals[nPos + j])
      && (i >= nPos && sig.params[i].name !in names ==>
            match sig.params[i].default
            case Literal(v) => bound == v
            case Optional => bound == Unit
            case Required => false)
  {
    CallMeans(sig, nPos, names, vals);
    NamedMapKeys(names, vals[nPos..]);
    NamedMapIs(names, vals[nPos..]);
    var keys := NamesOf(names);
    assert Accepted(sig, nPos, keys);
    forall j | 0 <= j < |names| && names[j] == sig.params[i].name ensures i >= nPos {
      PositionOfIts(sig, i);
      assert names[j] in keys;
    }
    assert sig.params[i].name in keys <==> sig.params[i].name in names;
  }

  // ── The first fault ──

  /** What is wrong with the `k`th name, if anything is. */
  ghost predicate NameFault(sig: Sig, nPos: nat, names: seq<string>, k: nat, fault: Fault)
    requires k < |names|
  {
    var x := names[k];
    if exists j :: 0 <= j < k && names[j] == x then fault == DuplicateName(x)
    else if exists i :: 0 <= i < |sig.params| && sig.params[i].name == x
    then fault == GivenTwice(x) && exists i :: 0 <= i < nPos && i < |sig.params| && sig.params[i].name == x
    else fault == NoSuch(x, sig.options.Some?) && !(sig.options.Some? && Offers(sig.options.value, x))
  }

  ghost predicate NameFaultless(sig: Sig, nPos: nat, names: seq<string>, k: nat)
    requires k < |names|
  {
    forall fault :: !NameFault(sig, nPos, names, k, fault)
  }

  lemma GoodIsFaultless(sig: Sig, nPos: nat, names: seq<string>, k: nat)
    requires DistinctParams(sig) && k < |names|
    ensures GoodName(sig, nPos, names, k) <==> NameFaultless(sig, nPos, names, k)
  {
    var x := names[k];
    PositionIs(sig.params, x);
    assert x in names[..k] <==> exists j :: 0 <= j < k && names[j] == x;
    if x in names[..k] {
      assert NameFault(sig, nPos, names, k, DuplicateName(x));
    } else if Position(sig.params, x).Some? {
      var i := Position(sig.params, x).value;
      assert sig.params[i].name == x;
      if i < nPos {
        assert NameFault(sig, nPos, names, k, GivenTwice(x));
      }
    } else if !TakesOption(sig, x) {
      assert NameFault(sig, nPos, names, k, NoSuch(x, sig.options.Some?));
    }
  }

  lemma {:induction false} CheckedFault(sig: Sig, nPos: nat, names: seq<string>, j: nat, lay: Layout) returns (k: nat)
    requires DistinctParams(sig) && j <= |names| && CheckedNames(sig, nPos, names, j, lay).Err?
    ensures j <= k < |names| && NameFault(sig, nPos, names, k, CheckedNames(sig, nPos, names, j, lay).error)
    ensures forall i :: j <= i < k ==> NameFaultless(sig, nPos, names, i)
    decreases |names| - j
  {
    var x := names[j];
    GoodIsFaultless(sig, nPos, names, j);
    if GoodName(sig, nPos, names, j) {
      var at := Position(sig.params, x);
      k := CheckedFault(sig, nPos, names, j + 1,
                        if at.Some? then lay.(len := Max(lay.len, at.value + 1)) else lay.(options := true));
    } else {
      k := j;
      PositionIs(sig.params, x);
      assert x in names[..j] <==> exists i :: 0 <= i < j && names[i] == x;
    }
  }

  /** The `i`th parameter is required and not named. */
  predicate Skipped(sig: Sig, names: seq<string>, i: nat)
    requires i < |sig.params|
  {
    sig.params[i].default.Required? && sig.params[i].name !in names
  }

  lemma {:induction false} GapFault(sig: Sig, names: seq<string>, i: nat, stop: nat) returns (k: nat)
    requires stop <= |sig.params| && Gap(sig, names, i, stop).Some?
    ensures i <= k < stop && Skipped(sig, names, k)
    ensures Gap(sig, names, i, stop) == Some(Missing(sig.params[k].name, k + 1))
    ensures forall j :: i <= j < k ==> !Skipped(sig, names, j)
    decreases stop - i
  {
    if Skipped(sig, names, i) {
      k := i;
    } else {
      k := GapFault(sig, names, i + 1, stop);
    }
  }

  /** A call refused is refused for the first name that something is wrong with or, all
      names being right, for the first required parameter that the call skips. */
  lemma FirstFault(sig: Sig, nPos: nat, names: seq<string>) returns (k: nat)
    requires DistinctParams(sig) && LayoutOf(Some(sig), nPos, names).Err?
    ensures var fault := LayoutOf(Some(sig), nPos, names).error;
      || (k < |names| && NameFault(sig, nPos, names, k, fault)
          && forall j :: 0 <= j < k ==> NameFaultless(sig, nPos, names, j))
      || ((forall j :: 0 <= j < |names| ==> NameFaultless(sig, nPos, names, j))
          && nPos <= k < Min(Length(sig, nPos, NamesOf(names)), |sig.params|) && Skipped(sig, names, k)
          && fault == Missing(sig.params[k].name, k + 1)
          && forall j :: nPos <= j < k ==> !Skipped(sig, names, j))
  {
    var start := Layout(nPos, false);
    var checked := CheckedNames(sig, nPos, names, 0, start);
    if checked.Err? {
      k := CheckedFault(sig, nPos, names, 0, start);
    } else {
      CheckedIs(sig, nPos, names, 0, start);
      forall j | 0 <= j < |names| ensures NameFaultless(sig, nPos, names, j) {
        GoodIsFaultless(sig, nPos, names, j);
      }
      WholeIsLength(sig, nPos, names);
      k := GapFault(sig, names, nPos, Min(Whole(sig, checked.value).len, |sig.params|));
    }
  }

  /** A call refused though its layout stands was given something in the options' place
      that holds none. */
  lemma OptionsFault(sig: Sig, nPos: nat, names: seq<string>, vals: seq<Value>)
    requires DistinctParams(sig) && |vals| == nPos + |names| && LayoutOf(Some(sig), nPos, names).Ok?
    ensures PlanRead(Some(sig), nPos, names, vals).Err? ==>
      |sig.params| < nPos && PlanRead(Some(sig), nPos, names, vals).error == NotOptions(vals[|sig.params|])
  {
    PlanInRange(Some(sig), nPos, names);
    LayoutIsAccepted(sig, nPos, names);
    LayoutStands(sig, nPos, names);
    var slots := Planned(Some(sig), nPos, names).value;
    FaultIsOptions(sig, slots, nPos, vals);
  }

  lemma {:induction false} FaultIsOptions(sig: Sig, slots: seq<Slot>, nPos: nat, vals: seq<Value>)
    requires forall i :: 0 <= i < |slots| ==> InRange(slots[i], |vals|)
    requires forall i :: 0 <= i < |slots| && slots[i].Options? && slots[i].base.Some? ==>
      slots[i].base.value == |sig.params| < nPos
    ensures ReadSlots(slots, vals).Err? ==>
      |sig.params| < nPos && |sig.params| < |vals| && ReadSlots(slots, vals).error == NotOptions(vals[|sig.params|])
    decreases |slots|
  {
    if slots != [] {
      var init, last := slots[..|slots| - 1], slots[|slots| - 1];
      assert forall i :: 0 <= i < |init| ==> init[i] == slots[i];
      FaultIsOptions(sig, init, nPos, vals);
      if last.Options? {
        EntriesInRange(last, |vals|);
      }
    }
  }

  /** `names'` and `vs'` are the named arguments of `names` and `vs` written in
      another order: the `j`th is the `pi[j]`th, and back by `rho`. */
  ghost predicate Rearranged(names: seq<string>, vs: seq<Value>, names': seq<string>, vs': seq<Value>,
                             pi: seq<nat>, rho: seq<nat>) {
    && |names| == |vs| == |names'| == |vs'| == |pi| == |rho|
    && (forall j {:trigger pi[j]} :: 0 <= j < |pi| ==>
          pi[j] < |names| && rho[pi[j]] == j && names'[j] == names[pi[j]] && vs'[j] == vs[pi[j]])
    && (forall k {:trigger rho[k]} :: 0 <= k < |rho| ==> rho[k] < |names| && pi[rho[k]] == k)
  }

  lemma RearrangedBack(names: seq<string>, vs: seq<Value>, names': seq<string>, vs': seq<Value>,
                       pi: seq<nat>, rho: seq<nat>)
    requires Rearranged(names, vs, names', vs', pi, rho)
    ensures Rearranged(names', vs', names, vs, rho, pi)
  {
    forall k | 0 <= k < |rho| ensures names[k] == names'[rho[k]] && vs[k] == vs'[rho[k]] {
      assert pi[rho[k]] == k;
    }
  }

  lemma RearrangedDistinct(names: seq<string>, vs: seq<Value>, names': seq<string>, vs': seq<Value>,
                           pi: seq<nat>, rho: seq<nat>)
    requires Rearranged(names, vs, names', vs', pi, rho) && DistinctNames(names)
    ensures DistinctNames(names')
  {
    forall j, k | 0 <= j < k < |names'| ensures names'[j] != names'[k] {
      assert rho[pi[j]] == j && rho[pi[k]] == k;
      assert names[pi[j]] != names[pi[k]];
    }
  }

  lemma RearrangedMap(names: seq<string>, vs: seq<Value>, names': seq<string>, vs': seq<Value>,
                      pi: seq<nat>, rho: seq<nat>)
    requires Rearranged(names, vs, names', vs', pi, rho) && DistinctNames(names) && DistinctNames(names')
    ensures forall x :: x in NamedMap(names', vs') ==>
      x in NamedMap(names, vs) && NamedMap(names, vs)[x] == NamedMap(names', vs')[x]
  {
    NamedMapKeys(names', vs');
    NamedMapIs(names, vs);
    NamedMapIs(names', vs');
    forall x | x in NamedMap(names', vs')
      ensures x in NamedMap(names, vs) && NamedMap(names, vs)[x] == NamedMap(names', vs')[x]
    {
      assert x in NamesOf(names');
      var j :| 0 <= j < |names'| && names'[j] == x;
      assert names[pi[j]] == x;
    }
  }

  /** The order named arguments are written in changes neither whether a call binds
      nor what it binds. */
  lemma OrderDoesNotMatter(sig: Sig, nPos: nat, names: seq<string>, vals: seq<Value>,
                           names': seq<string>, vals': seq<Value>, pi: seq<nat>, rho: seq<nat>)
    requires DistinctParams(sig) && |vals| == nPos + |names| && |vals'| == nPos + |names'|
    requires vals[..nPos] == vals'[..nPos] && Rearranged(names, vals[nPos..], names', vals'[nPos..], pi, rho)
    ensures var r, r' := PlanRead(Some(sig), nPos, names, vals), PlanRead(Some(sig), nPos, names', vals');
      (r.Ok? <==> r'.Ok?) && (r.Ok? ==> r == r')
  {
    var vs, vs' := vals[nPos..], vals'[nPos..];
    RearrangedBack(names, vs, names', vs', pi, rho);
    CallMeans(sig, nPos, names, vals);
    CallMeans(sig, nPos, names', vals');
    if DistinctNames(names) {
      RearrangedDistinct(names, vs, names', vs', pi, rho);
      RearrangedMap(names, vs, names', vs', pi, rho);
      RearrangedMap(names', vs', names, vs, rho, pi);
      assert NamedMap(names, vs) == NamedMap(names', vs');
    } else if DistinctNames(names') {
      RearrangedDistinct(names', vs', names, vs, rho, pi);
    }
  }

  // ── Trailing defaults ──

  /** The literal defaults at the head of these parameters. */
  function Literals(params: seq<Param>): seq<Value> {
    if params == [] || !params[0].default.Literal? then [] else [params[0].default.value] + Literals(params[1..])
  }

  function Filled(found: Option<Sig>, args: seq<Value>): seq<Value> {
    if found.None? || |args| >= |found.value.params| then args
    else args + Literals(found.value.params[|args|..])
  }

  method FillDefaults(found: Option<Sig>, args: seq<Value>) returns (filled: seq<Value>)
    ensures filled == Filled(found, args)
  {
    filled := args;
    if found.None? || |args| >= |found.value.params| {
      return;
    }
    var params := found.value.params[|args|..];
    for i := 0 to |params|
      invariant filled + Literals(params[i..]) == args + Literals(params)
    {
      assert params[i..][0] == params[i] && params[i..][1..] == params[i + 1..];
      if !params[i].default.Literal? {
        assert filled + [] == filled;
        return;
      }
      filled := filled + [params[i].default.value];
    }
    assert filled + [] == filled;
  }

  lemma {:induction false} LiteralsAre(params: seq<Param>)
    ensures |Literals(params)| <= |params|
    ensures forall i :: 0 <= i < |Literals(params)| ==> params[i].default == Literal(Literals(params)[i])
    ensures |Literals(params)| < |params| ==> !params[|Literals(params)|].default.Literal?
  {
    if params != [] && params[0].default.Literal? {
      LiteralsAre(params[1..]);
    }
  }

  /** A short call is completed with the literal defaults that follow it, up to the
      first parameter without one, and completing it again changes nothing. */
  lemma FilledIs(found: Option<Sig>, args: seq<Value>)
    ensures args <= Filled(found, args) && Filled(found, Filled(found, args)) == Filled(found, args)
    ensures found.Some? && |args| < |found.value.params| ==>
      && |Filled(found, args)| <= |found.value.params|
      && (forall i :: |args| <= i < |Filled(found, args)| ==>
            found.value.params[i].default == Literal(Filled(found, args)[i]))
      && (|Filled(found, args)| < |found.value.params| ==>
            !found.value.params[|Filled(found, args)|].default.Literal?)
  {
    if found.Some? && |args| < |found.value.params| {
      var params := found.value.params;
      var rest := params[|args|..];
      LiteralsAre(rest);
      forall i | |args| <= i < |Filled(found, args)| ensures params[i].default == Literal(Filled(found, args)[i]) {
        assert params[i] == rest[i - |args|];
      }
      var n := |Filled(found, args)|;
      if n < |params| {
        assert params[n] == rest[n - |args|] && params[n..][0] == params[n];
        assert Filled(found, args) + [] == Filled(found, args);
      }
    }
  }
}
