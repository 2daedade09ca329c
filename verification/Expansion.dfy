/** Macro expansion: rounds of splices, the line map beside them, the meta fns blanked at the end. */
module Expansion {
  import opened LineMap
  import opened Lines
  import opened Wrappers

  /** Rounds before giving up. */
  const FUEL: nat := 16

  datatype Expansion = Expansion(text: Text, origins: seq<LineOrigin>)

  /** Where the rounds end: a text without sites, and the meta fns that stand in it. */
  datatype Settled = Settled(text: Text, origins: seq<LineOrigin>, metas: seq<Span>)

  datatype Failure = Failed(message: string) | NoProgress

  /** What each round finds in its text. The macros are the program's own, so this is
      whatever they make of it. */
  type Look = (nat, Text) -> Found

  ghost predicate AllProper(look: Look) {
    forall round, text {:trigger look(round, text)} :: Proper(text, look(round, text))
  }

  // ── The starting map ──

  function Untouched(n: nat): (r: seq<LineOrigin>)
    ensures |r| == n && forall i :: 0 <= i < n ==> r[i] == Original(i + 1)
  {
    if n == 0 then [] else Untouched(n - 1) + [Original(n)]
  }

  lemma UntouchedIsTrue(source: Text)
    ensures TrueTo(source, source, Untouched(Newlines(source) + 1))
  {
    var origins := Untouched(Newlines(source) + 1);
    forall i | 0 <= i < |origins| ensures Honest(LinesOf(source), LinesOf(source)[i], origins[i]) {
    }
    forall i, j | 0 <= i < j < |origins| ensures Number(origins[i]) < Number(origins[j]) {
    }
  }

  // ── The rounds ──

  /** The text and the map once a round's splices are made. */
  ghost function AfterRound(source: Text, text: Text, origins: seq<LineOrigin>, found: Found)
    : (r: (Text, seq<LineOrigin>))
    requires TrueTo(source, text, origins) && found.Sites? && Proper(text, found)
    ensures TrueTo(source, r.0, r.1)
  {
    InOrderFits(text, found);
    (AllSpliced(text, InOrder(found.splices)), AllMapped(source, text, origins, InOrder(found.splices)))
  }

  ghost function Expanded(source: Text, look: Look, round: nat, text: Text, origins: seq<LineOrigin>)
    : Result<Settled, Failure>
    requires AllProper(look) && TrueTo(source, text, origins) && round <= FUEL
    decreases FUEL - round
  {
    if round == FUEL then Err(NoProgress)
    else
      var found := look(round, text);
      if found.Refused? then Err(Failed(found.message))
      else if found.splices == [] then Ok(Settled(text, origins, found.metas))
      else
        var (text', origins') := AfterRound(source, text, origins, found);
        Expanded(source, look, round + 1, text', origins')
  }

  /** Through any number of rounds of any macros, the map stays true; the meta fns are
      those of the round that found no site. */
  lemma {:induction false} ExpandedIsTrue(source: Text, look: Look, round: nat, text: Text, origins: seq<LineOrigin>)
    requires AllProper(look) && TrueTo(source, text, origins) && round <= FUEL
    ensures var r := Expanded(source, look, round, text, origins);
      r.Ok? ==> TrueTo(source, r.value.text, r.value.origins) && IsLast(look, r.value)
    decreases FUEL - round
  {
    if round < FUEL {
      var found := look(round, text);
      if found.Sites? && found.splices == [] {
        assert look(round, text) == Sites(found.metas, []);
      } else if found.Sites? {
        var (text', origins') := AfterRound(source, text, origins, found);
        ExpandedIsTrue(source, look, round + 1, text', origins');
      }
    }
  }

  ghost predicate IsLast(look: Look, last: Settled) {
    exists round: nat {:trigger look(round, last.text)} ::
      round < FUEL && look(round, last.text) == Sites(last.metas, [])
  }

  // ── What is handed back ──

  /** The meta fns are blanked. */
  function Stripped(last: Settled): Expansion {
    Expansion(Blanked(last.text, last.metas), last.origins)
  }

  /** What an expansion promises its readers: one origin a line; every origin a line
      of the source; a line marked original that line, blanked just where a meta fn
      stands; and the source's order kept, no line of it named twice but by lines
      generated at one site. */
  ghost predicate Promised(source: Text, metas: seq<Span>, e: Expansion) {
    && |e.origins| == |LinesOf(e.text)|
    && (forall i {:trigger e.origins[i]} :: 0 <= i < |e.origins| ==>
          && 1 <= Number(e.origins[i]) <= |LinesOf(source)|
          && (e.origins[i].Original? ==> LinesOf(e.text)[i] == Faded(Author(source, e, i), Begins(e, i), metas)))
    && Ordered(e.origins)
  }

  /** The author's line that line `i` is marked as. */
  ghost function Author(source: Text, e: Expansion, i: nat): Text
    requires i < |e.origins| && 1 <= Number(e.origins[i]) <= |LinesOf(source)|
  {
    LinesOf(source)[Number(e.origins[i]) - 1]
  }

  /** Where line `i` begins in the text. */
  ghost function Begins(e: Expansion, i: nat): nat
    requires i <= |LinesOf(e.text)|
  {
    LineStart(LinesOf(e.text), i)
  }

  lemma StrippedIsPromised(source: Text, last: Settled)
    requires TrueTo(source, last.text, last.origins)
    ensures Promised(source, last.metas, Stripped(last))
  {
    BlankedFades(last.text, last.metas);
    var e, lines := Stripped(last), LinesOf(last.text);
    forall i | 0 <= i < |e.origins|
      ensures 1 <= Number(e.origins[i]) <= |LinesOf(source)|
      ensures e.origins[i].Original? ==> LinesOf(e.text)[i] == Faded(Author(source, e, i), Begins(e, i), last.metas)
    {
      assert Honest(LinesOf(source), lines[i], e.origins[i]);
      assert LinesOf(e.text)[i] == Faded(lines[i], Begins(e, i), last.metas);
    }
  }

  /** A line marked original is the author's byte for byte if and only if each byte
      of it where a meta fn stands is a space already: so wherever none stands. */
  lemma IntactIff(source: Text, metas: seq<Span>, e: Expansion, i: nat)
    requires Promised(source, metas, e) && i < |e.origins| && e.origins[i].Original?
    ensures LinesOf(e.text)[i] == Author(source, e, i)
      <==> forall k :: 0 <= k < |Author(source, e, i)| && Covered(metas, Begins(e, i) + k) ==>
             Author(source, e, i)[k] == SPACE
  {
    var line, faded := Author(source, e, i), LinesOf(e.text)[i];
    assert faded == Faded(line, Begins(e, i), metas);
    if forall k :: 0 <= k < |line| && Covered(metas, Begins(e, i) + k) ==> line[k] == SPACE {
      forall k | 0 <= k < |line| ensures faded[k] == line[k] {
      }
      assert faded == line;
    }
  }

  // ── The expander ──

  class Expander {
    var text: Text
    var origins: seq<LineOrigin>

    constructor (source: Text)
      ensures text == source && origins == Untouched(Newlines(source) + 1)
    {
      text := source;
      origins := Untouched(Newlines(source) + 1);
    }

    method SpliceLineMap(s: Splice)
      requires InText(text, s) && LineAt(text, s.start) - 1 <= |origins|
      modifies `origins
      ensures origins == SplicedMap(text, old(origins), s)
      ensures var first, n := Newlines(text[..s.start]), Newlines(s.replacement) + 1;
        var last := first + Newlines(text[s.start..s.end]);
        var stop := if last < |old(origins)| then last + 1 else |old(origins)|;
        && Swapped(old(origins), origins, first, stop - first, n)
        && forall i {:trigger origins[i]} :: first <= i < first + n ==>
             origins[i] == Generated(s.macroName,
                                     if first < |old(origins)| then Number(old(origins)[first]) else first + 1)
    {
      var first := LineAt(text, s.start) - 1;
      var gone := Newlines(text[s.start..s.end]) + 1;
      var n := Newlines(s.replacement) + 1;
      var site := if first < |origins| then Number(origins[first]) else first + 1;
      var stop := if first + gone < |origins| then first + gone else |origins|;
      origins := origins[..first] + Repeat(Generated(s.macroName, site), n) + origins[stop..];
    }

    method Round(splices: seq<Splice>, ghost source: Text, ghost found: Found)
      requires TrueTo(source, text, origins) && found.Sites? && found.splices == splices && Proper(text, found)
      modifies this
      ensures TrueTo(source, text, origins)
      ensures (text, origins) == AfterRound(source, old(text), old(origins), found)
      ensures RightToLeft(|old(text)|, InOrder(splices))
      ensures LeftToRight(0, |old(text)|, Backwards(InOrder(splices)))
      ensures text == Copied(old(text), 0, Backwards(InOrder(splices)))
    {
      InOrderFits(text, found);
      SplicesAreSimultaneous(text, InOrder(splices));
      var ss := InOrder(splices);
      for i := 0 to |ss|
        invariant TrueTo(source, text, origins) && RightToLeft(|text|, ss[i..])
        invariant AllSpliced(text, ss[i..]) == AllSpliced(old(text), ss)
        invariant AllMapped(source, text, origins, ss[i..]) == AllMapped(source, old(text), old(origins), ss)
      {
        var s := ss[i];
        assert ss[i..][0] == s && ss[i..][1..] == ss[i + 1..];
        RestFits(text, ss[i..]);
        SpliceKeepsMap(source, text, origins, s);
        SpliceLineMap(s);
        text := text[..s.start] + s.replacement + text[s.end..];
      }
      assert ss[|ss|..] == [];
    }
  }

  method Strip(text: Text, metas: seq<Span>) returns (r: Text)
    requires forall k {:trigger metas[k]} :: 0 <= k < |metas| ==> metas[k].start <= metas[k].end <= |text|
    ensures r == Blanked(text, metas)
  {
    var out := new byte[|text|](i requires 0 <= i < |text| => text[i]);
    assert out[..] == text;
    Blank(out, metas);
    r := out[..];
  }

  /** The whole expansion of a source, but for the blanking. */
  ghost function Expansions(source: Text, look: Look): Result<Settled, Failure>
    requires AllProper(look)
  {
    UntouchedIsTrue(source);
    Expanded(source, look, 0, source, Untouched(Newlines(source) + 1))
  }

  method Expand(source: Text, look: Look) returns (r: Result<Expansion, Failure>)
    requires AllProper(look)
    ensures r.Ok? <==> Expansions(source, look).Ok?
    ensures r.Ok? ==> r.value == Stripped(Expansions(source, look).value)
    ensures r.Err? ==> r.error == Expansions(source, look).error
  {
    var e := new Expander(source);
    UntouchedIsTrue(source);
    ghost var whole := Expansions(source, look);
    for round := 0 to FUEL
      invariant TrueTo(source, e.text, e.origins)
      invariant Expanded(source, look, round, e.text, e.origins) == whole
    {
      var found := look(round, e.text);
      ExpandedStep(source, look, round, e.text, e.origins);
      if found.Refused? {
        return Err(Failed(found.message));
      }
      if found.splices == [] {
        var out := Strip(e.text, found.metas);
        return Ok(Expansion(out, e.origins));
      }
      e.Round(found.splices, source, found);
    }
    return Err(NoProgress);
  }

  /** What an expansion hands back keeps its promise, the meta fns being those that
      the last round found. */
  lemma ExpansionIsPromised(source: Text, look: Look)
    requires AllProper(look)
    ensures var r := Expansions(source, look);
      r.Ok? ==> IsLast(look, r.value) && Promised(source, r.value.metas, Stripped(r.value))
  {
    UntouchedIsTrue(source);
    var r := Expansions(source, look);
    ExpandedIsTrue(source, look, 0, source, Untouched(Newlines(source) + 1));
    if r.Ok? {
      StrippedIsPromised(source, r.value);
    }
  }

  /** A program of two lines, the first of them a meta fn. */
  function OneMeta(round: nat, text: Text): Found {
    if text == [109, NEWLINE, 97] then Sites([Span(0, 1)], []) else Sites([], [])
  }

  /** Its first line is marked original, and is not the author's any more. */
  lemma MetaLineFades()
    ensures AllProper(OneMeta)
    ensures var source: Text := [109, NEWLINE, 97];
      var r := Expansions(source, OneMeta);
      && r == Ok(Settled(source, [Original(1), Original(2)], [Span(0, 1)]))
      && LinesOf(source) == [[109], [97]] && LinesOf(Stripped(r.value).text) == [[SPACE], [97]]
  {
    var source: Text, metas := [109, NEWLINE, 97], [Span(0, 1)];
    UntouchedIsTrue(source);
    TwoLines(109, 97);
    assert Untouched(2) == [Original(1), Original(2)];
    assert Covered(metas, 0) by {
      assert metas[0].start <= 0 < metas[0].end;
    }
    assert Blanked(source, metas) == [SPACE, NEWLINE, 97];
    TwoLines(SPACE, 97);
  }

  lemma TwoLines(a: byte, b: byte)
    requires a != NEWLINE && b != NEWLINE
    ensures LinesOf([a, NEWLINE, b]) == [[a], [b]]
  {
    var text: Text := [a, NEWLINE, b];
    assert text[1..] == [NEWLINE, b] && text[1..][1..] == [b] && [b][1..] == [];
    GrowsFirst(b, Split([]));
    assert Split([b]) == [[b]];
    GrowsFirst(a, Split([NEWLINE, b]));
    assert Split([NEWLINE, b])[1..] == [[b]];
  }

  lemma GrowsFirst(b: byte, ls: seq<Text>)
    requires ls != [] && ls[0] == []
    ensures Grow(b, ls) == [[b]] + ls[1..]
  {
    assert [b] + ls[0] == [b];
  }

  lemma ExpandedStep(source: Text, look: Look, round: nat, text: Text, origins: seq<LineOrigin>)
    requires AllProper(look) && TrueTo(source, text, origins) && round < FUEL
    ensures Proper(text, look(round, text))
    ensures look(round, text).Refused? ==>
      Expanded(source, look, round, text, origins) == Err(Failed(look(round, text).message))
    ensures look(round, text).Sites? && look(round, text).splices == [] ==>
      Expanded(source, look, round, text, origins) == Ok(Settled(text, origins, look(round, text).metas))
    ensures look(round, text).Sites? && look(round, text).splices != [] ==>
      Expanded(source, look, round, text, origins) == Next(source, look, round, text, origins)
  {
  }

  ghost function Next(source: Text, look: Look, round: nat, text: Text, origins: seq<LineOrigin>)
    : Result<Settled, Failure>
    requires AllProper(look) && TrueTo(source, text, origins) && round < FUEL && look(round, text).Sites?
  {
    assert Proper(text, look(round, text));
    var after := AfterRound(source, text, origins, look(round, text));
    Expanded(source, look, round + 1, after.0, after.1)
  }
}
