/** What an expansion's map says of each line: the author's where no site ever stood, and
    otherwise which macro's it is. */
module Attribution {
  import opened Expansion
  import opened LineMap
  import opened Lines
  import opened StableSort
  import opened Wrappers

  // ── One splice ──

  /** A splice made: the number of the source line its site begins on, and those of all
      the lines that its site stands on. */
  datatype Site = Site(splice: Splice, number: nat, lines: set<nat>)

  ghost function SiteAt(text: Text, origins: seq<LineOrigin>, s: Splice): Site
    requires InText(text, s) && |origins| == Newlines(text) + 1
  {
    var first, last := Newlines(text[..s.start]), Newlines(text[..s.end]);
    NewlinesGrow(text, s.start);
    NewlinesGrow(text, s.end);
    Site(s, Number(origins[first]), set k | first <= k <= last :: Number(origins[k]))
  }

  lemma NewlinesGrow(text: Text, at: nat)
    requires at <= |text|
    ensures Newlines(text) == Newlines(text[..at]) + Newlines(text[at..])
  {
    assert text == text[..at] + text[at..];
    SplitConcat(text[..at], text[at..]);
    SplitCounts(text);
    SplitCounts(text[..at]);
    SplitCounts(text[at..]);
  }

  /** Of the lines, only the site's change hands, and to its own macro. */
  lemma SpliceAttributes(text: Text, origins: seq<LineOrigin>, s: Splice)
    requires InText(text, s) && |origins| == Newlines(text) + 1
    ensures var first, last, n := Newlines(text[..s.start]), Newlines(text[..s.end]), Newlines(s.replacement) + 1;
      && LineAt(text, s.start) - 1 <= |origins| && first <= last < |origins|
      && Swapped(origins, SplicedMap(text, origins, s), first, last + 1 - first, n)
      && forall i {:trigger SplicedMap(text, origins, s)[i]} :: first <= i < first + n ==>
           SplicedMap(text, origins, s)[i] == Generated(s.macroName, Number(origins[first]))
  {
    NewlinesGrow(text, s.start);
    NewlinesGrow(text, s.end);
    NewlinesGrow(text[..s.end], s.start);
    assert text[..s.end][..s.start] == text[..s.start] && text[..s.end][s.start..] == text[s.start..s.end];
  }

  /** A line stays the author's if and only if the site does not stand on it. */
  lemma SpliceKeepsOriginal(text: Text, origins: seq<LineOrigin>, s: Splice, m: nat)
    requires InText(text, s) && |origins| == Newlines(text) + 1 && Ordered(origins)
    ensures LineAt(text, s.start) - 1 <= |origins|
    ensures Original(m) in SplicedMap(text, origins, s) <==>
      Original(m) in origins && m !in SiteAt(text, origins, s).lines
  {
    SpliceAttributes(text, origins, s);
    var first, last, n := Newlines(text[..s.start]), Newlines(text[..s.end]), Newlines(s.replacement) + 1;
    var after := SplicedMap(text, origins, s);
    if i :| 0 <= i < |after| && after[i] == Original(m) {
      var j := if i < first then i else i - n + last + 1 - first;
      assert origins[j] == Original(m) && Number(origins[j]) == m;
    }
    if Original(m) in origins && m !in SiteAt(text, origins, s).lines {
      var j :| 0 <= j < |origins| && origins[j] == Original(m);
      assert j < first || last < j;
      assert after[if j < first then j else j - (last + 1 - first) + n] == Original(m);
    }
  }

  /** A generated line names its site's macro, and the line the site begins on. */
  ghost predicate Names(site: Site, o: LineOrigin) {
    o == Generated(site.splice.macroName, site.number)
  }

  lemma SpliceNames(text: Text, origins: seq<LineOrigin>, s: Splice, o: LineOrigin)
    requires InText(text, s) && |origins| == Newlines(text) + 1
    requires LineAt(text, s.start) - 1 <= |origins| && o in SplicedMap(text, origins, s)
    ensures o in origins || Names(SiteAt(text, origins, s), o)
  {
    SpliceAttributes(text, origins, s);
    var first, last, n := Newlines(text[..s.start]), Newlines(text[..s.end]), Newlines(s.replacement) + 1;
    var after := SplicedMap(text, origins, s);
    var i :| 0 <= i < |after| && after[i] == o;
    if i < first {
      assert origins[i] == o;
    } else if i >= first + n {
      assert origins[i - n + last + 1 - first] == o;
    }
  }

  // ── A round ──

  /** The sites of a round's splices, each as it stood when it was spliced. */
  ghost function SitesOf(source: Text, text: Text, origins: seq<LineOrigin>, ss: seq<Splice>): (r: seq<Site>)
    requires TrueTo(source, text, origins) && RightToLeft(|text|, ss)
    ensures |r| == |ss| && forall k :: 0 <= k < |r| ==> r[k].splice == ss[k]
    decreases |ss|
  {
    if ss == [] then []
    else
      RestFits(text, ss);
      SpliceKeepsMap(source, text, origins, ss[0]);
      [SiteAt(text, origins, ss[0])]
      + SitesOf(source, Spliced(text, ss[0]), SplicedMap(text, origins, ss[0]), ss[1..])
  }

  /** `after` is what the sites leave of `before`. */
  ghost predicate Leaves(before: seq<LineOrigin>, sites: seq<Site>, after: seq<LineOrigin>) {
    && (forall m {:trigger Original(m) in after} ::
          Original(m) in after <==> Original(m) in before && Spared(sites, m))
    && (forall o {:trigger o in after} :: o in after && o.Generated? ==>
          o in before || exists k {:trigger sites[k]} :: 0 <= k < |sites| && Names(sites[k], o))
  }

  /** No site stands on line `m`. */
  ghost predicate Spared(sites: seq<Site>, m: nat) {
    forall k {:trigger sites[k]} :: 0 <= k < |sites| ==> m !in sites[k].lines
  }

  lemma LeavesThen(o0: seq<LineOrigin>, a: seq<Site>, o1: seq<LineOrigin>, b: seq<Site>, o2: seq<LineOrigin>)
    requires Leaves(o0, a, o1) && Leaves(o1, b, o2)
    ensures Leaves(o0, a + b, o2)
  {
    var all := a + b;
    assert forall k :: 0 <= k < |a| ==> all[k] == a[k];
    assert forall k :: 0 <= k < |b| ==> all[|a| + k] == b[k];
    forall m ensures Spared(all, m) <==> Spared(a, m) && Spared(b, m) {
    }
    forall o | o in o2 && o.Generated? && o !in o0
      ensures exists k {:trigger all[k]} :: 0 <= k < |all| && Names(all[k], o)
    {
      if o in o1 {
        var k :| 0 <= k < |a| && Names(a[k], o);
        assert Names(all[k], o);
      } else {
        var k :| 0 <= k < |b| && Names(b[k], o);
        assert Names(all[|a| + k], o);
      }
    }
  }

  lemma LeavesNothing(origins: seq<LineOrigin>)
    ensures Leaves(origins, [], origins)
  {
  }

  lemma SpliceLeaves(text: Text, origins: seq<LineOrigin>, s: Splice)
    requires InText(text, s) && |origins| == Newlines(text) + 1 && Ordered(origins)
    ensures LineAt(text, s.start) - 1 <= |origins|
    ensures Leaves(origins, [SiteAt(text, origins, s)], SplicedMap(text, origins, s))
  {
    SpliceAttributes(text, origins, s);
    var sites, after := [SiteAt(text, origins, s)], SplicedMap(text, origins, s);
    forall m ensures Original(m) in after <==> Original(m) in origins && Spared(sites, m) {
      SpliceKeepsOriginal(text, origins, s, m);
      assert Spared(sites, m) <==> m !in sites[0].lines;
    }
    forall o | o in after && o !in origins
      ensures exists k {:trigger sites[k]} :: 0 <= k < |sites| && Names(sites[k], o)
    {
      SpliceNames(text, origins, s, o);
      assert Names(sites[0], o);
    }
  }

  lemma {:induction false} RoundLeaves(source: Text, text: Text, origins: seq<LineOrigin>, ss: seq<Splice>)
    requires TrueTo(source, text, origins) && RightToLeft(|text|, ss)
    ensures Leaves(origins, SitesOf(source, text, origins, ss), AllMapped(source, text, origins, ss))
    decreases |ss|
  {
    if ss == [] {
      LeavesNothing(origins);
    } else {
      RestFits(text, ss);
      SpliceKeepsMap(source, text, origins, ss[0]);
      SpliceLeaves(text, origins, ss[0]);
      var text', origins' := Spliced(text, ss[0]), SplicedMap(text, origins, ss[0]);
      RoundLeaves(source, text', origins', ss[1..]);
      LeavesThen(origins, [SiteAt(text, origins, ss[0])], origins', SitesOf(source, text', origins', ss[1..]),
                 AllMapped(source, text', origins', ss[1..]));
    }
  }

  // ── The rounds of an expansion ──

  /** The text and the map as a round finds them. */
  datatype Stage = Stage(text: Text, origins: seq<LineOrigin>)

  /** One round: it finds sites, and every one is replaced at once. */
  ghost predicate Rewrites(look: Look, round: nat, text: Text, next: Text) {
    var found := look(round, text);
    && found.Sites? && found.splices != []
    && LeftToRight(0, |text|, Backwards(InOrder(found.splices)))
    && next == Copied(text, 0, Backwards(InOrder(found.splices)))
  }

  /** The sites of a round. */
  ghost function SitesIn(source: Text, look: Look, round: nat, at: Stage): seq<Site>
    requires TrueTo(source, at.text, at.origins)
    requires look(round, at.text).Sites? && Proper(at.text, look(round, at.text))
  {
    InOrderFits(at.text, look(round, at.text));
    SitesOf(source, at.text, at.origins, InOrder(look(round, at.text).splices))
  }

  /** A round leads from one stage to the next. */
  ghost predicate Goes(source: Text, look: Look, round: nat, at: Stage, next: Stage) {
    && TrueTo(source, at.text, at.origins)
    && Proper(at.text, look(round, at.text))
    && Rewrites(look, round, at.text, next.text)
    && Leaves(at.origins, SitesIn(source, look, round, at), next.origins)
  }

  /** How an expansion that comes to `last` in round `n` ends: with a text that has no
      site, with an error, or out of rounds. */
  ghost predicate Ends(look: Look, n: nat, last: Stage, r: Result<Settled, Failure>) {
    match r
    case Ok(settled) => n < FUEL && settled == Settled(last.text, last.origins, settled.metas)
                        && look(n, last.text) == Sites(settled.metas, [])
    case Err(Failed(message)) => n < FUEL && look(n, last.text) == Refused(message)
    case Err(NoProgress) => n == FUEL
  }

  /** The rounds from stage to stage, each leading to the next, and how the last ends. */
  ghost predicate Rounds(source: Text, look: Look, round: nat, run: seq<Stage>, r: Result<Settled, Failure>)
    decreases |run|
  {
    && run != []
    && if |run| == 1 then Ends(look, round, run[0], r)
       else Goes(source, look, round, run[0], run[1]) && Rounds(source, look, round + 1, run[1..], r)
  }

  lemma RoundGoes(source: Text, look: Look, round: nat, at: Stage) returns (next: Stage)
    requires TrueTo(source, at.text, at.origins)
    requires Proper(at.text, look(round, at.text)) && look(round, at.text).Sites? && look(round, at.text).splices != []
    ensures Goes(source, look, round, at, next)
    ensures (next.text, next.origins) == AfterRound(source, at.text, at.origins, look(round, at.text))
    ensures TrueTo(source, next.text, next.origins)
  {
    var found := look(round, at.text);
    InOrderFits(at.text, found);
    SplicesAreSimultaneous(at.text, InOrder(found.splices));
    RoundLeaves(source, at.text, at.origins, InOrder(found.splices));
    var (text, origins) := AfterRound(source, at.text, at.origins, found);
    next := Stage(text, origins);
  }

  /** What an expansion comes to from a stage on. */
  ghost predicate Comes(source: Text, look: Look, round: nat, at: Stage, r: Result<Settled, Failure>)
    requires AllProper(look)
  {
    TrueTo(source, at.text, at.origins) && round <= FUEL && r == Expanded(source, look, round, at.text, at.origins)
  }

  lemma ComesOn(source: Text, look: Look, round: nat, at: Stage, r: Result<Settled, Failure>)
    returns (next: Option<Stage>)
    requires AllProper(look) && Comes(source, look, round, at, r)
    ensures next.Some? ==> round < FUEL && Goes(source, look, round, at, next.value)
    ensures next.Some? ==> Comes(source, look, round + 1, next.value, r)
    ensures next.None? ==> Ends(look, round, at, r)
  {
    next := None;
    if round < FUEL {
      ExpandedStep(source, look, round, at.text, at.origins);
      if look(round, at.text).Sites? && look(round, at.text).splices != [] {
        var stage := RoundGoes(source, look, round, at);
        next := Some(stage);
      }
    }
  }

  lemma {:induction false} ComesByRounds(source: Text, look: Look, round: nat, at: Stage, r: Result<Settled, Failure>)
    returns (run: seq<Stage>)
    requires AllProper(look) && Comes(source, look, round, at, r)
    ensures Rounds(source, look, round, run, r) && run[0] == at
    decreases FUEL - round
  {
    var next := ComesOn(source, look, round, at, r);
    if next.None? {
      run := [at];
    } else {
      run := ComesByRounds(source, look, round + 1, next.value, r);
      run := RoundsOn(source, look, round, at, run, r);
    }
  }

  lemma RoundsOn(source: Text, look: Look, round: nat, at: Stage, rest: seq<Stage>, r: Result<Settled, Failure>)
    returns (run: seq<Stage>)
    requires Rounds(source, look, round + 1, rest, r) && Goes(source, look, round, at, rest[0])
    ensures Rounds(source, look, round, run, r) && run[0] == at
  {
    run := [at] + rest;
    assert run[1..] == rest;
  }

  /** An expansion is its rounds, one after another, from the source to the first text
      without a site, the first error, or the last round there is. */
  lemma ExpandsByRounds(source: Text, look: Look) returns (run: seq<Stage>)
    requires AllProper(look)
    ensures Rounds(source, look, 0, run, Expansions(source, look))
    ensures run[0] == Stage(source, Untouched(Newlines(source) + 1))
  {
    UntouchedIsTrue(source);
    run := ComesByRounds(source, look, 0, Stage(source, Untouched(Newlines(source) + 1)), Expansions(source, look));
  }

  // ── What the map says ──

  /** The sites of all the rounds, in the order they are spliced. */
  ghost function SitesMet(source: Text, look: Look, round: nat, run: seq<Stage>, r: Result<Settled, Failure>): seq<Site>
    requires Rounds(source, look, round, run, r)
    decreases |run|
  {
    if |run| == 1 then []
    else SitesIn(source, look, round, run[0]) + SitesMet(source, look, round + 1, run[1..], r)
  }

  lemma {:induction false} RoundsLeave(source: Text, look: Look, round: nat, run: seq<Stage>,
                                       r: Result<Settled, Failure>)
    requires Rounds(source, look, round, run, r) && r.Ok?
    ensures Leaves(run[0].origins, SitesMet(source, look, round, run, r), r.value.origins)
    decreases |run|
  {
    if |run| == 1 {
      LeavesNothing(run[0].origins);
    } else {
      RoundsLeave(source, look, round + 1, run[1..], r);
      LeavesThen(run[0].origins, SitesIn(source, look, round, run[0]), run[1].origins,
                 SitesMet(source, look, round + 1, run[1..], r), r.value.origins);
    }
  }

  /** A source line is marked original if and only if no site stood on it, and a
      generated line names the macro of some site and the source line it begins on. */
  ghost predicate Attributed(source: Text, sites: seq<Site>, origins: seq<LineOrigin>) {
    && (forall m: nat {:trigger Original(m) in origins} ::
          Original(m) in origins <==> 1 <= m <= |LinesOf(source)| && Spared(sites, m))
    && (forall o {:trigger o in origins} :: o in origins && o.Generated? ==>
          exists k {:trigger sites[k]} :: 0 <= k < |sites| && Names(sites[k], o))
  }

  lemma LeavesAttributed(source: Text, sites: seq<Site>, origins: seq<LineOrigin>)
    requires Leaves(Untouched(Newlines(source) + 1), sites, origins)
    ensures Attributed(source, sites, origins)
  {
    var start := Untouched(Newlines(source) + 1);
    forall m: nat ensures Original(m) in start <==> 1 <= m <= |LinesOf(source)| {
      if 1 <= m <= |start| {
        assert start[m - 1] == Original(m);
      }
    }
  }

  /** The map handed back attributes every line, by the sites of all the rounds. */
  lemma LinesAreAttributed(source: Text, look: Look) returns (run: seq<Stage>)
    requires AllProper(look)
    ensures var r := Expansions(source, look);
      && Rounds(source, look, 0, run, r) && run[0] == Stage(source, Untouched(Newlines(source) + 1))
      && (r.Ok? ==> Attributed(source, SitesMet(source, look, 0, run, r), r.value.origins))
  {
    run := ExpandsByRounds(source, look);
    var r := Expansions(source, look);
    if r.Ok? {
      RoundsLeave(source, look, 0, run, r);
      LeavesAttributed(source, SitesMet(source, look, 0, run, r), r.value.origins);
    }
  }
}
