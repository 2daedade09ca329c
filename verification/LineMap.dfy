/** Rounds of splices over a text, and the array that says where each line came from. */
module LineMap {
  import opened Lines
  import opened StableSort
  import opened Wrappers

  datatype LineOrigin = Original(line: nat) | Generated(macroName: string, siteLine: nat)

  /** The source line an origin names. */
  function Number(o: LineOrigin): nat {
    if o.Original? then o.line else o.siteLine
  }

  // ── What the map promises ──

  /** Source lines come in order, and an original line is named by nothing else. */
  ghost predicate Ordered(origins: seq<LineOrigin>) {
    forall i, j {:trigger Number(origins[i]), Number(origins[j])} :: 0 <= i < j < |origins| ==>
      && Number(origins[i]) <= Number(origins[j])
      && (origins[i].Original? || origins[j].Original? ==> Number(origins[i]) < Number(origins[j]))
  }

  /** The origin names a line the author wrote; an original line is that line. */
  ghost predicate Honest(source: seq<Text>, line: Text, o: LineOrigin) {
    && 1 <= Number(o) <= |source|
    && (o.Original? ==> line == source[o.line - 1])
  }

  ghost predicate AllHonest(source: seq<Text>, lines: seq<Text>, origins: seq<LineOrigin>) {
    && |origins| == |lines|
    && forall i {:trigger origins[i]} :: 0 <= i < |origins| ==> Honest(source, lines[i], origins[i])
  }

  /** One origin a line, each honest, in order. */
  ghost predicate TrueLines(source: seq<Text>, lines: seq<Text>, origins: seq<LineOrigin>) {
    AllHonest(source, lines, origins) && Ordered(origins)
  }

  ghost predicate TrueTo(source: Text, text: Text, origins: seq<LineOrigin>) {
    TrueLines(LinesOf(source), LinesOf(text), origins)
  }

  /** Origins `first..first + gone` give way to `n` copies of `o`. */
  function Replace(origins: seq<LineOrigin>, first: nat, gone: nat, o: LineOrigin, n: nat): (r: seq<LineOrigin>)
    requires first + gone <= |origins|
    ensures |r| == |origins| - gone + n
  {
    origins[..first] + Repeat(o, n) + origins[first + gone..]
  }

  lemma ReplaceStaysOrdered(origins: seq<LineOrigin>, first: nat, gone: nat, o: LineOrigin, n: nat)
    requires Ordered(origins) && gone > 0 && first + gone <= |origins|
    requires o.Generated? && Number(o) == Number(origins[first])
    ensures Ordered(Replace(origins, first, gone, o, n))
  {
    var r := Replace(origins, first, gone, o, n);
    forall k | 0 <= k < |r|
      ensures k < first ==> r[k] == origins[k]
      ensures first <= k < first + n ==> r[k] == o
      ensures k >= first + n ==> r[k] == origins[k - n + gone]
    {
    }
    forall i, j | 0 <= i < j < |r|
      ensures Number(r[i]) <= Number(r[j])
      ensures r[i].Original? || r[j].Original? ==> Number(r[i]) < Number(r[j])
    {
      var i' := if i < first then i else if i < first + n then first else i - n + gone;
      var j' := if j < first then j else if j < first + n then first else j - n + gone;
      assert Number(origins[i']) == Number(r[i]) && Number(origins[j']) == Number(r[j]);
    }
  }

  /** `after` is `before` with the `gone` from `first` on given up for `n` others. */
  ghost predicate Swapped<T(!new)>(before: seq<T>, after: seq<T>, first: nat, gone: nat, n: nat) {
    && first + gone <= |before| && |after| == |before| - gone + n
    && (forall i {:trigger after[i]} :: 0 <= i < first ==> after[i] == before[i])
    && (forall i {:trigger after[i]} :: first + n <= i < |after| ==> after[i] == before[i - n + gone])
  }

  lemma SpliceSwaps(a: Text, b: Text, c: Text, r: Text)
    ensures Swapped(LinesOf(a + b + c), LinesOf(a + r + c), |LinesOf(a)| - 1, |LinesOf(b)|, |LinesOf(r)|)
  {
    LinesAround(a, b, c);
    LinesAround(a, r, c);
    SlicesSwap(LinesOf(a + b + c), LinesOf(a + r + c), |LinesOf(a)| - 1, |LinesOf(b)|, |LinesOf(r)|);
  }

  lemma SlicesSwap(before: seq<Text>, after: seq<Text>, first: nat, gone: nat, n: nat)
    requires first + gone <= |before| && |after| == |before| - gone + n
    requires after[..first] == before[..first]
    requires after[first + n..] == before[first + gone..]
    ensures Swapped(before, after, first, gone, n)
  {
    forall i | 0 <= i < first ensures after[i] == before[i] {
      assert after[i] == after[..first][i] == before[i];
    }
    forall i | first + n <= i < |after| ensures after[i] == before[i - n + gone] {
      assert after[i] == after[first + n..][i - first - n];
    }
  }

  lemma ReplaceStaysHonest(source: seq<Text>, before: seq<Text>, after: seq<Text>, origins: seq<LineOrigin>,
                           first: nat, gone: nat, o: LineOrigin, n: nat)
    requires AllHonest(source, before, origins) && gone > 0 && first + gone <= |origins|
    requires Swapped(before, after, first, gone, n)
    requires o.Generated? && Number(o) == Number(origins[first])
    ensures AllHonest(source, after, Replace(origins, first, gone, o, n))
  {
    var r := Replace(origins, first, gone, o, n);
    forall i | 0 <= i < |r| ensures Honest(source, after[i], r[i]) {
      if i < first {
        assert Honest(source, before[i], origins[i]);
      } else if i < first + n {
        assert r[i] == o;
        assert Honest(source, before[first], origins[first]);
      } else {
        var k := i - n + gone;
        assert Honest(source, before[k], origins[k]);
      }
    }
  }

  lemma ReplaceStaysTrue(source: seq<Text>, before: seq<Text>, after: seq<Text>, origins: seq<LineOrigin>,
                         first: nat, gone: nat, o: LineOrigin, n: nat)
    requires TrueLines(source, before, origins) && gone > 0 && first + gone <= |origins|
    requires Swapped(before, after, first, gone, n)
    requires o.Generated? && Number(o) == Number(origins[first])
    ensures TrueLines(source, after, Replace(origins, first, gone, o, n))
  {
    ReplaceStaysOrdered(origins, first, gone, o, n);
    ReplaceStaysHonest(source, before, after, origins, first, gone, o, n);
  }

  /** A splice of the text `a + b + c` at `b`, attributed to the line it begins on. */
  lemma SpliceStaysTrue(source: Text, a: Text, b: Text, c: Text, r: Text, origins: seq<LineOrigin>, o: LineOrigin)
    requires TrueTo(source, a + b + c, origins)
    requires |LinesOf(a)| - 1 + |LinesOf(b)| <= |origins|
    requires o.Generated? && Number(o) == Number(origins[|LinesOf(a)| - 1])
    ensures TrueTo(source, a + r + c, Replace(origins, |LinesOf(a)| - 1, |LinesOf(b)|, o, |LinesOf(r)|))
  {
    SpliceSwaps(a, b, c, r);
    ReplaceStaysTrue(LinesOf(source), LinesOf(a + b + c), LinesOf(a + r + c), origins,
                     |LinesOf(a)| - 1, |LinesOf(b)|, o, |LinesOf(r)|);
  }

  // ── One splice ──

  datatype Splice = Splice(start: nat, end: nat, replacement: Text, macroName: string)

  function LineAt(text: Text, at: nat): nat {
    Newlines(text[..if at < |text| then at else |text|]) + 1
  }

  predicate InText(text: Text, s: Splice) {
    s.start <= s.end <= |text|
  }

  function Spliced(text: Text, s: Splice): Text
    requires InText(text, s)
  {
    text[..s.start] + s.replacement + text[s.end..]
  }

  /** The source line a splice is put down to: the root survives when the site
      itself stands in generated text. */
  function SiteLine(text: Text, origins: seq<LineOrigin>, s: Splice): nat {
    var line := LineAt(text, s.start);
    if line - 1 < |origins| then Number(origins[line - 1]) else line
  }

  function SplicedMap(text: Text, origins: seq<LineOrigin>, s: Splice): seq<LineOrigin>
    requires InText(text, s) && LineAt(text, s.start) - 1 <= |origins|
  {
    var first := LineAt(text, s.start) - 1;
    var gone := Newlines(text[s.start..s.end]) + 1;
    var kept := if first + gone < |origins| then gone else |origins| - first;
    Replace(origins, first, kept, Generated(s.macroName, SiteLine(text, origins, s)), Newlines(s.replacement) + 1)
  }

  lemma Parts(text: Text, s: Splice)
    requires InText(text, s)
    ensures text[..s.start] + text[s.start..s.end] + text[s.end..] == text
  {
  }

  lemma SpliceKeepsMap(source: Text, text: Text, origins: seq<LineOrigin>, s: Splice)
    requires TrueTo(source, text, origins) && InText(text, s)
    ensures LineAt(text, s.start) <= |origins|
    ensures TrueTo(source, Spliced(text, s), SplicedMap(text, origins, s))
  {
    var a, b, c := text[..s.start], text[s.start..s.end], text[s.end..];
    Parts(text, s);
    LinesAround(a, b, c);
    SpliceStaysTrue(source, a, b, c, s.replacement, origins, Generated(s.macroName, SiteLine(text, origins, s)));
  }

  // ── A round of splices ──

  /** In the order they are made: each ends before the one before it begins. */
  ghost predicate RightToLeft(n: nat, ss: seq<Splice>) {
    && (forall i {:trigger ss[i]} :: 0 <= i < |ss| ==> ss[i].start <= ss[i].end <= n)
    && (forall i, j {:trigger ss[i], ss[j]} :: 0 <= i < j < |ss| ==> ss[j].end <= ss[i].start)
  }

  lemma RestFits(text: Text, ss: seq<Splice>)
    requires ss != [] && RightToLeft(|text|, ss)
    ensures InText(text, ss[0]) && RightToLeft(|Spliced(text, ss[0])|, ss[1..])
    ensures RightToLeft(ss[0].start, ss[1..])
  {
    var rest := ss[1..];
    assert forall i :: 0 <= i < |rest| ==> rest[i] == ss[i + 1];
    assert forall i :: 0 <= i < |rest| ==> rest[i].end <= ss[0].start;
  }

  ghost function AllSpliced(text: Text, ss: seq<Splice>): Text
    requires RightToLeft(|text|, ss)
    decreases |ss|
  {
    if ss == [] then text
    else
      RestFits(text, ss);
      AllSpliced(Spliced(text, ss[0]), ss[1..])
  }

  /** The text with every span replaced at once, copied from the left: `ss` in the
      order of the text, offsets those of the text before any of it changed. */
  ghost function Copied(text: Text, from: nat, ss: seq<Splice>): Text
    requires LeftToRight(from, |text|, ss)
    decreases |ss|
  {
    if ss == [] then text[from..]
    else text[from..ss[0].start] + ss[0].replacement + Copied(text, ss[0].end, ss[1..])
  }

  ghost predicate LeftToRight(from: nat, n: nat, ss: seq<Splice>)
    decreases |ss|
  {
    if ss == [] then from <= n
    else from <= ss[0].start <= ss[0].end <= n && LeftToRight(ss[0].end, n, ss[1..])
  }

  function Backwards(ss: seq<Splice>): seq<Splice> {
    if ss == [] then [] else Backwards(ss[1..]) + [ss[0]]
  }

  lemma {:induction false} LeftToRightAppend(from: nat, n: nat, ss: seq<Splice>, s: Splice)
    requires s.start <= s.end <= n && LeftToRight(from, s.start, ss)
    ensures LeftToRight(from, n, ss + [s])
    decreases |ss|
  {
    if ss == [] {
      assert [s][1..] == [];
    } else {
      assert (ss + [s])[1..] == ss[1..] + [s];
      LeftToRightAppend(ss[0].end, n, ss[1..], s);
    }
  }

  lemma {:induction false} LeftToRightWider(from: nat, n: nat, n': nat, ss: seq<Splice>)
    requires LeftToRight(from, n, ss) && n <= n'
    ensures LeftToRight(from, n', ss)
    decreases |ss|
  {
    if ss != [] {
      LeftToRightWider(ss[0].end, n, n', ss[1..]);
    }
  }

  lemma {:induction false} BackwardsRises(n: nat, ss: seq<Splice>)
    requires RightToLeft(n, ss)
    ensures LeftToRight(0, n, Backwards(ss))
    decreases |ss|
  {
    if ss != [] {
      var rest := ss[1..];
      assert forall i :: 0 <= i < |rest| ==> rest[i] == ss[i + 1];
      BackwardsRises(ss[0].start, rest);
      LeftToRightAppend(0, n, Backwards(rest), ss[0]);
    }
  }

  lemma Within(text: Text, k: nat, from: nat, to: nat)
    requires from <= to <= k <= |text|
    ensures text[..k][from..to] == text[from..to] && text[..k][from..] == text[from..k]
  {
  }

  /** What follows the last span is carried along. */
  lemma {:induction false} CopiedCarries(text: Text, k: nat, from: nat, ss: seq<Splice>)
    requires k <= |text| && LeftToRight(from, k, ss)
    ensures LeftToRight(from, |text|, ss)
    ensures Copied(text, from, ss) == Copied(text[..k], from, ss) + text[k..]
    decreases |ss|
  {
    LeftToRightWider(from, k, |text|, ss);
    if ss == [] {
      assert text[from..] == text[..k][from..] + text[k..];
    } else {
      CopiedCarries(text, k, ss[0].end, ss[1..]);
      Within(text, k, from, ss[0].start);
    }
  }

  lemma {:induction false} CopiedAppend(text: Text, from: nat, ss: seq<Splice>, s: Splice)
    requires InText(text, s) && LeftToRight(from, s.start, ss)
    ensures LeftToRight(from, |text|, ss + [s])
    ensures Copied(text, from, ss + [s]) == Copied(text[..s.start], from, ss) + s.replacement + text[s.end..]
    decreases |ss|
  {
    LeftToRightAppend(from, |text|, ss, s);
    if ss == [] {
      assert [s][1..] == [];
      Within(text, s.start, from, s.start);
    } else {
      assert (ss + [s])[1..] == ss[1..] + [s];
      CopiedAppend(text, ss[0].end, ss[1..], s);
      Within(text, s.start, from, ss[0].start);
    }
  }

  /** Splicing one span after another, right to left, replaces them all at once. */
  lemma {:induction false} SplicesAreSimultaneous(text: Text, ss: seq<Splice>)
    requires RightToLeft(|text|, ss)
    ensures LeftToRight(0, |text|, Backwards(ss))
    ensures AllSpliced(text, ss) == Copied(text, 0, Backwards(ss))
    decreases |ss|
  {
    BackwardsRises(|text|, ss);
    if ss != [] {
      var s, rest := ss[0], ss[1..];
      RestFits(text, ss);
      var next := Spliced(text, s);
      SplicesAreSimultaneous(next, rest);
      BackwardsRises(s.start, rest);
      CopiedCarries(next, s.start, 0, Backwards(rest));
      CopiedAppend(text, 0, Backwards(rest), s);
      assert next[..s.start] == text[..s.start] && next[s.start..] == s.replacement + text[s.end..];
    }
  }

  /** The map through the same splices, true at every one of them. */
  ghost function AllMapped(source: Text, text: Text, origins: seq<LineOrigin>, ss: seq<Splice>): (r: seq<LineOrigin>)
    requires TrueTo(source, text, origins) && RightToLeft(|text|, ss)
    ensures TrueTo(source, AllSpliced(text, ss), r)
    decreases |ss|
  {
    if ss == [] then origins
    else
      RestFits(text, ss);
      SpliceKeepsMap(source, text, origins, ss[0]);
      AllMapped(source, Spliced(text, ss[0]), SplicedMap(text, origins, ss[0]), ss[1..])
  }

  // ── What a round is given ──

  datatype Span = Span(start: nat, end: nat)

  /** What parsing and running the macros of a text comes to: an error, or the meta
      fns it declares and what each site is to be replaced with. */
  datatype Found = Refused(message: string) | Sites(metas: seq<Span>, splices: seq<Splice>)

  function Start(s: Splice): int { s.start }

  predicate Separate(a: Splice, b: Splice) {
    a.end <= b.start || b.end <= a.start
  }

  /** Sites are pieces of the text that do not overlap. */
  ghost predicate Proper(text: Text, found: Found) {
    found.Sites? ==>
      && (forall i {:trigger found.splices[i]} :: 0 <= i < |found.splices| ==>
            found.splices[i].start < found.splices[i].end <= |text|)
      && Pairwise(Separate, found.splices)
      && (forall i {:trigger found.metas[i]} :: 0 <= i < |found.metas| ==>
            found.metas[i].start <= found.metas[i].end <= |text|)
  }

  function InOrder(ss: seq<Splice>): seq<Splice> {
    SortFalling(Start, ss)
  }

  lemma InOrderFits(text: Text, found: Found)
    requires found.Sites? && Proper(text, found)
    ensures RightToLeft(|text|, InOrder(found.splices))
  {
    var ss := InOrder(found.splices);
    SortFalls(Start, found.splices);
    SortKeepsPairwise(Start, Separate, found.splices);
    forall i | 0 <= i < |ss| ensures ss[i].start < ss[i].end <= |text| {
      SortHolds(Start, found.splices, ss[i]);
    }
    forall i, j | 0 <= i < j < |ss| ensures ss[j].end <= ss[i].start {
      assert Separate(ss[i], ss[j]) && Start(ss[i]) >= Start(ss[j]);
    }
  }

  // ── Blanking the meta fns ──

  predicate Covered(spans: seq<Span>, at: nat) {
    exists k :: 0 <= k < |spans| && spans[k].start <= at < spans[k].end
  }

  /** A text that begins at `from`, blanked. */
  function BlankedFrom(text: Text, from: nat, spans: seq<Span>): Text {
    seq(|text|, i requires 0 <= i < |text| =>
      if Covered(spans, from + i) && text[i] != NEWLINE then SPACE else text[i])
  }

  function Blanked(text: Text, spans: seq<Span>): Text {
    BlankedFrom(text, 0, spans)
  }

  method BlankSpan(out: array<byte>, span: Span)
    requires span.start <= span.end <= out.Length
    modifies out
    ensures forall i {:trigger out[i]} :: 0 <= i < out.Length ==>
      out[i] == if span.start <= i < span.end && old(out[i]) != NEWLINE then SPACE else old(out[i])
  {
    for k := span.start to span.end
      invariant forall i {:trigger out[i]} :: 0 <= i < out.Length ==>
        out[i] == if span.start <= i < k && old(out[i]) != NEWLINE then SPACE else old(out[i])
    {
      if out[k] != NEWLINE {
        out[k] := SPACE;
      }
    }
  }

  lemma CoveredMore(spans: seq<Span>, j: nat, at: nat)
    requires j < |spans|
    ensures Covered(spans[..j + 1], at) <==> Covered(spans[..j], at) || spans[j].start <= at < spans[j].end
  {
    var more, less := spans[..j + 1], spans[..j];
    if Covered(less, at) {
      var k :| 0 <= k < j && less[k].start <= at < less[k].end;
      assert more[k] == less[k];
    }
    assert more[j] == spans[j];
    if Covered(more, at) {
      var k :| 0 <= k <= j && more[k].start <= at < more[k].end;
      assert k < j ==> less[k] == more[k];
    }
  }

  method Blank(out: array<byte>, spans: seq<Span>)
    requires forall k {:trigger spans[k]} :: 0 <= k < |spans| ==> spans[k].start <= spans[k].end <= out.Length
    modifies out
    ensures out[..] == Blanked(old(out[..]), spans)
  {
    ghost var was := out[..];
    for j := 0 to |spans|
      invariant forall i {:trigger out[i]} :: 0 <= i < out.Length ==>
        out[i] == if Covered(spans[..j], i) && was[i] != NEWLINE then SPACE else was[i]
    {
      BlankSpan(out, spans[j]);
      forall i: nat
        ensures Covered(spans[..j + 1], i) <==> Covered(spans[..j], i) || spans[j].start <= i < spans[j].end
      {
        CoveredMore(spans, j, i);
      }
    }
    assert spans[..|spans|] == spans;
  }

  /** Where line `i` begins in a text of these lines. */
  function LineStart(lines: seq<Text>, i: nat): nat
    requires i <= |lines|
  {
    if i == 0 then 0 else |lines[0]| + 1 + LineStart(lines[1..], i - 1)
  }

  /** A line that begins at `start`, blanked where a span covers it. */
  function Faded(line: Text, start: nat, spans: seq<Span>): Text {
    seq(|line|, k requires 0 <= k < |line| => if Covered(spans, start + k) then SPACE else line[k])
  }

  ghost predicate AllFaded(lines: seq<Text>, faded: seq<Text>, from: nat, spans: seq<Span>) {
    && |faded| == |lines|
    && forall i {:trigger faded[i]} :: 0 <= i < |lines| ==>
         faded[i] == Faded(lines[i], from + LineStart(faded, i), spans)
  }

  lemma FadedGrow(lines: seq<Text>, faded: seq<Text>, b: byte, from: nat, spans: seq<Span>)
    requires AllFaded(lines, faded, from + 1, spans) && lines != []
    ensures AllFaded(Grow(b, lines), Grow(if Covered(spans, from) then SPACE else b, faded), from, spans)
  {
    var more, less := Grow(b, lines), Grow(if Covered(spans, from) then SPACE else b, faded);
    forall i | 0 <= i < |more| ensures less[i] == Faded(more[i], from + LineStart(less, i), spans) {
      assert faded[i] == Faded(lines[i], from + 1 + LineStart(faded, i), spans);
      assert less[1..] == faded[1..];
    }
  }

  lemma FadedNext(lines: seq<Text>, faded: seq<Text>, from: nat, spans: seq<Span>)
    requires AllFaded(lines, faded, from + 1, spans)
    ensures AllFaded([[]] + lines, [[]] + faded, from, spans)
  {
    var more, less: seq<Text> := [[]] + lines, [[]] + faded;
    forall i | 0 <= i < |more| ensures less[i] == Faded(more[i], from + LineStart(less, i), spans) {
      assert less[1..] == faded;
      if i > 0 {
        assert faded[i - 1] == Faded(lines[i - 1], from + 1 + LineStart(faded, i - 1), spans);
      }
    }
  }

  /** Blanking leaves every line its place and length, and changes just the bytes
      that a span covers. */
  lemma {:induction false} FadesByLine(t: Text, from: nat, spans: seq<Span>)
    ensures AllFaded(Split(t), Split(BlankedFrom(t, from, spans)), from, spans)
    decreases |t|
  {
    var u := BlankedFrom(t, from, spans);
    if t == [] {
      assert Faded([], from, spans) == [];
    } else {
      FadesByLine(t[1..], from + 1, spans);
      assert u[1..] == BlankedFrom(t[1..], from + 1, spans);
      if t[0] == NEWLINE {
        FadedNext(Split(t[1..]), Split(u[1..]), from, spans);
      } else {
        FadedGrow(Split(t[1..]), Split(u[1..]), t[0], from, spans);
      }
    }
  }

  lemma BlankedFades(text: Text, spans: seq<Span>)
    ensures AllFaded(LinesOf(text), LinesOf(Blanked(text, spans)), 0, spans)
  {
    FadesByLine(text, 0, spans);
  }
}
