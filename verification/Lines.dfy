/** Texts as bytes, and the lines they are made of. */
module Lines {
  import opened Wrappers

  type Text = seq<byte>

  const NEWLINE: byte := 10
  const SPACE: byte := 32

  /** What stands between the newlines: always one line more than newlines. */
  function Split(t: Text): (ls: seq<Text>)
    ensures ls != []
  {
    if t == [] then [[]]
    else if t[0] == NEWLINE then [[]] + Split(t[1..])
    else Grow(t[0], Split(t[1..]))
  }

  /** A byte more at the head of the first line. */
  function Grow(b: byte, ls: seq<Text>): (r: seq<Text>)
    requires ls != []
    ensures |r| == |ls|
  {
    [[b] + ls[0]] + ls[1..]
  }

  /** The lines of one text run into those of the next. */
  function Glue(a: seq<Text>, b: seq<Text>): (r: seq<Text>)
    requires a != [] && b != []
    ensures |r| == |a| + |b| - 1
  {
    a[..|a| - 1] + [a[|a| - 1] + b[0]] + b[1..]
  }

  function Newlines(t: Text): nat {
    if t == [] then 0 else (if t[0] == NEWLINE then 1 else 0) + Newlines(t[1..])
  }

  lemma {:induction false} SplitCounts(t: Text)
    ensures |Split(t)| == Newlines(t) + 1
  {
    if t != [] {
      SplitCounts(t[1..]);
    }
  }

  lemma GlueNext(line: Text, a: seq<Text>, b: seq<Text>)
    requires a != [] && b != []
    ensures Glue([line] + a, b) == [line] + Glue(a, b)
  {
    assert ([line] + a)[..|a|] == [line] + a[..|a| - 1];
  }

  lemma GlueGrow(c: byte, a: seq<Text>, b: seq<Text>)
    requires a != [] && b != []
    ensures Glue(Grow(c, a), b) == Grow(c, Glue(a, b))
  {
    if |a| == 1 {
      assert ([c] + a[0]) + b[0] == [c] + (a[0] + b[0]);
    } else {
      assert a == [a[0]] + a[1..];
      GlueNext(a[0], a[1..], b);
      GlueNext([c] + a[0], a[1..], b);
    }
  }

  lemma {:induction false} SplitConcat(a: Text, b: Text)
    ensures Split(a + b) == Glue(Split(a), Split(b))
  {
    if a == [] {
      assert a + b == b;
      assert [] + Split(b)[0] == Split(b)[0];
    } else {
      assert (a + b)[1..] == a[1..] + b;
      SplitConcat(a[1..], b);
      if a[0] == NEWLINE {
        GlueNext([], Split(a[1..]), Split(b));
      } else {
        GlueGrow(a[0], Split(a[1..]), Split(b));
      }
    }
  }

  function LinesOf(t: Text): (ls: seq<Text>)
    ensures |ls| == Newlines(t) + 1
  {
    SplitCounts(t);
    Split(t)
  }

  /** The lines of a text around a part of it do not depend on that part. */
  lemma LinesAround(a: Text, b: Text, c: Text)
    ensures var ls, first := LinesOf(a + b + c), |LinesOf(a)| - 1;
      && |ls| == |LinesOf(a)| + |LinesOf(b)| + |LinesOf(c)| - 2
      && ls[..first] == LinesOf(a)[..first]
      && ls[first + |LinesOf(b)|..] == LinesOf(c)[1..]
  {
    SplitConcat(a, b);
    SplitConcat(a + b, c);
  }
}
