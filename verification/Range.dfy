/** `range`: a list of 64-bit integers from a start toward an end by a step, its
    size reckoned in wider arithmetic before the loop runs in 64 bits. The stop the
    loop listens for, and the room it asks for, are parameters. */
module Range {

  const I64_MIN: int := -0x8000_0000_0000_0000
  const I64_MAX: int := 0x7FFF_FFFF_FFFF_FFFF

  newtype i64 = x: int | -0x8000_0000_0000_0000 <= x <= 0x7FFF_FFFF_FFFF_FFFF

  /** The most elements a builtin is to build a list of. */
  const MAX_BUILT_LEN: int := 0x1000_0000

  /** A stop is listened for each time this many elements have been made. */
  const LISTEN_EVERY: nat := 0x10_0000

  datatype Listing = Listed(items: seq<i64>) | NoMemory(count: nat) | Interrupted

  datatype Arg = Int(n: i64) | NotAnInt

  datatype Answer = Built(list: Listing) | TooLong(n: i64) | ZeroStep | TypeError | WrongArity

  /** `x` comes before `end` on the way that `step` goes. */
  predicate Before(x: int, end: int, step: int) {
    (step > 0 && x < end) || (step < 0 && x > end)
  }

  function Abs(x: int): nat {
    if x < 0 then -x else x
  }

  /** The size as the builtin reckons it. */
  function Count(start: int, end: int, step: int): int {
    if Before(start, end, step) then (Abs(end - start) + Abs(step) - 1) / Abs(step) else 0
  }

  // ── The size is right ──

  lemma MulOrder(a: nat, b: nat, s: nat)
    requires a <= b
    ensures a * s <= b * s
  {
  }

  lemma CeilDivides(a: nat, s: nat, k: nat)
    requires a > 0 && s > 0
    ensures k < (a + s - 1) / s <==> k * s < a
  {
    var c := (a + s - 1) / s;
    assert c * s <= a + s - 1 < c * s + s;
    if k < c {
      assert (k + 1) * s <= c * s;
    } else {
      assert k * s >= c * s;
    }
  }

  /** `Count` is how many terms of the progression come before the end. */
  lemma CountIsExact(start: int, end: int, step: int, k: nat)
    requires step != 0
    ensures Count(start, end, step) >= 0
    ensures k < Count(start, end, step) <==> Before(start + k * step, end, step)
  {
    if Before(start, end, step) {
      CeilDivides(Abs(end - start), Abs(step), k);
      assert k * step == if step > 0 then k * Abs(step) else -(k * Abs(step));
    } else if step > 0 {
      assert k * step >= 0;
    } else {
      assert k * step <= 0;
    }
  }

  /** No 64-bit range has more terms than a 64-bit count holds, so the
      cast of the wide count loses nothing. */
  lemma CountFits(start: i64, end: i64, step: i64)
    ensures 0 <= Count(start as int, end as int, step as int) < 0x1_0000_0000_0000_0000
  {
    CountAtMostDistance(start as int, end as int, step as int);
  }

  lemma CountAtMostDistance(start: int, end: int, step: int)
    ensures 0 <= Count(start, end, step) <= Abs(end - start)
  {
    if Before(start, end, step) {
      var a, s := Abs(end - start), Abs(step);
      CeilDivides(a, s, a);
      MulOrder(1, s, a);
    }
  }

  // ── The loop ──

  /** The elements, all of them and in order; or the room refused, or the stop heard. */
  ghost predicate Lists(r: Listing, start: int, end: int, step: int, room: nat, stop: nat -> bool) {
    var count := Count(start, end, step);
    && (r.NoMemory? <==> count > room)
    && (r.NoMemory? ==> r.count == count)
    && (r.Interrupted? <==> count <= room && exists n :: 0 < n <= count && n % LISTEN_EVERY == 0 && stop(n))
    && (r.Listed? ==> |r.items| == count)
    && (r.Listed? ==> forall k :: 0 <= k < |r.items| ==> r.items[k] as int == start + k * step)
  }

  /** `range_list`. `room` is how many elements the allocator grants; `stop(n)`
      whether a stop is pending when the `n`th element has been made. */
  method RangeList(start: i64, end: i64, step: i64, room: nat, stop: nat -> bool) returns (r: Listing)
    ensures Lists(r, start as int, end as int, step as int, room, stop)
  {
    CountFits(start, end, step);
    var count := Count(start as int, end as int, step as int);
    if count > room {
      return NoMemory(count);
    }
    var items: seq<i64> := [];
    var i := start;
    var n: nat := 0;
    while Before(i as int, end as int, step as int)
      invariant n == |items| <= count
      invariant forall k :: 0 <= k < n ==> items[k] as int == start as int + k * step as int
      invariant i as int == start as int + n * step as int
      invariant forall m :: 0 < m <= n && m % LISTEN_EVERY == 0 ==> !stop(m)
      decreases count - n
    {
      CountIsExact(start as int, end as int, step as int, n);
      items := items + [i];
      n := n + 1;
      if n % LISTEN_EVERY == 0 && stop(n) {
        return Interrupted;
      }
      var next := i as int + step as int;
      assert next == start as int + n * step as int by {
        Advance(start as int, n - 1, step as int);
      }
      if I64_MIN <= next <= I64_MAX {
        i := next as i64;
      } else {
        PastTheLimit(start, end, step, n);
        break;
      }
    }
    if step != 0 {
      CountIsExact(start as int, end as int, step as int, n);
    }
    r := Listed(items);
  }

  lemma Advance(start: int, n: nat, step: int)
    ensures start + (n + 1) * step == start + n * step + step
  {
  }

  /** A step past the 64-bit limit is past any 64-bit end. */
  lemma PastTheLimit(start: i64, end: i64, step: i64, n: nat)
    requires step != 0 && 0 < n <= Count(start as int, end as int, step as int)
    requires !(I64_MIN <= start as int + n * step as int <= I64_MAX)
    ensures n == Count(start as int, end as int, step as int)
  {
    CountIsExact(start as int, end as int, step as int, n);
    if step > 0 {
      assert n * step as int >= 0;
    } else {
      assert n * step as int <= 0;
    }
  }

  // ── The builtin ──

  function SaturatingSub(a: i64, b: i64): i64 {
    var d := a as int - b as int;
    if d < I64_MIN then I64_MIN as i64 else if d > I64_MAX then I64_MAX as i64 else d as i64
  }

  /** Division as the machine does it: toward zero. */
  function TruncDiv(a: int, b: int): int
    requires b != 0
  {
    if (a < 0) == (b < 0) then Abs(a) / Abs(b) else -(Abs(a) / Abs(b))
  }

  predicate AllInts(args: seq<Arg>) {
    forall k :: 0 <= k < |args| ==> args[k].Int?
  }

  /** A start left out is zero, and a step left out is one. */
  function Start(args: seq<Arg>): i64
    requires 1 <= |args| <= 3 && AllInts(args)
  {
    if |args| == 1 then 0 else args[0].n
  }

  function End(args: seq<Arg>): i64
    requires 1 <= |args| <= 3 && AllInts(args)
  {
    if |args| == 1 then args[0].n else args[1].n
  }

  function Step(args: seq<Arg>): i64
    requires 1 <= |args| <= 3 && AllInts(args)
  {
    if |args| == 3 then args[2].n else 1
  }

  /** What `range` is asked for, when it can be asked for. */
  predicate WellAsked(args: seq<Arg>) {
    1 <= |args| <= 3 && AllInts(args) && Step(args) != 0
  }

  /** The size as the guard reckons it: the distance divided by the step. */
  function Span(args: seq<Arg>): int
    requires WellAsked(args)
  {
    TruncDiv(End(args) as int - Start(args) as int, Step(args) as int)
  }

  /** Every form of `range` refuses what it cannot be asked, refuses a range over the
      limit and no other, and otherwise lists the range asked for. */
  method Range(args: seq<Arg>, room: nat, stop: nat -> bool) returns (r: Answer)
    ensures r.WrongArity? <==> |args| == 0 || |args| > 3
    ensures r.TypeError? <==> 1 <= |args| <= 3 && !AllInts(args)
    ensures r.ZeroStep? <==> 1 <= |args| <= 3 && AllInts(args) && Step(args) == 0
    ensures r.TooLong? <==> WellAsked(args) && Span(args) > MAX_BUILT_LEN
    ensures r.TooLong? ==> r.n as int == if Span(args) < I64_MAX then Span(args) else I64_MAX
    ensures r.Built? ==>
      WellAsked(args) && Lists(r.list, Start(args) as int, End(args) as int, Step(args) as int, room, stop)
    ensures r.Built? && r.list.Listed? ==> |r.list.items| <= MAX_BUILT_LEN + if |args| == 3 then 1 else 0
  {
    if |args| == 0 || |args| > 3 {
      return WrongArity;
    }
    if args[0].NotAnInt? || (|args| > 1 && args[1].NotAnInt?) || (|args| > 2 && args[2].NotAnInt?) {
      return TypeError;
    }
    if |args| == 1 {
      if args[0].n as int > MAX_BUILT_LEN {
        return TooLong(args[0].n);
      }
      var list := RangeList(0, args[0].n, 1, room, stop);
      r := Built(list);
    } else if |args| == 2 {
      var d := SaturatingSub(args[1].n, args[0].n);
      if d as int > MAX_BUILT_LEN {
        return TooLong(d);
      }
      var list := RangeList(args[0].n, args[1].n, 1, room, stop);
      r := Built(list);
    } else {
      if args[2].n == 0 {
        return ZeroStep;
      }
      var start, end, step := args[0].n, args[1].n, args[2].n;
      var span := TruncDiv(end as int - start as int, step as int);
      SpanAndCount(start as int, end as int, step as int);
      if span > MAX_BUILT_LEN {
        return TooLong(if span < I64_MAX then span as i64 else I64_MAX as i64);
      }
      var list := RangeList(start, end, step, room, stop);
      r := Built(list);
    }
  }

  /** With a step of one the limit is exact: a range is over it when its size is. */
  lemma SpanIsExact(args: seq<Arg>)
    requires WellAsked(args)
    ensures Span(args) > MAX_BUILT_LEN ==>
      Count(Start(args) as int, End(args) as int, Step(args) as int) > MAX_BUILT_LEN
    ensures |args| < 3 ==>
      (Span(args) > MAX_BUILT_LEN <==>
       Count(Start(args) as int, End(args) as int, Step(args) as int) > MAX_BUILT_LEN)
  {
    SpanAndCount(Start(args) as int, End(args) as int, Step(args) as int);
  }

  lemma CeilOfFloor(a: nat, s: nat)
    requires s > 0
    ensures (a + s - 1) / s == a / s + (if a % s == 0 then 0 else 1)
  {
    var q, m := a / s, a % s;
    assert a == q * s + m;
    if m == 0 {
      assert a + s - 1 == q * s + (s - 1);
      DivideBack(q, s - 1, s);
    } else {
      assert a + s - 1 == (q + 1) * s + (m - 1);
      DivideBack(q + 1, m - 1, s);
    }
  }

  lemma DivideBack(q: nat, m: nat, s: nat)
    requires m < s
    ensures (q * s + m) / s == q
  {
    var p := (q * s + m) / s;
    assert p * s <= q * s + m < p * s + s;
    if p < q {
      MulOrder(p + 1, q, s);
    } else if p > q {
      MulOrder(q + 1, p, s);
    }
  }

  /** The three-argument guard divides toward zero where the size rounds up, so
      it lets a list one longer than the limit through: exactly when the span is
      the limit and the step does not divide the distance. */
  lemma SpanAndCount(start: int, end: int, step: int)
    requires step != 0
    ensures var span, count := TruncDiv(end - start, step), Count(start, end, step);
      && (span > MAX_BUILT_LEN ==> count > MAX_BUILT_LEN)
      && (span <= MAX_BUILT_LEN ==> count <= MAX_BUILT_LEN + 1)
      && (span <= MAX_BUILT_LEN ==>
            (count > MAX_BUILT_LEN <==> span == MAX_BUILT_LEN && Abs(end - start) % Abs(step) != 0))
  {
    CeilOfFloor(Abs(end - start), Abs(step));
    if !Before(start, end, step) && end != start {
      assert TruncDiv(end - start, step) <= 0;
    }
  }

  /** A range the guard accepts although it is over the limit. */
  lemma OneOverTheLimit()
    ensures TruncDiv(2 * MAX_BUILT_LEN + 1, 2) == MAX_BUILT_LEN
    ensures Count(0, 2 * MAX_BUILT_LEN + 1, 2) == MAX_BUILT_LEN + 1
  {
  }
}
