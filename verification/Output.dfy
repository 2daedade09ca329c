/** What an evaluation printed, bounded: the first bytes, the last bytes, and how
    many fell between them. */
module Output {
  import opened Wrappers

  const HEAD_MAX: nat := 512 * 1024
  const TAIL_MAX: nat := 256 * 1024

  /** What is handed back: everything, or the two ends and what is missing. */
  datatype Kept = Whole(bytes: seq<byte>) | Ends(head: seq<byte>, dropped: nat, tail: seq<byte>)

  /** What is kept of a log, from the log alone. */
  function Keep(log: seq<byte>): Kept {
    if |log| <= HEAD_MAX + TAIL_MAX then Whole(log)
    else Ends(log[..HEAD_MAX], |log| - HEAD_MAX - TAIL_MAX, log[|log| - TAIL_MAX..])
  }

  /** A log kept loses exactly the bytes it says it does, from its middle. */
  lemma KeepLosesTheMiddle(log: seq<byte>)
    ensures match Keep(log)
            case Whole(bytes) => bytes == log
            case Ends(head, dropped, tail) =>
              && |head| == HEAD_MAX && |tail| == TAIL_MAX && dropped > 0
              && exists middle: seq<byte> :: |middle| == dropped && log == head + middle + tail
  {
    if |log| > HEAD_MAX + TAIL_MAX {
      var middle := log[HEAD_MAX..|log| - TAIL_MAX];
      assert log == log[..HEAD_MAX] + middle + log[|log| - TAIL_MAX..];
    }
  }

  class Collected {
    var head: seq<byte>
    var tail: seq<byte>
    var dropped: nat

    constructor ()
      ensures Holds([])
    {
      head, tail, dropped := [], [], 0;
    }

    /** The buffers are what `log` leaves in them: the head full before the tail
        begins, and the tail cut only in whole steps. */
    ghost predicate Holds(log: seq<byte>)
      reads this
    {
      && head == log[..if |log| < HEAD_MAX then |log| else HEAD_MAX]
      && |tail| + dropped + |head| == |log|
      && tail == log[|log| - |tail|..]
      && |tail| <= 2 * TAIL_MAX
      && (dropped > 0 ==> |tail| >= TAIL_MAX)
    }

    method Push(bytes: seq<byte>, ghost log: seq<byte>)
      requires Holds(log)
      modifies this
      ensures Holds(log + bytes)
      ensures |head| + |tail| <= HEAD_MAX + 2 * TAIL_MAX
    {
      var room := if |head| < HEAD_MAX then HEAD_MAX - |head| else 0;
      var cut := if room < |bytes| then room else |bytes|;
      var h, t := bytes[..cut], bytes[cut..];
      ghost var all := log + bytes;
      head := head + h;
      assert head == all[..|head|];
      if t == [] {
        assert all[|all| - |tail|..] == tail;
        return;
      }
      tail := tail + t;
      assert all[|all| - |tail|..] == tail;
      if |tail| > 2 * TAIL_MAX {
        var over := |tail| - TAIL_MAX;
        tail := tail[over..];
        dropped := dropped + over;
      }
    }

    /** What was printed since the last call; the buffers start again. */
    method Take(ghost log: seq<byte>) returns (kept: Kept)
      requires Holds(log)
      modifies this
      ensures kept == Keep(log)
      ensures Holds([])
    {
      var h, t, d := head, tail, dropped;
      head, tail, dropped := [], [], 0;
      if |t| > TAIL_MAX {
        var cut := |t| - TAIL_MAX;
        t := t[cut..];
        d := d + cut;
      }
      if d == 0 {
        assert log == log[..|h|] + log[|h|..];
        kept := Whole(h + t);
      } else {
        kept := Ends(h, d, t);
      }
    }
  }

  // ── Splits do not matter ──

  function Flatten(writes: seq<seq<byte>>): seq<byte> {
    if writes == [] then [] else Flatten(writes[..|writes| - 1]) + writes[|writes| - 1]
  }

  /** Whatever writes a log came in, what is taken is what the log gives. */
  method Run(writes: seq<seq<byte>>) returns (kept: Kept)
    ensures kept == Keep(Flatten(writes))
  {
    var c := new Collected();
    for i := 0 to |writes|
      invariant c.Holds(Flatten(writes[..i]))
    {
      c.Push(writes[i], Flatten(writes[..i]));
      assert writes[..i + 1][..i] == writes[..i];
    }
    assert writes[..|writes|] == writes;
    kept := c.Take(Flatten(writes));
  }
}
