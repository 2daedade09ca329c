/** The stable sort by a falling key: the order `sort_by_key` with `Reverse`
    leaves, which the grant registry, the pack writer and the splice loop share.
    Any stable sort gives this order, so that of the standard library is not
    modelled but its result. */
module StableSort {
  /** No later element has a larger key than an earlier one. */
  ghost predicate Falling<T(!new)>(key: T -> int, s: seq<T>) {
    forall i, j :: 0 <= i < j < |s| ==> key(s[i]) >= key(s[j])
  }

  /** The elements with key `k`, in order. */
  ghost function WithKey<T>(key: T -> int, s: seq<T>, k: int): seq<T> {
    if s == [] then [] else (if key(s[0]) == k then [s[0]] else []) + WithKey(key, s[1..], k)
  }

  function Insert<T>(key: T -> int, x: T, s: seq<T>): (r: seq<T>)
    ensures |r| == |s| + 1
  {
    if s == [] || key(x) >= key(s[0]) then [x] + s else [s[0]] + Insert(key, x, s[1..])
  }

  function SortFalling<T>(key: T -> int, s: seq<T>): (r: seq<T>)
    ensures |r| == |s|
  {
    if s == [] then [] else Insert(key, s[0], SortFalling(key, s[1..]))
  }

  lemma {:induction false} InsertHolds<T>(key: T -> int, x: T, s: seq<T>, y: T)
    ensures y in Insert(key, x, s) <==> y == x || y in s
  {
    if s != [] && key(x) < key(s[0]) {
      InsertHolds(key, x, s[1..], y);
      assert s == [s[0]] + s[1..];
    }
  }

  lemma {:induction false} SortHolds<T>(key: T -> int, s: seq<T>, y: T)
    ensures y in SortFalling(key, s) <==> y in s
  {
    if s != [] {
      SortHolds(key, s[1..], y);
      InsertHolds(key, s[0], SortFalling(key, s[1..]), y);
      assert s == [s[0]] + s[1..];
    }
  }

  lemma {:induction false} InsertFalls<T(!new)>(key: T -> int, x: T, s: seq<T>)
    requires Falling(key, s)
    ensures Falling(key, Insert(key, x, s))
  {
    if s != [] && key(x) < key(s[0]) {
      var tail := Insert(key, x, s[1..]);
      InsertFalls(key, x, s[1..]);
      forall j | 0 <= j < |tail| ensures key(s[0]) >= key(tail[j]) {
        InsertHolds(key, x, s[1..], tail[j]);
      }
    }
  }

  lemma {:induction false} SortFalls<T(!new)>(key: T -> int, s: seq<T>)
    ensures Falling(key, SortFalling(key, s))
  {
    if s != [] {
      SortFalls(key, s[1..]);
      InsertFalls(key, s[0], SortFalling(key, s[1..]));
    }
  }

  lemma {:induction false} InsertKeepsOrder<T>(key: T -> int, x: T, s: seq<T>, k: int)
    ensures WithKey(key, Insert(key, x, s), k) == WithKey(key, [x] + s, k)
  {
    if s == [] || key(x) >= key(s[0]) {
    } else {
      InsertKeepsOrder(key, x, s[1..], k);
      assert ([x] + s)[1..] == s && ([x] + s[1..])[1..] == s[1..];
    }
  }

  /** The sort is stable: equal keys keep the order they came in, and so nothing is
      lost, made or moved between keys. */
  lemma {:induction false} SortIsStable<T>(key: T -> int, s: seq<T>, k: int)
    ensures WithKey(key, SortFalling(key, s), k) == WithKey(key, s, k)
  {
    if s != [] {
      SortIsStable(key, s[1..], k);
      InsertKeepsOrder(key, s[0], SortFalling(key, s[1..]), k);
      assert ([s[0]] + SortFalling(key, s[1..]))[1..] == SortFalling(key, s[1..]);
    }
  }

  lemma {:induction false} NoneWithKey<T(!new)>(key: T -> int, s: seq<T>, k: int)
    requires forall i :: 0 <= i < |s| ==> key(s[i]) != k
    ensures WithKey(key, s, k) == []
  {
    if s != [] {
      NoneWithKey(key, s[1..], k);
    }
  }

  lemma FirstAtLeast<T(!new)>(key: T -> int, a: seq<T>, b: seq<T>)
    requires Falling(key, b) && a != [] && b != []
    requires WithKey(key, a, key(a[0])) == WithKey(key, b, key(a[0]))
    ensures key(b[0]) >= key(a[0])
  {
    if key(b[0]) < key(a[0]) {
      NoneWithKey(key, b, key(a[0]));
      assert false;
    }
  }

  lemma WithKeyTail<T>(key: T -> int, s: seq<T>, k: int)
    requires s != []
    ensures WithKey(key, s, k) == (if key(s[0]) == k then [s[0]] else []) + WithKey(key, s[1..], k)
    ensures WithKey(key, s[1..], k) == if key(s[0]) == k then WithKey(key, s, k)[1..] else WithKey(key, s, k)
  {
  }

  /** Only one sequence is so ordered, so any stable sort gives this one. */
  lemma {:induction false} OneStableOrder<T(!new)>(key: T -> int, a: seq<T>, b: seq<T>)
    requires Falling(key, a) && Falling(key, b)
    requires forall k :: WithKey(key, a, k) == WithKey(key, b, k)
    ensures a == b
    decreases |a|
  {
    if a != [] {
      assert WithKey(key, a, key(a[0])) == WithKey(key, b, key(a[0]));
    }
    if b != [] {
      assert WithKey(key, b, key(b[0])) == WithKey(key, a, key(b[0]));
    }
    if a != [] && b != [] {
      FirstAtLeast(key, a, b);
      FirstAtLeast(key, b, a);
      assert WithKey(key, a, key(a[0])) == WithKey(key, b, key(a[0]));
      assert WithKey(key, a, key(a[0]))[0] == WithKey(key, b, key(a[0]))[0];
      forall k ensures WithKey(key, a[1..], k) == WithKey(key, b[1..], k) {
        assert WithKey(key, a, k) == WithKey(key, b, k);
        WithKeyTail(key, a, k);
        WithKeyTail(key, b, k);
      }
      OneStableOrder(key, a[1..], b[1..]);
      assert a == [a[0]] + a[1..] && b == [b[0]] + b[1..];
    }
  }

  /** Any two elements, in either order, stand in relation `p`. */
  ghost predicate Pairwise<T(!new)>(p: (T, T) -> bool, s: seq<T>) {
    forall i, j :: 0 <= i < j < |s| ==> p(s[i], s[j]) && p(s[j], s[i])
  }

  lemma {:induction false} InsertKeepsPairwise<T(!new)>(key: T -> int, p: (T, T) -> bool, x: T, s: seq<T>)
    requires Pairwise(p, s) && forall i :: 0 <= i < |s| ==> p(s[i], x) && p(x, s[i])
    ensures Pairwise(p, Insert(key, x, s))
  {
    if s != [] && key(x) < key(s[0]) {
      var rest := Insert(key, x, s[1..]);
      InsertKeepsPairwise(key, p, x, s[1..]);
      forall j | 0 <= j < |rest| ensures p(rest[j], s[0]) && p(s[0], rest[j]) {
        InsertHolds(key, x, s[1..], rest[j]);
      }
    }
  }

  lemma {:induction false} SortKeepsPairwise<T(!new)>(key: T -> int, p: (T, T) -> bool, s: seq<T>)
    requires Pairwise(p, s)
    ensures Pairwise(p, SortFalling(key, s))
  {
    if s != [] {
      SortKeepsPairwise(key, p, s[1..]);
      var rest := SortFalling(key, s[1..]);
      forall i | 0 <= i < |rest| ensures p(rest[i], s[0]) && p(s[0], rest[i]) {
        SortHolds(key, s[1..], rest[i]);
      }
      InsertKeepsPairwise(key, p, s[0], rest);
    }
  }
}
