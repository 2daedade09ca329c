/** What holds of a pack through any number of rewrites under a clock that never runs
    backwards. */
module PackRuns {
  import opened Pack
  import opened PackLaws
  import opened PackMerge
  import opened StableSort
  import opened Wrappers

  // ── One key's entries ──

  ghost predicate NewestFirst(v: seq<Dated>) {
    forall i, j :: 0 <= i < j < |v| ==> v[i].time >= v[j].time
  }

  ghost predicate NoneLater(v: seq<Dated>, clock: Time) {
    forall i :: 0 <= i < |v| ==> v[i].time <= clock
  }

  ghost predicate DistinctBodies(v: seq<Dated>) {
    forall i, j :: 0 <= i < j < |v| ==> v[i].body != v[j].body
  }

  lemma {:induction false} AddAllHolds(v: seq<Dated>, ds: seq<Dated>, body: Bytes)
    ensures HasBody(AddAll(v, ds), body) <==> HasBody(v, body) || HasBody(ds, body)
    decreases |ds|
  {
    if ds != [] {
      var init, last := ds[..|ds| - 1], ds[|ds| - 1];
      AddAllHolds(v, init, body);
      HasBodyMore(init, last, body);
      HasBodyMore(AddAll(v, init), last, body);
      assert init + [last] == ds;
    }
  }

  lemma HasBodyMore(v: seq<Dated>, d: Dated, body: Bytes)
    ensures HasBody(v + [d], body) <==> HasBody(v, body) || d.body == body
  {
    var w := v + [d];
    assert w[|v|] == d;
    if HasBody(v, body) {
      var i :| 0 <= i < |v| && v[i].body == body;
      assert w[i] == v[i];
    }
    if HasBody(w, body) {
      var i :| 0 <= i < |w| && w[i].body == body;
      assert i < |v| ==> v[i] == w[i];
    }
  }

  lemma {:induction false} AddAllDistinct(v: seq<Dated>, ds: seq<Dated>)
    requires DistinctBodies(v)
    ensures DistinctBodies(AddAll(v, ds))
    decreases |ds|
  {
    if ds != [] {
      AddAllDistinct(v, ds[..|ds| - 1]);
      var before, d := AddAll(v, ds[..|ds| - 1]), ds[|ds| - 1];
      if !HasBody(before, d.body) {
        assert forall i :: 0 <= i < |before| ==> before[i].body != d.body;
      }
    }
  }

  /** Every time in `v` is `low` or later. */
  ghost predicate NoneBefore(v: seq<Dated>, low: nat) {
    forall i :: 0 <= i < |v| ==> v[i].time >= low
  }

  lemma {:induction false} AddAllInOrder(v: seq<Dated>, ds: seq<Dated>, clock: Time, low: nat)
    requires NewestFirst(v) && NewestFirst(ds) && NoneLater(v, clock) && NoneLater(ds, clock)
    requires NoneBefore(ds, low)
    requires ds == [] ==> NoneBefore(v, low)
    requires forall i, j :: 0 <= i < |v| && 0 <= j < |ds| ==> v[i].time >= ds[j].time
    ensures NewestFirst(AddAll(v, ds)) && NoneLater(AddAll(v, ds), clock)
    ensures NoneBefore(AddAll(v, ds), low)
    decreases |ds|
  {
    if ds != [] {
      var init, last := ds[..|ds| - 1], ds[|ds| - 1];
      assert NoneBefore(init, last.time);
      assert |v| > 0 ==> v[|v| - 1].time >= last.time;
      AddAllInOrder(v, init, clock, last.time);
      AddInOrder(AddAll(v, init), last, clock, low);
    }
  }

  lemma AddInOrder(v: seq<Dated>, d: Dated, clock: Time, low: nat)
    requires NewestFirst(v) && NoneLater(v, clock) && NoneBefore(v, d.time) && low <= d.time <= clock
    ensures NewestFirst(Add(v, d)) && NoneLater(Add(v, d), clock) && NoneBefore(Add(v, d), low)
  {
  }

  lemma {:induction false} MadeNow(made: seq<New>, key: Key, now: Time)
    ensures forall i :: 0 <= i < |Made(made, key, now)| ==> Made(made, key, now)[i].time == now
  {
    if made != [] {
      MadeNow(made[1..], key, now);
    }
  }

  lemma {:induction false} LeftInOrder(stored: seq<Dated>, used: bool, now: Time, low: nat)
    requires NewestFirst(stored) && NoneLater(stored, now) && NoneBefore(stored, low)
    ensures NewestFirst(Left(stored, used, now)) && NoneLater(Left(stored, used, now), now)
    ensures NoneBefore(Left(stored, used, now), low)
    decreases |stored|
  {
    if stored != [] {
      var init, last := stored[..|stored| - 1], stored[|stored| - 1];
      LeftInOrder(init, used, now, last.time);
      if used {
        LeftAllNow(init, now);
      }
    }
  }

  lemma {:induction false} LeftAllNow(stored: seq<Dated>, now: Time)
    ensures forall i :: 0 <= i < |Left(stored, true, now)| ==> Left(stored, true, now)[i].time == now
    decreases |stored|
  {
    if stored != [] {
      LeftAllNow(stored[..|stored| - 1], now);
    }
  }

  /** A key's entries after a merge: newest first, none later than now, no body twice. */
  lemma MergedInOrder(change: Change, stored: seq<Dated>, key: Key)
    requires NewestFirst(stored) && NoneLater(stored, change.now)
    ensures NewestFirst(Merged(change, stored, key)) && NoneLater(Merged(change, stored, key), change.now)
    ensures DistinctBodies(Merged(change, stored, key))
  {
    var made := Made(change.made, key, change.now);
    var left := Left(stored, key in change.used, change.now);
    MadeNow(change.made, key, change.now);
    AddAllInOrder([], made, change.now, change.now);
    LeftInOrder(stored, key in change.used, change.now, 0);
    AddAllInOrder(AddAll([], made), left, change.now, 0);
    AddAllDistinct([], made);
    AddAllDistinct(AddAll([], made), left);
  }

  lemma {:induction false} MadeHolds(made: seq<New>, key: Key, now: Time, body: Bytes)
    ensures HasBody(Made(made, key, now), body) <==> New(key, body) in made
  {
    if made != [] {
      MadeHolds(made[1..], key, now, body);
      var rest := Made(made[1..], key, now);
      assert made == [made[0]] + made[1..];
      if made[0].key == key {
        HasBodyMore(rest, Dated(now, made[0].body), body);
      } else {
        assert rest + [] == rest;
      }
    }
  }

  /** Some stored entry with this body is wanted still. */
  ghost predicate StillWanted(stored: seq<Dated>, used: bool, now: Time, body: Bytes) {
    exists i :: 0 <= i < |stored| && stored[i].body == body && !Stale(stored[i], used, now)
  }

  lemma {:induction false} LeftHolds(stored: seq<Dated>, used: bool, now: Time, body: Bytes)
    ensures HasBody(Left(stored, used, now), body) <==> StillWanted(stored, used, now, body)
    decreases |stored|
  {
    if stored != [] {
      var init, last := stored[..|stored| - 1], stored[|stored| - 1];
      LeftHolds(init, used, now, body);
      var before := Left(init, used, now);
      if Stale(last, used, now) {
        assert before + [] == before;
      } else {
        HasBodyMore(before, Dated(if used then now else last.time, last.body), body);
      }
      if StillWanted(init, used, now, body) {
        var i :| 0 <= i < |init| && init[i].body == body && !Stale(init[i], used, now);
        assert stored[i] == init[i];
      }
      if StillWanted(stored, used, now, body) {
        var i :| 0 <= i < |stored| && stored[i].body == body && !Stale(stored[i], used, now);
        assert i < |init| ==> init[i] == stored[i];
      }
    }
  }

  /** Before the limits, a merge holds exactly what was made and what was stored and
      is used or not yet stale. */
  lemma MergedHolds(change: Change, stored: seq<Dated>, key: Key, body: Bytes)
    ensures HasBody(Merged(change, stored, key), body)
      <==> New(key, body) in change.made || StillWanted(stored, key in change.used, change.now, body)
  {
    var made := Made(change.made, key, change.now);
    AddAllHolds([], made, body);
    AddAllHolds(AddAll([], made), Left(stored, key in change.used, change.now), body);
    MadeHolds(change.made, key, change.now, body);
    LeftHolds(stored, key in change.used, change.now, body);
  }

  // ── Their order, and their times ──

  /** What is left once one body is taken out. */
  function Without(v: seq<Dated>, body: Bytes): seq<Dated> {
    if v == [] then []
    else
      var last := v[|v| - 1];
      Without(v[..|v| - 1], body) + if last.body == body then [] else [last]
  }

  lemma WithoutMore(v: seq<Dated>, d: Dated, body: Bytes)
    ensures Without(v + [d], body) == Without(v, body) + if d.body == body then [] else [d]
  {
    assert (v + [d])[..|v|] == v;
  }

  lemma {:induction false} WithoutHolds(v: seq<Dated>, body: Bytes, other: Bytes)
    ensures HasBody(Without(v, body), other) <==> other != body && HasBody(v, other)
    decreases |v|
  {
    if v != [] {
      var init, last := v[..|v| - 1], v[|v| - 1];
      WithoutHolds(init, body, other);
      assert v == init + [last];
      HasBodyMore(init, last, other);
      HasBodyMore(Without(init, body), last, other);
      assert Without(init, body) + [] == Without(init, body);
    }
  }

  lemma HasBodyFirst(d: Dated, v: seq<Dated>, body: Bytes)
    ensures HasBody([d] + v, body) <==> d.body == body || HasBody(v, body)
  {
    var w := [d] + v;
    assert w[0] == d;
    if HasBody(v, body) {
      var i :| 0 <= i < |v| && v[i].body == body;
      assert w[i + 1] == v[i];
    }
    if HasBody(w, body) {
      var i :| 0 <= i < |w| && w[i].body == body;
      assert i > 0 ==> v[i - 1] == w[i];
    }
  }

  lemma AddAllMore(v: seq<Dated>, ds: seq<Dated>, d: Dated)
    ensures AddAll(v, ds + [d]) == Add(AddAll(v, ds), d)
  {
    assert (ds + [d])[..|ds|] == ds;
  }

  lemma {:induction false} AddAllTwice(v: seq<Dated>, a: seq<Dated>, b: seq<Dated>)
    ensures AddAll(AddAll(v, a), b) == AddAll(v, a + b)
    decreases |b|
  {
    if b == [] {
      assert a + b == a;
    } else {
      var init, last := b[..|b| - 1], b[|b| - 1];
      AddAllTwice(v, a, init);
      assert a + b == (a + init) + [last];
      AddAllMore(v, a + init, last);
    }
  }

  /** What is added first stands first, and nothing after it has its body. */
  lemma {:induction false} AddedFirst(d: Dated, ds: seq<Dated>)
    ensures AddAll([], [d] + ds) == [d] + Without(AddAll([], ds), d.body)
    decreases |ds|
  {
    if ds == [] {
      assert [d] + ds == [] + [d];
      AddAllMore([], [], d);
    } else {
      var init, last := ds[..|ds| - 1], ds[|ds| - 1];
      var before := AddAll([], init);
      AddedFirst(d, init);
      assert [d] + ds == ([d] + init) + [last];
      AddAllMore([], [d] + init, last);
      HasBodyFirst(d, Without(before, d.body), last.body);
      WithoutHolds(before, d.body, last.body);
      WithoutMore(before, last, d.body);
    }
  }

  lemma {:induction false} MadeLast(made: seq<New>, n: New, key: Key, now: Time)
    ensures Made(made + [n], key, now) == (if n.key == key then [Dated(now, n.body)] else []) + Made(made, key, now)
  {
    if made == [] {
      assert made + [n] == [n] && [n][1..] == [];
    } else {
      assert (made + [n])[1..] == made[1..] + [n];
      MadeLast(made[1..], n, key, now);
    }
  }

  lemma MergedTogether(change: Change, stored: seq<Dated>, key: Key)
    ensures Merged(change, stored, key)
      == AddAll([], Made(change.made, key, change.now) + Left(stored, key in change.used, change.now))
  {
    AddAllTwice([], Made(change.made, key, change.now), Left(stored, key in change.used, change.now));
  }

  /** Of a key's entries what was made last stands first, made now; the others keep
      their order, and other keys' theirs. */
  lemma MadeLastIsFirst(change: Change, n: New, stored: seq<Dated>, key: Key)
    ensures var more := change.(made := change.made + [n]);
      Merged(more, stored, key)
        == if n.key == key then [Dated(change.now, n.body)] + Without(Merged(change, stored, key), n.body)
           else Merged(change, stored, key)
  {
    var more := change.(made := change.made + [n]);
    var made, left := Made(change.made, key, change.now), Left(stored, key in change.used, change.now);
    MergedTogether(change, stored, key);
    MergedTogether(more, stored, key);
    MadeLast(change.made, n, key, change.now);
    if n.key == key {
      assert ([Dated(change.now, n.body)] + made) + left == [Dated(change.now, n.body)] + (made + left);
      AddedFirst(Dated(change.now, n.body), made + left);
    } else {
      assert [] + made == made;
    }
  }

  /** What is stored last stands last, if its body is wanted and not there already: made
      recent if its key was used, and otherwise with the time it had. */
  lemma StoredLastIsLast(change: Change, stored: seq<Dated>, d: Dated, key: Key)
    ensures Merged(change, [], key) == AddAll([], Made(change.made, key, change.now))
    ensures Merged(change, stored + [d], key) == Merged(change, stored, key)
      + if HasBody(Merged(change, stored, key), d.body) then []
        else if key in change.used then [Dated(change.now, d.body)]
        else if change.now - d.time > STALE_SECS then []
        else [d]
  {
    var used, made := key in change.used, AddAll([], Made(change.made, key, change.now));
    var left := Left(stored, used, change.now);
    assert (stored + [d])[..|stored|] == stored;
    if !Stale(d, used, change.now) {
      AddAllMore(made, left, Dated(if used then change.now else d.time, d.body));
    } else {
      assert left + [] == left;
    }
  }

  /** What was made, or stored under a key that was used, is of now. */
  lemma {:induction false} UsedIsRecent(change: Change, stored: seq<Dated>, key: Key, i: nat)
    requires i < |Merged(change, stored, key)|
    requires key in change.used || New(key, Merged(change, stored, key)[i].body) in change.made
    ensures Merged(change, stored, key)[i].time == change.now
    decreases |stored|
  {
    var all := Merged(change, stored, key);
    if stored == [] {
      StoredLastIsLast(change, [], Dated(0, []), key);
      AddAllNow([], Made(change.made, key, change.now), change.now);
      MadeNow(change.made, key, change.now);
    } else {
      var init, d := stored[..|stored| - 1], stored[|stored| - 1];
      assert stored == init + [d];
      StoredLastIsLast(change, init, d, key);
      if i < |Merged(change, init, key)| {
        UsedIsRecent(change, init, key, i);
      } else {
        MergedHolds(change, init, key, all[i].body);
      }
    }
  }

  lemma {:induction false} AddAllNow(v: seq<Dated>, ds: seq<Dated>, now: Time)
    ensures (forall d :: d in v || d in ds ==> d.time == now) ==> forall d :: d in AddAll(v, ds) ==> d.time == now
    decreases |ds|
  {
    if ds != [] {
      AddAllNow(v, ds[..|ds| - 1], now);
    }
  }

  // ── The limit on a file ──

  /** Each key's entries stand newest first. */
  ghost predicate InOrder(es: seq<Entry>) {
    forall key {:trigger Written(es, key)} :: NewestFirst(Written(es, key))
  }

  lemma InOrderTail(es: seq<Entry>)
    requires es != [] && InOrder(es)
    ensures InOrder(es[1..])
    ensures NoneLater(Written(es[1..], es[0].key), es[0].time)
  {
    forall key ensures NewestFirst(Written(es[1..], key)) {
      var v := Written(es, key);
      assert NewestFirst(v);
      if es[0].key == key {
        assert v[1..] == Written(es[1..], key);
      } else {
        assert v == Written(es[1..], key);
      }
    }
    var v := Written(es, es[0].key);
    assert NewestFirst(v);
    assert v == [Dated(es[0].time, es[0].body)] + Written(es[1..], es[0].key);
    var rest := Written(es[1..], es[0].key);
    forall i | 0 <= i < |rest| ensures rest[i].time <= es[0].time {
      assert rest[i] == v[i + 1] && v[0].time >= v[i + 1].time;
    }
  }

  /** Moving an entry back past strictly later ones passes none of its own key's. */
  lemma {:induction false} InsertKeepsWritten(x: Entry, es: seq<Entry>, key: Key)
    requires NoneLater(Written(es, x.key), x.time)
    ensures Written(Insert(Recency, x, es), key) == Written([x] + es, key)
  {
    assert ([x] + es)[1..] == es;
    if es != [] && es[0].key == x.key {
      assert Written(es, x.key)[0].time == es[0].time;
      assert Insert(Recency, x, es) == [x] + es;
    } else if es != [] && Recency(x) < Recency(es[0]) {
      assert Written(es, x.key) == Written(es[1..], x.key);
      InsertKeepsWritten(x, es[1..], key);
      assert ([x] + es[1..])[1..] == es[1..];
    }
  }

  lemma {:induction false} SortKeepsWritten(es: seq<Entry>, key: Key)
    requires InOrder(es)
    ensures Written(SortFalling(Recency, es), key) == Written(es, key)
  {
    if es != [] {
      var rest := SortFalling(Recency, es[1..]);
      InOrderTail(es);
      SortKeepsWritten(es[1..], key);
      SortKeepsWritten(es[1..], es[0].key);
      InsertKeepsWritten(es[0], rest, key);
      assert ([es[0]] + rest)[1..] == rest;
    }
  }

  lemma WrittenPrefix(es: seq<Entry>, n: nat, key: Key)
    requires n <= |es|
    ensures Written(es[..n], key) <= Written(es, key)
  {
    WrittenConcat(es[..n], es[n..], key);
    assert es[..n] + es[n..] == es;
  }

  /** The limit cuts each key's entries from the end, and no entry it keeps is older
      than one it cuts. */
  lemma NewestCutsOldest(es: seq<Entry>, key: Key)
    requires InOrder(es)
    ensures |Newest(es)| == if |es| > PACK_MAX then PACK_MAX else |es|
    ensures Written(Newest(es), key) <= Written(es, key)
    ensures |es| <= PACK_MAX ==> Written(Newest(es), key) == Written(es, key)
    ensures forall kept, d {:trigger kept in Newest(es), d in Written(es, key)[|Written(Newest(es), key)|..]} ::
      kept in Newest(es) && d in Written(es, key)[|Written(Newest(es), key)|..] ==> kept.time >= d.time
  {
    if |es| > PACK_MAX {
      var sorted := SortFalling(Recency, es);
      SortKeepsWritten(es, key);
      SortFalls(Recency, es);
      WrittenPrefix(sorted, PACK_MAX, key);
      WrittenConcat(sorted[..PACK_MAX], sorted[PACK_MAX..], key);
      assert sorted[..PACK_MAX] + sorted[PACK_MAX..] == sorted;
      var cut := Written(es, key)[|Written(Newest(es), key)|..];
      assert cut == Written(sorted[PACK_MAX..], key);
      forall kept, d | kept in Newest(es) && d in cut ensures kept.time >= d.time {
        var i :| 0 <= i < PACK_MAX && sorted[i] == kept;
        var j := WrittenFrom(sorted[PACK_MAX..], key, d);
        assert Recency(sorted[i]) >= Recency(sorted[PACK_MAX + j]);
      }
    }
  }

  lemma {:induction false} WrittenFrom(es: seq<Entry>, key: Key, d: Dated) returns (j: nat)
    requires d in Written(es, key)
    ensures j < |es| && es[j].time == d.time && es[j].key == key && es[j].body == d.body
  {
    if es[0].key == key && d == Dated(es[0].time, es[0].body) {
      j := 0;
    } else {
      assert Written(es, key)
        == (if es[0].key == key then [Dated(es[0].time, es[0].body)] else []) + Written(es[1..], key);
      j := WrittenFrom(es[1..], key, d);
      j := j + 1;
    }
  }

  // ── One rewrite ──

  /** Each key's entries stand newest first, none later than the clock. A file that
      is absent or refused holds none. */
  ghost predicate Ordered(digest: Digest, stamp: Bytes, bs: Bytes, clock: Time) {
    forall key {:trigger Stored(digest, stamp, bs, key)} ::
      NewestFirst(Stored(digest, stamp, bs, key)) && NoneLater(Stored(digest, stamp, bs, key), clock)
  }

  /** How many rows a file's index holds. */
  ghost function RowCount(bs: Bytes, stamp: Bytes): nat {
    if BodyStart(bs, stamp).Some? then |RowsIn(bs, stamp)| else 0
  }

  ghost predicate Tidy(digest: Digest, stamp: Bytes, bs: Bytes, clock: Time) {
    && Ordered(digest, stamp, bs, clock)
    && RowCount(bs, stamp) <= PACK_MAX
    && forall key {:trigger Stored(digest, stamp, bs, key)} ::
         DistinctBodies(Stored(digest, stamp, bs, key)) && |Stored(digest, stamp, bs, key)| <= VARIANTS
  }

  lemma MergedFlat(digest: Digest, stamp: Bytes, before: Bytes, change: Change, flat: seq<Entry>, clock: Time, key: Key)
    requires Ordered(digest, stamp, before, clock) && clock <= change.now
    requires Rewrites(digest, stamp, before, change, flat)
    ensures NewestFirst(Written(flat, key)) && NoneLater(Written(flat, key), change.now)
    ensures DistinctBodies(Written(flat, key)) && |Written(flat, key)| <= VARIANTS
  {
    var stored := Stored(digest, stamp, before, key);
    assert NoneLater(stored, clock);
    MergedInOrder(change, stored, key);
    assert Written(flat, key) == Capped(Merged(change, stored, key));
  }

  lemma FlatInOrder(digest: Digest, stamp: Bytes, before: Bytes, change: Change, flat: seq<Entry>, clock: Time)
    requires Ordered(digest, stamp, before, clock) && clock <= change.now
    requires Rewrites(digest, stamp, before, change, flat)
    ensures InOrder(flat)
  {
    forall key ensures NewestFirst(Written(flat, key)) {
      MergedFlat(digest, stamp, before, change, flat, clock, key);
    }
  }

  lemma PrefixInOrder(v: seq<Dated>, w: seq<Dated>, clock: Time)
    requires NewestFirst(v) && NoneLater(v, clock) && DistinctBodies(v) && |v| <= VARIANTS && w <= v
    ensures NewestFirst(w) && NoneLater(w, clock) && DistinctBodies(w) && |w| <= VARIANTS
  {
    assert forall i :: 0 <= i < |w| ==> w[i] == v[i];
  }

  /** What a rewritten file holds, read again. */
  lemma Rewritten(digest: Digest, stamp: Bytes, flat: seq<Entry>, key: Key)
    requires |stamp| < 0x1_0000 && |Encoded(digest, stamp, Newest(flat))| < WIDE
    ensures Stored(digest, stamp, Encoded(digest, stamp, Newest(flat)), key) == Written(Newest(flat), key)
    ensures RowCount(Encoded(digest, stamp, Newest(flat)), stamp) <= PACK_MAX
  {
    RoundTrip(digest, stamp, Newest(flat), key);
    ParsesBack(digest, stamp, Newest(flat));
    HeaderCounts(digest, stamp, Newest(flat));
  }

  lemma HeaderCounts(digest: Digest, stamp: Bytes, es: seq<Entry>)
    requires |stamp| < 0x1_0000 && |es| <= PACK_MAX && |Encoded(digest, stamp, es)| < WIDE
    ensures RowCount(Encoded(digest, stamp, es), stamp) == |es|
  {
    var all := Encoded(digest, stamp, es);
    IndexBack(digest, stamp, es, |all|);
    assert all[..|all|] == all;
  }

  lemma RewriteIsTidy(digest: Digest, stamp: Bytes, before: Bytes, change: Change, flat: seq<Entry>, clock: Time)
    requires |stamp| < 0x1_0000 && |Encoded(digest, stamp, Newest(flat))| < WIDE
    requires Ordered(digest, stamp, before, clock) && clock <= change.now
    requires Rewrites(digest, stamp, before, change, flat)
    ensures Tidy(digest, stamp, Encoded(digest, stamp, Newest(flat)), change.now)
  {
    var after := Encoded(digest, stamp, Newest(flat));
    FlatInOrder(digest, stamp, before, change, flat, clock);
    forall key
      ensures NewestFirst(Stored(digest, stamp, after, key)) && NoneLater(Stored(digest, stamp, after, key), change.now)
      ensures DistinctBodies(Stored(digest, stamp, after, key)) && |Stored(digest, stamp, after, key)| <= VARIANTS
    {
      RewriteOfKey(digest, stamp, before, change, flat, clock, key);
    }
    HeaderCounts(digest, stamp, Newest(flat));
  }

  lemma RewriteOfKey(digest: Digest, stamp: Bytes, before: Bytes, change: Change, flat: seq<Entry>, clock: Time,
                     key: Key)
    requires |stamp| < 0x1_0000 && |Encoded(digest, stamp, Newest(flat))| < WIDE
    requires Ordered(digest, stamp, before, clock) && clock <= change.now && InOrder(flat)
    requires Rewrites(digest, stamp, before, change, flat)
    ensures var v := Stored(digest, stamp, Encoded(digest, stamp, Newest(flat)), key);
      NewestFirst(v) && NoneLater(v, change.now) && DistinctBodies(v) && |v| <= VARIANTS
  {
    MergedFlat(digest, stamp, before, change, flat, clock, key);
    NewestCutsOldest(flat, key);
    Rewritten(digest, stamp, flat, key);
    PrefixInOrder(Written(flat, key), Written(Newest(flat), key), change.now);
  }

  /** A body a rewritten file holds was made, or stored and still wanted. */
  lemma NothingFromNowhere(digest: Digest, stamp: Bytes, before: Bytes, change: Change, flat: seq<Entry>, clock: Time,
                           key: Key, body: Bytes)
    requires |stamp| < 0x1_0000 && |Encoded(digest, stamp, Newest(flat))| < WIDE
    requires Ordered(digest, stamp, before, clock) && clock <= change.now
    requires Rewrites(digest, stamp, before, change, flat)
    requires HasBody(Stored(digest, stamp, Encoded(digest, stamp, Newest(flat)), key), body)
    ensures New(key, body) in change.made
      || StillWanted(Stored(digest, stamp, before, key), key in change.used, change.now, body)
  {
    var stored := Stored(digest, stamp, before, key);
    Rewritten(digest, stamp, flat, key);
    FlatInOrder(digest, stamp, before, change, flat, clock);
    NewestCutsOldest(flat, key);
    assert Written(flat, key) == Capped(Merged(change, stored, key));
    var v := Written(Newest(flat), key);
    var i :| 0 <= i < |v| && v[i].body == body;
    assert Merged(change, stored, key)[i].body == body;
    MergedHolds(change, stored, key, body);
  }

  /** A body made, or stored and still wanted, is in the file after a rewrite, unless
      its key's `VARIANTS` places or the file's rows went to entries none of which is
      older. */
  lemma {:induction false} WantedIsKept(digest: Digest, stamp: Bytes, before: Bytes, change: Change, flat: seq<Entry>,
                                        clock: Time, key: Key, body: Bytes)
    requires |stamp| < 0x1_0000 && |Encoded(digest, stamp, Newest(flat))| < WIDE
    requires Ordered(digest, stamp, before, clock) && clock <= change.now
    requires Rewrites(digest, stamp, before, change, flat)
    requires New(key, body) in change.made
      || StillWanted(Stored(digest, stamp, before, key), key in change.used, change.now, body)
    ensures HasBody(Stored(digest, stamp, Encoded(digest, stamp, Newest(flat)), key), body)
      || CrowdedOut(Merged(change, Stored(digest, stamp, before, key), key), body)
      || (|flat| > PACK_MAX && CutFor(flat, key, body))
  {
    var stored := Stored(digest, stamp, before, key);
    MergedHolds(change, stored, key, body);
    Rewritten(digest, stamp, flat, key);
    FlatInOrder(digest, stamp, before, change, flat, clock);
    var all := Merged(change, stored, key);
    assert Written(flat, key) == Capped(all);
    if HasBody(Written(flat, key), body) {
      KeptOrCut(flat, key, body);
    } else {
      assert NoneLater(stored, clock);
      MergedInOrder(change, stored, key);
      CappedHolds(all, body);
    }
  }

  /** The key's places all went to other bodies, none of them older. */
  ghost predicate CrowdedOut(all: seq<Dated>, body: Bytes) {
    && |all| > VARIANTS && !HasBody(Capped(all), body)
    && exists j {:trigger all[j]} :: VARIANTS <= j < |all| && all[j].body == body
         && forall i {:trigger Capped(all)[i]} :: 0 <= i < VARIANTS ==> Capped(all)[i].time >= all[j].time
  }

  lemma CappedHolds(all: seq<Dated>, body: Bytes)
    requires NewestFirst(all) && HasBody(all, body)
    ensures HasBody(Capped(all), body) || CrowdedOut(all, body)
  {
    var j :| 0 <= j < |all| && all[j].body == body;
    assert j < |Capped(all)| ==> Capped(all)[j] == all[j];
    if |Capped(all)| <= j {
      forall i | 0 <= i < VARIANTS ensures Capped(all)[i].time >= all[j].time {
        assert Capped(all)[i] == all[i];
      }
    }
  }

  lemma KeptOrCut(flat: seq<Entry>, key: Key, body: Bytes)
    requires InOrder(flat) && HasBody(Written(flat, key), body)
    ensures HasBody(Written(Newest(flat), key), body) || (|flat| > PACK_MAX && CutFor(flat, key, body))
  {
    NewestCutsOldest(flat, key);
    var v, kept := Written(flat, key), Written(Newest(flat), key);
    var i :| 0 <= i < |v| && v[i].body == body;
    if i < |kept| {
      assert kept[i] == v[i];
    } else {
      var d := v[i];
      assert d in v[|kept|..] by {
        assert v[|kept|..][i - |kept|] == d;
      }
      forall other | other in Newest(flat) ensures other.time >= d.time {
        assert other in Newest(flat) && d in Written(flat, key)[|Written(Newest(flat), key)|..];
      }
      assert d in Written(flat, key);
    }
  }

  /** An entry with this body was cut, and every entry kept is at least as recent. */
  ghost predicate CutFor(flat: seq<Entry>, key: Key, body: Bytes) {
    exists d {:trigger d in Written(flat, key)} ::
      d in Written(flat, key) && d.body == body && forall kept :: kept in Newest(flat) ==> kept.time >= d.time
  }

  // ── Any number of rewrites ──

  datatype Step = Step(change: Change, flat: seq<Entry>)

  ghost function FileAfter(digest: Digest, stamp: Bytes, first: Bytes, steps: seq<Step>): Bytes {
    if steps == [] then first else Encoded(digest, stamp, Newest(steps[|steps| - 1].flat))
  }

  function ClockAfter(clock: Time, steps: seq<Step>): Time {
    if steps == [] then clock else steps[|steps| - 1].change.now
  }

  /** Each step rewrites the file the one before it left, no earlier than it did. */
  ghost predicate Runs(digest: Digest, stamp: Bytes, first: Bytes, clock: Time, steps: seq<Step>)
    decreases |steps|
  {
    steps == [] ||
    var init, last := steps[..|steps| - 1], steps[|steps| - 1];
    && Runs(digest, stamp, first, clock, init)
    && ClockAfter(clock, init) <= last.change.now
    && Rewrites(digest, stamp, FileAfter(digest, stamp, first, init), last.change, last.flat)
    && |Encoded(digest, stamp, Newest(last.flat))| < WIDE
  }

  /** Through any number of rewrites each key's entries stand newest first, no body
      twice, at most `VARIANTS` of them, in a file of at most `PACK_MAX` rows. */
  lemma {:induction false} RunIsTidy(digest: Digest, stamp: Bytes, first: Bytes, clock: Time, steps: seq<Step>)
    requires |stamp| < 0x1_0000 && Ordered(digest, stamp, first, clock)
    requires Runs(digest, stamp, first, clock, steps)
    ensures Ordered(digest, stamp, FileAfter(digest, stamp, first, steps), ClockAfter(clock, steps))
    ensures steps != [] ==> Tidy(digest, stamp, FileAfter(digest, stamp, first, steps), ClockAfter(clock, steps))
    decreases |steps|
  {
    if steps != [] {
      var init, last := steps[..|steps| - 1], steps[|steps| - 1];
      RunIsTidy(digest, stamp, first, clock, init);
      RewriteIsTidy(digest, stamp, FileAfter(digest, stamp, first, init), last.change, last.flat,
                    ClockAfter(clock, init));
    }
  }
}
