/** A pack rewritten: what is new, what it held, what is dropped, and the order each
    key's entries keep through any number of rewrites. */
module PackMerge {
  import opened Pack
  import opened PackLaws
  import opened StableSort
  import opened Wrappers

  const VARIANTS: nat := 4
  const STALE_SECS: nat := 14 * 86_400

  datatype New = New(key: Key, body: Bytes)

  /** What a run made, oldest first, which keys it used, and when it is. */
  datatype Change = Change(made: seq<New>, used: set<Key>, now: Time)

  // ── One key's entries ──

  predicate HasBody(v: seq<Dated>, body: Bytes) {
    exists i :: 0 <= i < |v| && v[i].body == body
  }

  /** One more, unless its body is there already. */
  function Add(v: seq<Dated>, d: Dated): seq<Dated> {
    if HasBody(v, d.body) then v else v + [d]
  }

  function AddAll(v: seq<Dated>, ds: seq<Dated>): seq<Dated> {
    if ds == [] then v else Add(AddAll(v, ds[..|ds| - 1]), ds[|ds| - 1])
  }

  /** What was made for a key, newest first. */
  function Made(made: seq<New>, key: Key, now: Time): seq<Dated> {
    if made == [] then []
    else Made(made[1..], key, now) + if made[0].key == key then [Dated(now, made[0].body)] else []
  }

  predicate Stale(d: Dated, used: bool, now: Time) {
    now - d.time > STALE_SECS && !used
  }

  /** What is left of a key's stored entries, a used key's made recent. */
  function Left(stored: seq<Dated>, used: bool, now: Time): seq<Dated> {
    if stored == [] then []
    else
      var last := stored[|stored| - 1];
      Left(stored[..|stored| - 1], used, now)
      + if Stale(last, used, now) then [] else [Dated(if used then now else last.time, last.body)]
  }

  function Merged(change: Change, stored: seq<Dated>, key: Key): seq<Dated> {
    AddAll(AddAll([], Made(change.made, key, change.now)), Left(stored, key in change.used, change.now))
  }

  function Capped(v: seq<Dated>): seq<Dated> {
    if |v| > VARIANTS then v[..VARIANTS] else v
  }

  // ── The merge ──

  ghost predicate MadeSoFar(rows: map<Key, seq<Dated>>, made: seq<New>, now: Time) {
    forall key {:trigger Get(rows, key)} :: Get(rows, key) == AddAll([], Made(made, key, now))
  }

  lemma MadeStep(rows: map<Key, seq<Dated>>, made: seq<New>, i: nat, now: Time)
    requires i < |made| && MadeSoFar(rows, made[i + 1..], now)
    ensures MadeSoFar(rows[made[i].key := Add(Get(rows, made[i].key), Dated(now, made[i].body))], made[i..], now)
  {
    var key := made[i].key;
    var rows' := rows[key := Add(Get(rows, key), Dated(now, made[i].body))];
    assert made[i..][0] == made[i] && made[i..][1..] == made[i + 1..];
    forall k ensures Get(rows', k) == AddAll([], Made(made[i..], k, now)) {
      assert Get(rows, k) == AddAll([], Made(made[i + 1..], k, now));
      var before := Made(made[i + 1..], k, now);
      if k == key {
        assert (before + [Dated(now, made[i].body)])[..|before|] == before;
      } else {
        assert before + [] == before;
      }
    }
  }

  method MergeMade(change: Change) returns (rows: map<Key, seq<Dated>>)
    ensures MadeSoFar(rows, change.made, change.now)
  {
    rows := map[];
    var i := |change.made|;
    assert change.made[i..] == [];
    while i > 0
      invariant 0 <= i <= |change.made|
      invariant MadeSoFar(rows, change.made[i..], change.now)
    {
      i := i - 1;
      var key, body := change.made[i].key, change.made[i].body;
      MadeStep(rows, change.made, i, change.now);
      rows := rows[key := Add(Get(rows, key), Dated(change.now, body))];
    }
    assert change.made[0..] == change.made;
  }

  method MergeStored(v: seq<Dated>, stored: seq<Dated>, used: bool, now: Time) returns (r: seq<Dated>)
    ensures r == AddAll(v, Left(stored, used, now))
  {
    r := v;
    for i := 0 to |stored|
      invariant r == AddAll(v, Left(stored[..i], used, now))
    {
      LeftStep(v, stored, i, used, now);
      if Stale(stored[i], used, now) {
        continue;
      }
      r := Add(r, Dated(if used then now else stored[i].time, stored[i].body));
    }
    assert stored[..|stored|] == stored;
  }

  lemma LeftStep(v: seq<Dated>, stored: seq<Dated>, i: nat, used: bool, now: Time)
    requires i < |stored|
    ensures AddAll(v, Left(stored[..i + 1], used, now))
      == if Stale(stored[i], used, now) then AddAll(v, Left(stored[..i], used, now))
         else Add(AddAll(v, Left(stored[..i], used, now)),
                  Dated(if used then now else stored[i].time, stored[i].body))
  {
    var before := Left(stored[..i], used, now);
    var d := Dated(if used then now else stored[i].time, stored[i].body);
    assert stored[..i + 1][..i] == stored[..i];
    assert before + [] == before && (before + [d])[..|before|] == before;
  }

  /** The rows of the keys in `done` are merged whole, the others hold what was made. */
  ghost predicate MergedSoFar(rows: map<Key, seq<Dated>>, p: Pack, digest: Digest, change: Change, todo: set<Key>)
    requires Whole(p)
  {
    forall key {:trigger Get(rows, key)} ::
      Get(rows, key) == if key in todo then AddAll([], Made(change.made, key, change.now))
                        else Merged(change, Entries(p, digest, key), key)
  }

  lemma NothingStored(p: Pack, digest: Digest, key: Key)
    requires Whole(p) && key !in p.rows
    ensures Entries(p, digest, key) == []
  {
  }

  method MergeRows(p: Pack, digest: Digest, change: Change) returns (rows: map<Key, seq<Dated>>)
    requires Whole(p)
    ensures MergedSoFar(rows, p, digest, change, {})
  {
    rows := MergeMade(change);
    var todo := p.rows.Keys;
    forall key | key !in todo ensures Get(rows, key) == Merged(change, Entries(p, digest, key), key) {
      NothingStored(p, digest, key);
      assert Get(rows, key) == AddAll([], Made(change.made, key, change.now));
    }
    while todo != {}
      invariant MergedSoFar(rows, p, digest, change, todo)
      decreases |todo|
    {
      var key :| key in todo;
      var stored := BodiesOf(p, digest, key);
      var v := MergeStored(Get(rows, key), stored, key in change.used, change.now);
      MergedStep(rows, p, digest, change, todo, key, v);
      rows := rows[key := v];
      todo := todo - {key};
    }
  }

  lemma MergedStep(rows: map<Key, seq<Dated>>, p: Pack, digest: Digest, change: Change, todo: set<Key>,
                   key: Key, v: seq<Dated>)
    requires Whole(p) && MergedSoFar(rows, p, digest, change, todo) && key in todo
    requires v == AddAll(Get(rows, key), Left(Entries(p, digest, key), key in change.used, change.now))
    ensures MergedSoFar(rows[key := v], p, digest, change, todo - {key})
  {
    forall k ensures Get(rows[key := v], k) ==
      if k in todo - {key} then AddAll([], Made(change.made, k, change.now))
      else Merged(change, Entries(p, digest, k), k)
    {
      if k == key {
        assert Get(rows, k) == AddAll([], Made(change.made, k, change.now));
        assert Get(rows[key := v], k) == v;
      } else {
        assert Get(rows[key := v], k) == Get(rows, k);
      }
    }
  }

  function Flat(key: Key, v: seq<Dated>): seq<Entry> {
    if v == [] then [] else [Entry(key, v[0].time, v[0].body)] + Flat(key, v[1..])
  }

  lemma {:induction false} WrittenFlat(key: Key, v: seq<Dated>, k: Key)
    ensures Written(Flat(key, v), k) == if k == key then v else []
  {
    if v != [] {
      WrittenFlat(key, v[1..], k);
      assert Flat(key, v)[1..] == Flat(key, v[1..]);
    }
  }

  lemma {:induction false} WrittenConcat(a: seq<Entry>, b: seq<Entry>, key: Key)
    ensures Written(a + b, key) == Written(a, key) + Written(b, key)
  {
    if a == [] {
      assert a + b == b;
    } else {
      var first := if a[0].key == key then [Dated(a[0].time, a[0].body)] else [];
      assert (a + b)[1..] == a[1..] + b;
      WrittenConcat(a[1..], b, key);
      assert (first + Written(a[1..], key)) + Written(b, key) == first + (Written(a[1..], key) + Written(b, key));
    }
  }

  /** The entries written: each key's together, the keys in any order. */
  ghost predicate Flattened(flat: seq<Entry>, rows: map<Key, seq<Dated>>, todo: set<Key>) {
    forall key {:trigger Written(flat, key)} ::
      Written(flat, key) == if key in todo then [] else Capped(Get(rows, key))
  }

  lemma FlattenStep(flat: seq<Entry>, rows: map<Key, seq<Dated>>, todo: set<Key>, key: Key)
    requires Flattened(flat, rows, todo) && key in todo && key in rows
    ensures Flattened(flat + Flat(key, Capped(rows[key])), rows, todo - {key})
  {
    var more := Flat(key, Capped(rows[key]));
    forall k ensures Written(flat + more, k) == if k in todo - {key} then [] else Capped(Get(rows, k)) {
      assert Written(flat, k) == if k in todo then [] else Capped(Get(rows, k));
      WrittenConcat(flat, more, k);
      WrittenFlat(key, Capped(rows[key]), k);
    }
  }

  method Flatten(rows: map<Key, seq<Dated>>) returns (flat: seq<Entry>)
    ensures Flattened(flat, rows, {})
  {
    flat := [];
    var todo := rows.Keys;
    while todo != {}
      invariant todo <= rows.Keys && Flattened(flat, rows, todo)
      decreases |todo|
    {
      var key :| key in todo;
      FlattenStep(flat, rows, todo, key);
      flat := flat + Flat(key, Capped(rows[key]));
      todo := todo - {key};
    }
  }

  /** What a file holds for a key; a file that is no pack holds nothing. */
  ghost function Stored(digest: Digest, stamp: Bytes, bs: Bytes, key: Key): seq<Dated> {
    ParsedIsWhole(bs, stamp);
    match Parsed(bs, stamp)
    case Some(p) => Entries(p, digest, key)
    case None => []
  }

  /** `flat` is what a rewrite of the file `before` makes of `change`. */
  ghost predicate Rewrites(digest: Digest, stamp: Bytes, before: Bytes, change: Change, flat: seq<Entry>) {
    forall key {:trigger Written(flat, key)} ::
      Written(flat, key) == Capped(Merged(change, Stored(digest, stamp, before, key), key))
  }

  method WritePack(digest: Digest, stamp: Bytes, before: Bytes, change: Change)
    returns (after: Bytes, ghost flat: seq<Entry>)
    requires |before| < WIDE
    ensures Rewrites(digest, stamp, before, change, flat)
    ensures after == Encoded(digest, stamp, Newest(flat))
  {
    var found := Parse(before, stamp);
    ParsedIsWhole(before, stamp);
    var p := if found.Some? then found.value else Pack([], 0, map[]);
    var rows := MergeRows(p, digest, change);
    var entries := Flatten(rows);
    forall key ensures Written(entries, key) == Capped(Merged(change, Stored(digest, stamp, before, key), key)) {
      assert Get(rows, key) == Merged(change, Entries(p, digest, key), key);
    }
    flat := entries;
    after := Encode(digest, stamp, entries);
  }
}
