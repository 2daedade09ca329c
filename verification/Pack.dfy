/** The pack file of a module's compiled entries: written whole, read whole, and
    refused whole unless it is one. */
module Pack {
  import opened LittleEndian
  import opened StableSort
  import opened Wrappers

  const MAGIC: Bytes := [0x6f, 0x6c, 0x63, 0x70]
  const FORMAT: nat := 2
  const ROW: nat := 48
  const PACK_MAX: nat := 4096

  /** One past the largest 64-bit number. */
  const WIDE: nat := 0x1_0000_0000_0000_0000

  type Key = k: Bytes | |k| == 16 witness seq(16, _ => 0)
  type Sum = s: Bytes | |s| == 8 witness seq(8, _ => 0)
  type Time = t: nat | t < WIDE

  /** The first eight bytes of a body's hash, whatever the hash. */
  type Digest = Bytes -> Sum

  datatype Entry = Entry(key: Key, time: Time, body: Bytes)

  datatype Row = Row(time: Time, off: Time, len: Time, sum: Sum)

  datatype Keyed = Keyed(key: Key, row: Row)

  /** A pack as read: its bytes, where its bodies begin, and each key's rows. */
  datatype Pack = Pack(bytes: Bytes, body: nat, rows: map<Key, seq<Row>>)

  // ── Writing ──

  function Header(stamp: Bytes, count: nat): (r: Bytes)
    ensures |r| == 12 + |stamp|
  {
    MAGIC + ToBytes(2, FORMAT) + ToBytes(2, |stamp|) + stamp + ToBytes(4, count)
  }

  function RowBytes(digest: Digest, e: Entry, off: nat): (r: Bytes)
    ensures |r| == ROW
  {
    e.key + ToBytes(8, e.time) + ToBytes(8, off) + ToBytes(8, |e.body|) + digest(e.body)
  }

  function Index(digest: Digest, es: seq<Entry>, off: nat): (r: Bytes)
    ensures |r| == ROW * |es|
  {
    if es == [] then [] else RowBytes(digest, es[0], off) + Index(digest, es[1..], off + |es[0].body|)
  }

  function Bodies(es: seq<Entry>): Bytes {
    if es == [] then [] else es[0].body + Bodies(es[1..])
  }

  /** The file that holds these entries. */
  function Encoded(digest: Digest, stamp: Bytes, es: seq<Entry>): Bytes {
    Header(stamp, |es|) + Index(digest, es, 0) + Bodies(es)
  }

  function Recency(e: Entry): int { e.time }

  /** What a pack has room for: everything or, past the limit, the most recent. */
  function Newest(es: seq<Entry>): seq<Entry> {
    if |es| > PACK_MAX then SortFalling(Recency, es)[..PACK_MAX] else es
  }

  method Encode(digest: Digest, stamp: Bytes, entries: seq<Entry>) returns (out: Bytes)
    ensures out == Encoded(digest, stamp, Newest(entries))
  {
    var es := entries;
    if |es| > PACK_MAX {
      es := SortFalling(Recency, es)[..PACK_MAX];
    }
    out := MAGIC + ToBytes(2, FORMAT) + ToBytes(2, |stamp|) + stamp + ToBytes(4, |es|);
    var off: nat := 0;
    ghost var whole := out + Index(digest, es, 0);
    assert es[0..] == es;
    for i := 0 to |es|
      invariant out + Index(digest, es[i..], off) == whole
    {
      IndexStep(digest, es, i, off, out);
      out := out + RowBytes(digest, es[i], off);
      off := off + |es[i].body|;
    }
    assert out + Index(digest, [], off) == out;
    for i := 0 to |es|
      invariant out + Bodies(es[i..]) == whole + Bodies(es)
    {
      BodiesStep(es, i, out);
      out := out + es[i].body;
    }
    assert out + Bodies([]) == out;
  }

  lemma IndexStep(digest: Digest, es: seq<Entry>, i: nat, off: nat, out: Bytes)
    requires i < |es|
    ensures out + Index(digest, es[i..], off)
      == out + RowBytes(digest, es[i], off) + Index(digest, es[i + 1..], off + |es[i].body|)
  {
    assert es[i..][1..] == es[i + 1..];
  }

  lemma BodiesStep(es: seq<Entry>, i: nat, out: Bytes)
    requires i < |es|
    ensures out + Bodies(es[i..]) == out + es[i].body + Bodies(es[i + 1..])
  {
    assert es[i..][1..] == es[i + 1..];
  }

  // ── Reading ──

  function ReadRow(bs: Bytes): Keyed
    requires |bs| == ROW
  {
    Limits();
    Keyed(bs[..16], Row(FromBytes(bs[16..24]), FromBytes(bs[24..32]), FromBytes(bs[32..40]), bs[40..48]))
  }

  function ReadRows(bs: Bytes): (r: seq<Keyed>)
    ensures |r| == |bs| / ROW
  {
    if |bs| < ROW then [] else [ReadRow(bs[..ROW])] + ReadRows(bs[ROW..])
  }

  /** What stands under a key, in order. */
  function OfKey(rows: seq<Keyed>, key: Key): seq<Row> {
    if rows == [] then [] else (if rows[0].key == key then [rows[0].row] else []) + OfKey(rows[1..], key)
  }

  function Get<T>(m: map<Key, seq<T>>, key: Key): seq<T> {
    if key in m then m[key] else []
  }

  /** Each key's rows, those already grouped first. */
  function Grouped(m: map<Key, seq<Row>>, rows: seq<Keyed>): map<Key, seq<Row>>
    decreases |rows|
  {
    if rows == [] then m
    else Grouped(m[rows[0].key := Get(m, rows[0].key) + [rows[0].row]], rows[1..])
  }

  /** Where the bodies begin, if the header is whole and of this build. */
  function BodyStart(bs: Bytes, stamp: Bytes): Option<nat> {
    var h := 12 + |stamp|;
    if |bs| < h || bs[..4] != MAGIC || FromBytes(bs[4..6]) != FORMAT then None
    else if FromBytes(bs[6..8]) != |stamp| || bs[8..h - 4] != stamp then None
    else
      var start := h + FromBytes(bs[h - 4..h]) * ROW;
      if |bs| < start then None else Some(start)
  }

  predicate Fits(rows: seq<Keyed>, span: nat) {
    forall i :: 0 <= i < |rows| ==> rows[i].row.off + rows[i].row.len <= span
  }

  /** The index a file holds. */
  function RowsIn(bs: Bytes, stamp: Bytes): seq<Keyed>
    requires BodyStart(bs, stamp).Some?
  {
    ReadRows(bs[12 + |stamp|..BodyStart(bs, stamp).value])
  }

  /** A file is a pack when its header and index are whole and every row's body lies
      inside it. */
  function Parsed(bs: Bytes, stamp: Bytes): Option<Pack> {
    match BodyStart(bs, stamp)
    case None => None
    case Some(start) =>
      var rows := RowsIn(bs, stamp);
      if Fits(rows, |bs| - start) then Some(Pack(bs, start, Grouped(map[], rows))) else None
  }

  /** Addition and multiplication as the machine checks them. */
  function CheckedAdd(a: nat, b: nat): Option<nat> {
    if a + b < WIDE then Some(a + b) else None
  }

  function CheckedMul(a: nat, b: nat): Option<nat> {
    if a * b < WIDE then Some(a * b) else None
  }

  /** The next `n` bytes from `at`, as where they end. */
  method Take(bs: Bytes, at: nat, n: nat) returns (end: Option<nat>)
    requires |bs| < WIDE
    ensures end == if at + n <= |bs| then Some(at + n) else None
  {
    end := CheckedAdd(at, n);
    if end.Some? && end.value > |bs| {
      end := None;
    }
  }

  method Parse(bs: Bytes, stamp: Bytes) returns (r: Option<Pack>)
    requires |bs| < WIDE
    ensures r == Parsed(bs, stamp)
  {
    var start := Start(bs, stamp);
    if start.None? {
      return None;
    }
    var rows := ParseIndex(bs, 12 + |stamp|, start.value);
    r := if rows.Some? then Some(Pack(bs, start.value, rows.value)) else None;
  }

  /** The rows between `first` and `body`, grouped, if every body they tell of is there. */
  method ParseIndex(bs: Bytes, first: nat, body: nat) returns (r: Option<map<Key, seq<Row>>>)
    requires first <= body <= |bs| < WIDE
    ensures r == if Fits(ReadRows(bs[first..body]), |bs| - body)
                 then Some(Grouped(map[], ReadRows(bs[first..body]))) else None
  {
    ghost var all := ReadRows(bs[first..body]);
    var rows: map<Key, seq<Row>> := map[];
    assert all[0..] == all;
    for i := 0 to |bs[first..body]| / ROW
      invariant Grouped(rows, all[i..]) == Grouped(map[], all)
      invariant forall k :: 0 <= k < i ==> all[k].row.off + all[k].row.len <= |bs| - body
    {
      var at := first + i * ROW;
      RowHere(bs, first, body, i);
      var next := ReadRow(bs[at..at + ROW]);
      GroupedStep(rows, all, i);
      var end := CheckedAdd(next.row.off, next.row.len);
      if end.None? || end.value > |bs| - body {
        return None;
      }
      rows := rows[next.key := Get(rows, next.key) + [next.row]];
    }
    assert all[|all|..] == [];
    return Some(rows);
  }

  lemma SliceOfSlice(bs: Bytes, first: nat, last: nat, a: nat, b: nat)
    requires a <= b && first + b <= last <= |bs|
    ensures bs[first..last][a..b] == bs[first + a..first + b]
  {
    var l, r := bs[first..last][a..b], bs[first + a..first + b];
    assert |l| == |r|;
    forall i | 0 <= i < |l| ensures l[i] == r[i] {
      assert l[i] == bs[first..last][a + i] == bs[first + a + i];
    }
  }

  lemma RowHere(bs: Bytes, first: nat, body: nat, i: nat)
    requires first <= body <= |bs| && i < |bs[first..body]| / ROW
    ensures first + i * ROW + ROW <= body
    ensures ReadRows(bs[first..body])[i] == ReadRow(bs[first + i * ROW..first + i * ROW + ROW])
  {
    assert i * ROW + ROW <= body - first;
    ReadRowsAt(bs[first..body], i);
    SliceOfSlice(bs, first, body, i * ROW, i * ROW + ROW);
  }

  lemma GroupedStep(m: map<Key, seq<Row>>, all: seq<Keyed>, i: nat)
    requires i < |all|
    ensures Grouped(m, all[i..]) == Grouped(m[all[i].key := Get(m, all[i].key) + [all[i].row]], all[i + 1..])
  {
    assert all[i..][0] == all[i] && all[i..][1..] == all[i + 1..];
  }

  /** The header, a piece at a time. */
  method Start(bs: Bytes, stamp: Bytes) returns (r: Option<nat>)
    requires |bs| < WIDE
    ensures r == BodyStart(bs, stamp)
  {
    var at := Take(bs, 0, 4);
    if at.None? || bs[..4] != MAGIC {
      return None;
    }
    at := Take(bs, 4, 2);
    if at.None? || FromBytes(bs[4..6]) != FORMAT {
      return None;
    }
    at := Take(bs, 6, 2);
    if at.None? {
      return None;
    }
    var n := FromBytes(bs[6..8]);
    at := Take(bs, 8, n);
    if at.None? || bs[8..at.value] != stamp {
      return None;
    }
    var from := at.value;
    at := Take(bs, from, 4);
    if at.None? {
      return None;
    }
    var size := CheckedMul(FromBytes(bs[from..from + 4]), ROW);
    Limits();
    at := Take(bs, from + 4, size.value);
    return at;
  }

  lemma ReadMore(bs: Bytes, i: nat)
    requires 0 < i < |bs| / ROW
    ensures ReadRows(bs)[i] == ReadRows(bs[ROW..])[i - 1]
  {
  }

  lemma {:induction false} ReadRowsAt(bs: Bytes, i: nat)
    requires i < |bs| / ROW
    ensures ReadRows(bs)[i] == ReadRow(bs[i * ROW..i * ROW + ROW])
  {
    if i > 0 {
      ReadRowsAt(bs[ROW..], i - 1);
      var at := (i - 1) * ROW;
      SliceOfSlice(bs, ROW, |bs|, at, at + ROW);
      assert bs[ROW..|bs|] == bs[ROW..];
      assert ROW + at == i * ROW;
      ReadMore(bs, i);
    }
  }

  /** The bytes a row stands for. */
  function Slice(p: Pack, row: Row): Bytes
    requires p.body + row.off + row.len <= |p.bytes|
  {
    p.bytes[p.body + row.off..p.body + row.off + row.len]
  }

  /** Every body of a pack lies in its bytes. */
  ghost predicate Whole(p: Pack) {
    forall key, i {:trigger p.rows[key][i]} :: key in p.rows && 0 <= i < |p.rows[key]| ==>
      p.body + p.rows[key][i].off + p.rows[key][i].len <= |p.bytes|
  }

  lemma {:induction false} GroupedIs(m: map<Key, seq<Row>>, rows: seq<Keyed>, key: Key)
    ensures Get(Grouped(m, rows), key) == Get(m, key) + OfKey(rows, key)
    ensures key in Grouped(m, rows) <==> key in m || OfKey(rows, key) != []
    decreases |rows|
  {
    if rows != [] {
      var m' := m[rows[0].key := Get(m, rows[0].key) + [rows[0].row]];
      GroupedIs(m', rows[1..], key);
    }
  }

  lemma {:induction false} OfKeyFits(rows: seq<Keyed>, key: Key, span: nat)
    requires Fits(rows, span)
    ensures forall i :: 0 <= i < |OfKey(rows, key)| ==> OfKey(rows, key)[i].off + OfKey(rows, key)[i].len <= span
  {
    if rows != [] {
      OfKeyFits(rows[1..], key, span);
    }
  }

  /** Whatever bytes are given, a pack that parses slices every body inside them. */
  lemma ParsedIsWhole(bs: Bytes, stamp: Bytes)
    ensures Parsed(bs, stamp).Some? ==> Whole(Parsed(bs, stamp).value) && Parsed(bs, stamp).value.bytes == bs
  {
    if Parsed(bs, stamp).Some? {
      var p := Parsed(bs, stamp).value;
      var rows := RowsIn(bs, stamp);
      forall key, i | key in p.rows && 0 <= i < |p.rows[key]|
        ensures p.body + p.rows[key][i].off + p.rows[key][i].len <= |p.bytes|
      {
        GroupedIs(map[], rows, key);
        OfKeyFits(rows, key, |bs| - p.body);
        assert p.rows[key] == OfKey(rows, key);
      }
    }
  }
}
