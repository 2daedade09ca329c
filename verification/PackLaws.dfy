/** What packs promise: a file written gives back what was written, and a file cut
    short anywhere gives nothing. */
module PackLaws {
  import opened LittleEndian
  import opened Pack
  import opened Wrappers

  // ── Reading bodies ──

  datatype Dated = Dated(time: Time, body: Bytes)

  ghost predicate Inside(p: Pack, rows: seq<Row>) {
    forall i {:trigger rows[i]} :: 0 <= i < |rows| ==> p.body + rows[i].off + rows[i].len <= |p.bytes|
  }

  /** The bodies that match their checksums, in order. */
  function Undamaged(p: Pack, digest: Digest, rows: seq<Row>): seq<Dated>
    requires Inside(p, rows)
  {
    if rows == [] then []
    else
      var body := Slice(p, rows[0]);
      (if digest(body) == rows[0].sum then [Dated(rows[0].time, body)] else []) + Undamaged(p, digest, rows[1..])
  }

  lemma WholeInside(p: Pack, key: Key)
    requires Whole(p)
    ensures Inside(p, Get(p.rows, key))
  {
    if key in p.rows {
      forall i | 0 <= i < |p.rows[key]| ensures p.body + p.rows[key][i].off + p.rows[key][i].len <= |p.bytes| {
      }
    }
  }

  /** What a key's entries are: those undamaged, newest first as they are stored. */
  ghost function Entries(p: Pack, digest: Digest, key: Key): seq<Dated>
    requires Whole(p)
  {
    WholeInside(p, key);
    Undamaged(p, digest, Get(p.rows, key))
  }

  method BodyAt(p: Pack, digest: Digest, key: Key, i: nat) returns (r: Option<Bytes>)
    requires Whole(p)
    ensures r.Some? <==> i < |Get(p.rows, key)| && Sound(p, digest, Get(p.rows, key)[i])
    ensures r.Some? ==> r.value == Slice(p, Get(p.rows, key)[i])
  {
    WholeInside(p, key);
    if key !in p.rows || i >= |p.rows[key]| {
      return None;
    }
    var row := p.rows[key][i];
    var body := p.bytes[p.body + row.off..p.body + row.off + row.len];
    r := if digest(body) == row.sum then Some(body) else None;
  }

  predicate Sound(p: Pack, digest: Digest, row: Row) {
    p.body + row.off + row.len <= |p.bytes| && digest(Slice(p, row)) == row.sum
  }

  lemma UndamagedStep(p: Pack, digest: Digest, rows: seq<Row>, i: nat, before: seq<Dated>)
    requires Inside(p, rows) && i < |rows|
    ensures Inside(p, rows[i..]) && Inside(p, rows[i + 1..])
    ensures before + Undamaged(p, digest, rows[i..])
      == (if Sound(p, digest, rows[i]) then before + [Dated(rows[i].time, Slice(p, rows[i]))] else before)
         + Undamaged(p, digest, rows[i + 1..])
  {
    assert rows[i..][0] == rows[i] && rows[i..][1..] == rows[i + 1..];
  }

  method BodiesOf(p: Pack, digest: Digest, key: Key) returns (r: seq<Dated>)
    requires Whole(p)
    ensures r == Entries(p, digest, key)
  {
    WholeInside(p, key);
    var rows := Get(p.rows, key);
    r := [];
    for i := 0 to |rows|
      invariant r + Undamaged(p, digest, rows[i..]) == Undamaged(p, digest, rows)
    {
      UndamagedStep(p, digest, rows, i, r);
      var body := p.bytes[p.body + rows[i].off..p.body + rows[i].off + rows[i].len];
      if digest(body) == rows[i].sum {
        r := r + [Dated(rows[i].time, body)];
      }
    }
    assert r + Undamaged(p, digest, []) == r;
  }

  /** A body is handed out if and only if it has the checksum its row tells. */
  lemma {:induction false} UndamagedIs(p: Pack, digest: Digest, rows: seq<Row>, d: Dated)
    requires Inside(p, rows)
    ensures d in Undamaged(p, digest, rows) <==>
      exists i :: 0 <= i < |rows| && d == Dated(rows[i].time, Slice(p, rows[i])) && digest(d.body) == rows[i].sum
  {
    if rows != [] {
      var rest := rows[1..];
      assert forall i :: 0 <= i < |rest| ==> rest[i] == rows[i + 1];
      UndamagedIs(p, digest, rest, d);
      if i :| 0 <= i < |rest| && d == Dated(rest[i].time, Slice(p, rest[i])) && digest(d.body) == rest[i].sum {
        assert rows[i + 1] == rest[i];
      }
      if i :| 0 <= i < |rows| && d == Dated(rows[i].time, Slice(p, rows[i])) && digest(d.body) == rows[i].sum {
        assert i > 0 ==> rest[i - 1] == rows[i];
      }
    }
  }

  // ── A file written, read back ──

  /** A key's entries among those written. */
  function Written(es: seq<Entry>, key: Key): seq<Dated> {
    if es == [] then []
    else (if es[0].key == key then [Dated(es[0].time, es[0].body)] else []) + Written(es[1..], key)
  }

  /** The rows of these entries, their bodies stored one after another from `off`. */
  function RowsOf(digest: Digest, es: seq<Entry>, off: nat): (r: seq<Keyed>)
    requires off + |Bodies(es)| < WIDE
    ensures |r| == |es|
  {
    if es == [] then []
    else [Keyed(es[0].key, Row(es[0].time, off, |es[0].body|, digest(es[0].body)))]
         + RowsOf(digest, es[1..], off + |es[0].body|)
  }

  lemma ReadRowBack(digest: Digest, e: Entry, off: nat)
    requires off < WIDE && |e.body| < WIDE
    ensures ReadRow(RowBytes(digest, e, off)) == Keyed(e.key, Row(e.time, off, |e.body|, digest(e.body)))
  {
    var bs := RowBytes(digest, e, off);
    Limits();
    FromToBytes(8, e.time);
    FromToBytes(8, off);
    FromToBytes(8, |e.body|);
    assert bs[..16] == e.key;
    assert bs[16..24] == ToBytes(8, e.time);
    assert bs[24..32] == ToBytes(8, off);
    assert bs[32..40] == ToBytes(8, |e.body|);
    assert bs[40..48] == digest(e.body);
  }

  lemma ReadFirst(row: Bytes, rest: Bytes)
    requires |row| == ROW
    ensures ReadRows(row + rest) == [ReadRow(row)] + ReadRows(rest)
  {
    assert (row + rest)[..ROW] == row && (row + rest)[ROW..] == rest;
  }

  lemma {:induction false} ReadIndexBack(digest: Digest, es: seq<Entry>, off: nat)
    requires off + |Bodies(es)| < WIDE
    ensures ReadRows(Index(digest, es, off)) == RowsOf(digest, es, off)
  {
    if es != [] {
      var row, rest := RowBytes(digest, es[0], off), Index(digest, es[1..], off + |es[0].body|);
      ReadRowBack(digest, es[0], off);
      ReadIndexBack(digest, es[1..], off + |es[0].body|);
      ReadFirst(row, rest);
    }
  }

  /** Each body ends where the bodies end or before; the last, exactly there. */
  lemma {:induction false} RowsFit(digest: Digest, es: seq<Entry>, off: nat)
    requires off + |Bodies(es)| < WIDE
    ensures Fits(RowsOf(digest, es, off), off + |Bodies(es)|)
    ensures forall span {:trigger Fits(RowsOf(digest, es, off), span)} ::
      es != [] && Fits(RowsOf(digest, es, off), span) ==> off + |Bodies(es)| <= span
  {
    if es != [] {
      var rows, rest := RowsOf(digest, es, off), RowsOf(digest, es[1..], off + |es[0].body|);
      RowsFit(digest, es[1..], off + |es[0].body|);
      forall span | Fits(rows, span) ensures off + |Bodies(es)| <= span {
        assert rows[0].row.off + rows[0].row.len <= span;
        assert forall i :: 0 <= i < |rest| ==> rest[i] == rows[i + 1];
        assert Fits(rest, span);
      }
    }
  }

  /** Read from where their bodies lie, the rows give the entries back. */
  lemma {:induction false} UndamagedBack(p: Pack, digest: Digest, es: seq<Entry>, off: nat, key: Key)
    requires off + |Bodies(es)| < WIDE && p.body + off <= |p.bytes| && p.bytes[p.body + off..] == Bodies(es)
    ensures Inside(p, OfKey(RowsOf(digest, es, off), key))
    ensures Undamaged(p, digest, OfKey(RowsOf(digest, es, off), key)) == Written(es, key)
  {
    if es != [] {
      var next := off + |es[0].body|;
      var rows, rest := RowsOf(digest, es, off), RowsOf(digest, es[1..], next);
      SplitBody(p.bytes, p.body + off, es[0].body, Bodies(es[1..]));
      UndamagedBack(p, digest, es[1..], next, key);
      assert rows == [rows[0]] + rest;
      OneMore(p, digest, rows[0], rest, key);
    }
  }

  lemma SplitBody(bs: Bytes, at: nat, body: Bytes, rest: Bytes)
    requires at <= |bs| && bs[at..] == body + rest
    ensures at + |body| <= |bs| && bs[at..at + |body|] == body && bs[at + |body|..] == rest
  {
    assert |bs[at..]| == |body| + |rest|;
    assert bs[at..at + |body|] == bs[at..][..|body|];
    assert bs[at + |body|..] == bs[at..][|body|..];
  }

  lemma OneMore(p: Pack, digest: Digest, row: Keyed, rest: seq<Keyed>, key: Key)
    requires Inside(p, OfKey(rest, key)) && Sound(p, digest, row.row)
    ensures Inside(p, OfKey([row] + rest, key))
    ensures Undamaged(p, digest, OfKey([row] + rest, key))
      == (if row.key == key then [Dated(row.row.time, Slice(p, row.row))] else [])
         + Undamaged(p, digest, OfKey(rest, key))
  {
    assert ([row] + rest)[1..] == rest;
    if row.key == key {
      assert OfKey([row] + rest, key) == [row.row] + OfKey(rest, key);
      UndamagedMore(p, digest, row.row, OfKey(rest, key));
    } else {
      assert OfKey([row] + rest, key) == OfKey(rest, key);
    }
  }

  lemma UndamagedMore(p: Pack, digest: Digest, row: Row, rest: seq<Row>)
    requires Inside(p, rest) && Sound(p, digest, row)
    ensures Inside(p, [row] + rest)
    ensures Undamaged(p, digest, [row] + rest) == [Dated(row.time, Slice(p, row))] + Undamaged(p, digest, rest)
  {
    var rows := [row] + rest;
    assert rows[1..] == rest;
    forall i | 0 <= i < |rows| ensures p.body + rows[i].off + rows[i].len <= |p.bytes| {
      if i > 0 {
        assert rows[i] == rest[i - 1];
      }
    }
  }

  // ── The header ──

  lemma HeaderParts(stamp: Bytes, count: nat, rest: Bytes)
    ensures var bs, h := Header(stamp, count) + rest, 12 + |stamp|;
      && bs[..4] == MAGIC && bs[4..6] == ToBytes(2, FORMAT) && bs[6..8] == ToBytes(2, |stamp|)
      && bs[8..h - 4] == stamp && bs[h - 4..h] == ToBytes(4, count) && bs[h..] == rest
  {
    FiveParts(MAGIC, ToBytes(2, FORMAT), ToBytes(2, |stamp|), stamp, ToBytes(4, count), rest);
  }

  lemma FiveParts(a: Bytes, b: Bytes, c: Bytes, d: Bytes, e: Bytes, rest: Bytes)
    requires |a| == 4 && |b| == 2 && |c| == 2 && |e| == 4
    ensures var bs, h := a + b + c + d + e + rest, 12 + |d|;
      bs[..4] == a && bs[4..6] == b && bs[6..8] == c && bs[8..h - 4] == d && bs[h - 4..h] == e && bs[h..] == rest
  {
  }

  /** Of a file written, cut or whole, the header says where the bodies begin. */
  lemma HeaderBack(stamp: Bytes, count: nat, rest: Bytes, n: nat)
    requires |stamp| < 0x1_0000 && count < 0x1_0000_0000 && n <= 12 + |stamp| + |rest|
    ensures var bs, start := (Header(stamp, count) + rest)[..n], 12 + |stamp| + count * ROW;
      BodyStart(bs, stamp) == if start <= n then Some(start) else None
  {
    var h, all := 12 + |stamp|, Header(stamp, count) + rest;
    HeaderParts(stamp, count, rest);
    Limits();
    FromToBytes(2, FORMAT);
    FromToBytes(2, |stamp|);
    FromToBytes(4, count);
    if h <= n {
      var bs := all[..n];
      assert bs[..4] == all[..4] && bs[4..6] == all[4..6] && bs[6..8] == all[6..8];
      assert bs[8..h - 4] == all[8..h - 4] && bs[h - 4..h] == all[h - 4..h];
    }
  }

  lemma IndexBack(digest: Digest, stamp: Bytes, es: seq<Entry>, n: nat)
    requires |stamp| < 0x1_0000 && |es| < 0x1_0000_0000 && |Encoded(digest, stamp, es)| < WIDE
    requires 12 + |stamp| + |es| * ROW <= n <= |Encoded(digest, stamp, es)|
    ensures BodyStart(Encoded(digest, stamp, es)[..n], stamp) == Some(12 + |stamp| + |es| * ROW)
    ensures RowsIn(Encoded(digest, stamp, es)[..n], stamp) == RowsOf(digest, es, 0)
  {
    var index, bodies := Index(digest, es, 0), Bodies(es);
    Middle(Header(stamp, |es|), index, bodies, n);
    HeaderBack(stamp, |es|, index + bodies, n);
    ReadIndexBack(digest, es, 0);
  }

  lemma Middle(a: Bytes, b: Bytes, c: Bytes, n: nat)
    requires |a| + |b| <= n <= |a| + |b| + |c|
    ensures a + b + c == a + (b + c) && |a + b + c| == |a| + |b| + |c|
    ensures (a + b + c)[..n][|a|..|a| + |b|] == b
    ensures (a + b + c)[|a| + |b|..] == c
  {
  }

  /** Reading what was written gives each key's times and bodies, in order. */
  lemma RoundTrip(digest: Digest, stamp: Bytes, es: seq<Entry>, key: Key)
    requires |stamp| < 0x1_0000 && |es| <= PACK_MAX && |Encoded(digest, stamp, es)| < WIDE
    ensures Parsed(Encoded(digest, stamp, es), stamp).Some?
    ensures var p := Parsed(Encoded(digest, stamp, es), stamp).value;
      Whole(p) && Entries(p, digest, key) == Written(es, key)
  {
    var all := Encoded(digest, stamp, es);
    ParsesBack(digest, stamp, es);
    var p := Parsed(all, stamp).value;
    ParsedIsWhole(all, stamp);
    UndamagedBack(p, digest, es, 0, key);
    EntriesAre(p, digest, RowsOf(digest, es, 0), key);
  }

  lemma EntriesAre(p: Pack, digest: Digest, rows: seq<Keyed>, key: Key)
    requires Whole(p) && p.rows == Grouped(map[], rows)
    ensures Inside(p, OfKey(rows, key)) && Entries(p, digest, key) == Undamaged(p, digest, OfKey(rows, key))
  {
    GroupedIs(map[], rows, key);
    WholeInside(p, key);
    assert Get(p.rows, key) == OfKey(rows, key);
  }

  lemma ParsesBack(digest: Digest, stamp: Bytes, es: seq<Entry>)
    requires |stamp| < 0x1_0000 && |es| <= PACK_MAX && |Encoded(digest, stamp, es)| < WIDE
    ensures var p := Parsed(Encoded(digest, stamp, es), stamp);
      p.Some? && p.value.rows == Grouped(map[], RowsOf(digest, es, 0))
      && p.value.body <= |p.value.bytes| && p.value.bytes[p.value.body..] == Bodies(es)
  {
    var all := Encoded(digest, stamp, es);
    IndexBack(digest, stamp, es, |all|);
    assert all[..|all|] == all;
    RowsFit(digest, es, 0);
    Middle(Header(stamp, |es|), Index(digest, es, 0), Bodies(es), |all|);
  }

  /** A file cut short anywhere is refused. */
  lemma CutIsRefused(digest: Digest, stamp: Bytes, es: seq<Entry>, n: nat)
    requires |stamp| < 0x1_0000 && |es| <= PACK_MAX && |Encoded(digest, stamp, es)| < WIDE
    requires n < |Encoded(digest, stamp, es)|
    ensures Parsed(Encoded(digest, stamp, es)[..n], stamp) == None
  {
    var all := Encoded(digest, stamp, es);
    var start := 12 + |stamp| + |es| * ROW;
    assert all == Header(stamp, |es|) + (Index(digest, es, 0) + Bodies(es));
    if n < start {
      HeaderBack(stamp, |es|, Index(digest, es, 0) + Bodies(es), n);
    } else {
      IndexBack(digest, stamp, es, n);
      RowsFit(digest, es, 0);
      assert n - start < |Bodies(es)|;
    }
  }

  // ── Which files are packs ──

  /** A file begins with this build's header and whole index, of `count` rows. */
  ghost predicate Begins(bs: Bytes, stamp: Bytes, count: nat) {
    && |stamp| < 0x1_0000 && count < 0x1_0000_0000
    && 12 + |stamp| + count * ROW <= |bs|
    && bs[..12 + |stamp|] == Header(stamp, count)
  }

  /** What a row says of its body, read off its bytes, is inside `span`. */
  ghost predicate RowInside(row: Bytes, span: nat)
    requires |row| == ROW
  {
    FromBytes(row[24..32]) + FromBytes(row[32..40]) <= span
  }

  lemma HeaderIs(bs: Bytes, stamp: Bytes)
    requires |bs| >= 12 + |stamp| && |stamp| < 0x1_0000
    ensures var h := 12 + |stamp|; var count := FromBytes(bs[h - 4..h]);
      (bs[..4] == MAGIC && FromBytes(bs[4..6]) == FORMAT && FromBytes(bs[6..8]) == |stamp| && bs[8..h - 4] == stamp)
      <==> bs[..h] == Header(stamp, count)
  {
    var h := 12 + |stamp|;
    var count := FromBytes(bs[h - 4..h]);
    Limits();
    HeaderParts(stamp, count, []);
    assert Header(stamp, count) + [] == Header(stamp, count);
    assert bs[..h] == bs[..4] + bs[4..6] + bs[6..8] + bs[8..h - 4] + bs[h - 4..h];
    ToFromBytes(bs[4..6]);
    ToFromBytes(bs[6..8]);
    ToFromBytes(bs[h - 4..h]);
    FromToBytes(2, FORMAT);
    FromToBytes(2, |stamp|);
    var b := bs[..h];
    assert b[..4] == bs[..4] && b[4..6] == bs[4..6] && b[6..8] == bs[6..8] && b[8..h - 4] == bs[8..h - 4];
  }

  /** The header's count is the one it was written with. */
  lemma BeginsIs(bs: Bytes, stamp: Bytes, count: nat)
    requires Begins(bs, stamp, count)
    ensures BodyStart(bs, stamp) == Some(12 + |stamp| + count * ROW)
  {
    var h := 12 + |stamp|;
    HeaderBack(stamp, count, bs[h..], |bs|);
    assert (Header(stamp, count) + bs[h..])[..|bs|] == bs;
  }

  lemma StartBegins(bs: Bytes, stamp: Bytes)
    ensures BodyStart(bs, stamp).Some? <==> exists count :: Begins(bs, stamp, count)
  {
    var h := 12 + |stamp|;
    Limits();
    if BodyStart(bs, stamp).Some? {
      HeaderIs(bs, stamp);
      assert Begins(bs, stamp, FromBytes(bs[h - 4..h]));
    }
    if count :| Begins(bs, stamp, count) {
      BeginsIs(bs, stamp, count);
    }
  }

  function RowAt(bs: Bytes, first: nat, i: nat): (row: Bytes)
    requires first + i * ROW + ROW <= |bs|
    ensures |row| == ROW
  {
    bs[first + i * ROW..first + i * ROW + ROW]
  }

  /** Each of the `count` rows from `first` on tells of a body inside what follows them. */
  ghost predicate AllInside(bs: Bytes, first: nat, count: nat)
    requires first + count * ROW <= |bs|
  {
    forall i: nat {:trigger RowAt(bs, first, i)} :: i < count ==>
      RowInside(RowAt(bs, first, i), |bs| - (first + count * ROW))
  }

  lemma RowFits(bs: Bytes, first: nat, count: nat, i: nat, span: nat)
    requires first + count * ROW <= |bs| && i < count
    ensures i < |ReadRows(bs[first..first + count * ROW])|
    ensures first + i * ROW + ROW <= |bs|
    ensures var row := ReadRows(bs[first..first + count * ROW])[i].row;
      row.off + row.len <= span <==> RowInside(RowAt(bs, first, i), span)
  {
    assert |bs[first..first + count * ROW]| == count * ROW && count * ROW / ROW == count;
    RowHere(bs, first, first + count * ROW, i);
  }

  lemma RowsFitIff(bs: Bytes, first: nat, count: nat)
    requires first + count * ROW <= |bs|
    ensures Fits(ReadRows(bs[first..first + count * ROW]), |bs| - (first + count * ROW))
      <==> AllInside(bs, first, count)
  {
    var rows, span := ReadRows(bs[first..first + count * ROW]), |bs| - (first + count * ROW);
    assert |rows| == count;
    if Fits(rows, span) {
      forall i: nat | i < count ensures RowInside(RowAt(bs, first, i), span) {
        RowFits(bs, first, count, i, span);
        assert rows[i].row.off + rows[i].row.len <= span;
      }
    }
    if AllInside(bs, first, count) {
      forall i | 0 <= i < |rows| ensures rows[i].row.off + rows[i].row.len <= span {
        RowFits(bs, first, count, i, span);
      }
    }
  }

  lemma BeginsParses(bs: Bytes, stamp: Bytes, count: nat)
    requires Begins(bs, stamp, count)
    ensures Parsed(bs, stamp).Some? <==> AllInside(bs, 12 + |stamp|, count)
  {
    BeginsIs(bs, stamp, count);
    RowsFitIff(bs, 12 + |stamp|, count);
  }

  /** Whatever the bytes, they parse if and only if they begin with this build's header
      and a whole index, and every row's body lies in the rest. */
  lemma ParsesIff(bs: Bytes, stamp: Bytes)
    ensures Parsed(bs, stamp).Some? <==>
      exists count: nat :: Begins(bs, stamp, count) && AllInside(bs, 12 + |stamp|, count)
  {
    StartBegins(bs, stamp);
    if count: nat :| Begins(bs, stamp, count) {
      BeginsParses(bs, stamp, count);
    }
    if count: nat :| Begins(bs, stamp, count) && AllInside(bs, 12 + |stamp|, count) {
      BeginsParses(bs, stamp, count);
    }
  }

  /** A pack written by any other build is refused. */
  lemma OtherBuildIsRefused(digest: Digest, other: Bytes, stamp: Bytes, es: seq<Entry>)
    requires |other| < 0x1_0000 && other != stamp
    ensures Parsed(Encoded(digest, other, es), stamp) == None
  {
    var rest := Index(digest, es, 0) + Bodies(es);
    HeaderParts(other, |es|, rest);
    assert Encoded(digest, other, es) == Header(other, |es|) + rest;
    Limits();
    FromToBytes(2, |other|);
  }

  /** So is one that begins with other letters, or is of another format. */
  lemma OtherFormatIsRefused(bs: Bytes, stamp: Bytes)
    requires |bs| < 6 || bs[..4] != MAGIC || FromBytes(bs[4..6]) != FORMAT
    ensures Parsed(bs, stamp) == None
  {
  }

  /** A pack of nothing, byte by byte: the letters `olcp`, the format, the stamp after
      its length, and the count of rows. */
  lemma EmptyPack(digest: Digest)
    ensures Encoded(digest, [0x76, 0x31], []) == [0x6f, 0x6c, 0x63, 0x70, 2, 0, 2, 0, 0x76, 0x31, 0, 0, 0, 0]
  {
    LowestFirst(2, 2);
    LowestFirst(4, 0);
  }
}
