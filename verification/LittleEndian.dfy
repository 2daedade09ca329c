/** Numbers as bytes, the lowest first. */
module LittleEndian {
  import opened Wrappers

  /** One past the largest number `n` bytes hold. */
  function Limit(n: nat): (r: nat)
    ensures r > 0
  {
    if n == 0 then 1 else 256 * Limit(n - 1)
  }

  function ToBytes(n: nat, x: nat): (r: seq<byte>)
    ensures |r| == n
  {
    if n == 0 then [] else [(x % 256) as byte] + ToBytes(n - 1, x / 256)
  }

  function FromBytes(bs: seq<byte>): (r: nat)
    ensures r < Limit(|bs|)
  {
    if bs == [] then 0 else bs[0] as nat + 256 * FromBytes(bs[1..])
  }

  lemma {:induction false} FromToBytes(n: nat, x: nat)
    requires x < Limit(n)
    ensures FromBytes(ToBytes(n, x)) == x
  {
    if n > 0 {
      FromToBytes(n - 1, x / 256);
      assert ToBytes(n, x)[1..] == ToBytes(n - 1, x / 256);
    }
  }

  lemma {:induction false} ToFromBytes(bs: seq<byte>)
    ensures ToBytes(|bs|, FromBytes(bs)) == bs
  {
    if bs != [] {
      var x, rest := FromBytes(bs), FromBytes(bs[1..]);
      ToFromBytes(bs[1..]);
      assert x == bs[0] as nat + 256 * rest;
      assert x % 256 == bs[0] as nat && x / 256 == rest;
    }
  }

  /** The lowest byte comes first. */
  lemma LowestFirst(n: nat, x: nat)
    requires x < 256 && n > 0
    ensures ToBytes(n, x) == [x as byte] + Repeat(0, n - 1)
  {
    if n > 1 {
      LowestFirst(n - 1, 0);
    }
  }

  lemma Limits()
    ensures Limit(2) == 0x1_0000 && Limit(4) == 0x1_0000_0000 && Limit(8) == 0x1_0000_0000_0000_0000
  {
    assert Limit(1) == 256;
    assert Limit(2) == 0x1_0000;
    assert Limit(3) == 0x100_0000;
    assert Limit(4) == 0x1_0000_0000;
    assert Limit(5) == 0x100_0000_0000;
    assert Limit(6) == 0x1_0000_0000_0000;
    assert Limit(7) == 0x100_0000_0000_0000;
  }
}
