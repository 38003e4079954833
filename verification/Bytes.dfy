/** Bytes and the big-endian integers built from them. */
module Bytes {

  type byte = x: int | 0 <= x < 256

  /** 256 to the power `w`: the number of values a `w`-byte field can hold. */
  function Pow256(w: nat): (r: nat)
    ensures r >= 1
  {
    if w == 0 then 1 else 256 * Pow256(w - 1)
  }

  /** The unsigned value of a big-endian field. */
  function FromBE(s: seq<byte>): (n: nat)
    ensures n < Pow256(|s|)
  {
    if s == [] then 0 else 256 * FromBE(s[..|s| - 1]) + s[|s| - 1]
  }

  /** The `w` low bytes of `n`, most significant first. */
  function ToBE(n: nat, w: nat): (s: seq<byte>)
    ensures |s| == w
  {
    if w == 0 then [] else ToBE(n / 256, w - 1) + [n % 256]
  }

  /** Two's complement reading of a `w`-byte unsigned value. */
  function Signed(n: nat, w: nat): (v: int)
    requires w > 0
  {
    if n < 128 * Pow256(w - 1) then n else n - Pow256(w)
  }

  /** The unsigned `w`-byte pattern that holds `v`, modulo 256 to the power `w`. */
  function Unsigned(v: int, w: nat): (n: nat)
    ensures n < Pow256(w)
  {
    v % Pow256(w)
  }

  lemma {:induction false} FromToBE(n: nat, w: nat)
    requires n < Pow256(w)
    ensures FromBE(ToBE(n, w)) == n
  {
    if w > 0 {
      FromToBE(n / 256, w - 1);
      assert ToBE(n, w)[..w - 1] == ToBE(n / 256, w - 1);
    }
  }

  lemma {:induction false} ToFromBE(s: seq<byte>)
    ensures ToBE(FromBE(s), |s|) == s
  {
    if s != [] {
      var front := s[..|s| - 1];
      ToFromBE(front);
      assert FromBE(s) / 256 == FromBE(front);
      assert s == front + [s[|s| - 1]];
    }
  }

  /** Writing a signed value in two's complement and reading it back is exact on the signed range. */
  lemma SignedUnsigned(v: int, w: nat)
    requires w > 0 && -128 * Pow256(w - 1) <= v < 128 * Pow256(w - 1)
    ensures Signed(Unsigned(v, w), w) == v
  {
    var p := Pow256(w);
    if v >= 0 {
      ModSmall(v, p);
    } else {
      ModNegative(v, p);
    }
  }

  /** Values already inside the unsigned range are written unchanged. */
  lemma ModSmall(v: int, p: nat)
    requires 0 <= v < p
    ensures v % p == v
  {
  }

  lemma ModNegative(v: int, p: int)
    requires 0 < p && -p <= v < 0
    ensures v % p == v + p
  {
    assert (v + p) % p == v % p;
  }

  lemma Pow256Values()
    ensures Pow256(0) == 1 && Pow256(1) == 0x100 && Pow256(2) == 0x1_0000
    ensures Pow256(3) == 0x100_0000 && Pow256(4) == 0x1_0000_0000
    ensures Pow256(7) == 0x100_0000_0000_0000 && Pow256(8) == 0x1_0000_0000_0000_0000
  {
    assert Pow256(5) == 256 * Pow256(4);
    assert Pow256(6) == 256 * Pow256(5);
    assert Pow256(7) == 256 * Pow256(6);
  }

  /** A slice of a suffix is a slice of the whole. */
  lemma SliceOfSuffix(data: seq<byte>, offset: nat, lo: nat, hi: nat)
    requires lo <= hi && offset + hi <= |data|
    ensures data[offset..][lo..hi] == data[offset + lo..offset + hi]
    ensures data[offset..][hi..] == data[offset + hi..]
  {
  }

  lemma PrefixOfSuffix(data: seq<byte>, offset: nat, n: nat)
    requires offset + n <= |data|
    ensures data[offset..][..n] == data[offset..offset + n] && data[offset..][n..] == data[offset + n..]
  {
  }

  lemma Reassociate<T>(a: seq<T>, b: seq<T>, c: seq<T>)
    ensures a + (b + c) == (a + b) + c
  {
  }

  lemma Regroup<T>(a: seq<T>, b: seq<T>, c: seq<T>, d: seq<T>)
    ensures a + (b + c) + d == a + b + c + d && a + (b + c) + d == a + (b + (c + d))
  {
  }

  lemma EmptyIsNeutral<T>(a: seq<T>)
    ensures a + [] == a && [] + a == a
  {
  }
}
