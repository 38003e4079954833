/** Writing big-endian fields into a fixed-size buffer. */
module Buffers {
  import opened Bytes

  /** Writes the `w` low bytes of `n` at `at`, leaving the rest of the buffer alone. */
  method PutBE(a: array<byte>, at: nat, n: nat, w: nat)
    requires at + w <= a.Length
    modifies a
    ensures a[..] == old(a[..at]) + ToBE(n, w) + old(a[at + w..])
  {
    var k, m := w, n;
    while k > 0
      invariant 0 <= k <= w
      invariant a[..at] == old(a[..at]) && a[at + w..] == old(a[at + w..])
      invariant ToBE(n, w) == ToBE(m, k) + a[at + k..at + w]
    {
      assert ToBE(m, k) == ToBE(m / 256, k - 1) + [m % 256];
      ghost var was := a[at + k..at + w];
      k := k - 1;
      a[at + k] := m % 256;
      m := m / 256;
      assert a[at + k..at + w] == [a[at + k]] + was;
    }
    assert ToBE(m, 0) == [];
    assert a[..] == a[..at] + a[at..at + w] + a[at + w..];
  }

  method PutBytes(a: array<byte>, at: nat, data: seq<byte>)
    requires at + |data| <= a.Length
    modifies a
    ensures a[..] == old(a[..at]) + data + old(a[at + |data|..])
  {
    for i := 0 to |data|
      invariant a[..at] == old(a[..at]) && a[at + |data|..] == old(a[at + |data|..])
      invariant a[at..at + i] == data[..i]
    {
      a[at + i] := data[i];
      assert a[at..at + i + 1] == a[at..at + i] + [data[i]];
    }
    assert a[..] == a[..at] + a[at..at + |data|] + a[at + |data|..];
  }
}
