/**
 CRC-16/ARC as polynomial division over the two-element field, with the generator given by its
 exponents, and the proof that the shift register computes it.
 */
module CrcDivision {
  import opened Bytes
  import opened Bits
  import opened Crc

  /** Coefficients, highest power first. */
  type Poly = seq<bool>

  /** x^16 + x^15 + x^2 + 1 */
  const GENERATOR: set<nat> := {16, 15, 2, 0}

  function Sum(p: Poly, q: Poly): (r: Poly)
    requires |p| == |q|
    ensures |r| == |p|
  {
    seq(|p|, i requires 0 <= i < |p| => p[i] != q[i])
  }

  /** The generator times x^k, as a polynomial of `n` coefficients. */
  function Multiple(n: nat, k: nat): (r: Poly)
    ensures |r| == n
  {
    seq(n, i requires 0 <= i < n => exists e :: e in GENERATOR && n - 1 - i == k + e)
  }

  /** The remainder of long division by the generator. */
  function Remainder(p: Poly): (r: Poly)
    ensures |p| >= 16 ==> |r| == 16
    decreases |p|
  {
    if |p| <= 16 then p
    else if p[0] then Remainder(Sum(p, Multiple(|p|, |p| - 17))[1..])
    else Remainder(p[1..])
  }

  /** The bits of a number, lowest first. */
  function LowFirst(n: nat, k: nat): (r: Poly)
    ensures |r| == k
  {
    if k == 0 then [] else [n % 2 == 1] + LowFirst(n / 2, k - 1)
  }

  function Nulls(k: nat): (r: Poly)
    ensures |r| == k
  {
    seq(k, _ => false)
  }

  /** A message in the order of transmission: byte by byte, lowest bit first. */
  function Message(data: seq<byte>): (p: Poly)
    ensures |p| == 8 * |data|
  {
    if data == [] then [] else LowFirst(data[0], 8) + Message(data[1..])
  }

  // ---------------------------------------------------------------------------
  // It is a remainder

  lemma MultipleAt(n: nat, k: nat, i: nat)
    requires i < n
    ensures Multiple(n, k)[i] <==> n - 1 - i - k == 16 || n - 1 - i - k == 15 || n - 1 - i - k == 2 || n - 1 - i - k == 0
  {
    var e := n - 1 - i - k;
    if e == 16 || e == 15 || e == 2 || e == 0 {
      assert e in GENERATOR && n - 1 - i == k + e;
    }
  }

  lemma MultipleTail(n: nat, k: nat)
    requires n > 0
    ensures Multiple(n, k)[1..] == Multiple(n - 1, k)
  {
    forall i | 0 <= i < n - 1
      ensures Multiple(n, k)[1..][i] == Multiple(n - 1, k)[i]
    {
      MultipleAt(n, k, i + 1);
      MultipleAt(n - 1, k, i);
    }
  }

  lemma SumTail(p: Poly, q: Poly)
    requires |p| == |q| > 0
    ensures Sum(p, q)[1..] == Sum(p[1..], q[1..])
  {
  }

  lemma SumSwap(p: Poly, q: Poly, r: Poly)
    requires |p| == |q| == |r|
    ensures Sum(Sum(p, q), r) == Sum(Sum(p, r), q)
    ensures Sum(Sum(p, q), q) == p
  {
  }

  /** Adding a multiple of the generator does not change the remainder, and what is short is its own. */
  lemma {:induction false} RemainderIsUnique(p: Poly, k: nat)
    requires k + 16 < |p|
    ensures Remainder(Sum(p, Multiple(|p|, k))) == Remainder(p)
    decreases |p|
  {
    hide Sum, Multiple, Remainder;
    var n := |p|;
    var m, top := Multiple(n, k), Multiple(n, n - 17);
    MultipleAt(n, k, 0);
    MultipleAt(n, n - 17, 0);
    Lead(p, m);
    RemainderStep(p);
    RemainderStep(Sum(p, m));
    SumSwap(p, m, top);
    if k < n - 17 {
      MultipleTail(n, k);
      SumTail(p, m);
      SumTail(Sum(p, top), m);
      RemainderIsUnique(p[1..], k);
      RemainderIsUnique(Sum(p, top)[1..], k);
    }
  }

  lemma Lead(p: Poly, m: Poly)
    requires |p| == |m| > 0
    ensures Sum(p, m)[0] <==> p[0] != m[0]
  {
  }

  lemma RemainderStep(p: Poly)
    requires |p| > 16
    ensures Remainder(p) == Remainder(if p[0] then Sum(p, Multiple(|p|, |p| - 17))[1..] else p[1..])
  {
    hide Sum, Multiple;
  }

  // ---------------------------------------------------------------------------
  // The register

  /** A polynomial with the register added to its sixteen highest coefficients, bit 0 to the highest. */
  function Loaded(c: word, p: Poly): (r: Poly)
    requires |p| >= 16
    ensures |r| == |p|
  {
    Sum(p, LowFirst(c, 16) + Nulls(|p| - 16))
  }

  lemma {:induction false} LowFirstXor(a: nat, b: nat, k: nat)
    ensures LowFirst(Xor(a, b), k) == Sum(LowFirst(a, k), LowFirst(b, k))
    decreases k
  {
    if k > 0 {
      XorHalves(a, b);
      LowFirstXor(a / 2, b / 2, k - 1);
    }
  }

  lemma {:induction false} LowFirstZero(k: nat)
    ensures LowFirst(0, k) == Nulls(k)
    decreases k
  {
    if k > 0 {
      LowFirstZero(k - 1);
    }
  }

  lemma {:induction false} LowFirstTail(n: nat, k: nat)
    requires n < Pow2(k)
    ensures LowFirst(n, k + 1) == LowFirst(n, k) + [false]
    decreases k
  {
    if k > 0 {
      LowFirstTail(n / 2, k - 1);
    } else {
      assert LowFirst(0, 0) == [];
    }
  }

  /** The exponents of the generator below 16, seen as bits of the register. */
  lemma Taps(n: nat)
    requires n >= 16
    ensures Multiple(n, n - 16) == LowFirst(POLYNOMIAL, 16) + Nulls(n - 16)
  {
    hide LowFirst, Multiple;
    var m, taps := Multiple(n, n - 16), LowFirst(POLYNOMIAL, 16);
    var t := taps + Nulls(n - 16);
    forall i | 0 <= i < n
      ensures m[i] == t[i]
    {
      MultipleAt(n, n - 16, i);
      if i < 16 {
        assert t[i] == taps[i];
        TapBits(i);
      } else {
        assert t[i] == Nulls(n - 16)[i - 16];
      }
    }
  }

  lemma TapBits(i: nat)
    requires i < 16
    ensures LowFirst(POLYNOMIAL, 16)[i] <==> i == 0 || i == 13 || i == 15
  {
    hide LowFirst;
    LowFirstStep(POLYNOMIAL, 16);
    Pow2Values();
    assert Pow2(12) == 16 * Pow2(8);
    LowFirstScaled(5, 12, 3);
    FiveBits();
  }

  lemma FiveBits()
    ensures LowFirst(5, 3) == [true, false, true]
  {
    assert LowFirst(1, 1) == [true] + LowFirst(0, 0);
    assert LowFirst(2, 2) == [false] + LowFirst(1, 1);
  }

  lemma {:induction false} LowFirstScaled(h: nat, m: nat, k: nat)
    ensures LowFirst(Pow2(m) * h, m + k) == Nulls(m) + LowFirst(h, k)
    decreases m
  {
    if m == 0 {
      assert Nulls(0) + LowFirst(h, k) == LowFirst(h, k);
    } else {
      var n := Pow2(m - 1) * h;
      assert Pow2(m) * h == 2 * n;
      LowFirstScaled(h, m - 1, k);
      LowFirstStep(2 * n, m + k);
    }
  }

  lemma LoadedXor(c: word, d: word, p: Poly)
    requires |p| >= 16
    ensures Loaded(Xor16(c, d), p) == Sum(Loaded(c, p), LowFirst(d, 16) + Nulls(|p| - 16))
  {
    LowFirstXor(c, d, 16);
  }

  lemma LoadedTail(c: word, q: Poly)
    requires |q| >= 16
    ensures Loaded(c, [false] + q)[0] <==> c % 2 == 1
    ensures Loaded(c, [false] + q)[1..] == Loaded(c / 2, q)
  {
    hide LowFirst;
    var bits, half := LowFirst(c, 16), LowFirst(c / 2, 16);
    LowFirstStep(c, 16);
    Pow2Values();
    LowFirstTail(c / 2, 15);
    assert forall i | 0 <= i < 15 :: half[i] == bits[i + 1];
    assert half[15] == false;
  }

  lemma LowFirstStep(n: nat, k: nat)
    requires k > 0
    ensures LowFirst(n, k) == [n % 2 == 1] + LowFirst(n / 2, k - 1)
  {
  }

  /** One turn of the register is one step of the division. */
  lemma TurnDivides(c: word, q: Poly)
    requires |q| >= 16
    ensures Remainder(Loaded(c, [false] + q)) == Remainder(Loaded(Shift(c), q))
  {
    hide Loaded, Remainder, Sum, Multiple, LowFirst, Xor16;
    var p := Loaded(c, [false] + q);
    LoadedTail(c, q);
    RemainderStep(p);
    if c % 2 == 1 {
      var n := |q|;
      MultipleTail(n + 1, n - 16);
      SumTail(p, Multiple(n + 1, n - 16));
      Taps(n);
      LoadedXor(c / 2, POLYNOMIAL, q);
    }
  }

  lemma {:induction false} TurnsDivide(c: word, k: nat, q: Poly)
    requires |q| >= 16
    ensures Remainder(Loaded(c, Nulls(k) + q)) == Remainder(Loaded(Shifts(c, k), q))
    decreases k
  {
    hide Loaded, Remainder, Shift;
    if k == 0 {
      assert Nulls(0) + q == q;
    } else {
      assert Nulls(k) + q == [false] + (Nulls(k - 1) + q);
      TurnDivides(c, Nulls(k - 1) + q);
      TurnsDivide(Shift(c), k - 1, q);
      ShiftsFirst(c, k);
    }
  }

  /** A byte may be added to the register instead of to the message. */
  lemma ByteLoads(c: word, b: byte, q: Poly)
    requires |q| >= 16
    ensures Loaded(c, LowFirst(b, 8) + q) == Loaded(Xor16(c, b), Nulls(8) + q)
  {
    hide LowFirst;
    LowFirstXor(c, b, 16);
    HighHalf(b);
    var low, wide := LowFirst(b, 8), LowFirst(b, 16);
    assert forall i | 0 <= i < 16 :: wide[i] == (i < 8 && low[i]);
  }

  lemma HighHalf(b: byte)
    ensures LowFirst(b, 16) == LowFirst(b, 8) + Nulls(8)
  {
    Pow2Values();
    LowFirstWide(b, 8, 8);
  }

  lemma {:induction false} LowFirstWide(n: nat, k: nat, m: nat)
    requires n < Pow2(k)
    ensures LowFirst(n, k + m) == LowFirst(n, k) + Nulls(m)
    decreases k
  {
    if k == 0 {
      LowFirstZero(m);
      assert LowFirst(n, 0) + Nulls(m) == Nulls(m);
    } else {
      LowFirstWide(n / 2, k - 1, m);
    }
  }

  lemma {:induction false} FeedDivides(c: word, data: seq<byte>)
    ensures Remainder(Loaded(c, Message(data) + Nulls(16))) == LowFirst(Feed(c, data), 16)
    decreases |data|
  {
    hide Loaded, LowFirst, Shifts, Remainder;
    if data == [] {
      assert Message(data) + Nulls(16) == Nulls(16);
      NothingLeft(c);
    } else {
      var q := Message(data[1..]) + Nulls(16);
      assert Message(data) + Nulls(16) == LowFirst(data[0], 8) + q;
      ByteLoads(c, data[0], q);
      TurnsDivide(Xor16(c, data[0]), 8, q);
      FeedDivides(Shifts(Xor16(c, data[0]), 8), data[1..]);
    }
  }

  lemma NothingLeft(c: word)
    ensures Remainder(Loaded(c, Nulls(16))) == LowFirst(c, 16)
  {
    hide LowFirst;
  }

  /** The checksum is the remainder of the message times x^16, bit 0 of the register the highest coefficient. */
  lemma CrcIsRemainder(data: seq<byte>)
    ensures LowFirst(Crc16(data), 16) == Remainder(Message(data) + Nulls(16))
  {
    hide LowFirst, Remainder, Message;
    FeedDivides(0, data);
    LowFirstZero(16);
    assert Loaded(0, Message(data) + Nulls(16)) == Message(data) + Nulls(16);
  }

  /** Sixteen bits determine the register, so the remainder determines the checksum. */
  lemma {:induction false} LowFirstInjective(a: nat, b: nat, k: nat)
    requires a < Pow2(k) && b < Pow2(k) && LowFirst(a, k) == LowFirst(b, k)
    ensures a == b
    decreases k
  {
    if k > 0 {
      assert LowFirst(a, k)[0] == LowFirst(b, k)[0];
      assert LowFirst(a, k)[1..] == LowFirst(b, k)[1..];
      LowFirstInjective(a / 2, b / 2, k - 1);
    }
  }

  /** The checksum is the one 16-bit number whose bits are that remainder. */
  lemma ChecksumExactly(data: seq<byte>, w: word)
    ensures w == Crc16(data) <==> LowFirst(w, 16) == Remainder(Message(data) + Nulls(16))
  {
    hide LowFirst, Remainder, Message, Crc16;
    CrcIsRemainder(data);
    Pow2Values();
    if LowFirst(w, 16) == LowFirst(Crc16(data), 16) {
      LowFirstInjective(w, Crc16(data), 16);
    }
  }
}
