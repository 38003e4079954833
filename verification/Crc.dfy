/**
 CRC-16/ARC, the checksum of the Teltonika frames. The register is an integer below 65536;
 `c & 1` is `c % 2`, `c >> 1` is `c / 2`.
 */
module Crc {
  import opened Bytes
  import opened Bits

  const POLYNOMIAL := 0xA001

  type word = x: int | 0 <= x < 0x1_0000

  lemma Pow2Values()
    ensures Pow2(8) == 256 && Pow2(15) == 0x8000 && Pow2(16) == 0x1_0000
  {
    assert Pow2(4) == 16;
    assert Pow2(8) == 256;
    assert Pow2(12) == 16 * Pow2(8);
    assert Pow2(15) == 8 * Pow2(12);
  }

  function Xor16(a: word, b: word): (r: word) {
    Pow2Values();
    XorBound(a, b, 16);
    Xor(a, b)
  }

  /** One turn of the reflected shift register. */
  function Shift(c: word): word {
    if c % 2 == 1 then Xor16(c / 2, POLYNOMIAL) else c / 2
  }

  function Shifts(c: word, n: nat): word {
    if n == 0 then c else Shift(Shifts(c, n - 1))
  }

  /** The register after `data` has been fed to it, starting from `c`. */
  function Feed(c: word, data: seq<byte>): word
    decreases |data|
  {
    if data == [] then c else Feed(Shifts(Xor16(c, data[0]), 8), data[1..])
  }

  function Crc16(data: seq<byte>): word {
    Feed(0, data)
  }

  function Low(c: word): byte { c % 256 }

  function High(c: word): byte { c / 256 }

  /** The register loop as the program runs it: one byte in, then eight conditional shifts. */
  method ComputeCrc16(data: seq<byte>) returns (crc: word)
    ensures crc == Crc16(data)
  {
    crc := 0;
    assert data[0..] == data;
    for k := 0 to |data|
      invariant Feed(crc, data[k..]) == Crc16(data)
    {
      assert data[k..][1..] == data[k + 1..];
      crc := Xor16(crc, data[k]);
      ghost var start := crc;
      for i := 0 to 8
        invariant crc == Shifts(start, i)
      {
        if crc % 2 != 0 {
          crc := Xor16(crc / 2, POLYNOMIAL);
        } else {
          crc := crc / 2;
        }
      }
    }
  }

  lemma {:induction false} FeedConcat(c: word, a: seq<byte>, b: seq<byte>)
    ensures Feed(c, a + b) == Feed(Feed(c, a), b)
    decreases |a|
  {
    if a == [] {
      assert a + b == b;
    } else {
      assert (a + b)[1..] == a[1..] + b;
      FeedConcat(Shifts(Xor16(c, a[0]), 8), a[1..], b);
    }
  }

  // ---------------------------------------------------------------------------
  // Linearity

  function XorByte(a: byte, b: byte): (r: byte) {
    Pow2Values();
    XorBound(a, b, 8);
    Xor(a, b)
  }

  function XorBytes(a: seq<byte>, b: seq<byte>): (r: seq<byte>)
    requires |a| == |b|
    ensures |r| == |a|
  {
    seq(|a|, i requires 0 <= i < |a| => XorByte(a[i], b[i]))
  }

  lemma ShiftXor(c: word, d: word)
    ensures Shift(Xor16(c, d)) == Xor16(Shift(c), Shift(d))
  {
    var h := Xor(c / 2, d / 2);
    XorHalves(c, d);
    if c % 2 == 1 && d % 2 == 1 {
      XorRegroup(c / 2, POLYNOMIAL, d / 2, POLYNOMIAL);
      XorSelf(POLYNOMIAL);
      XorZero(h);
    } else if c % 2 == 1 {
      XorAssociates(c / 2, POLYNOMIAL, d / 2);
      XorCommutes(POLYNOMIAL, d / 2);
      XorAssociates(c / 2, d / 2, POLYNOMIAL);
    } else {
      XorAssociates(c / 2, d / 2, POLYNOMIAL);
    }
  }

  lemma {:induction false} ShiftsXor(c: word, d: word, n: nat)
    ensures Shifts(Xor16(c, d), n) == Xor16(Shifts(c, n), Shifts(d, n))
  {
    if n > 0 {
      ShiftsXor(c, d, n - 1);
      ShiftXor(Shifts(c, n - 1), Shifts(d, n - 1));
    }
  }

  lemma {:induction false} FeedLinear(c: word, d: word, a: seq<byte>, b: seq<byte>)
    requires |a| == |b|
    ensures Feed(Xor16(c, d), XorBytes(a, b)) == Xor16(Feed(c, a), Feed(d, b))
    decreases |a|
  {
    if a != [] {
      assert XorBytes(a, b)[1..] == XorBytes(a[1..], b[1..]);
      var c', d' := Xor16(c, a[0]), Xor16(d, b[0]);
      XorRegroup(c, d, a[0], b[0]);
      ShiftsXor(c', d', 8);
      FeedLinear(Shifts(c', 8), Shifts(d', 8), a[1..], b[1..]);
    }
  }

  /** The checksum is linear over xor on inputs of equal length. */
  lemma CrcLinear(a: seq<byte>, b: seq<byte>)
    requires |a| == |b|
    ensures Crc16(XorBytes(a, b)) == Xor16(Crc16(a), Crc16(b))
  {
    XorZero(0);
    FeedLinear(0, 0, a, b);
  }

  // ---------------------------------------------------------------------------
  // Residue

  /** Eight shifts of a register whose low byte is clear only move the high byte down. */
  lemma ShiftsClear(h: int)
    requires 0 <= h < 256
    ensures Shifts(256 * h, 8) == h
  {
    ShiftsEven(h, 8);
    Pow2Values();
  }

  lemma {:induction false} ShiftsEven(h: int, n: nat)
    requires 0 <= h && n <= 8 && Pow2(n) * h < 0x1_0000
    ensures Shifts(Pow2(n) * h, n) == h
  {
    if n > 0 {
      var c := Pow2(n - 1) * h;
      assert Pow2(n) * h == 2 * c;
      ShiftEven(c);
      ShiftsEven(h, n - 1);
      ShiftsFirst(2 * c, n);
    }
  }

  lemma {:induction false} ShiftsFirst(c: word, n: nat)
    requires n > 0
    ensures Shifts(c, n) == Shifts(Shift(c), n - 1)
  {
    if n > 1 {
      ShiftsFirst(c, n - 1);
    } else {
      assert Shifts(c, 1) == Shift(Shifts(c, 0));
    }
  }

  lemma ShiftEven(c: int)
    requires 0 <= c < 0x8000
    ensures Shift(2 * c) == c
  {
  }

  /** Appending a checksum to its own data, low byte first, leaves a zero register. */
  lemma CrcResidue(data: seq<byte>)
    ensures Crc16(data + [Low(Crc16(data)), High(Crc16(data))]) == 0
  {
    var c := Crc16(data);
    var low, high := Low(c), High(c);
    FeedConcat(0, data, [low, high]);
    Pow2Values();
    XorLowBits(high, low, 8);
    ShiftsClear(high);
    assert [low, high][1..] == [high];
    XorSelf(high);
    ShiftsClear(0);
    assert Feed(high, [high]) == Feed(Shifts(0, 8), []);
  }

  // ---------------------------------------------------------------------------
  // Error detection

  lemma ShiftInjective(c: word, d: word)
    requires Shift(c) == Shift(d)
    ensures c == d
  {
    Pow2Values();
    if c % 2 == d % 2 {
      if c % 2 == 1 {
        XorCancel(c / 2, d / 2, POLYNOMIAL);
      }
    } else {
      XorKeepsTop(if c % 2 == 1 then c / 2 else d / 2, POLYNOMIAL, 15);
    }
  }

  lemma {:induction false} ShiftsInjective(c: word, d: word, n: nat)
    requires Shifts(c, n) == Shifts(d, n)
    ensures c == d
  {
    if n > 0 {
      ShiftInjective(Shifts(c, n - 1), Shifts(d, n - 1));
      ShiftsInjective(c, d, n - 1);
    }
  }

  /** Feeding the same bytes to two different registers never makes them meet. */
  lemma {:induction false} FeedInjective(c: word, d: word, data: seq<byte>)
    requires Feed(c, data) == Feed(d, data)
    ensures c == d
    decreases |data|
  {
    if data != [] {
      var b := data[0];
      FeedInjective(Shifts(Xor16(c, b), 8), Shifts(Xor16(d, b), 8), data[1..]);
      ShiftsInjective(Xor16(c, b), Xor16(d, b), 8);
      XorCancel(c, d, b);
    }
  }

  lemma FeedOne(c: word, b: byte)
    ensures Feed(c, [b]) == Shifts(Xor16(c, b), 8)
  {
    assert Feed(c, [b]) == Feed(Shifts(Xor16(c, b), 8), []);
  }

  lemma FeedTwo(c: word, b0: byte, b1: byte)
    ensures Feed(c, [b0, b1]) == Shifts(Xor16(Shifts(Xor16(c, b0), 8), b1), 8)
  {
    assert [b0, b1][1..] == [b1];
    FeedOne(Shifts(Xor16(c, b0), 8), b1);
  }

  /** Equal sums have equal differences. */
  lemma XorExchange(u: nat, a: nat, v: nat, b: nat)
    requires Xor(u, a) == Xor(v, b)
    ensures Xor(u, v) == Xor(a, b)
  {
    XorRegroup(u, a, v, b);
    XorSelf(Xor(u, a));
    XorSelf(Xor(a, b));
    XorCancel(Xor(u, v), Xor(a, b), Xor(a, b));
  }

  lemma XorDiffers(a: nat, b: nat)
    requires Xor(a, b) == 0
    ensures a == b
  {
    XorSelf(b);
    XorCancel(a, b, b);
  }

  /** From one register, two byte pairs that lead to the same register are the same pair. */
  lemma PairInjective(c: word, a0: byte, a1: byte, b0: byte, b1: byte)
    requires Feed(c, [a0, a1]) == Feed(c, [b0, b1])
    ensures a0 == b0 && a1 == b1
  {
    FeedTwo(c, a0, a1);
    FeedTwo(c, b0, b1);
    var u, v := Shifts(Xor16(c, a0), 8), Shifts(Xor16(c, b0), 8);
    ShiftsInjective(Xor16(u, a1), Xor16(v, b1), 8);
    // the difference of u and v is the image of e, and it equals f, which fits in a byte
    var e, f := XorByte(a0, b0), XorByte(a1, b1);
    XorExchange(u, a1, v, b1);
    ShiftsXor(Xor16(c, a0), Xor16(c, b0), 8);
    XorRegroup(c, a0, c, b0);
    XorSelf(c);
    XorZero(e);
    assert Shifts(e, 8) == f;
    ShiftsClear(f);
    ShiftsInjective(e, 256 * f as int, 8);
    XorDiffers(a0, b0);
    XorDiffers(a1, b1);
  }

  /** Corruption confined to one pair of adjacent bytes always changes the checksum. */
  lemma PairCorruptionDetected(head: seq<byte>, a0: byte, a1: byte, b0: byte, b1: byte, tail: seq<byte>)
    requires a0 != b0 || a1 != b1
    ensures Crc16(head + [a0, a1] + tail) != Crc16(head + [b0, b1] + tail)
  {
    var c := Feed(0, head);
    FeedConcat(0, head + [a0, a1], tail);
    FeedConcat(0, head + [b0, b1], tail);
    FeedConcat(0, head, [a0, a1]);
    FeedConcat(0, head, [b0, b1]);
    if Crc16(head + [a0, a1] + tail) == Crc16(head + [b0, b1] + tail) {
      FeedInjective(Feed(c, [a0, a1]), Feed(c, [b0, b1]), tail);
      PairInjective(c, a0, a1, b0, b1);
    }
  }

  // ---------------------------------------------------------------------------
  // Running the register backwards

  /** The register that one turn takes to `d`: its lowest bit shows in the top bit of `d`. */
  lemma ShiftBack(d: word) returns (c: word)
    ensures Shift(c) == d
  {
    hide Xor;
    if d < 0x8000 {
      ShiftEven(d);
      c := 2 * d;
    } else {
      Pow2Values();
      XorDropsTop(d, POLYNOMIAL, 15);
      c := 2 * Xor16(d, POLYNOMIAL) + 1;
      XorTwice(d, POLYNOMIAL);
    }
  }

  lemma XorTwice(d: word, p: word)
    ensures Xor16(Xor16(d, p), p) == d
  {
    XorAssociates(d, p, p);
    XorSelf(p);
    XorZero(d);
  }

  lemma {:induction false} ShiftsBack(d: word, n: nat) returns (c: word)
    ensures Shifts(c, n) == d
    decreases n
  {
    if n == 0 {
      c := d;
    } else {
      var b := ShiftBack(d);
      c := ShiftsBack(b, n - 1);
    }
  }

  lemma {:induction false} FeedBack(d: word, data: seq<byte>) returns (c: word)
    ensures Feed(c, data) == d
    decreases |data|
  {
    if data == [] {
      c := d;
    } else {
      var b: int := data[0];
      var e := FeedBack(d, data[1..]);
      var x := ShiftsBack(e, 8);
      c := Xor16(x, b);
      XorAssociates(x, b, b);
      XorSelf(b);
      XorZero(x);
    }
  }

  lemma {:induction false} ShiftsAdd(c: word, m: nat, n: nat)
    ensures Shifts(Shifts(c, m), n) == Shifts(c, m + n)
    decreases n
  {
    if n > 0 {
      ShiftsAdd(c, m, n - 1);
    }
  }

  /** Two bytes enter the register as one 16-bit word, low byte first. */
  lemma FeedWord(c: word, w: word)
    ensures Feed(c, [Low(w), High(w)]) == Shifts(Xor16(c, w), 16)
  {
    hide Shift, Xor16, Shifts;
    var low: int, high: int := Low(w), High(w);
    FeedTwo(c, low, high);
    ShiftsXor(Xor16(c, low), 256 * high, 8);
    ShiftsClear(high);
    WordSplit(c, w);
    ShiftsAdd(Xor16(c, w), 8, 8);
  }

  lemma WordSplit(c: word, w: word)
    ensures Xor16(Xor16(c, Low(w)), 256 * High(w) as int) == Xor16(c, w)
  {
    var low: int, high: int := Low(w), High(w);
    Pow2Values();
    XorLowBits(high, low, 8);
    assert Xor(w, low) == 256 * high;
    XorAssociates(w, low, low);
    XorSelf(low);
    XorZero(w);
    assert Xor(256 * high, low) == w;
    XorCommutes(256 * high, low);
    XorAssociates(c, low, 256 * high);
  }

  /** From any register, some pair of bytes leads to any other. */
  lemma PairReaches(c: word, d: word) returns (b0: byte, b1: byte)
    ensures Feed(c, [b0, b1]) == d
  {
    var g := ShiftsBack(d, 16);
    var w := Xor16(c, g);
    XorAssociates(c, c, g);
    XorSelf(c);
    XorZero(g);
    FeedWord(c, w);
    b0, b1 := Low(w), High(w);
  }

  /** Between any head and any tail exactly one pair of bytes makes the checksum zero. */
  lemma ZeroPair(head: seq<byte>, tail: seq<byte>) returns (b0: byte, b1: byte)
    ensures forall a0: byte, a1: byte :: Crc16(head + [a0, a1] + tail) == 0 <==> a0 == b0 && a1 == b1
  {
    hide Feed;
    var d := FeedBack(0, tail);
    b0, b1 := PairReaches(Feed(0, head), d);
    FeedConcat(0, head + [b0, b1], tail);
    FeedConcat(0, head, [b0, b1]);
    forall a0: byte, a1: byte | a0 != b0 || a1 != b1
      ensures Crc16(head + [a0, a1] + tail) != 0
    {
      PairCorruptionDetected(head, a0, a1, b0, b1, tail);
    }
  }
}
