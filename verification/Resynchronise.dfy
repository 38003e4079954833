/** Finding the next frame behind corruption. */
module Resynchronise {
  import opened Bytes
  import opened Framing

  /**
   Starting `d` stray zeros early, the preamble still matches and the length field slides over the
   length `n`. A codec id then seems to follow exactly when the octet behind the slid field is one.
   */
  predicate Forges(n: nat, d: nat) {
    (d == 1 && n >= 0x100 && KnownCodec(n % 256)) || (d == 2 && n >= 0x1_0000 && KnownCodec(n / 0x100 % 256))
  }

  lemma WireHeader(f: Frame)
    requires Legal(f)
    ensures var w, n := Wire(f), |f.payload|;
            w[0] == w[1] == w[2] == w[3] == w[4] == 0 &&
            w[5] == n / 0x1_0000 && w[6] == n / 0x100 % 256 && w[7] == n % 256 && w[8..8 + n] == f.payload
  {
    hide ToBE;
    var w, n := Wire(f), |f.payload|;
    Octets(n);
    var size := ToBE(n, 4);
    assert w[4] == size[0] && w[5] == size[1] && w[6] == size[2] && w[7] == size[3];
  }

  /** The header that a reader sees when it starts `d` stray zeros early. */
  lemma StrayHeader(d: nat, f: Frame, tail: seq<byte>)
    requires d > 0 && Legal(f)
    ensures var s, n := Zeros(d) + Wire(f) + tail, |f.payload|;
            PreambleAt(s, 0) && |s| >= 13 + n &&
            FromBE(s[4..8]) == (if d == 1 then n / 0x100 else if d == 2 then n / 0x1_0000 else 0) &&
            (d == 1 ==> s[8] == n % 256) && (d == 2 ==> s[8] == n / 0x100 % 256)
  {
    hide FromBE, Wire;
    var s, w, n := Zeros(d) + Wire(f) + tail, Wire(f), |f.payload|;
    WireHeader(f);
    assert s == Zeros(d) + (w + tail);
    assert forall i | d <= i < d + |w| :: s[i] == w[i - d];
    var size := s[4..8];
    FromOctets(size);
    assert size[0] == s[4] && size[1] == s[5] && size[2] == s[6] && size[3] == s[7];
    if d == 1 {
      assert size[0] == w[3] && size[1] == w[4] && size[2] == w[5] && size[3] == w[6] && s[8] == w[7];
    } else if d == 2 {
      assert size[0] == w[2] && size[1] == w[3] && size[2] == w[4] && size[3] == w[5] && s[8] == w[6];
    }
  }

  lemma StrayVerdict(d: nat, f: Frame, tail: seq<byte>)
    requires d > 0 && Legal(f)
    ensures var v := Judge(Zeros(d) + Wire(f) + tail);
            if Forges(|f.payload|, d) then v.Take? else v.Drop?
  {
    hide FromBE, Wire, Judge, Zeros;
    var s := Zeros(d) + Wire(f) + tail;
    StrayHeader(d, f, tail);
    PreambleHere(s);
  }

  lemma {:induction false} ZerosThenFrame(k: nat, f: Frame, tail: seq<byte>)
    requires Legal(f)
    ensures FoundAt(Leftmost(Zeros(k) + Wire(f) + tail).segments, k, f) <==>
            forall d | 1 <= d <= k :: !Forges(|f.payload|, d)
    ensures FoundAt(Leftmost(Zeros(k) + Wire(f) + tail).segments, k, f) ==>
            Leftmost(Zeros(k) + Wire(f) + tail).segments[k + 1..] == Leftmost(tail).segments
  {
    hide *;
    if k == 0 {
      FrameAtOnce(f, tail);
    } else {
      var s := Zeros(k) + Wire(f) + tail;
      StrayVerdict(k, f, tail);
      OneZeroLess(k, Wire(f), tail);
      ZerosThenFrame(k - 1, f, tail);
      if Forges(|f.payload|, k) {
        LeftmostTake(s);
        FrameInFront(Leftmost(s).segments, k, f);
      } else {
        LeftmostDrop(s);
        var junk := [Junk(s[0], Judge(s).cause)];
        OneIsJunk(junk[0]);
        FoundBehindJunk(junk, Leftmost(s[1..]).segments, k - 1, f);
      }
    }
  }

  lemma FrameAtOnce(f: Frame, tail: seq<byte>)
    requires Legal(f)
    ensures var p := Leftmost(Zeros(0) + Wire(f) + tail).segments;
            FoundAt(p, 0, f) && p[1..] == Leftmost(tail).segments
  {
    hide Leftmost, Judge, Legal, Wire;
    assert Zeros(0) + Wire(f) + tail == Wire(f) + tail;
    JudgeWire(f, tail);
    LeftmostTake(Wire(f) + tail);
  }

  lemma OneZeroLess(k: nat, w: seq<byte>, tail: seq<byte>)
    requires k > 0
    ensures var s := Zeros(k) + w + tail; s != [] && s[1..] == Zeros(k - 1) + w + tail
  {
  }

  lemma FrameInFront(p: seq<Segment>, k: nat, f: Frame)
    requires p != [] && p[0].Whole? && k > 0
    ensures !FoundAt(p, k, f)
  {
    if k < |p| {
      assert p[..k][0] == p[0] && p[0] in p[..k];
    }
  }

  lemma OneIsJunk(s: Segment)
    requires s.Junk?
    ensures AllJunk([s])
  {
  }

  /** The frame is segment `k`, and everything before it was dropped. */
  ghost predicate FoundAt(segments: seq<Segment>, k: nat, f: Frame) {
    k < |segments| && AllJunk(segments[..k]) && segments[k] == Whole(f)
  }

  lemma FoundBehindJunk(junk: seq<Segment>, q: seq<Segment>, k: nat, f: Frame)
    requires AllJunk(junk)
    ensures FoundAt(junk + q, |junk| + k, f) <==> FoundAt(q, k, f)
    ensures FoundAt(q, k, f) ==> (junk + q)[|junk| + k + 1..] == q[k + 1..]
  {
    if k < |q| {
      assert (junk + q)[..|junk| + k] == junk + q[..k];
    }
  }

  /**
   Behind corruption with no preamble of its own and any number of zeros, the next frame is the first
   one found, and parsing resumes behind it, exactly when no stray zero makes its length field look
   like a header. Without zeros, or for lengths below 256, that is always so.
   */
  lemma Resynchronisation(garbage: seq<byte>, k: nat, f: Frame, tail: seq<byte>)
    requires forall j | 0 <= j < |garbage| :: !PreambleAt(garbage, j)
    requires garbage == [] || garbage[|garbage| - 1] != 0
    requires Legal(f)
    ensures var p := Leftmost(garbage + (Zeros(k) + Wire(f) + tail));
            (FoundAt(p.segments, |garbage| + k, f) <==> forall d | 1 <= d <= k :: !Forges(|f.payload|, d)) &&
            (FoundAt(p.segments, |garbage| + k, f) ==> p.segments[|garbage| + k + 1..] == Leftmost(tail).segments)
    ensures k == 0 || |f.payload| < 256 ==> forall d | 1 <= d <= k :: !Forges(|f.payload|, d)
  {
    hide *;
    var rest := Zeros(k) + Wire(f) + tail;
    WireIsLong(f);
    GarbageDropped(garbage, rest);
    ZerosThenFrame(k, f, tail);
    ScannedIsJunk(garbage);
    FoundBehindJunk(Scanned(garbage), Leftmost(rest).segments, k, f);
    ShortNeverForges(|f.payload|, k);
  }

  /** Corruption without a preamble is dropped byte by byte, and nothing behind it. */
  lemma GarbageDropped(garbage: seq<byte>, rest: seq<byte>)
    requires forall j | 0 <= j < |garbage| :: !PreambleAt(garbage, j)
    requires garbage == [] || garbage[|garbage| - 1] != 0
    requires |rest| >= 4
    ensures Leftmost(garbage + rest).segments == Scanned(garbage) + Leftmost(rest).segments
  {
    hide *;
    GarbageHidesNothing(garbage, rest);
    SplitAgain(garbage, rest);
    SkipScanned(garbage + rest, |garbage|);
  }

  lemma SplitAgain(a: seq<byte>, b: seq<byte>)
    ensures (a + b)[..|a|] == a && (a + b)[|a|..] == b
  {
  }

  lemma WireIsLong(f: Frame)
    ensures |Wire(f)| >= 8
  {
  }

  lemma ScannedIsJunk(bytes: seq<byte>)
    ensures AllJunk(Scanned(bytes)) && |Scanned(bytes)| == |bytes|
  {
  }

  lemma ShortNeverForges(n: nat, k: nat)
    ensures k == 0 || n < 256 ==> forall d | 1 <= d <= k :: !Forges(n, d)
  {
  }

  lemma GarbageHidesNothing(garbage: seq<byte>, rest: seq<byte>)
    requires forall j | 0 <= j < |garbage| :: !PreambleAt(garbage, j)
    requires garbage == [] || garbage[|garbage| - 1] != 0
    requires |rest| >= 4
    ensures forall j | 0 <= j < |garbage| :: !PreambleAt(garbage + rest, j)
  {
    var s, g := garbage + rest, |garbage|;
    forall j | 0 <= j < g
      ensures !PreambleAt(s, j)
    {
      assert !PreambleAt(garbage, j);
      assert s[g - 1] == garbage[g - 1] != 0;
      assert forall i | j <= i < g :: s[i] == garbage[i];
    }
  }

  /** One stray zero before a 264-byte payload forges a boundary: a one-byte frame is emitted instead. */
  lemma StrayZeroForgesFrame(f: Frame, tail: seq<byte>)
    requires Legal(f) && |f.payload| == 0x108
    ensures !FoundAt(Leftmost(Zeros(1) + Wire(f) + tail).segments, 1, f)
    ensures Judge(Zeros(1) + Wire(f) + tail) == Take(Frame([CODEC8], f.payload[..4]))
  {
    hide FromBE, Leftmost, Judge, Wire;
    var s, w := Zeros(1) + Wire(f) + tail, Wire(f);
    assert Forges(|f.payload|, 1);
    ZerosThenFrame(1, f, tail);
    StrayHeader(1, f, tail);
    PreambleHere(s);
    WireHeader(f);
    assert s[8] == CODEC8 && s[8..9] == [s[8]];
    assert s[9..13] == w[8..12] == w[8..8 + 0x108][..4];
  }
}
