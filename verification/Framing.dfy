/**
 Frames in a byte stream: the leftmost parser, one byte or one frame at a time, that the stream
 framer of backend/internal/codec/framing.go refines, and what holds of it on every stream.
 */
module Framing {
  import opened Options
  import opened Bytes
  import Crc

  const PREAMBLE: seq<byte> := [0, 0, 0, 0]
  const MAX_DATA_LEN := 0x10_0000

  const CODEC8: byte := 0x08
  const CODEC8E: byte := 0x8E
  const CODEC12: byte := 0x0C
  const CODEC16: byte := 0x10

  predicate KnownCodec(id: byte) {
    id == CODEC8 || id == CODEC8E || id == CODEC12 || id == CODEC16
  }

  datatype Frame = Frame(payload: seq<byte>, crc: seq<byte>)

  /** Why the framer gave up on a candidate frame boundary. */
  datatype Resync = InvalidLength(n: nat) | UnknownCodec(id: byte)

  /** A frame the framer may emit. */
  predicate Legal(f: Frame) {
    0 < |f.payload| <= MAX_DATA_LEN && KnownCodec(f.payload[0]) && |f.crc| == 4
  }

  /** The bytes of a frame on the wire. */
  function Wire(f: Frame): (w: seq<byte>)
    ensures |w| == 8 + |f.payload| + |f.crc|
  {
    PREAMBLE + ToBE(|f.payload|, 4) + f.payload + f.crc
  }

  /** The four-byte checksum field: low byte, high byte, two zero bytes. */
  function CrcField(payload: seq<byte>): (c: seq<byte>)
    ensures |c| == 4
  {
    var crc := Crc.Crc16(payload);
    [Crc.Low(crc), Crc.High(crc), 0, 0]
  }

  /** The checksum test: either of the two layouts of the four-byte field is accepted. */
  predicate CrcValid(f: Frame) {
    |f.crc| >= 4 && f.payload != [] &&
    var b0: int, b1: int, b2: int, b3: int := f.crc[0], f.crc[1], f.crc[2], f.crc[3];
    var want := Crc.Crc16(f.payload);
    want == b0 + 256 * b1 || want == 256 * b2 + b3
  }

  // ---------------------------------------------------------------------------
  // The reference parser

  /** What the bytes at the front of the buffer allow: wait, drop one byte, or take a frame. */
  datatype Verdict = More | Drop(cause: Option<Resync>) | Take(frame: Frame)

  function Judge(buf: seq<byte>): (v: Verdict)
    ensures v.Take? ==> Legal(v.frame) && Wire(v.frame) <= buf
    ensures v.Drop? ==> buf != []
    ensures v.More? ==> |buf| < MAX_DATA_LEN + 12
  {
    if |buf| < 4 then More
    else if buf[..4] != PREAMBLE then Drop(None)
    else if |buf| < 8 then More
    else
      var n := FromBE(buf[4..8]);
      if n == 0 || n > MAX_DATA_LEN then Drop(Some(InvalidLength(n)))
      else if |buf| < 12 + n then More
      else if !KnownCodec(buf[8]) then Drop(Some(UnknownCodec(buf[8])))
      else
        var f := Frame(buf[8..8 + n], buf[8 + n..12 + n]);
        ToFromBE(buf[4..8]);
        assert Wire(f) == buf[..4] + buf[4..8] + buf[8..8 + n] + buf[8 + n..12 + n];
        assert buf[..12 + n] == buf[..4] + buf[4..8] + buf[8..8 + n] + buf[8 + n..12 + n];
        Take(f)
  }

  /** The length field of a header, octet by octet. */
  function HeaderLength(buf: seq<byte>): nat
    requires |buf| >= 8
  {
    var a: int, b: int, c: int, d: int := buf[4], buf[5], buf[6], buf[7];
    0x100_0000 * a + 0x1_0000 * b + 0x100 * c + d
  }

  /**
   A frame is taken exactly behind four zero octets and a length of 1 to 1048576 octets, once it is
   complete with its four checksum octets and its first octet is one of the four codec ids.
   */
  lemma TakenExactly(buf: seq<byte>)
    ensures Judge(buf).Take? <==>
            |buf| >= 8 && buf[0] == buf[1] == buf[2] == buf[3] == 0 && 1 <= HeaderLength(buf) <= 1048576 &&
            |buf| >= 12 + HeaderLength(buf) && (buf[8] == 0x08 || buf[8] == 0x8E || buf[8] == 0x0C || buf[8] == 0x10)
    ensures Judge(buf).Take? ==>
              var n := HeaderLength(buf);
              Judge(buf).frame.payload == buf[8..8 + n] && Judge(buf).frame.crc == buf[8 + n..12 + n]
  {
    hide FromBE;
    HeaderRead(buf);
  }

  /** Nothing is decided exactly while a header or the rest of a frame may still come. */
  lemma WaitsExactly(buf: seq<byte>)
    ensures Judge(buf).More? <==>
            |buf| < 4 ||
            (buf[0] == buf[1] == buf[2] == buf[3] == 0 &&
             (|buf| < 8 || (1 <= HeaderLength(buf) <= 1048576 && |buf| < 12 + HeaderLength(buf))))
  {
    hide FromBE;
    HeaderRead(buf);
  }

  lemma HeaderRead(buf: seq<byte>)
    ensures |buf| >= 4 ==> (buf[..4] == PREAMBLE <==> buf[0] == buf[1] == buf[2] == buf[3] == 0)
    ensures |buf| >= 8 ==> FromBE(buf[4..8]) == HeaderLength(buf)
  {
    if |buf| >= 4 {
      var p := buf[..4];
      assert p[0] == buf[0] && p[1] == buf[1] && p[2] == buf[2] && p[3] == buf[3];
      assert p == [buf[0], buf[1], buf[2], buf[3]];
    }
    if |buf| >= 8 {
      var s := buf[4..8];
      FromOctets(s);
      assert s[0] == buf[4] && s[1] == buf[5] && s[2] == buf[6] && s[3] == buf[7];
    }
  }

  /** One piece of a parsed stream: a dropped byte, or a whole frame. */
  datatype Segment = Junk(b: byte, cause: Option<Resync>) | Whole(frame: Frame)

  datatype Parse = Parse(segments: seq<Segment>, rest: seq<byte>)

  /** The leftmost parse, one byte or one frame at a time. */
  function Leftmost(buf: seq<byte>): Parse
    decreases |buf|
  {
    match Judge(buf)
    case More => Parse([], buf)
    case Drop(cause) =>
      var p := Leftmost(buf[1..]);
      Parse([Junk(buf[0], cause)] + p.segments, p.rest)
    case Take(f) =>
      var p := Leftmost(buf[|Wire(f)|..]);
      Parse([Whole(f)] + p.segments, p.rest)
  }

  function FramesOf(segments: seq<Segment>): seq<Frame> {
    if segments == [] then []
    else (match segments[0] case Whole(f) => [f] case Junk(_, _) => []) + FramesOf(segments[1..])
  }

  function SegmentBytes(s: Segment): seq<byte> {
    match s
    case Junk(b, _) => [b]
    case Whole(f) => Wire(f)
  }

  function BytesOf(segments: seq<Segment>): seq<byte> {
    if segments == [] then [] else SegmentBytes(segments[0]) + BytesOf(segments[1..])
  }

  predicate AllJunk(segments: seq<Segment>) {
    forall s | s in segments :: s.Junk?
  }

  /** The cause that a call of `Next` reports after dropping these bytes: the last one, if any. */
  function LastCause(junk: seq<Segment>): Option<Resync>
    requires AllJunk(junk)
  {
    if junk == [] then None
    else
      var last := junk[|junk| - 1];
      if last.cause.Some? then last.cause else LastCause(junk[..|junk| - 1])
  }

  /** The first piece of a buffer that does not have to wait. */
  function Segmented(buf: seq<byte>): (first: Segment)
    requires !Judge(buf).More?
    ensures SegmentBytes(first) != [] && SegmentBytes(first) <= buf
    ensures first.Whole? ==> Legal(first.frame)
  {
    match Judge(buf)
    case Drop(cause) => Junk(buf[0], cause)
    case Take(f) => Whole(f)
  }

  lemma LeftmostStep(buf: seq<byte>)
    requires !Judge(buf).More?
    ensures var n := |SegmentBytes(Segmented(buf))|;
            Leftmost(buf) == Parse([Segmented(buf)] + Leftmost(buf[n..]).segments, Leftmost(buf[n..]).rest)
  {
  }

  lemma LeftmostMore(buf: seq<byte>)
    requires Judge(buf).More?
    ensures Leftmost(buf) == Parse([], buf)
  {
  }

  lemma LeftmostDrop(buf: seq<byte>)
    requires Judge(buf).Drop?
    ensures Leftmost(buf).segments == [Junk(buf[0], Judge(buf).cause)] + Leftmost(buf[1..]).segments
    ensures Leftmost(buf).rest == Leftmost(buf[1..]).rest
  {
  }

  lemma LeftmostTake(buf: seq<byte>)
    requires Judge(buf).Take?
    ensures Leftmost(buf).segments == [Whole(Judge(buf).frame)] + Leftmost(buf[|Wire(Judge(buf).frame)|..]).segments
    ensures Leftmost(buf).rest == Leftmost(buf[|Wire(Judge(buf).frame)|..]).rest
  {
  }

  // ---------------------------------------------------------------------------
  // Conservation

  lemma {:induction false} FramesOfConcat(a: seq<Segment>, b: seq<Segment>)
    ensures FramesOf(a + b) == FramesOf(a) + FramesOf(b)
    decreases |a|
  {
    if a == [] {
      assert a + b == b;
    } else {
      assert (a + b)[1..] == a[1..] + b;
      FramesOfConcat(a[1..], b);
    }
  }

  lemma {:induction false} BytesOfConcat(a: seq<Segment>, b: seq<Segment>)
    ensures BytesOf(a + b) == BytesOf(a) + BytesOf(b)
    decreases |a|
  {
    if a == [] {
      assert a + b == b;
    } else {
      assert (a + b)[1..] == a[1..] + b;
      BytesOfConcat(a[1..], b);
    }
  }

  lemma {:induction false} FramesOfJunk(junk: seq<Segment>)
    requires AllJunk(junk)
    ensures FramesOf(junk) == []
  {
    if junk != [] {
      assert junk[0] in junk;
      assert AllJunk(junk[1..]);
      FramesOfJunk(junk[1..]);
    }
  }

  /** Every byte is in exactly one frame, dropped, or left over, in stream order; what is left is undecided. */
  lemma ParseConserves(buf: seq<byte>)
    ensures BytesOf(Leftmost(buf).segments) + Leftmost(buf).rest == buf
    ensures Judge(Leftmost(buf).rest) == More && |Leftmost(buf).rest| < MAX_DATA_LEN + 12
    ensures forall f | f in FramesOf(Leftmost(buf).segments) :: Legal(f)
  {
    hide *;
    BytesConserved(buf);
    RestUndecided(buf);
    FramesLegal(buf);
  }

  lemma {:induction false} BytesConserved(buf: seq<byte>)
    ensures BytesOf(Leftmost(buf).segments) + Leftmost(buf).rest == buf
    decreases |buf|
  {
    hide *;
    if Judge(buf).More? {
      LeftmostMore(buf);
      NoSegments();
      assert [] + buf == buf;
    } else {
      var first := Segmented(buf);
      var n := |SegmentBytes(first)|;
      LeftmostStep(buf);
      BytesConserved(buf[n..]);
      var p := Leftmost(buf[n..]);
      BytesOfConcat([first], p.segments);
      OneSegment(first);
      assert SegmentBytes(first) + BytesOf(p.segments) + p.rest == SegmentBytes(first) + (BytesOf(p.segments) + p.rest);
    }
  }

  lemma {:induction false} RestUndecided(buf: seq<byte>)
    ensures Judge(Leftmost(buf).rest) == More && |Leftmost(buf).rest| < MAX_DATA_LEN + 12
    decreases |buf|
  {
    hide *;
    if Judge(buf).More? {
      LeftmostMore(buf);
    } else {
      LeftmostStep(buf);
      RestUndecided(buf[|SegmentBytes(Segmented(buf))|..]);
    }
  }

  lemma {:induction false} FramesLegal(buf: seq<byte>)
    ensures forall f | f in FramesOf(Leftmost(buf).segments) :: Legal(f)
    decreases |buf|
  {
    hide *;
    if Judge(buf).More? {
      LeftmostMore(buf);
      NoSegments();
    } else {
      var first := Segmented(buf);
      var n := |SegmentBytes(first)|;
      LeftmostStep(buf);
      FramesLegal(buf[n..]);
      FramesOfConcat([first], Leftmost(buf[n..]).segments);
      OneSegment(first);
    }
  }

  lemma NoSegments()
    ensures BytesOf([]) == [] && FramesOf([]) == []
  {
  }

  lemma OneSegment(first: Segment)
    ensures BytesOf([first]) == SegmentBytes(first)
    ensures FramesOf([first]) == if first.Whole? then [first.frame] else []
  {
    assert [first][1..] == [];
  }

  // ---------------------------------------------------------------------------
  // Fragmentation

  /** More input never changes a decision already made. */
  lemma JudgeStable(a: seq<byte>, b: seq<byte>)
    requires !Judge(a).More?
    ensures Judge(a + b) == Judge(a)
  {
    var s := a + b;
    assert s[..4] == a[..4];
    if a[..4] == PREAMBLE {
      assert s[4..8] == a[4..8];
      var n := FromBE(a[4..8]);
      if 0 < n <= MAX_DATA_LEN {
        assert s[8] == a[8];
        assert s[8..8 + n] == a[8..8 + n];
        assert s[8 + n..12 + n] == a[8 + n..12 + n];
      }
    }
  }

  /** Parsing a stream in two pieces, carrying the rest over, is parsing it in one. */
  lemma {:induction false} ParseInPieces(a: seq<byte>, b: seq<byte>)
    ensures Leftmost(a + b).segments == Leftmost(a).segments + Leftmost(Leftmost(a).rest + b).segments
    ensures Leftmost(a + b).rest == Leftmost(Leftmost(a).rest + b).rest
    decreases |a|
  {
    hide Leftmost, Judge, Wire;
    if Judge(a).More? {
      LeftmostMore(a);
      assert [] + Leftmost(a + b).segments == Leftmost(a + b).segments;
    } else {
      JudgeStable(a, b);
      var n := |SegmentBytes(Segmented(a))|;
      LeftmostStep(a);
      LeftmostStep(a + b);
      assert (a + b)[n..] == a[n..] + b;
      ParseInPieces(a[n..], b);
    }
  }

  function Concat(chunks: seq<seq<byte>>): seq<byte> {
    if chunks == [] then [] else chunks[0] + Concat(chunks[1..])
  }

  /** Draining the buffer after every chunk. */
  function FeedChunks(buf: seq<byte>, chunks: seq<seq<byte>>): Parse
    decreases |chunks|
  {
    if chunks == [] then Parse([], buf)
    else
      var p := Leftmost(buf + chunks[0]);
      var q := FeedChunks(p.rest, chunks[1..]);
      Parse(p.segments + q.segments, q.rest)
  }

  /** However a stream is cut into reads, the frames, the dropped bytes and the leftover are the same. */
  lemma {:induction false} FragmentationIndependence(buf: seq<byte>, chunks: seq<seq<byte>>)
    requires Judge(buf) == More
    ensures FeedChunks(buf, chunks) == Leftmost(buf + Concat(chunks))
    decreases |chunks|
  {
    if chunks == [] {
      assert buf + Concat(chunks) == buf;
    } else {
      var a, b := buf + chunks[0], Concat(chunks[1..]);
      assert buf + Concat(chunks) == a + b;
      ParseInPieces(a, b);
      ParseConserves(a);
      FragmentationIndependence(Leftmost(a).rest, chunks[1..]);
    }
  }

  // ---------------------------------------------------------------------------
  // Frames on the wire

  lemma JudgeWire(f: Frame, tail: seq<byte>)
    requires Legal(f)
    ensures Judge(Wire(f) + tail) == Take(f)
    ensures (Wire(f) + tail)[|Wire(f)|..] == tail
  {
    var s, n := Wire(f) + tail, |f.payload|;
    assert s[..4] == PREAMBLE;
    assert s[4..8] == ToBE(n, 4);
    Pow256Values();
    FromToBE(n, 4);
    assert s[8] == f.payload[0];
    assert s[8..8 + n] == f.payload;
    assert s[8 + n..12 + n] == f.crc;
  }

  function WireAll(frames: seq<Frame>): seq<byte> {
    if frames == [] then [] else Wire(frames[0]) + WireAll(frames[1..])
  }

  /** A clean stream of legal frames parses into exactly those frames, with nothing dropped or left. */
  lemma {:induction false} ParseWireAll(frames: seq<Frame>)
    requires forall f | f in frames :: Legal(f)
    ensures FramesOf(Leftmost(WireAll(frames)).segments) == frames
    ensures |Leftmost(WireAll(frames)).segments| == |frames|
    ensures Leftmost(WireAll(frames)).rest == []
    decreases |frames|
  {
    if frames != [] {
      var f, tail := frames[0], WireAll(frames[1..]);
      JudgeWire(f, tail);
      ParseWireAll(frames[1..]);
      var p := Leftmost(tail);
      assert ([Whole(f)] + p.segments)[1..] == p.segments;
    }
  }

  predicate PreambleAt(buf: seq<byte>, i: int)
  {
    0 <= i && i + 4 <= |buf| && buf[i] == 0 && buf[i + 1] == 0 && buf[i + 2] == 0 && buf[i + 3] == 0
  }

  /** The bytes dropped by a scan that finds no preamble among them. */
  function Scanned(bytes: seq<byte>): seq<Segment> {
    seq(|bytes|, i requires 0 <= i < |bytes| => Junk(bytes[i], None))
  }

  /** Skipping straight to the first preamble drops what the reference parser drops byte by byte. */
  lemma {:induction false} SkipScanned(buf: seq<byte>, k: nat)
    requires k == 0 || k + 3 <= |buf|
    requires forall j | 0 <= j < k :: !PreambleAt(buf, j)
    ensures Leftmost(buf).segments == Scanned(buf[..k]) + Leftmost(buf[k..]).segments
    ensures Leftmost(buf).rest == Leftmost(buf[k..]).rest
    decreases k
  {
    hide Leftmost, Judge, PreambleAt;
    if k == 0 {
      assert buf[..0] == [] && buf[0..] == buf;
    } else {
      NoPreambleHere(buf);
      LeftmostDrop(buf);
      var t := buf[1..];
      NoPreambleBehind(buf, k);
      SkipScanned(t, k - 1);
      assert t[k - 1..] == buf[k..];
      assert Scanned(buf[..k]) == [Junk(buf[0], None)] + Scanned(t[..k - 1]);
    }
  }

  lemma NoPreambleBehind(buf: seq<byte>, k: nat)
    requires 0 < k <= |buf| && forall j | 0 <= j < k :: !PreambleAt(buf, j)
    ensures forall j | 0 <= j < k - 1 :: !PreambleAt(buf[1..], j)
  {
    forall j | 0 <= j < k - 1
      ensures !PreambleAt(buf[1..], j)
    {
      assert !PreambleAt(buf, j + 1);
    }
  }

  lemma NoPreambleHere(buf: seq<byte>)
    requires |buf| >= 4 && !PreambleAt(buf, 0)
    ensures Judge(buf) == Drop(None)
  {
    var p := buf[..4];
    assert p[0] == buf[0] && p[1] == buf[1] && p[2] == buf[2] && p[3] == buf[3];
  }

  /** The verdict once a preamble is at the front. */
  lemma PreambleHere(buf: seq<byte>)
    requires PreambleAt(buf, 0)
    ensures |buf| < 8 ==> Judge(buf) == More
    ensures |buf| >= 8 ==>
              var n := FromBE(buf[4..8]);
              Judge(buf) ==
                if n == 0 || n > MAX_DATA_LEN then Drop(Some(InvalidLength(n)))
                else if |buf| < 12 + n then More
                else if !KnownCodec(buf[8]) then Drop(Some(UnknownCodec(buf[8])))
                else Take(Frame(buf[8..8 + n], buf[8 + n..12 + n]))
  {
    assert buf[..4] == PREAMBLE;
  }

  function Zeros(k: nat): (z: seq<byte>)
    ensures |z| == k && forall i | 0 <= i < k :: z[i] == 0
  {
    seq(k, _ => 0)
  }

  lemma Octets(n: nat)
    requires n < 0x1_0000_0000
    ensures ToBE(n, 4) == [n / 0x100_0000, n / 0x1_0000 % 256, n / 0x100 % 256, n % 256]
  {
    assert ToBE(n, 4) == ToBE(n / 256, 3) + [n % 256];
    assert ToBE(n / 256, 3) == ToBE(n / 256 / 256, 2) + [n / 256 % 256];
    assert ToBE(n / 256 / 256, 2) == ToBE(n / 256 / 256 / 256, 1) + [n / 256 / 256 % 256];
    assert ToBE(n / 256 / 256 / 256, 1) == ToBE(n / 256 / 256 / 256 / 256, 0) + [n / 256 / 256 / 256 % 256];
  }

  lemma ZeroPreamble()
    ensures ToBE(0, 4) == PREAMBLE
  {
    Octets(0);
  }

  lemma FromOctets(s: seq<byte>)
    requires |s| == 4
    ensures var a: int, b: int, c: int, d: int := s[0], s[1], s[2], s[3];
            FromBE(s) == 0x100_0000 * a + 0x1_0000 * b + 0x100 * c + d
  {
    assert s[..3][..2] == s[..2] && s[..2][..1] == s[..1] && s[..1][..0] == [];
    assert FromBE(s[..1]) == 256 * FromBE([]) + s[0];
    assert FromBE(s[..2]) == 256 * FromBE(s[..1]) + s[1];
    assert FromBE(s[..3]) == 256 * FromBE(s[..2]) + s[2];
  }

  lemma ShortIsMore(buf: seq<byte>)
    requires |buf| < 4
    ensures Judge(buf) == More
  {
  }
}
