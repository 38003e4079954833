/** The stream framer of backend/internal/codec/framing.go, against the reference parser. */
module Framer {
  import opened Options
  import opened Bytes
  import opened Framing

  /** What has been done with `received` so far: `log` is settled and `buf` is still to be parsed. */
  ghost predicate Coherent(log: seq<Segment>, buf: seq<byte>, received: seq<byte>) {
    log + Leftmost(buf).segments == Leftmost(received).segments &&
    Leftmost(buf).rest == Leftmost(received).rest
  }

  lemma CoherentScan(log: seq<Segment>, buf: seq<byte>, received: seq<byte>, k: nat)
    requires Coherent(log, buf, received)
    requires k == 0 || k + 3 <= |buf|
    requires forall j | 0 <= j < k :: !PreambleAt(buf, j)
    ensures Coherent(log + Scanned(buf[..k]), buf[k..], received)
  {
    hide Leftmost, PreambleAt, Scanned;
    SkipScanned(buf, k);
    assert log + (Scanned(buf[..k]) + Leftmost(buf[k..]).segments)
        == (log + Scanned(buf[..k])) + Leftmost(buf[k..]).segments;
  }

  lemma CoherentDrop(log: seq<Segment>, buf: seq<byte>, received: seq<byte>)
    requires Coherent(log, buf, received) && Judge(buf).Drop?
    ensures Coherent(log + [Junk(buf[0], Judge(buf).cause)], buf[1..], received)
  {
    LeftmostDrop(buf);
    hide Leftmost, Judge;
    var x := [Junk(buf[0], Judge(buf).cause)];
    assert log + (x + Leftmost(buf[1..]).segments) == (log + x) + Leftmost(buf[1..]).segments;
  }

  lemma CoherentTake(log: seq<Segment>, buf: seq<byte>, received: seq<byte>)
    requires Coherent(log, buf, received) && Judge(buf).Take?
    ensures Coherent(log + [Whole(Judge(buf).frame)], buf[|Wire(Judge(buf).frame)|..], received)
  {
    LeftmostTake(buf);
    hide Leftmost, Judge;
    var x, t := [Whole(Judge(buf).frame)], buf[|Wire(Judge(buf).frame)|..];
    assert log + (x + Leftmost(t).segments) == (log + x) + Leftmost(t).segments;
  }

  lemma CoherentMore(log: seq<Segment>, buf: seq<byte>, received: seq<byte>)
    requires Coherent(log, buf, received) && Judge(buf).More?
    ensures Leftmost(received) == Parse(log, buf)
  {
    assert Leftmost(buf) == Parse([], buf);
    hide Leftmost, Judge;
  }

  lemma CoherentAppend(log: seq<Segment>, buf: seq<byte>, received: seq<byte>, data: seq<byte>)
    requires Coherent(log, buf, received)
    ensures Coherent(log, buf + data, received + data)
  {
    hide Leftmost;
    ParseInPieces(buf, data);
    ParseInPieces(received, data);
  }

  // ---------------------------------------------------------------------------
  // The framer object

  class StreamFramer {
    var buf: seq<byte>

    // history: what came in, what became of it, and how much looping that took
    ghost var received: seq<byte>
    ghost var log: seq<Segment>
    ghost var calls: nat
    ghost var passes: nat
    ghost var probes: nat
    ghost var scanned: nat
    ghost var skipped: nat

    /** The log and the buffer together are always the reference parse of everything received. */
    ghost predicate Valid()
      reads this
    {
      Coherent(log, buf, received) &&
      scanned + skipped + |buf| <= |received| &&
      passes <= skipped + calls &&
      probes <= scanned + passes
    }

    constructor ()
      ensures Valid() && buf == [] && received == [] && log == []
      ensures calls == 0 && passes == 0 && probes == 0
    {
      buf := [];
      received, log := [], [];
      calls, passes, probes, scanned, skipped := 0, 0, 0, 0, 0;
    }

    method Append(data: seq<byte>)
      requires Valid()
      modifies this
      ensures Valid()
      ensures buf == old(buf) + data && received == old(received) + data && log == old(log)
      ensures calls == old(calls) && passes == old(passes) && probes == old(probes)
    {
      hide Coherent;
      CoherentAppend(log, buf, received, data);
      buf := buf + data;
      received := received + data;
    }

    function Buffered(): nat
      reads this
    {
      |buf|
    }

    /** Forgets everything; the history starts again. */
    method Reset()
      modifies this
      ensures Valid() && buf == [] && received == [] && log == []
    {
      buf := [];
      received, log := [], [];
      calls, passes, probes, scanned, skipped := 0, 0, 0, 0, 0;
    }

    /** The inner loop of `Next`: the first preamble, or -1. */
    method FindPreamble() returns (idx: int)
      modifies this`probes
      ensures -1 <= idx
      ensures idx >= 0 ==> PreambleAt(buf, idx) && probes == old(probes) + idx + 1
      ensures forall j | 0 <= j < idx :: !PreambleAt(buf, j)
      ensures idx == -1 ==> forall j | 0 <= j :: !PreambleAt(buf, j)
      ensures idx == -1 ==> probes == old(probes) + if |buf| > 3 then |buf| - 3 else 0
    {
      idx := -1;
      var i := 0;
      while i + 4 <= |buf|
        invariant 0 <= i && (i == 0 || i + 3 <= |buf|)
        invariant probes == old(probes) + i
        invariant forall j | 0 <= j < i :: !PreambleAt(buf, j)
      {
        probes := probes + 1;
        if buf[i] == 0 && buf[i + 1] == 0 && buf[i + 2] == 0 && buf[i + 3] == 0 {
          return i;
        }
        i := i + 1;
      }
    }

    /** The scan: moves the buffer to the first preamble, or to its last three bytes. */
    method SkipToPreamble(ghost base: seq<Segment>, ghost err: Option<Resync>) returns (found: bool)
      requires Coherent(log, buf, received) && Reports(base, log, err)
      requires scanned + skipped + |buf| <= |received| && probes < scanned + passes
      modifies this`buf, this`log, this`scanned, this`probes
      ensures Coherent(log, buf, received) && Reports(base, log, err)
      ensures scanned + skipped + |buf| <= |received| && probes <= scanned + passes
      ensures |buf| <= |old(buf)|
      ensures if found then PreambleAt(buf, 0) else |buf| < 4
    {
      hide Coherent, Reports, Scanned;
      var idx := FindPreamble();
      found := idx >= 0;
      var keep := if found then idx else if |buf| > 3 then |buf| - 3 else 0;
      if keep > 0 {
        CoherentScan(log, buf, received, keep);
        ExtendScanned(base, log, buf[..keep], err);
        log, scanned := log + Scanned(buf[..keep]), scanned + keep;
        buf := buf[keep..];
      }
    }

    /** Returns the next complete frame, if any, and the last resynchronisation cause met on the way. */
    method Next() returns (frame: Option<Frame>, err: Option<Resync>)
      requires Valid()
      modifies this
      ensures Valid() && received == old(received) && calls == old(calls) + 1
      ensures |buf| <= |old(buf)| && (frame.Some? ==> |buf| < |old(buf)|)
      ensures Explains(old(log), log, frame, err) && (frame.Some? ==> Legal(frame.value))
      ensures frame.None? ==> log == Leftmost(received).segments && buf == Leftmost(received).rest
    {
      hide Coherent, Leftmost, Judge, Reports, Scanned, Explains, FromBE, Wire, PreambleAt, KnownCodec;
      frame, err := None, None;
      calls := calls + 1;
      NothingAdded(log);
      while true
        invariant Coherent(log, buf, received)
        invariant received == old(received) && calls == old(calls) + 1
        invariant scanned + skipped + |buf| <= |received|
        invariant passes + 1 <= skipped + calls && probes <= scanned + passes
        invariant |buf| <= |old(buf)|
        invariant Reports(old(log), log, err)
        decreases |buf|
      {
        passes := passes + 1;
        var found := SkipToPreamble(old(log), err);
        if !found {
          ShortIsMore(buf);
          CoherentMore(log, buf, received);
          ReportsMeans(old(log), log, err);
          return;
        }
        PreambleHere(buf);
        if |buf| < 8 {
          CoherentMore(log, buf, received);
          ReportsMeans(old(log), log, err);
          return;
        }
        var dataLen := FromBE(buf[4..8]);
        if dataLen <= 0 || dataLen > MAX_DATA_LEN {
          CoherentDrop(log, buf, received);
          ghost var was := err;
          err := Some(InvalidLength(dataLen));
          assert Reports(old(log), log, was);
          ExtendSkipped(old(log), log, buf[0], err.value);
          log, skipped := log + [Junk(buf[0], err)], skipped + 1;
          buf := buf[1..];
          continue;
        }
        var total := 12 + dataLen;
        if |buf| < total {
          CoherentMore(log, buf, received);
          ReportsMeans(old(log), log, err);
          return;
        }
        var payload := buf[8..8 + dataLen];
        if !KnownCodec(payload[0]) {
          CoherentDrop(log, buf, received);
          ghost var was := err;
          err := Some(UnknownCodec(payload[0]));
          assert Reports(old(log), log, was);
          ExtendSkipped(old(log), log, buf[0], err.value);
          log, skipped := log + [Junk(buf[0], err)], skipped + 1;
          buf := buf[1..];
          continue;
        }
        var crc := buf[8 + dataLen..total];
        frame := Some(Frame(payload, crc));
        WireLength(frame.value);
        CoherentTake(log, buf, received);
        ExtendWhole(old(log), log, frame.value, err);
        log := log + [Whole(frame.value)];
        buf := buf[total..];
        return;
      }
    }
  }

  /** Since `base`, only bytes were dropped, and `err` is the cause to report for them. */
  ghost predicate Reports(base: seq<Segment>, log: seq<Segment>, err: Option<Resync>) {
    base <= log && AllJunk(log[|base|..]) && err == LastCause(log[|base|..])
  }

  /** What one call of `Next` added to the log: dropped bytes, then the frame if there is one. */
  ghost predicate Explains(base: seq<Segment>, log: seq<Segment>, frame: Option<Frame>, err: Option<Resync>) {
    exists junk ::
      AllJunk(junk) && err == LastCause(junk) &&
      log == base + junk + match frame case Some(f) => [Whole(f)] case None => []
  }

  lemma ReportsMeans(base: seq<Segment>, log: seq<Segment>, err: Option<Resync>)
    requires Reports(base, log, err)
    ensures Explains(base, log, None, err)
  {
    assert log == base + log[|base|..] + [];
  }

  lemma WireLength(f: Frame)
    ensures |Wire(f)| == 8 + |f.payload| + |f.crc|
  {
  }

  lemma NothingAdded(base: seq<Segment>)
    ensures Reports(base, base, None)
  {
    assert base[|base|..] == [];
  }

  /** A scan drops bytes without a cause, so the cause to report stays. */
  lemma {:induction false} LastCauseScanned(junk: seq<Segment>, bytes: seq<byte>)
    requires AllJunk(junk)
    ensures AllJunk(junk + Scanned(bytes))
    ensures LastCause(junk + Scanned(bytes)) == LastCause(junk)
    decreases |bytes|
  {
    var all := junk + Scanned(bytes);
    if bytes == [] {
      assert all == junk;
    } else {
      var front := bytes[..|bytes| - 1];
      LastCauseScanned(junk, front);
      assert all[..|all| - 1] == junk + Scanned(front);
      assert all[|all| - 1] == Junk(bytes[|bytes| - 1], None);
    }
  }

  lemma ExtendScanned(base: seq<Segment>, log: seq<Segment>, bytes: seq<byte>, err: Option<Resync>)
    requires Reports(base, log, err)
    ensures Reports(base, log + Scanned(bytes), err)
  {
    assert (log + Scanned(bytes))[|base|..] == log[|base|..] + Scanned(bytes);
    LastCauseScanned(log[|base|..], bytes);
  }

  lemma ExtendSkipped(base: seq<Segment>, log: seq<Segment>, b: byte, cause: Resync)
    requires exists err :: Reports(base, log, err)
    ensures Reports(base, log + [Junk(b, Some(cause))], Some(cause))
  {
    assert (log + [Junk(b, Some(cause))])[|base|..] == log[|base|..] + [Junk(b, Some(cause))];
  }

  lemma ExtendWhole(base: seq<Segment>, log: seq<Segment>, f: Frame, err: Option<Resync>)
    requires Reports(base, log, err)
    ensures Explains(base, log + [Whole(f)], Some(f), err)
  {
    assert log + [Whole(f)] == base + log[|base|..] + [Whole(f)];
  }

  /** Whatever the calls so far, every received byte is accounted for and the looping is linear in them. */
  lemma FramerConservation(f: StreamFramer)
    requires f.Valid()
    ensures BytesOf(f.log) + f.buf == f.received
    ensures f.passes <= |f.received| + f.calls && f.probes <= |f.received| + f.calls
  {
    hide Leftmost, Judge, BytesOf;
    ParseConserves(f.buf);
    ParseConserves(f.received);
    BytesOfConcat(f.log, Leftmost(f.buf).segments);
  }
}
