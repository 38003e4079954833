/** What a device can rely on over a whole connection: exact storage, and acknowledgements that never lie. */
module IngestTheorems {
  import opened Options
  import opened Bytes
  import opened Framing
  import opened Avl
  import opened AvlRoundTrip
  import AvlMeaning
  import opened Storage
  import opened Ingest
  import Codec12
  import Simulator
  import Crc

  // ---------------------------------------------------------------------------
  // Acknowledgements account for rows, whatever fails

  /** Frames that lead to an acknowledgement: AVL frames all of whose records decode. */
  predicate Acknowledged(f: Frame) {
    f.payload != [] && (f.payload[0] == CODEC8 || f.payload[0] == CODEC8E) && ParsePayload(f.payload).error.None?
  }

  function AckValues(written: seq<seq<byte>>): (acks: seq<nat>)
    ensures |acks| == |written|
  {
    seq(|written|, i requires 0 <= i < |written| => FromBE(written[i]))
  }

  function Sum(s: seq<nat>): nat {
    if s == [] then 0 else Sum(s[..|s| - 1]) + s[|s| - 1]
  }

  /**
   The table and the acknowledgements tell the same story: one acknowledgement per acknowledged
   frame, in order, and its value is the length of the prefix of the frame's positions that was stored.
   */
  ghost predicate Ledger(frames: seq<Frame>, env: Env, acks: seq<nat>, rows: seq<Row>)
    decreases |frames|
  {
    if frames == [] then acks == [] && rows == []
    else
      var f, front := frames[|frames| - 1], frames[..|frames| - 1];
      if !Acknowledged(f) then Ledger(front, env, acks, rows)
      else
        acks != [] &&
        var k, ps := acks[|acks| - 1], PositionsOf(f.payload, env, |frames|);
        k <= |ps| && k <= |rows| && rows[|rows| - k..] == RowsFor(ps[..k]) &&
        Ledger(front, env, acks[..|acks| - 1], rows[..|rows| - k])
  }

  lemma AtMost255(payload: seq<byte>)
    ensures |ParsePayload(payload).records| < 256
  {
    hide ParseRecords;
  }

  lemma AckReads(k: nat)
    requires k < 256
    ensures FromBE(ToBE(k, 4)) == k
  {
    Pow256Values();
    FromToBE(k, 4);
  }

  lemma AckValuesSnoc(written: seq<seq<byte>>, k: nat)
    requires k < 256
    ensures AckValues(written + [ToBE(k, 4)]) == AckValues(written) + [k]
    ensures Sum(AckValues(written + [ToBE(k, 4)])) == Sum(AckValues(written)) + k
  {
    hide FromBE, ToBE;
    AckReads(k);
    var acks := AckValues(written) + [k];
    assert acks[..|acks| - 1] == AckValues(written);
  }

  lemma {:induction false} AckConservation(frames: seq<Frame>, env: Env)
    requires forall f | f in frames :: Legal(f)
    ensures var t := AfterFrames(frames, env);
            t.frames == |frames| &&
            Ledger(frames, env, AckValues(t.written), t.rows) &&
            t.stored == |t.rows| == Sum(AckValues(t.written))
    decreases |frames|
  {
    hide ParsePayload, PositionsOf, Accepted, Statements, ToBE, FromBE, RowsFor, CrcValid, Legal, AckValues;
    if frames == [] {
      NoAcks();
    } else {
      var f, front := frames[|frames| - 1], frames[..|frames| - 1];
      AckConservation(front, env);
      LegalIsNotEmpty(f);
      var t0, t := AfterFrames(front, env), AfterFrames(frames, env);
      if Acknowledged(f) {
        var ps := PositionsOf(f.payload, env, |frames|);
        var k := Accepted(|ps|, t0.statements, env.accepts);
        AtMost255(f.payload);
        AckValuesSnoc(t0.written, k);
        assert t.rows == t0.rows + RowsFor(ps[..k]);
        assert t.rows[..|t.rows| - k] == t0.rows;
        var acks := AckValues(t.written);
        assert acks[..|acks| - 1] == AckValues(t0.written);
      }
    }
  }

  lemma NoAcks()
    ensures AckValues([]) == []
  {
  }

  // ---------------------------------------------------------------------------
  // Live events account for rows, unless a frame is stored in part

  /** The first chunk of a frame of more than 200 records is stored and the second is refused. */
  predicate StoredInPart(f: Frame, first: nat, accepts: nat -> bool) {
    Acknowledged(f) && |ParsePayload(f.payload).records| > 200 && accepts(first) && !accepts(first + 1)
  }

  predicate SomeStoredInPart(frames: seq<Frame>, env: Env)
    requires forall f | f in frames :: Legal(f)
    decreases |frames|
  {
    frames != [] &&
    var front := frames[..|frames| - 1];
    SomeStoredInPart(front, env) || StoredInPart(frames[|frames| - 1], AfterFrames(front, env).statements, env.accepts)
  }

  /** A frame has at most two chunks. */
  lemma TwoChunks(n: nat, first: nat, accepts: nat -> bool)
    requires n < 256
    ensures var k := Accepted(n, first, accepts);
            0 < k < n <==> n > 200 && accepts(first) && !accepts(first + 1)
  {
    if n > CHUNK_SIZE {
      assert Accepted(n - CHUNK_SIZE, first + 1, accepts) == if accepts(first + 1) then n - CHUNK_SIZE else 0;
    }
  }

  /** What one frame adds to the table and to the live events. */
  lemma FramePublishes(t: Tally, f: Frame, env: Env) returns (ps: seq<Position>, k: nat)
    requires Legal(f) && f.payload != []
    ensures k <= |ps|
    ensures var t' := AfterFrame(t, f, env);
            t'.rows == t.rows + RowsFor(ps[..k]) && t'.published == t.published + ps
    ensures k < |ps| <==> StoredInPart(f, t.statements, env.accepts)
  {
    hide ParsePayload, PositionsOf, Accepted, Statements, ToBE, RowsFor, CrcValid, Legal;
    ps, k := [], 0;
    if Acknowledged(f) {
      var all := PositionsOf(f.payload, env, t.frames + 1);
      AtMost255(f.payload);
      TwoChunks(|all|, t.statements, env.accepts);
      if Accepted(|all|, t.statements, env.accepts) > 0 {
        ps, k := all, Accepted(|all|, t.statements, env.accepts);
      }
    }
    NoRows();
    EmptyIsNeutral(t.rows);
    EmptyIsNeutral(t.published);
  }

  /** The positions published are the positions stored exactly if no frame was stored in part; otherwise they are more. */
  lemma {:induction false} LiveEventsAreRows(frames: seq<Frame>, env: Env)
    requires forall f | f in frames :: Legal(f)
    ensures var t := AfterFrames(frames, env);
            |t.rows| <= |t.published| &&
            (RowsFor(t.published) == t.rows <==> !SomeStoredInPart(frames, env)) &&
            (|t.rows| == |t.published| <==> !SomeStoredInPart(frames, env))
    decreases |frames|
  {
    hide AfterFrame, Legal, RowsFor, StoredInPart;
    if frames == [] {
      NoRows();
    } else {
      var f, front := frames[|frames| - 1], frames[..|frames| - 1];
      LiveEventsAreRows(front, env);
      LegalIsNotEmpty(f);
      var t0 := AfterFrames(front, env);
      var ps, k := FramePublishes(t0, f, env);
      RowsForConcat(t0.published, ps);
      if k == |ps| {
        assert ps[..k] == ps;
      }
    }
  }

  // ---------------------------------------------------------------------------
  // Counters

  function Count(frames: seq<Frame>, p: Frame -> bool): nat {
    if frames == [] then 0
    else Count(frames[..|frames| - 1], p) + if p(frames[|frames| - 1]) then 1 else 0
  }

  predicate IsAvl(f: Frame) {
    f.payload != [] && (f.payload[0] == 0x08 || f.payload[0] == 0x8E)
  }

  predicate IsForeign(f: Frame) {
    f.payload == [] || (f.payload[0] != 0x08 && f.payload[0] != 0x8E && f.payload[0] != 0x0C)
  }

  predicate IsBroken(f: Frame) {
    IsAvl(f) && ParsePayload(f.payload).error.Some?
  }

  predicate IsWhole(f: Frame) {
    IsAvl(f) && ParsePayload(f.payload).error.None?
  }

  predicate IsMismatched(f: Frame) {
    (exists b :: b in f.crc && b != 0) && !CrcValid(f)
  }

  /** The record counts of the frames that decode. */
  function RecordCounts(frames: seq<Frame>): (sizes: seq<nat>)
    ensures |sizes| == Count(frames, IsWhole)
  {
    if frames == [] then []
    else
      var f, front := frames[|frames| - 1], RecordCounts(frames[..|frames| - 1]);
      if IsWhole(f) then front + [|ParsePayload(f.payload).records|] else front
  }

  /** How many acknowledgements fall short of the records they answer. */
  function Shortfalls(acks: seq<nat>, sizes: seq<nat>): nat
    requires |acks| == |sizes|
  {
    if acks == [] then 0
    else
      var n := |acks| - 1;
      Shortfalls(acks[..n], sizes[..n]) + if acks[n] < sizes[n] then 1 else 0
  }

  /** Every counter of a connection counts what its name says, over any frames and any failures. */
  lemma {:induction false} CountersExactly(frames: seq<Frame>, env: Env)
    requires forall f | f in frames :: Legal(f)
    ensures var t := AfterFrames(frames, env);
            t.frames == |frames| && t.unsupported == Count(frames, IsForeign) && t.parseErrors == Count(frames, IsBroken) &&
            t.crcMismatches == Count(frames, IsMismatched) && t.heartbeats == Count(frames, IsWhole) &&
            |AckValues(t.written)| == Count(frames, IsWhole) && t.records == Sum(RecordCounts(frames)) &&
            t.batchErrors == Shortfalls(AckValues(t.written), RecordCounts(frames))
    decreases |frames|
  {
    hide Legal, AfterFrame, AckValues, IsForeign, IsBroken, IsMismatched, IsWhole, Shortfalls, Sum, ParsePayload, Accepted, ToBE;
    if frames == [] {
      NoAcks();
      NothingShort();
    } else {
      var f, front := frames[|frames| - 1], frames[..|frames| - 1];
      CountersExactly(front, env);
      LegalIsNotEmpty(f);
      var t0 := AfterFrames(front, env);
      FrameCounts(t0, f, env);
      if IsWhole(f) {
        var n, k := |ParsePayload(f.payload).records|, Accepted(|ParsePayload(f.payload).records|, t0.statements, env.accepts);
        AtMost255(f.payload);
        AckValuesSnoc(t0.written, k);
        SumSnoc(RecordCounts(front), n);
        ShortSnoc(AckValues(t0.written), RecordCounts(front), k, n);
      }
    }
  }

  lemma FrameCounts(t: Tally, f: Frame, env: Env)
    requires f.payload != []
    ensures var t' := AfterFrame(t, f, env);
            var n := |ParsePayload(f.payload).records|;
            var k := Accepted(n, t.statements, env.accepts);
            t'.frames == t.frames + 1 && t'.unsupported == t.unsupported + (if IsForeign(f) then 1 else 0) &&
            t'.parseErrors == t.parseErrors + (if IsBroken(f) then 1 else 0) &&
            t'.crcMismatches == t.crcMismatches + (if IsMismatched(f) then 1 else 0) &&
            t'.heartbeats == t.heartbeats + (if IsWhole(f) then 1 else 0) &&
            t'.records == t.records + (if IsWhole(f) then n else 0) &&
            t'.batchErrors == t.batchErrors + (if IsWhole(f) && k < n then 1 else 0) &&
            t'.written == (if IsWhole(f) then t.written + [ToBE(k, 4)] else t.written)
  {
    hide ParsePayload, Codec12.ParseCommand, CrcValid, Accepted, Statements, ToBE, RowsFor, AfterPositions, NormaliseAll, ToPositions;
  }

  lemma NothingShort()
    ensures Shortfalls([], []) == 0 && Sum([]) == 0
  {
  }

  lemma SumSnoc(s: seq<nat>, n: nat)
    ensures Sum(s + [n]) == Sum(s) + n
  {
    assert (s + [n])[..|s|] == s;
  }

  lemma ShortSnoc(acks: seq<nat>, sizes: seq<nat>, k: nat, n: nat)
    requires |acks| == |sizes|
    ensures Shortfalls(acks + [k], sizes + [n]) == Shortfalls(acks, sizes) + if k < n then 1 else 0
  {
    assert (acks + [k])[..|acks|] == acks && (sizes + [n])[..|acks|] == sizes;
  }

  // ---------------------------------------------------------------------------
  // Times

  /** Midnight of January 1st of year 1, in milliseconds: 1969 years before the epoch, leap years counted. */
  lemma ZeroTimeIsYearOne()
    ensures ZERO_TIME == -(1969 * 365 + 1969 / 4 - 1969 / 100 + 1969 / 400) * 24 * 60 * 60 * 1000
  {
  }

  /** Every position of a frame is what its record describes, but for a time of zero, which becomes the clock's. */
  lemma PositionsExactly(payload: seq<byte>, env: Env, index: nat, i: nat)
    requires i < |ParsePayload(payload).records|
    ensures var r, p := ParsePayload(payload).records[i], PositionsOf(payload, env, index)[i];
            p.(gps := p.gps.(time := 0)) == AvlMeaning.Describe(env.deviceId, r).(gps := r.gps.(time := 0)) &&
            p.gps.time == if r.gps.time == -62_135_596_800_000 then env.clock(index)(i) else r.gps.time
  {
    hide ParsePayload, ToPosition, AvlMeaning.Describe;
    var r := ParsePayload(payload).records[i];
    AvlMeaning.PositionIsDescription(env.deviceId, r);
    DescribedGps(env.deviceId, r);
    var ps, clock := ToPositions(env.deviceId, ParsePayload(payload).records), env.clock(index);
    assert ps[i] == ToPosition(env.deviceId, r);
    assert NormaliseAll(ps, clock)[i] == Normalise(ps[i], clock(i));
  }

  lemma DescribedGps(deviceId: int, r: Decoded)
    ensures AvlMeaning.Describe(deviceId, r).gps == r.gps
  {
    hide AvlMeaning.Last, AvlMeaning.FirstNonZero, AvlMeaning.LastPerId;
  }

  // ---------------------------------------------------------------------------
  // Command responses

  predicate IsResponse(f: Frame) {
    f.payload != [] && f.payload[0] == 0x0C && Codec12.ParseCommand(f.payload).error.None? &&
    Codec12.ParseCommand(f.payload).entries != []
  }

  /** The responses among the frames: those that parse to at least one entry. */
  function Responses(frames: seq<Frame>): seq<seq<seq<byte>>> {
    if frames == [] then []
    else
      var f := frames[|frames| - 1];
      Responses(frames[..|frames| - 1]) + if IsResponse(f) then [Codec12.ParseCommand(f.payload).entries] else []
  }

  /** Each response with the command that lastCommand named when it came in, if it named one. */
  function Answered(responses: seq<seq<seq<byte>>>, slot: nat -> int): seq<Answer> {
    if responses == [] then []
    else
      var n := |responses| - 1;
      Answered(responses[..n], slot) + if slot(n) > 0 then [Answer(slot(n), responses[n])] else []
  }

  /** Over any frames, the answers recorded are those of the responses, in order. */
  lemma {:induction false} AnswersExactly(frames: seq<Frame>, env: Env)
    requires forall f | f in frames :: Legal(f)
    ensures var t := AfterFrames(frames, env);
            t.responses == Responses(frames) && t.answers == Answered(Responses(frames), env.slot)
    decreases |frames|
  {
    hide Legal, AfterFrame, IsResponse, Codec12.ParseCommand;
    if frames != [] {
      var f, front := frames[|frames| - 1], frames[..|frames| - 1];
      AnswersExactly(front, env);
      LegalIsNotEmpty(f);
      var before, entries := Responses(front), Codec12.ParseCommand(f.payload).entries;
      FrameAnswers(AfterFrames(front, env), f, env);
      assert (before + [entries])[..|before|] == before;
      EmptyIsNeutral(before);
    }
  }

  lemma FrameAnswers(t: Tally, f: Frame, env: Env)
    requires f.payload != []
    ensures var t', id, entries := AfterFrame(t, f, env), env.slot(|t.responses|), Codec12.ParseCommand(f.payload).entries;
            if IsResponse(f)
            then t'.responses == t.responses + [entries] && t'.answers == t.answers + (if id > 0 then [Answer(id, entries)] else [])
            else t'.responses == t.responses && t'.answers == t.answers
  {
    hide ParsePayload, Codec12.ParseCommand, CrcValid, ZeroCrc, Accepted, Statements, ToBE, RowsFor, AfterPositions, PositionsOf;
  }

  // ---------------------------------------------------------------------------
  // The odometer

  /** How many positions carry an odometer reading. */
  function Readings(ps: seq<Position>): nat {
    if ps == [] then 0 else Readings(ps[..|ps| - 1]) + if ps[|ps| - 1].odometer > 0 then 1 else 0
  }

  /** What the positions of one frame make of the odometer. */
  lemma {:induction false} OdometerOfFrame(o: Mileage, ps: seq<Position>, updates: nat -> bool)
    ensures var v := AfterPositions(o, ps, updates).value;
            v >= o.value && (v == o.value || exists p :: p in ps && p.odometer == v > 0) &&
            ((forall n :: updates(n)) ==> forall p | p in ps && p.odometer > 0 :: p.odometer <= v)
    ensures AfterPositions(o, ps, updates).updates == o.updates + Readings(ps)
    decreases |ps|
  {
    if ps != [] {
      var front := ps[..|ps| - 1];
      OdometerOfFrame(o, front, updates);
      assert ps[|ps| - 1] in ps && forall p | p in front :: p in ps;
    }
  }

  /** A frame publishes some positions and passes exactly those to the odometer. */
  lemma FrameDrives(t: Tally, f: Frame, env: Env) returns (ps: seq<Position>)
    requires f.payload != []
    ensures AfterFrame(t, f, env).published == t.published + ps
    ensures AfterFrame(t, f, env).odometer == AfterPositions(t.odometer, ps, env.updates)
  {
    hide ParsePayload, PositionsOf, Accepted, Statements, ToBE, RowsFor, CrcValid, AfterPositions;
    ps := [];
    NoPositions(t.odometer, env.updates);
    EmptyIsNeutral(t.published);
    if Acknowledged(f) {
      var all := PositionsOf(f.payload, env, t.frames + 1);
      if Accepted(|all|, t.statements, env.accepts) > 0 {
        ps := all;
      }
    }
  }

  /**
   The odometer never falls, is always the starting value or one that was published, and is at least
   every one published if no update failed.
   */
  lemma {:induction false} OdometerIsGreatest(frames: seq<Frame>, env: Env)
    requires forall f | f in frames :: Legal(f)
    ensures var t := AfterFrames(frames, env);
            var v := t.odometer.value;
            v >= env.odometer && (v == env.odometer || exists p :: p in t.published && p.odometer == v > 0) &&
            ((forall n :: env.updates(n)) ==> forall p | p in t.published && p.odometer > 0 :: p.odometer <= v)
    ensures frames != [] ==>
              AfterFrames(frames[..|frames| - 1], env).odometer.value <= AfterFrames(frames, env).odometer.value
    decreases |frames|
  {
    hide AfterFrame, AfterPositions, Legal;
    if frames != [] {
      var f, front := frames[|frames| - 1], frames[..|frames| - 1];
      OdometerIsGreatest(front, env);
      LegalIsNotEmpty(f);
      var t0 := AfterFrames(front, env);
      var ps := FrameDrives(t0, f, env);
      OdometerOfFrame(t0.odometer, ps, env.updates);
    }
  }

  // ---------------------------------------------------------------------------
  // Checksums

  /**
   A frame with one corrupted pair of payload bytes is counted exactly when neither the sent nor the
   corrupted payload has checksum zero: an all-zero field is not tested at all.
   */
  lemma CorruptionCounted(t: Tally, env: Env, head: seq<byte>, a0: byte, a1: byte, b0: byte, b1: byte, tail: seq<byte>)
    requires a0 != b0 || a1 != b1
    ensures var sent, got := head + [a0, a1] + tail, head + [b0, b1] + tail;
            AfterFrame(t, Frame(got, CrcField(sent)), env).crcMismatches ==
            t.crcMismatches + if Crc.Crc16(sent) != 0 && Crc.Crc16(got) != 0 then 1 else 0
  {
    hide Crc.Crc16, CrcValid, CrcField, AfterBatch, AfterCommand, ZeroCrc, ParsePayload;
    var sent, got := head + [a0, a1] + tail, head + [b0, b1] + tail;
    Codec12.PairCorruptionCaught(head, a0, a1, b0, b1, tail);
    ZeroField(sent, got);
    MismatchesKept(t.(frames := t.frames + 1), got, env);
    MismatchesKept(t.(frames := t.frames + 1, crcMismatches := t.crcMismatches + 1), got, env);
  }

  lemma ZeroField(sent: seq<byte>, got: seq<byte>)
    ensures ZeroCrc(Frame(got, CrcField(sent))) <==> Crc.Crc16(sent) == 0
  {
    hide Crc.Crc16;
    var crc: int := Crc.Crc16(sent);
    var field := CrcField(sent);
    assert crc == Crc.Low(crc) as int + 256 * (Crc.High(crc) as int);
    assert field[0] == Crc.Low(crc) && field[1] == Crc.High(crc);
    assert field[0] in field && field[1] in field;
  }

  lemma MismatchesKept(t: Tally, payload: seq<byte>, env: Env)
    ensures AfterAvl(t, payload, env).crcMismatches == t.crcMismatches
    ensures AfterCommand(t, payload, env).crcMismatches == t.crcMismatches
  {
    hide ParsePayload, PositionsOf, Codec12.ParseCommand, RowsFor, Accepted, Statements, AfterPositions, ToBE;
  }

  // ---------------------------------------------------------------------------
  // End to end

  /** A batch of records as a device sends it: in either codec, with or without a checksum. */
  datatype Sent = Sent(records: seq<Record>, extended: bool, checksum: bool)

  predicate Sendable(b: Sent) {
    |b.records| < 256 &&
    (forall r | r in b.records :: Encodable(r, b.extended) && r.gps.time != ZERO_TIME) &&
    |EncodePayload(b.records, b.extended)| <= MAX_DATA_LEN
  }

  function FrameFor(b: Sent): Frame {
    var payload := EncodePayload(b.records, b.extended);
    Frame(payload, Simulator.FieldFor(payload, b.checksum))
  }

  function FramesFor(batches: seq<Sent>): (fs: seq<Frame>)
    requires forall b | b in batches :: Sendable(b)
    ensures |fs| == |batches|
  {
    if batches == [] then []
    else
      var b := batches[|batches| - 1];
      assert Sendable(b);
      FramesFor(batches[..|batches| - 1]) + [FrameFor(b)]
  }

  /** The positions the device meant, batch after batch. */
  function Meant(batches: seq<Sent>, deviceId: int): seq<Position> {
    if batches == [] then []
    else Meant(batches[..|batches| - 1], deviceId) +
         ToPositions(deviceId, DenoteAll(batches[|batches| - 1].records))
  }

  function Sizes(batches: seq<Sent>): seq<nat> {
    if batches == [] then [] else Sizes(batches[..|batches| - 1]) + [|batches[|batches| - 1].records|]
  }

  lemma FrameForLegal(b: Sent)
    requires Sendable(b)
    ensures Legal(FrameFor(b)) && (ZeroCrc(FrameFor(b)) || CrcValid(FrameFor(b)))
  {
    hide EncodeRecords, CrcValid;
    if b.checksum {
      Codec12.FramedIsValid(FrameFor(b).payload);
    }
  }

  lemma {:induction false} FramesForLegal(batches: seq<Sent>)
    requires forall b | b in batches :: Sendable(b)
    ensures forall f | f in FramesFor(batches) :: Legal(f)
    decreases |batches|
  {
    hide Sendable, FrameFor, Legal;
    if batches != [] {
      FramesForLegal(batches[..|batches| - 1]);
      assert Sendable(batches[|batches| - 1]);
      FrameForLegal(batches[|batches| - 1]);
    }
  }

  lemma {:induction false} TimesKept(rs: seq<Record>, deviceId: int, clock: nat -> int)
    requires forall r | r in rs :: r.gps.time != ZERO_TIME
    ensures NormaliseAll(ToPositions(deviceId, DenoteAll(rs)), clock) == ToPositions(deviceId, DenoteAll(rs))
    decreases |rs|
  {
    hide GroupItems, ApplyAll, Normalise;
    var ps := ToPositions(deviceId, DenoteAll(rs));
    forall i | 0 <= i < |ps|
      ensures NormaliseAll(ps, clock)[i] == ps[i]
    {
      assert NormaliseAll(ps, clock)[i] == Normalise(ps[i], clock(i));
      DenoteAt(rs, i);
      assert rs[i] in rs;
      GpsUntouched(Blank(deviceId, rs[i].gps), Denote(rs[i]).items);
      TimeKept(ps[i], clock(i));
    }
  }

  lemma TimeKept(p: Position, now: int)
    requires p.gps.time != ZERO_TIME
    ensures Normalise(p, now) == p
  {
  }

  lemma {:induction false} DenoteAt(rs: seq<Record>, i: nat)
    requires i < |rs|
    ensures DenoteAll(rs)[i] == Denote(rs[i])
    decreases i
  {
    if i > 0 {
      DenoteAt(rs[1..], i - 1);
    }
  }

  lemma {:induction false} GpsUntouched(p: Position, items: seq<Item>)
    ensures ApplyAll(p, items).gps == p.gps
    decreases |items|
  {
    if items != [] {
      GpsUntouched(ApplyItem(p, items[0]), items[1..]);
    }
  }

  /** One batch, when nothing fails: its positions are stored, its size acknowledged, nothing is counted as wrong. */
  lemma BatchStored(t: Tally, b: Sent, env: Env)
    requires Sendable(b) && forall i :: env.accepts(i)
    ensures FrameFor(b).payload != []
    ensures var t' := AfterFrame(t, FrameFor(b), env);
            t'.rows == t.rows + RowsFor(ToPositions(env.deviceId, DenoteAll(b.records))) &&
            t'.written == t.written + [ToBE(|b.records|, 4)] &&
            t'.crcMismatches == t.crcMismatches && t'.parseErrors == t.parseErrors &&
            t'.batchErrors == t.batchErrors && t'.unsupported == t.unsupported
  {
    hide ParsePayload, EncodePayload, Encodable, DenoteAll, AfterAvl, ToPositions, RowsFor, ToBE, CrcValid, ZeroCrc, Legal;
    FrameForLegal(b);
    LegalIsNotEmpty(FrameFor(b));
    PayloadRoundTrip(b.records, b.extended);
    CodecOf(b.records, b.extended);
    TimesKept(b.records, env.deviceId, env.clock(t.frames + 1));
    AvlStored(t.(frames := t.frames + 1), FrameFor(b).payload, DenoteAll(b.records), env);
  }

  lemma CodecOf(rs: seq<Record>, extended: bool)
    requires |rs| < 256
    ensures var p := EncodePayload(rs, extended);
            p != [] && p[0] == if extended then CODEC8E else CODEC8
  {
    hide EncodeRecords;
  }

  /** A payload whose records decode and need no new time, when no INSERT fails. */
  lemma AvlStored(t: Tally, payload: seq<byte>, ds: seq<Decoded>, env: Env)
    requires ParsePayload(payload).error == None && ParsePayload(payload).records == ds
    requires NormaliseAll(ToPositions(env.deviceId, ds), env.clock(t.frames)) == ToPositions(env.deviceId, ds)
    requires forall i :: env.accepts(i)
    ensures AfterAvl(t, payload, env) ==
            t.(records := t.records + |ds|, stored := t.stored + |ds|,
               statements := t.statements + Statements(|ds|, t.statements, env.accepts),
               rows := t.rows + RowsFor(ToPositions(env.deviceId, ds)),
               published := t.published + ToPositions(env.deviceId, ds),
               odometer := AfterPositions(t.odometer, ToPositions(env.deviceId, ds), env.updates),
               heartbeats := t.heartbeats + 1,
               written := t.written + [ToBE(|ds|, 4)])
  {
    hide ParsePayload, Accepted, Statements, ToBE, RowsFor, NormaliseAll, ToPositions;
    var ps := ToPositions(env.deviceId, ds);
    AcceptedAll(|ps|, t.statements, env.accepts);
    assert ps[..|ps|] == ps;
    assert |ps| == 0 ==> ps == [];
  }

  lemma {:induction false} BatchesStored(batches: seq<Sent>, env: Env)
    requires forall b | b in batches :: Sendable(b)
    requires forall i :: env.accepts(i)
    ensures forall f | f in FramesFor(batches) :: Legal(f)
    ensures var t := AfterFrames(FramesFor(batches), env);
            t.rows == RowsFor(Meant(batches, env.deviceId)) &&
            AckValues(t.written) == Sizes(batches) &&
            t.crcMismatches == t.parseErrors == t.batchErrors == t.unsupported == 0
    decreases |batches|
  {
    hide Sendable, FrameFor, AfterFrame, ToPositions, DenoteAll, RowsFor, Legal, AckValues, ToBE;
    FramesForLegal(batches);
    if batches == [] {
      NoRows();
      NoAcks();
    } else {
      var b, front := batches[|batches| - 1], batches[..|batches| - 1];
      assert Sendable(b);
      BatchesStored(front, env);
      SmallBatch(b);
      FrameForLegal(b);
      OneMoreFrame(FramesFor(front), FrameFor(b), env);
      var t0 := AfterFrames(FramesFor(front), env);
      BatchStored(t0, b, env);
      RowsForConcat(Meant(front, env.deviceId), ToPositions(env.deviceId, DenoteAll(b.records)));
      AckValuesSnoc(t0.written, |b.records|);
    }
  }

  lemma SmallBatch(b: Sent)
    requires Sendable(b)
    ensures |b.records| < 256
  {
  }

  lemma NoRows()
    ensures RowsFor([]) == []
  {
  }

  lemma RowsForConcat(a: seq<Position>, b: seq<Position>)
    ensures RowsFor(a + b) == RowsFor(a) + RowsFor(b)
  {
    hide Columns;
  }

  /** More than 200 records whose first chunk is stored and whose second is refused: events without rows. */
  lemma EventsWithoutRows(b: Sent, env: Env)
    requires Sendable(b) && |b.records| > 200 && env.accepts(0) && !env.accepts(1)
    ensures Legal(FrameFor(b))
    ensures var t := AfterFrames([FrameFor(b)], env);
            RowsFor(t.published) != t.rows && |t.rows| < |t.published|
  {
    hide Sendable, ParsePayload, EncodePayload, Encodable, DenoteAll, AfterFrame, RowsFor, CrcValid, ZeroCrc, Legal;
    var f := FrameFor(b);
    var frames := [f];
    FrameForLegal(b);
    SentDecodes(b);
    assert frames[..0] == [];
    LiveEventsAreRows(frames, env);
    assert StoredInPart(f, Start(env).statements, env.accepts);
    assert SomeStoredInPart(frames, env);
  }

  lemma SentDecodes(b: Sent)
    requires Sendable(b)
    ensures Acknowledged(FrameFor(b)) && |ParsePayload(FrameFor(b).payload).records| == |b.records|
  {
    hide ParsePayload, EncodePayload, Encodable, DenoteAll;
    PayloadRoundTrip(b.records, b.extended);
    CodecOf(b.records, b.extended);
  }

  const BLANK := Record(Gps(0, 0, 0, 0, 0, 0, 0), 0, [], [], [], [], [])

  lemma BlankEncodes()
    ensures Encodable(BLANK, false) && |EncodeRecord(BLANK, false)| == 30
  {
    hide ToBE;
    Pow256Values();
    Simulator.GroupsOneByOne(BLANK, false);
    forall es | es in BLANK.Groups()
      ensures ElementsFit(es, false)
    {
      assert es == [];
    }
  }

  lemma {:induction false} BlankLength(rs: seq<Record>)
    requires forall r | r in rs :: r == BLANK
    ensures |EncodeRecords(rs, false)| == 30 * |rs|
    decreases |rs|
  {
    hide EncodeRecord;
    if rs != [] {
      BlankEncodes();
      assert rs[0] in rs && forall r | r in rs[1..] :: r in rs;
      BlankLength(rs[1..]);
    }
  }

  /** There is such a batch: 201 blank records. */
  lemma LargeBatchExists() returns (b: Sent, env: Env)
    ensures Sendable(b) && |b.records| > 200 && env.accepts(0) && !env.accepts(1)
  {
    hide EncodeRecords, Encodable;
    b := Sent(seq(201, _ => BLANK), false, true);
    env := Env(0, 0, n => n == 0, n => true, frame => index => 0, n => 0);
    BlankEncodes();
    BlankLength(b.records);
    WholePayload(b.records, false);
  }

  /**
   Whatever batches a device sends, in whichever codec: if no INSERT fails, exactly the records sent
   are stored, in order, and each batch is acknowledged with its own size.
   */
  lemma EndToEnd(batches: seq<Sent>, stream: seq<byte>, env: Env)
    requires forall b | b in batches :: Sendable(b)
    requires stream == WireAll(FramesFor(batches))
    requires forall i :: env.accepts(i)
    ensures var frames := FramesOf(Leftmost(stream).segments);
            (forall f | f in frames :: Legal(f)) &&
            var t := AfterFrames(frames, env);
            t.rows == RowsFor(Meant(batches, env.deviceId)) &&
            AckValues(t.written) == Sizes(batches) &&
            t.crcMismatches == t.parseErrors == t.batchErrors == t.unsupported == 0
    ensures Leftmost(stream).rest == [] && |Leftmost(stream).segments| == |batches|
    ensures Resyncs(Leftmost(stream).segments, false) == 0
  {
    hide Sendable, Leftmost, FramesOf, WireAll, AfterFrames, Meant, RowsFor, Legal, Sizes;
    FramesForLegal(batches);
    ParseWireAll(FramesFor(batches));
    AllFrames(Leftmost(stream).segments);
    BatchesStored(batches, env);
  }

  // ---------------------------------------------------------------------------
  // The device's own values

  /** The positions as the device holds them. */
  function Held(batches: seq<Sent>, deviceId: int): seq<Position> {
    if batches == [] then []
    else Held(batches[..|batches| - 1], deviceId) + ToPositions(deviceId, OwnAll(batches[|batches| - 1].records))
  }

  ghost predicate AllExact(batches: seq<Sent>) {
    forall b | b in batches :: forall r | r in b.records :: Exact(r)
  }

  ghost predicate AllTyped(batches: seq<Sent>) {
    forall b | b in batches :: forall r | r in b.records :: Typed(r)
  }

  ghost predicate SameTypes(ps: seq<Position>, qs: seq<Position>) {
    |ps| == |qs| && forall i | 0 <= i < |ps| :: TypedFields(ps[i]) == TypedFields(qs[i])
  }

  lemma {:induction false} RecordsHeld(rs: seq<Record>, deviceId: int)
    ensures (forall r | r in rs :: Exact(r)) ==> DenoteAll(rs) == OwnAll(rs)
    ensures (forall r | r in rs :: Typed(r)) ==>
              SameTypes(ToPositions(deviceId, DenoteAll(rs)), ToPositions(deviceId, OwnAll(rs)))
    decreases |rs|
  {
    hide Exact, Typed, Denote, Own, TypedFields, ToPosition;
    if rs != [] {
      RecordsHeld(rs[1..], deviceId);
      assert rs[0] in rs && forall r | r in rs[1..] :: r in rs;
      var ps, qs := ToPositions(deviceId, DenoteAll(rs)), ToPositions(deviceId, OwnAll(rs));
      assert ps == [ToPosition(deviceId, Denote(rs[0]))] + ToPositions(deviceId, DenoteAll(rs[1..]));
      assert qs == [ToPosition(deviceId, Own(rs[0]))] + ToPositions(deviceId, OwnAll(rs[1..]));
      if Exact(rs[0]) {
        DenoteIsOwn(rs[0]);
      }
      if Typed(rs[0]) {
        TypedFieldsAreOwn(deviceId, rs[0]);
      }
    }
  }

  /** What is meant is what the device holds: in full if its values fit, in every typed field if only temperatures are negative. */
  lemma {:induction false} MeantIsHeld(batches: seq<Sent>, deviceId: int)
    ensures AllExact(batches) ==> Meant(batches, deviceId) == Held(batches, deviceId)
    ensures AllTyped(batches) ==> SameTypes(Meant(batches, deviceId), Held(batches, deviceId))
    decreases |batches|
  {
    hide Exact, Typed, DenoteAll, OwnAll, ToPositions, SameTypes;
    if batches == [] {
      NoTypes();
    } else {
      var b, front := batches[|batches| - 1], batches[..|batches| - 1];
      assert b in batches && forall c | c in front :: c in batches;
      MeantIsHeld(front, deviceId);
      RecordsHeld(b.records, deviceId);
      if AllTyped(batches) {
        SameTypesConcat(
          Meant(front, deviceId), Held(front, deviceId),
          ToPositions(deviceId, DenoteAll(b.records)), ToPositions(deviceId, OwnAll(b.records)));
      }
    }
  }

  lemma SameTypesConcat(a: seq<Position>, b: seq<Position>, c: seq<Position>, d: seq<Position>)
    requires SameTypes(a, b) && SameTypes(c, d)
    ensures SameTypes(a + c, b + d)
  {
    hide TypedFields;
  }

  lemma NoTypes()
    ensures SameTypes([], [])
  {
  }

  // ---------------------------------------------------------------------------
  // The whole way, on the objects

  /**
   A connection that receives what a device sent, cut into any reads: the session's table, replies,
   counters and buffer.
   */
  method Deliver(batches: seq<Sent>, chunks: seq<seq<byte>>, env: Env) returns (s: Session)
    requires forall b | b in batches :: Sendable(b)
    requires Concat(chunks) == WireAll(FramesFor(batches))
    requires forall i :: env.accepts(i)
    ensures s.db.rows == RowsFor(Meant(batches, env.deviceId)) && AckValues(s.written) == Sizes(batches)
    ensures PositionsIn(s.db.rows) == Meant(batches, env.deviceId)
    ensures s.crcMismatches == s.parseErrors == s.batchErrors == s.unsupported == s.resyncs == 0
    ensures s.framer.buf == []
    ensures AllExact(batches) ==> PositionsIn(s.db.rows) == Held(batches, env.deviceId)
    ensures AllTyped(batches) ==> SameTypes(Meant(batches, env.deviceId), Held(batches, env.deviceId))
  {
    hide Sendable, Leftmost, FramesOf, FramesFor, WireAll, AfterFrames, Meant, Held, RowsFor, PositionsIn, Legal, Sizes, AckValues;
    hide Resyncs, AllExact, AllTyped, SameTypes;
    s := RunConnection(env, chunks);
    EndToEnd(batches, Concat(chunks), env);
    CleanIsNotSplit(chunks);
    MeantIsHeld(batches, env.deviceId);
    RowsRead(Meant(batches, env.deviceId));
  }

  /** The simulator's side: the frames of all batches, built one after the other. */
  method Transmit(batches: seq<Sent>) returns (stream: seq<byte>)
    requires forall b | b in batches :: Sendable(b)
    requires forall b | b in batches :: forall r | r in b.records :: Simulator.RecordBuilds(r, b.extended)
    ensures stream == WireAll(FramesFor(batches))
  {
    hide Sendable, Simulator.RecordBuilds, EncodePayload, Wire, WireAll;
    stream := [];
    NoWire();
    assert batches[..0] == [];
    for i := 0 to |batches|
      invariant forall b | b in batches[..i] :: Sendable(b)
      invariant stream == WireAll(FramesFor(batches[..i]))
    {
      var b := batches[i];
      assert b in batches && Sendable(b);
      var data := Simulator.BuildAvlPayload(b.records, b.extended);
      PayloadFits(b);
      var wire := Simulator.BuildFrame(data.value, b.checksum);
      stream := stream + wire.value;
      assert batches[..i + 1] == batches[..i] + [b];
      assert batches[..i + 1][..i] == batches[..i];
      WireAllSnoc(FramesFor(batches[..i]), FrameFor(b));
    }
    assert batches[..|batches|] == batches;
  }

  lemma NoWire()
    ensures WireAll([]) == []
  {
  }

  lemma PayloadFits(b: Sent)
    requires Sendable(b)
    ensures |EncodePayload(b.records, b.extended)| < Pow256(4)
  {
    hide EncodePayload, Encodable;
    Pow256Values();
  }

  lemma {:induction false} WireAllSnoc(frames: seq<Frame>, f: Frame)
    ensures WireAll(frames + [f]) == WireAll(frames) + Wire(f)
    decreases |frames|
  {
    hide Wire;
    if frames == [] {
      assert frames + [f] == [f];
      assert [f][1..] == [];
    } else {
      assert (frames + [f])[1..] == frames[1..] + [f];
      WireAllSnoc(frames[1..], f);
    }
  }

  /** A stream cut into reads of the given sizes, and one of the rest. */
  function Cut(stream: seq<byte>, sizes: seq<nat>): seq<seq<byte>>
    decreases |sizes|
  {
    if sizes == [] then [stream]
    else
      var n := if sizes[0] < |stream| then sizes[0] else |stream|;
      [stream[..n]] + Cut(stream[n..], sizes[1..])
  }

  lemma {:induction false} CutIsWhole(stream: seq<byte>, sizes: seq<nat>)
    ensures Concat(Cut(stream, sizes)) == stream
    decreases |sizes|
  {
    if sizes == [] {
      assert [stream][1..] == [];
    } else {
      var n := if sizes[0] < |stream| then sizes[0] else |stream|;
      var first, rest := stream[..n], Cut(stream[n..], sizes[1..]);
      CutIsWhole(stream[n..], sizes[1..]);
      hide Cut;
      assert ([first] + rest)[0] == first && ([first] + rest)[1..] == rest;
      assert Concat([first] + rest) == first + stream[n..];
      assert first + stream[n..] == stream;
    }
  }

  /** From the simulator's builders through the network to the table and back. */
  method Simulate(batches: seq<Sent>, sizes: seq<nat>, env: Env) returns (s: Session)
    requires forall b | b in batches :: Sendable(b)
    requires forall b | b in batches :: forall r | r in b.records :: Simulator.RecordBuilds(r, b.extended)
    requires forall i :: env.accepts(i)
    ensures s.db.rows == RowsFor(Meant(batches, env.deviceId)) && AckValues(s.written) == Sizes(batches)
    ensures PositionsIn(s.db.rows) == Meant(batches, env.deviceId)
    ensures s.crcMismatches == s.parseErrors == s.batchErrors == s.unsupported == s.resyncs == 0
    ensures s.framer.buf == []
    ensures AllExact(batches) ==> PositionsIn(s.db.rows) == Held(batches, env.deviceId)
    ensures AllTyped(batches) ==> SameTypes(Meant(batches, env.deviceId), Held(batches, env.deviceId))
  {
    hide *;
    var stream := Transmit(batches);
    CutIsWhole(stream, sizes);
    s := Deliver(batches, Cut(stream, sizes), env);
  }
}
