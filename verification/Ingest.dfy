/**
 One device connection of backend/cmd/rudra-ingest/main.go after the handshake: read, reassemble,
 decode, store, acknowledge. The stream may be cut anywhere and any INSERT may fail.
 */
module Ingest {
  import opened Options
  import opened Bytes
  import opened Framer
  import opened Framing
  import opened Avl
  import opened Storage
  import Codec12
  import Decoder

  /** Go's zero time, in milliseconds since the Unix epoch. */
  const ZERO_TIME := -62_135_596_800_000

  function Normalise(p: Position, now: int): Position {
    if p.gps.time == ZERO_TIME then p.(gps := p.gps.(time := now)) else p
  }

  /** Each zero time becomes the time at which the loop comes to it. */
  function NormaliseAll(ps: seq<Position>, clock: nat -> int): (r: seq<Position>)
    ensures |r| == |ps|
  {
    seq(|ps|, i requires 0 <= i < |ps| => Normalise(ps[i], clock(i)))
  }

  predicate ZeroCrc(f: Frame) {
    forall b | b in f.crc :: b == 0
  }

  // ---------------------------------------------------------------------------
  // What a sequence of frames does

  /** The vehicle's odometer and how many times an update of it was sent. */
  datatype Mileage = Mileage(value: int, updates: nat)

  /** A response that a command row was given: the id found in lastCommand, and the entries. */
  datatype Answer = Answer(id: int, entries: seq<seq<byte>>)

  /** Everything a connection has done so far: its counters, the tables, and the bytes written back. */
  datatype Tally = Tally(
    frames: nat, records: nat, crcMismatches: nat, unsupported: nat, parseErrors: nat, batchErrors: nat,
    stored: nat, statements: nat, rows: seq<Row>, written: seq<seq<byte>>, published: seq<Position>,
    odometer: Mileage, heartbeats: nat, responses: seq<seq<seq<byte>>>, answers: seq<Answer>)

  /**
   What the connection does not decide: the device, its vehicle's odometer at the start, the fate of
   every INSERT and of every odometer update, the time at which each position of each frame is looked
   at, and what lastCommand holds when each response comes in.
   */
  datatype Env = Env(
    deviceId: int, odometer: int, accepts: nat -> bool, updates: nat -> bool, clock: nat -> nat -> int, slot: nat -> int)

  function Start(env: Env): Tally {
    Tally(0, 0, 0, 0, 0, 0, 0, 0, [], [], [], Mileage(env.odometer, 0), 0, [], [])
  }

  /** The odometer after a position was published: never lower, and unchanged by a zero or a failed update. */
  function AfterPosition(o: Mileage, p: Position, updates: nat -> bool): Mileage {
    if p.odometer <= 0 then o
    else Mileage(if updates(o.updates) && p.odometer > o.value then p.odometer else o.value, o.updates + 1)
  }

  function AfterPositions(o: Mileage, ps: seq<Position>, updates: nat -> bool): Mileage {
    if ps == [] then o
    else AfterPosition(AfterPositions(o, ps[..|ps| - 1], updates), ps[|ps| - 1], updates)
  }

  /** The positions of a frame as they are stored. */
  function PositionsOf(payload: seq<byte>, env: Env, index: nat): (ps: seq<Position>)
    ensures |ps| == |ParsePayload(payload).records|
  {
    NormaliseAll(ToPositions(env.deviceId, ParsePayload(payload).records), env.clock(index))
  }

  /** The batch write of one frame's positions. */
  function AfterInsert(t: Tally, ps: seq<Position>, env: Env): Tally {
    var k := Accepted(|ps|, t.statements, env.accepts);
    t.(records := t.records + |ps|,
       batchErrors := t.batchErrors + if k < |ps| then 1 else 0,
       stored := t.stored + k,
       statements := t.statements + Statements(|ps|, t.statements, env.accepts),
       rows := t.rows + RowsFor(ps[..k]))
  }

  /** What follows when `k` of them were stored: all are published if any was, and `k` is acknowledged. */
  function AfterReply(t: Tally, ps: seq<Position>, k: nat, env: Env): Tally {
    t.(published := t.published + if k > 0 then ps else [],
       odometer := AfterPositions(t.odometer, if k > 0 then ps else [], env.updates),
       heartbeats := t.heartbeats + 1,
       written := t.written + [ToBE(k, 4)])
  }

  function AfterBatch(t: Tally, ps: seq<Position>, env: Env): Tally {
    AfterReply(AfterInsert(t, ps, env), ps, Accepted(|ps|, t.statements, env.accepts), env)
  }

  function AfterAvl(t: Tally, payload: seq<byte>, env: Env): Tally {
    if ParsePayload(payload).error.Some? then t.(parseErrors := t.parseErrors + 1)
    else AfterBatch(t, PositionsOf(payload, env, t.frames), env)
  }

  function AfterCommand(t: Tally, payload: seq<byte>, env: Env): Tally {
    var r := Codec12.ParseCommand(payload);
    if r.error.Some? || r.entries == [] then t
    else
      var id := env.slot(|t.responses|);
      t.(responses := t.responses + [r.entries],
         answers := t.answers + if id > 0 then [Answer(id, r.entries)] else [])
  }

  function AfterFrame(t: Tally, f: Frame, env: Env): Tally
    requires f.payload != []
  {
    var t1 := t.(frames := t.frames + 1,
                 crcMismatches := t.crcMismatches + if ZeroCrc(f) || CrcValid(f) then 0 else 1);
    var id := f.payload[0];
    if id == CODEC12 then AfterCommand(t1, f.payload, env)
    else if id == CODEC8 || id == CODEC8E then AfterAvl(t1, f.payload, env)
    else t1.(unsupported := t1.unsupported + 1)
  }

  function AfterFrames(frames: seq<Frame>, env: Env): Tally
    requires forall f | f in frames :: Legal(f)
    decreases |frames|
  {
    if frames == [] then Start(env)
    else
      assert Legal(frames[|frames| - 1]);
      AfterFrame(AfterFrames(frames[..|frames| - 1], env), frames[|frames| - 1], env)
  }

  // ---------------------------------------------------------------------------
  // The connection handler

  /** Replaces zero times before the batch write. */
  method NormaliseTimes(decoded: seq<Position>, clock: nat -> int) returns (positions: seq<Position>)
    ensures positions == NormaliseAll(decoded, clock)
  {
    positions := decoded;
    for i := 0 to |positions|
      invariant |positions| == |decoded|
      invariant forall j | 0 <= j < i :: positions[j] == Normalise(decoded[j], clock(j))
      invariant forall j | i <= j < |decoded| :: positions[j] == decoded[j]
    {
      if positions[i].gps.time == ZERO_TIME {
        positions := positions[i := positions[i].(gps := positions[i].gps.(time := clock(i)))];
      }
    }
  }

  class Session {
    const env: Env
    const framer: StreamFramer
    const db: Database

    var frames: nat
    var records: nat
    var crcMismatches: nat
    var resyncs: nat
    var unsupported: nat
    var parseErrors: nat
    var batchErrors: nat
    var positionsStored: nat
    var written: seq<seq<byte>>
    var published: seq<Position>
    var odometer: Mileage
    var heartbeats: nat
    var responses: seq<seq<seq<byte>>>
    var answers: seq<Answer>

    ghost function View(): Tally
      reads this, db
    {
      Tally(frames, records, crcMismatches, unsupported, parseErrors, batchErrors,
            positionsStored, db.statements, db.rows, written, published, odometer, heartbeats, responses, answers)
    }

    /** The session has done exactly what the frames emitted so far call for. */
    ghost predicate Valid()
      reads this, framer, db
    {
      framer.Valid() && db.accepts == env.accepts &&
      (forall f | f in FramesOf(framer.log) :: Legal(f)) &&
      View() == AfterFrames(FramesOf(framer.log), env)
    }

    constructor (env: Env)
      ensures Valid() && fresh(framer) && fresh(db) && this.env == env
      ensures framer.received == [] && framer.log == [] && framer.buf == [] && resyncs == 0
    {
      this.env := env;
      framer := new StreamFramer();
      db := new Database(env.accepts);
      frames, records, crcMismatches, resyncs, unsupported, parseErrors, batchErrors := 0, 0, 0, 0, 0, 0, 0;
      positionsStored, written, published, responses, answers := 0, [], [], [], [];
      odometer, heartbeats := Mileage(env.odometer, 0), 0;
    }

    /** Decodes, stores and acknowledges one AVL frame. */
    method HandleAVLFrame(payload: seq<byte>)
      requires db.accepts == env.accepts && frames > 0
      modifies this, db
      ensures View() == AfterAvl(old(View()), payload, env) && resyncs == old(resyncs)
    {
      hide ParsePayload, ToPositions, NormaliseAll, Normalise, AfterInsert, AfterReply, Accepted;
      var positions, error := Decoder.ParseFrame(payload, env.deviceId);
      if error.Some? {
        parseErrors := parseErrors + 1;
        return;
      }
      positions := NormaliseTimes(positions, env.clock(frames));
      var stored := StorePositions(positions);
      Reply(positions, stored);
    }

    /** The batch write and its counters. */
    method StorePositions(positions: seq<Position>) returns (stored: nat)
      requires db.accepts == env.accepts
      modifies this, db
      ensures stored == Accepted(|positions|, old(db.statements), env.accepts)
      ensures View() == AfterInsert(old(View()), positions, env) && resyncs == old(resyncs)
    {
      hide Accepted, Statements, RowsFor;
      var failed;
      stored, failed := db.InsertBatch(positions);
      if failed {
        batchErrors := batchErrors + 1;
      }
      records := records + |positions|;
      positionsStored := positionsStored + stored;
    }

    /** Live events, heartbeat and acknowledgement for what was stored. */
    method Reply(positions: seq<Position>, stored: nat)
      modifies this
      ensures View() == AfterReply(old(View()), positions, stored, env) && resyncs == old(resyncs)
    {
      hide ToBE, AfterPositions;
      NoPositions(odometer, env.updates);
      EmptyIsNeutral(published);
      if stored > 0 {
        PublishPositions(positions);
      }
      heartbeats := heartbeats + 1;
      written := written + [ToBE(stored, 4)];
    }

    /** An odometer update and a live event for every position of the frame. */
    method PublishPositions(positions: seq<Position>)
      modifies this`published, this`odometer
      ensures published == old(published) + positions
      ensures odometer == AfterPositions(old(odometer), positions, env.updates)
    {
      for i := 0 to |positions|
        invariant published == old(published) + positions[..i]
        invariant odometer == AfterPositions(old(odometer), positions[..i], env.updates)
      {
        assert positions[..i + 1][..i] == positions[..i];
        var reading := positions[i].odometer;
        if reading > 0 {
          var value := odometer.value;
          if env.updates(odometer.updates) && reading > value {
            value := reading;
          }
          odometer := Mileage(value, odometer.updates + 1);
        }
        published := published + [positions[i]];
      }
      assert positions[..|positions|] == positions;
    }

    method HandleCommandResponse(payload: seq<byte>)
      modifies this`responses, this`answers
      ensures View() == AfterCommand(old(View()), payload, env)
    {
      var responses', error := Codec12.ParseCommandPayload(payload);
      if error.Some? || |responses'| == 0 {
        return;
      }
      var commandId := env.slot(|responses|);
      responses := responses + [responses'];
      if commandId > 0 {
        answers := answers + [Answer(commandId, responses')];
      }
    }

    method HandleFrame(f: Frame)
      requires db.accepts == env.accepts && f.payload != []
      modifies this, db
      ensures View() == AfterFrame(old(View()), f, env) && resyncs == old(resyncs)
    {
      hide AfterAvl, AfterCommand, CrcValid;
      frames := frames + 1;
      if !ZeroCrc(f) && !CrcValid(f) {
        crcMismatches := crcMismatches + 1;
      }
      match f.payload[0] {
        case 0x0C => HandleCommandResponse(f.payload);
        case 0x08 | 0x8E => HandleAVLFrame(f.payload);
        case _ => unsupported := unsupported + 1;
      }
    }

    /** One socket read: append, then drain every complete frame. */
    method Receive(chunk: seq<byte>)
      requires Valid()
      modifies this, framer, db
      ensures Valid()
      ensures framer.received == old(framer.received) + chunk
      ensures framer.log == Leftmost(framer.received).segments && framer.buf == Leftmost(framer.received).rest
      ensures old(framer.log) <= framer.log
      ensures resyncs == old(resyncs) + Resyncs(framer.log[|old(framer.log)|..], false)
    {
      hide Leftmost, AfterFrame, AfterFrames, FramesOf, Coherent, Explains, Legal, Resyncs, EndsWhole;
      framer.Append(chunk);
      ghost var before := framer.log;
      NothingResynced(before);
      while true
        invariant Valid()
        invariant framer.received == old(framer.received) + chunk
        invariant before == old(framer.log) && before <= framer.log && EndsWhole(framer.log[|before|..])
        invariant resyncs == old(resyncs) + Resyncs(framer.log[|before|..], false)
        decreases |framer.buf|
      {
        ghost var log := framer.log;
        var frame, err := framer.Next();
        LogGrows(log, framer.log, frame, err);
        OneCall(before, log, framer.log, frame, err);
        if err.Some? {
          resyncs := resyncs + 1;
        }
        if frame.None? {
          return;
        }
        OneMoreFrame(FramesOf(log), frame.value, env);
        LegalIsNotEmpty(frame.value);
        HandleFrame(frame.value);
      }
    }
  }

  lemma NoPositions(o: Mileage, updates: nat -> bool)
    ensures AfterPositions(o, [], updates) == o
  {
  }

  // ---------------------------------------------------------------------------
  // Resynchronisations

  /**
   How many calls of `Next` report a resynchronisation while these segments are drained in one go:
   one for each maximal run of dropped bytes with a cause among them. `open` says that the run
   before the first segment has one already.
   */
  function Resyncs(segments: seq<Segment>, open: bool): nat {
    if segments == [] then (if open then 1 else 0)
    else
      match segments[0]
      case Junk(_, cause) => Resyncs(segments[1..], open || cause.Some?)
      case Whole(_) => (if open then 1 else 0) + Resyncs(segments[1..], false)
  }

  /** Nothing was dropped since the last frame. */
  predicate EndsWhole(segments: seq<Segment>) {
    segments == [] || segments[|segments| - 1].Whole?
  }

  lemma NothingResynced(log: seq<Segment>)
    ensures EndsWhole(log[|log|..]) && Resyncs(log[|log|..], false) == 0
  {
  }

  lemma {:induction false} ResyncsSplit(a: seq<Segment>, b: seq<Segment>, open: bool)
    requires a != [] && EndsWhole(a)
    ensures Resyncs(a + b, open) == Resyncs(a, open) + Resyncs(b, false)
    decreases |a|
  {
    assert (a + b)[1..] == a[1..] + b;
    if |a| == 1 {
      assert a[1..] + b == b;
    } else {
      ResyncsSplit(a[1..], b, if a[0].Whole? then false else open || a[0].cause.Some?);
    }
  }

  lemma {:induction false} ResyncsJunk(junk: seq<Segment>, tail: seq<Segment>, open: bool)
    requires AllJunk(junk) && (tail == [] || tail[0].Whole?)
    ensures Resyncs(junk + tail, open) == Resyncs(tail, open || LastCause(junk).Some?)
    decreases |junk|
  {
    if junk == [] {
      assert junk + tail == tail;
    } else {
      assert junk[0] in junk && AllJunk(junk[1..]);
      assert (junk + tail)[1..] == junk[1..] + tail;
      ResyncsJunk(junk[1..], tail, open || junk[0].cause.Some?);
      CauseAtFront(junk);
    }
  }

  lemma {:induction false} CauseAtFront(junk: seq<Segment>)
    requires junk != [] && AllJunk(junk) && AllJunk(junk[1..])
    ensures LastCause(junk).Some? <==> junk[0].cause.Some? || LastCause(junk[1..]).Some?
    decreases |junk|
  {
    if |junk| > 1 {
      var n := |junk| - 1;
      assert junk[..n][1..] == junk[1..][..n - 1];
      CauseAtFront(junk[..n]);
    }
  }

  /** One call of `Next` adds its frame and counts once if it reports a cause. */
  lemma OneCall(before: seq<Segment>, base: seq<Segment>, log: seq<Segment>, frame: Option<Frame>, err: Option<Resync>)
    requires before <= base && EndsWhole(base[|before|..]) && Explains(base, log, frame, err)
    ensures before <= log && (frame.Some? ==> EndsWhole(log[|before|..]))
    ensures Resyncs(log[|before|..], false) == Resyncs(base[|before|..], false) + if err.Some? then 1 else 0
  {
    hide Resyncs;
    var junk :| AllJunk(junk) && err == LastCause(junk) &&
      log == base + junk + match frame case Some(f) => [Whole(f)] case None => [];
    var done := base[|before|..];
    var tail := match frame case Some(f) => [Whole(f)] case None => [];
    assert log[|before|..] == done + (junk + tail);
    if done == [] {
      assert done + (junk + tail) == junk + tail;
    } else {
      ResyncsSplit(done, junk + tail, false);
    }
    ResyncsJunk(junk, tail, false);
    ResyncsOfOne(tail, err.Some?);
    NothingResynced(log);
    assert log[|log|..] == [];
  }

  lemma ResyncsOfOne(tail: seq<Segment>, open: bool)
    requires |tail| <= 1 && (tail == [] || tail[0].Whole?)
    ensures Resyncs(tail, open) == if open then 1 else 0
  {
    if tail != [] {
      assert tail[1..] == [];
    }
  }

  /** A cause was met since the last frame. */
  predicate OpenAtEnd(a: seq<Segment>, open: bool) {
    if a == [] then open else OpenAtEnd(a[1..], a[0].Junk? && (open || a[0].cause.Some?))
  }

  /** A cause is met before the first frame. */
  predicate OpenAtStart(b: seq<Segment>) {
    b != [] && b[0].Junk? && (b[0].cause.Some? || OpenAtStart(b[1..]))
  }

  /** A read boundary makes a difference exactly inside a run of dropped bytes with a cause on both sides: it counts twice. */
  lemma {:induction false} ResyncsCut(a: seq<Segment>, b: seq<Segment>, open: bool)
    ensures Resyncs(a, open) + Resyncs(b, false) ==
            Resyncs(a + b, open) + if OpenAtEnd(a, open) && OpenAtStart(b) then 1 else 0
    ensures Resyncs(a + b, open) == 0 ==> Resyncs(a, open) + Resyncs(b, false) == 0
    decreases |a|
  {
    if a == [] {
      assert a + b == b;
      ResyncsOpen(b);
    } else {
      assert (a + b)[1..] == a[1..] + b;
      ResyncsCut(a[1..], b, a[0].Junk? && (open || a[0].cause.Some?));
    }
  }

  lemma {:induction false} ResyncsOpen(b: seq<Segment>)
    ensures Resyncs(b, true) == Resyncs(b, false) + if OpenAtStart(b) then 0 else 1
    ensures Resyncs(b, true) > 0
    decreases |b|
  {
    if b != [] && b[0].Junk? {
      ResyncsOpen(b[1..]);
    }
  }

  /** Segments that are all frames involve no resynchronisation. */
  lemma {:induction false} AllFrames(segments: seq<Segment>)
    ensures |FramesOf(segments)| <= |segments|
    ensures |FramesOf(segments)| == |segments| ==> Resyncs(segments, false) == 0
    decreases |segments|
  {
    if segments != [] {
      AllFrames(segments[1..]);
    }
  }

  lemma LegalIsNotEmpty(f: Frame)
    requires Legal(f)
    ensures f.payload != []
  {
  }

  /** A call of `Next` adds its frame, and nothing else, to the frames of the log. */
  lemma LogGrows(base: seq<Segment>, log: seq<Segment>, frame: Option<Frame>, err: Option<Resync>)
    requires Explains(base, log, frame, err)
    ensures FramesOf(log) == if frame.Some? then FramesOf(base) + [frame.value] else FramesOf(base)
  {
    var junk :| AllJunk(junk) && err == LastCause(junk) &&
      log == base + junk + match frame case Some(f) => [Whole(f)] case None => [];
    FramesOfJunk(junk);
    FramesOfConcat(base, junk);
    if frame.Some? {
      FramesOfConcat(base + junk, [Whole(frame.value)]);
      assert FramesOf([Whole(frame.value)]) == [frame.value];
    } else {
      assert base + junk + [] == base + junk;
    }
  }

  lemma OneMoreFrame(frames: seq<Frame>, f: Frame, env: Env)
    requires Legal(f) && forall g | g in frames :: Legal(g)
    ensures forall g | g in frames + [f] :: Legal(g)
    ensures f.payload != [] && AfterFrames(frames + [f], env) == AfterFrame(AfterFrames(frames, env), f, env)
  {
    hide AfterFrame;
    assert (frames + [f])[..|frames|] == frames;
  }

  /** The segments that a read adds to those of the reads before it. */
  function Added(before: seq<seq<byte>>, read: seq<byte>): seq<Segment> {
    Leftmost(Leftmost(Concat(before)).rest + read).segments
  }

  /** How many reads begin inside a run of dropped bytes with a cause on both sides. */
  function Split(chunks: seq<seq<byte>>): nat {
    if chunks == [] then 0
    else
      var before, read := chunks[..|chunks| - 1], chunks[|chunks| - 1];
      Split(before) +
      if OpenAtEnd(Leftmost(Concat(before)).segments, false) && OpenAtStart(Added(before, read)) then 1 else 0
  }

  lemma AddedSegments(before: seq<seq<byte>>, read: seq<byte>)
    ensures Leftmost(Concat(before) + read).segments == Leftmost(Concat(before)).segments + Added(before, read)
    ensures read == [] ==> Added(before, read) == [] && !OpenAtStart(Added(before, read))
    ensures read == [] ==> Concat(before) + read == Concat(before)
  {
    hide Leftmost, Concat;
    ParseInPieces(Concat(before), read);
    if read == [] {
      assert Concat(before) + [] == Concat(before);
    }
  }

  /** Where nothing is dropped for a cause, no read can begin inside such a run. */
  lemma {:induction false} CleanIsNotSplit(chunks: seq<seq<byte>>)
    requires Resyncs(Leftmost(Concat(chunks)).segments, false) == 0
    ensures Split(chunks) == 0
    decreases |chunks|
  {
    hide Leftmost, Resyncs, OpenAtEnd, OpenAtStart, Concat, Added;
    if chunks != [] {
      var before, read := chunks[..|chunks| - 1], chunks[|chunks| - 1];
      assert chunks == before + [read];
      ConcatSnoc(before, read);
      AddedSegments(before, read);
      ResyncsCut(Leftmost(Concat(before)).segments, Added(before, read), false);
      CleanIsNotSplit(before);
    }
  }

  /** A whole connection, read by read: it depends on the stream, not on how the reads cut it. */
  method RunConnection(env: Env, chunks: seq<seq<byte>>) returns (s: Session)
    ensures fresh(s) && s.Valid() && s.env == env
    ensures s.framer.received == Concat(chunks)
    ensures (forall f | f in FramesOf(Leftmost(Concat(chunks)).segments) :: Legal(f)) &&
            s.View() == AfterFrames(FramesOf(Leftmost(Concat(chunks)).segments), env)
    ensures s.framer.buf == Leftmost(Concat(chunks)).rest
    ensures s.resyncs == Resyncs(Leftmost(Concat(chunks)).segments, false) + Split(chunks)
  {
    hide Leftmost, AfterFrames, FramesOf, Legal, Coherent, Resyncs, OpenAtEnd, OpenAtStart;
    s := new Session(env);
    BeforeFirstRead();
    assert chunks[..0] == [];
    for i := 0 to |chunks|
      invariant s.Valid() && s.env == env && fresh(s) && fresh(s.framer) && fresh(s.db)
      invariant s.framer.received == Concat(chunks[..i])
      invariant s.framer.log == Leftmost(s.framer.received).segments
      invariant s.framer.buf == Leftmost(s.framer.received).rest
      invariant s.resyncs == Resyncs(s.framer.log, false) + Split(chunks[..i])
    {
      ghost var log, added := s.framer.log, Added(chunks[..i], chunks[i]);
      AddedSegments(chunks[..i], chunks[i]);
      ConcatSnoc(chunks[..i], chunks[i]);
      assert chunks[..i + 1] == chunks[..i] + [chunks[i]];
      assert chunks[..i + 1][..i] == chunks[..i];
      if chunks[i] != [] {
        s.Receive(chunks[i]);
        assert s.framer.log == log + added && s.framer.log[|log|..] == added;
        ResyncsCut(log, added, false);
      }
    }
    assert chunks[..|chunks|] == chunks;
  }

  lemma BeforeFirstRead()
    ensures Leftmost([]) == Parse([], []) && Concat([]) == [] && Resyncs([], false) == 0 && Split([]) == 0
  {
    ShortIsMore([]);
  }

  lemma {:induction false} ConcatSnoc(chunks: seq<seq<byte>>, last: seq<byte>)
    ensures Concat(chunks + [last]) == Concat(chunks) + last
    decreases |chunks|
  {
    if chunks == [] {
      assert chunks + [last] == [last];
      assert Concat([last][1..]) == [];
    } else {
      assert (chunks + [last])[1..] == chunks[1..] + [last];
      ConcatSnoc(chunks[1..], last);
    }
  }

  // ---------------------------------------------------------------------------
  // A stream whose count depends on the cut

  /** At least eight zeros are a preamble with length zero: one byte is dropped, for that cause. */
  lemma ZerosDrop(k: nat)
    requires k >= 8
    ensures Leftmost(Zeros(k)) ==
            Parse([Junk(0, Some(InvalidLength(0)))] + Leftmost(Zeros(k - 1)).segments, Leftmost(Zeros(k - 1)).rest)
  {
    hide Leftmost, Judge;
    var z := Zeros(k);
    PreambleHere(z);
    FromOctets(z[4..8]);
    assert z[1..] == Zeros(k - 1);
    LeftmostDrop(z);
  }

  lemma SevenZerosWait()
    ensures Leftmost(Zeros(7)) == Parse([], Zeros(7))
  {
    hide Leftmost, Judge;
    PreambleHere(Zeros(7));
    LeftmostMore(Zeros(7));
  }

  /** Nine zero bytes count once in one read, and twice in two reads of eight and one. */
  lemma CutCountsTwice()
    ensures var whole, cut := [Zeros(9)], [Zeros(8), Zeros(1)];
            Concat(whole) == Concat(cut) &&
            Resyncs(Leftmost(Concat(whole)).segments, false) + Split(whole) == 1 &&
            Resyncs(Leftmost(Concat(cut)).segments, false) + Split(cut) == 2
  {
    hide Leftmost;
    var junk := Junk(0, Some(InvalidLength(0)));
    var whole, cut, first := [Zeros(9)], [Zeros(8), Zeros(1)], [Zeros(8)];
    SevenZerosWait();
    ZerosDrop(8);
    ZerosDrop(9);
    BeforeFirstRead();
    assert whole[1..] == [] && first[1..] == [] && cut[1..] == [Zeros(1)];
    assert Concat(first) == Zeros(8) && Concat([Zeros(1)]) == Zeros(1) by { assert [Zeros(1)][1..] == []; }
    assert Zeros(8) + Zeros(1) == Zeros(9);
    assert Zeros(7) + Zeros(1) == Zeros(8);
    assert whole[..0] == [] && first[..0] == [] && cut[..1] == first;
    OneCause(junk, [junk]);
    OneCause(junk, []);
  }

  lemma OneCause(junk: Segment, more: seq<Segment>)
    requires junk.Junk? && junk.cause.Some? && (more == [] || more == [junk])
    ensures Resyncs([junk] + more, false) == 1 && OpenAtEnd([junk], false) && OpenAtStart([junk] + more)
  {
    assert ([junk] + more)[1..] == more;
    assert [junk][1..] == [];
    assert Resyncs(more, true) == 1;
  }
}
