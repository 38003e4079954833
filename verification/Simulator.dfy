/**
 The device simulator's builders, backend/scripts/simulate_device.js, as they fill their buffers.
 Node's write methods throw on a value outside their range, unless the simulator masks it first;
 a thrown error is `None`, and what can be built is stated exactly.
 */
module Simulator {
  import opened Options
  import opened Bytes
  import opened Buffers
  import opened Framing
  import opened Avl
  import opened AvlRoundTrip
  import Crc

  // ---------------------------------------------------------------------------
  // What can be built

  /** One- and four-byte values and unsigned two-byte values are masked; the others must be in range. */
  predicate ValueBuilds(e: Element, width: nat) {
    (width == 2 && e.signed ==> -0x8000 <= e.value < 0x8000) &&
    (width == 8 ==> 0 <= e.value < Pow256(8))
  }

  predicate ElementBuilds(e: Element, extended: bool, width: nat) {
    e.id < Pow256(IdSize(extended)) && ValueBuilds(e, width)
  }

  /** The one-byte count of Codec 8 is truncated, the two-byte count of Codec 8 Extended must fit. */
  predicate GroupBuilds(es: seq<Element>, extended: bool, width: nat) {
    (extended ==> |es| < Pow256(2)) && forall e | e in es :: ElementBuilds(e, extended, width)
  }

  predicate XBuilds(x: XElement) {
    x.id < Pow256(2) && |x.data| < Pow256(2)
  }

  predicate XGroupBuilds(xs: seq<XElement>) {
    |xs| < Pow256(2) && forall x | x in xs :: XBuilds(x)
  }

  /** Altitude, angle and speed are masked. */
  predicate GpsBuilds(g: Gps) {
    -128 * Pow256(7) <= g.time < 128 * Pow256(7) &&
    -128 * Pow256(3) <= g.lng < 128 * Pow256(3) && -128 * Pow256(3) <= g.lat < 128 * Pow256(3) &&
    g.satellites < Pow256(1)
  }

  predicate GroupsBuild(r: Record, extended: bool) {
    GroupBuilds(r.one, extended, 1) && GroupBuilds(r.two, extended, 2) &&
    GroupBuilds(r.four, extended, 4) && GroupBuilds(r.eight, extended, 8) &&
    (extended ==> XGroupBuilds(r.xs))
  }

  predicate RecordBuilds(r: Record, extended: bool) {
    GpsBuilds(r.gps) && GroupsBuild(r, extended) && ElementCount(r, extended) < Pow256(IdSize(extended))
  }

  /** A record the simulator can build has only masked fields left that could miss their range. */
  lemma BuiltIsEncodable(r: Record, extended: bool)
    requires RecordBuilds(r, extended)
    ensures Encodable(r, extended) <==>
            r.gps.altitude < Pow256(2) && r.gps.heading < Pow256(2) && r.gps.speed < Pow256(2) && (!extended ==> r.xs == [])
  {
    hide ValueBuilds;
    GroupsOneByOne(r, extended);
    Pow256Values();
    if !extended && r.xs == [] {
      assert XsFit(r.xs);
    }
    forall es | es in r.Groups()
      ensures ElementsFit(es, extended)
    {
      assert forall e | e in es :: e.id < Pow256(IdSize(extended));
    }
  }

  // ---------------------------------------------------------------------------
  // Building

  lemma {:induction false} EncodeElementsSnoc(es: seq<Element>, e: Element, extended: bool, width: nat)
    ensures EncodeElements(es + [e], extended, width) ==
            EncodeElements(es, extended, width) + EncodeElement(e, extended, width)
    decreases |es|
  {
    hide EncodeElement;
    if es == [] {
      assert es + [e] == [e];
      assert [e][1..] == [];
    } else {
      assert (es + [e])[1..] == es[1..] + [e];
      EncodeElementsSnoc(es[1..], e, extended, width);
    }
  }

  lemma {:induction false} EncodeXsSnoc(xs: seq<XElement>, x: XElement)
    ensures EncodeXs(xs + [x]) == EncodeXs(xs) + EncodeX(x)
    decreases |xs|
  {
    hide EncodeX;
    if xs == [] {
      assert xs + [x] == [x];
      assert [x][1..] == [];
    } else {
      assert (xs + [x])[1..] == xs[1..] + [x];
      EncodeXsSnoc(xs[1..], x);
    }
  }

  /** One element: its id, then its value. */
  method IoElement(e: Element, extended: bool, width: nat) returns (part: Option<seq<byte>>)
    requires width in WIDTHS
    ensures part.Some? <==> ElementBuilds(e, extended, width)
    ensures part.Some? ==> part.value == EncodeElement(e, extended, width)
  {
    hide ToBE, ElementBuilds, Unsigned;
    ElementRanges(e, extended, width);
    if e.id > (if extended then 0xFFFF else 0xFF) {
      return None;
    }
    if width == 2 && e.signed && (e.value < -32768 || e.value > 32767) {
      return None;
    }
    if width == 8 && (e.value < 0 || e.value > 0xFFFF_FFFF_FFFF_FFFF) {
      return None;
    }
    var n := IdSize(extended);
    var b := new byte[n + width](_ => 0);
    PutBE(b, 0, e.id, n);
    PutBE(b, n, Unsigned(e.value, width), width);
    assert b[..] == EncodeElement(e, extended, width);
    part := Some(b[..]);
  }

  /** One group of fixed-width elements, in either codec. */
  method IoGroup(elems: seq<Element>, extended: bool, width: nat) returns (group: Option<seq<byte>>)
    requires width in WIDTHS
    ensures group.Some? <==> GroupBuilds(elems, extended, width)
    ensures group.Some? ==> group.value == EncodeGroup(elems, extended, width)
  {
    hide EncodeElements, EncodeElement, ToBE, ElementBuilds;
    Pow256Values();
    if extended && |elems| > 0xFFFF {
      return None;
    }
    var parts := ToBE(|elems|, IdSize(extended));
    EmptyElements(extended, width);
    assert elems[..0] == [];
    for i := 0 to |elems|
      invariant parts == ToBE(|elems|, IdSize(extended)) + EncodeElements(elems[..i], extended, width)
      invariant forall e | e in elems[..i] :: ElementBuilds(e, extended, width)
    {
      var e := elems[i];
      assert e in elems;
      var b := IoElement(e, extended, width);
      if b.None? {
        return None;
      }
      EncodeElementsSnoc(elems[..i], e, extended, width);
      assert elems[..i + 1] == elems[..i] + [e];
      parts := parts + b.value;
    }
    assert elems[..|elems|] == elems;
    group := Some(parts);
  }

  /** The ranges in which Node's write methods do not throw. */
  lemma ElementRanges(e: Element, extended: bool, width: nat)
    ensures ElementBuilds(e, extended, width) <==>
            e.id <= (if extended then 0xFFFF else 0xFF) && (width == 2 && e.signed ==> -32768 <= e.value <= 32767) &&
            (width == 8 ==> 0 <= e.value <= 0xFFFF_FFFF_FFFF_FFFF)
  {
    Pow256Values();
  }

  lemma EmptyElements(extended: bool, width: nat)
    ensures EncodeElements([], extended, width) == []
  {
  }

  /** The variable-length group of Codec 8 Extended. */
  method IoGroupX8e(elems: seq<XElement>) returns (group: Option<seq<byte>>)
    ensures group.Some? <==> XGroupBuilds(elems)
    ensures group.Some? ==> group.value == ToBE(|elems|, 2) + EncodeXs(elems)
  {
    hide EncodeXs, ToBE, XBuilds;
    Pow256Values();
    if |elems| > 0xFFFF {
      return None;
    }
    var parts := ToBE(|elems|, 2);
    EmptyXs();
    assert elems[..0] == [];
    for i := 0 to |elems|
      invariant parts == ToBE(|elems|, 2) + EncodeXs(elems[..i])
      invariant forall x | x in elems[..i] :: XBuilds(x)
    {
      var x := elems[i];
      assert x in elems;
      XRanges(x);
      if x.id > 0xFFFF || |x.data| > 0xFFFF {
        return None;
      }
      var b := new byte[4 + |x.data|](_ => 0);
      PutBE(b, 0, x.id, 2);
      PutBE(b, 2, |x.data|, 2);
      PutBytes(b, 4, x.data);
      assert b[..] == EncodeX(x);
      EncodeXsSnoc(elems[..i], x);
      assert elems[..i + 1] == elems[..i] + [x];
      parts := parts + b[..];
    }
    assert elems[..|elems|] == elems;
    group := Some(parts);
  }

  lemma XRanges(x: XElement)
    ensures XBuilds(x) <==> x.id <= 0xFFFF && |x.data| <= 0xFFFF
  {
    Pow256Values();
  }

  lemma EmptyXs()
    ensures EncodeXs([]) == []
  {
  }

  /** The fixed part of a record, written field by field at its offsets. */
  method BuildGpsPart(g: Gps, priority: byte) returns (part: Option<seq<byte>>)
    ensures part.Some? <==> GpsBuilds(g)
    ensures part.Some? ==> part.value == EncodeGps(g, priority)
  {
    GpsRanges(g);
    hide ToBE, Unsigned, Pow256, GpsBuilds;
    if g.time < -0x8000_0000_0000_0000 || g.time > 0x7FFF_FFFF_FFFF_FFFF || g.lng < -0x8000_0000 || g.lng > 0x7FFF_FFFF ||
       g.lat < -0x8000_0000 || g.lat > 0x7FFF_FFFF || g.satellites > 0xFF {
      return None;
    }
    var b := new byte[24](_ => 0);
    PutBE(b, 0, Unsigned(g.time, 8), 8);
    b[8] := priority;
    ghost var s := ToBE(Unsigned(g.time, 8), 8) + [priority];
    assert b[..9] == s;
    PutBE(b, 9, Unsigned(g.lng, 4), 4);
    s := s + ToBE(Unsigned(g.lng, 4), 4);
    assert b[..13] == s;
    PutBE(b, 13, Unsigned(g.lat, 4), 4);
    s := s + ToBE(Unsigned(g.lat, 4), 4);
    assert b[..17] == s;
    PutBE(b, 17, g.altitude, 2);
    s := s + ToBE(g.altitude, 2);
    assert b[..19] == s;
    PutBE(b, 19, g.heading, 2);
    s := s + ToBE(g.heading, 2);
    assert b[..21] == s;
    PutBE(b, 21, g.satellites, 1);
    s := s + ToBE(g.satellites, 1);
    assert b[..22] == s;
    PutBE(b, 22, g.speed, 2);
    s := s + ToBE(g.speed, 2);
    assert b[..24] == s;
    assert b[..] == b[..24];
    part := Some(b[..]);
  }

  lemma GpsRanges(g: Gps)
    ensures GpsBuilds(g) <==>
            -0x8000_0000_0000_0000 <= g.time <= 0x7FFF_FFFF_FFFF_FFFF && -0x8000_0000 <= g.lng <= 0x7FFF_FFFF &&
            -0x8000_0000 <= g.lat <= 0x7FFF_FFFF && g.satellites <= 0xFF
  {
    Pow256Values();
  }

  /** One record in the selected codec. */
  method BuildRecord(r: Record, extended: bool) returns (s: Option<seq<byte>>)
    ensures s.Some? <==> RecordBuilds(r, extended)
    ensures s.Some? ==> s.value == EncodeRecord(r, extended)
  {
    hide EncodeGroup, EncodeXs, EncodeGps, ToBE, GroupBuilds, XGroupBuilds, GpsBuilds, Pow256;
    GroupsOneByOne(r, extended);
    var gps := BuildGpsPart(r.gps, r.priority);
    if gps.None? {
      return None;
    }
    var groups := BuildGroups(r, extended);
    if groups.None? {
      return None;
    }
    var total := |r.one| + |r.two| + |r.four| + |r.eight| + if extended then |r.xs| else 0;
    Pow256Values();
    if total > (if extended then 0xFFFF else 0xFF) {
      return None;
    }
    var tail := [0] + ToBE(total, IdSize(extended));
    s := Some(gps.value + tail + groups.value);
  }

  /** The groups of a record, one after the other. */
  method BuildGroups(r: Record, extended: bool) returns (s: Option<seq<byte>>)
    ensures s.Some? <==> GroupsBuild(r, extended)
    ensures s.Some? ==> s.value == EncodeGroups(r.Groups(), WIDTHS, r.xs, extended)
  {
    hide EncodeGroup, EncodeXs, EncodeGps, ToBE, GroupBuilds, XGroupBuilds;
    GroupsOneByOne(r, extended);
    var one := IoGroup(r.one, extended, 1);
    var two := IoGroup(r.two, extended, 2);
    var four := IoGroup(r.four, extended, 4);
    var eight := IoGroup(r.eight, extended, 8);
    var xs := Some([]);
    if extended {
      xs := IoGroupX8e(r.xs);
    }
    if one.None? || two.None? || four.None? || eight.None? || xs.None? {
      return None;
    }
    s := Some(one.value + two.value + four.value + eight.value + xs.value);
  }

  lemma GroupsOneByOne(r: Record, extended: bool)
    ensures TotalIO(r.Groups()) == |r.one| + |r.two| + |r.four| + |r.eight|
    ensures EncodeGroups(r.Groups(), WIDTHS, r.xs, extended) ==
            EncodeGroup(r.one, extended, 1) + EncodeGroup(r.two, extended, 2) + EncodeGroup(r.four, extended, 4) +
            EncodeGroup(r.eight, extended, 8) + if extended then ToBE(|r.xs|, 2) + EncodeXs(r.xs) else []
  {
    hide EncodeGroup, EncodeXs, ToBE;
    var g1, g2, g3 := [r.two, r.four, r.eight], [r.four, r.eight], [r.eight];
    var w1, w2, w3: seq<nat> := [2, 4, 8], [4, 8], [8];
    assert r.Groups()[1..] == g1 && g1[1..] == g2 && g2[1..] == g3 && g3[1..] == [];
    assert WIDTHS[1..] == w1 && w1[1..] == w2 && w2[1..] == w3 && w3[1..] == [];
    assert TotalIO(g3) == |r.eight| + TotalIO([]);
    assert TotalIO(g2) == |r.four| + TotalIO(g3);
    assert TotalIO(g1) == |r.two| + TotalIO(g2);
    var xs := EncodeGroups([], [], r.xs, extended);
    assert EncodeGroups(g3, w3, r.xs, extended) == EncodeGroup(r.eight, extended, 8) + xs;
    assert EncodeGroups(g2, w2, r.xs, extended) ==
           EncodeGroup(r.four, extended, 4) + EncodeGroups(g3, w3, r.xs, extended);
    assert EncodeGroups(g1, w1, r.xs, extended) ==
           EncodeGroup(r.two, extended, 2) + EncodeGroups(g2, w2, r.xs, extended);
  }

  /** The payload of a frame: codec id, count, the encoded records, count; the count is truncated to a byte. */
  method BuildAvlPayload(records: seq<Record>, extended: bool) returns (data: Option<seq<byte>>)
    ensures data.Some? <==> forall r | r in records :: RecordBuilds(r, extended)
    ensures data.Some? ==> data.value == EncodePayload(records, extended)
  {
    hide EncodeRecord, EncodeRecords, RecordBuilds;
    var encoded: seq<byte> := [];
    NoRecords(extended);
    assert records[..0] == [];
    for i := 0 to |records|
      invariant encoded == EncodeRecords(records[..i], extended)
      invariant forall r | r in records[..i] :: RecordBuilds(r, extended)
    {
      var one := BuildRecord(records[i], extended);
      if one.None? {
        assert records[i] in records;
        return None;
      }
      EncodeRecordsSnoc(records[..i], records[i], extended);
      assert records[..i + 1] == records[..i] + [records[i]];
      encoded := encoded + one.value;
    }
    assert records[..|records|] == records;
    var count := |records| % 256;
    data := Some([if extended then CODEC8E else CODEC8] + [count] + encoded + [count]);
  }

  /** Preamble, length, data and checksum, which may be switched off. */
  method BuildFrame(data: seq<byte>, checksum: bool) returns (wire: Option<seq<byte>>)
    ensures wire.Some? <==> |data| < Pow256(4)
    ensures wire.Some? ==> wire.value == Wire(Frame(data, FieldFor(data, checksum)))
  {
    hide ToBE, Crc.Crc16;
    Pow256Values();
    if |data| > 0xFFFF_FFFF {
      return None;
    }
    var header := new byte[8](_ => 0);
    PutBE(header, 0, 0, 4);
    PutBE(header, 4, |data|, 4);
    assert header[..] == ToBE(0, 4) + ToBE(|data|, 4);
    ZeroPreamble();
    var crc := new byte[4](_ => 0);
    assert crc[..] == [0, 0, 0, 0];
    if checksum {
      var c := Crc.ComputeCrc16(data);
      crc[0] := Crc.Low(c);
      crc[1] := Crc.High(c);
      assert crc[..] == [Crc.Low(c), Crc.High(c), 0, 0];
    }
    wire := Some(header[..] + data + crc[..]);
  }

  function FieldFor(data: seq<byte>, checksum: bool): (field: seq<byte>)
    ensures |field| == 4
  {
    if checksum then CrcField(data) else [0, 0, 0, 0]
  }

  lemma NoRecords(extended: bool)
    ensures EncodeRecords([], extended) == []
  {
  }

  lemma EncodeRecordsSnoc(rs: seq<Record>, r: Record, extended: bool)
    ensures EncodeRecords(rs + [r], extended) == EncodeRecords(rs, extended) + EncodeRecord(r, extended)
  {
    hide EncodeRecord;
    EncodeRecordsConcat(rs, [r], extended);
    assert [r][1..] == [];
    EmptyIsNeutral(EncodeRecord(r, extended));
  }
}
