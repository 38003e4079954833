/**
 The encoder side (backend/scripts/simulate_device.js, for arbitrary element lists) and the
 proof that the decoder inverts it in both codecs.
 */
module AvlRoundTrip {
  import opened Options
  import opened Bytes
  import opened Framing
  import opened Avl

  /** An element; the simulator marks those it writes as signed 16-bit numbers. */
  datatype Element = Element(id: nat, value: int, signed: bool)

  datatype XElement = XElement(id: nat, data: seq<byte>)

  /** A record as the device holds it, with its elements of 1, 2, 4 and 8 bytes and its X entries. */
  datatype Record = Record(
    gps: Gps, priority: byte,
    one: seq<Element>, two: seq<Element>, four: seq<Element>, eight: seq<Element>,
    xs: seq<XElement>)
  {
    function Groups(): (gs: seq<seq<Element>>)
      ensures |gs| == |WIDTHS|
    {
      [one, two, four, eight]
    }
  }

  // ---------------------------------------------------------------------------
  // Encoding

  function EncodeElement(e: Element, extended: bool, width: nat): seq<byte> {
    ToBE(e.id, IdSize(extended)) + ToBE(Unsigned(e.value, width), width)
  }

  function EncodeElements(es: seq<Element>, extended: bool, width: nat): seq<byte> {
    if es == [] then [] else EncodeElement(es[0], extended, width) + EncodeElements(es[1..], extended, width)
  }

  function EncodeGroup(es: seq<Element>, extended: bool, width: nat): seq<byte> {
    ToBE(|es|, IdSize(extended)) + EncodeElements(es, extended, width)
  }

  function EncodeX(x: XElement): seq<byte> {
    ToBE(x.id, 2) + ToBE(|x.data|, 2) + x.data
  }

  function EncodeXs(xs: seq<XElement>): seq<byte> {
    if xs == [] then [] else EncodeX(xs[0]) + EncodeXs(xs[1..])
  }

  /** The groups in wire order; in Codec 8 Extended the X group closes them. */
  function EncodeGroups(groups: seq<seq<Element>>, widths: seq<nat>, xs: seq<XElement>, extended: bool): seq<byte>
    requires |groups| == |widths|
  {
    if groups != [] then EncodeGroup(groups[0], extended, widths[0]) + EncodeGroups(groups[1..], widths[1..], xs, extended)
    else if extended then ToBE(|xs|, 2) + EncodeXs(xs)
    else []
  }

  function TotalIO(groups: seq<seq<Element>>): nat {
    if groups == [] then 0 else |groups[0]| + TotalIO(groups[1..])
  }

  /** The total count of a record's header; Codec 8 has no X entries. */
  function ElementCount(r: Record, extended: bool): nat {
    TotalIO(r.Groups()) + if extended then |r.xs| else 0
  }

  function EncodeGps(g: Gps, priority: byte): (s: seq<byte>)
    ensures |s| == GPS_SIZE
  {
    ToBE(Unsigned(g.time, 8), 8) + [priority] + ToBE(Unsigned(g.lng, 4), 4) + ToBE(Unsigned(g.lat, 4), 4) +
    ToBE(g.altitude, 2) + ToBE(g.heading, 2) + ToBE(g.satellites, 1) + ToBE(g.speed, 2)
  }

  function EncodeRecord(r: Record, extended: bool): seq<byte>
  {
    EncodeGps(r.gps, r.priority) + [0] + ToBE(ElementCount(r, extended), IdSize(extended)) +
    EncodeGroups(r.Groups(), WIDTHS, r.xs, extended)
  }

  function EncodeRecords(rs: seq<Record>, extended: bool): seq<byte>
  {
    if rs == [] then [] else EncodeRecord(rs[0], extended) + EncodeRecords(rs[1..], extended)
  }

  /** The data field of an AVL frame: codec id, one-byte count, records, count again. */
  function EncodePayload(rs: seq<Record>, extended: bool): seq<byte> {
    [if extended then CODEC8E else CODEC8] + [|rs| % 256] + EncodeRecords(rs, extended) + [|rs| % 256]
  }

  // ---------------------------------------------------------------------------
  // What can be encoded

  predicate ElementsFit(es: seq<Element>, extended: bool) {
    |es| < Pow256(IdSize(extended)) && forall e | e in es :: e.id < Pow256(IdSize(extended))
  }

  predicate XsFit(xs: seq<XElement>) {
    |xs| < Pow256(2) && forall x | x in xs :: x.id < Pow256(2) && |x.data| < Pow256(2)
  }

  predicate GpsFits(g: Gps) {
    -128 * Pow256(7) <= g.time < 128 * Pow256(7) &&
    -128 * Pow256(3) <= g.lng < 128 * Pow256(3) && -128 * Pow256(3) <= g.lat < 128 * Pow256(3) &&
    g.altitude < Pow256(2) && g.heading < Pow256(2) && g.satellites < Pow256(1) && g.speed < Pow256(2)
  }

  /** Every count, id and coordinate is inside the range of its field. */
  predicate Encodable(r: Record, extended: bool) {
    GpsFits(r.gps) && XsFit(r.xs) &&
    (forall es | es in r.Groups() :: ElementsFit(es, extended)) &&
    (!extended ==> r.xs == [])
  }

  // ---------------------------------------------------------------------------
  // What the decoder must recover

  /** The value a field of `width` bytes holds after `v` was written to it. */
  function WireValue(v: int, width: nat): int {
    if width == 8 then Signed(Unsigned(v, 8), 8) else Unsigned(v, width)
  }

  function ElementItems(es: seq<Element>, width: nat): (items: seq<Item>)
    ensures |items| == |es|
  {
    if es == [] then [] else [Num(es[0].id, WireValue(es[0].value, width))] + ElementItems(es[1..], width)
  }

  function XItems(xs: seq<XElement>): seq<Item> {
    if xs == [] then [] else [Blob(xs[0].id, xs[0].data)] + XItems(xs[1..])
  }

  function GroupItems(groups: seq<seq<Element>>, widths: seq<nat>, xs: seq<XElement>): seq<Item>
    requires |groups| == |widths|
  {
    if groups == [] then XItems(xs) else ElementItems(groups[0], widths[0]) + GroupItems(groups[1..], widths[1..], xs)
  }

  /** The record that the encoding stands for, in either codec. */
  function Denote(r: Record): Decoded
  {
    Decoded(r.gps, GroupItems(r.Groups(), WIDTHS, r.xs))
  }

  function DenoteAll(rs: seq<Record>): (ds: seq<Decoded>)
    ensures |ds| == |rs|
  {
    if rs == [] then [] else [Denote(rs[0])] + DenoteAll(rs[1..])
  }

  // ---------------------------------------------------------------------------
  // Round trip

  lemma ReadBack(n: nat, w: nat, tail: seq<byte>)
    requires n < Pow256(w)
    ensures FromBE((ToBE(n, w) + tail)[..w]) == n && (ToBE(n, w) + tail)[w..] == tail
  {
    assert (ToBE(n, w) + tail)[..w] == ToBE(n, w);
    FromToBE(n, w);
  }

  lemma ReadElement(e: Element, extended: bool, width: nat, tail: seq<byte>)
    requires e.id < Pow256(IdSize(extended))
    ensures var s, n := EncodeElement(e, extended, width) + tail, IdSize(extended);
            |s| >= n + width && FromBE(s[..n]) == e.id &&
            ReadUnsigned(s[n..n + width]) == WireValue(e.value, width) &&
            s[n + width..] == tail
  {
    hide ToBE, FromBE, Signed, Unsigned, Pow256;
    var n, v := IdSize(extended), Unsigned(e.value, width);
    var s := EncodeElement(e, extended, width) + tail;
    assert s == ToBE(e.id, n) + (ToBE(v, width) + tail);
    ReadBack(e.id, n, ToBE(v, width) + tail);
    assert s[n..n + width] == ToBE(v, width);
    FromToBE(v, width);
    assert s[n + width..] == tail;
  }

  lemma {:induction false} ElementsRoundTrip(es: seq<Element>, extended: bool, width: nat, tail: seq<byte>)
    requires forall e | e in es :: e.id < Pow256(IdSize(extended))
    ensures Elements(EncodeElements(es, extended, width) + tail, extended, width, |es|) ==
            Done(ElementItems(es, width), |EncodeElements(es, extended, width)|)
    decreases |es|
  {
    hide ReadUnsigned, WireValue, FromBE, ToBE, Pow256;
    if es != [] {
      var e, more := es[0], EncodeElements(es[1..], extended, width) + tail;
      var s := EncodeElements(es, extended, width) + tail;
      assert s == EncodeElement(e, extended, width) + more;
      ReadElement(e, extended, width, more);
      ElementsRoundTrip(es[1..], extended, width, tail);
    }
  }

  lemma ReadX(x: XElement, tail: seq<byte>)
    requires x.id < Pow256(2) && |x.data| < Pow256(2)
    ensures var s := EncodeX(x) + tail;
            |s| >= 4 + |x.data| && FromBE(s[..2]) == x.id && FromBE(s[2..4]) == |x.data| &&
            s[4..4 + |x.data|] == x.data && s[4 + |x.data|..] == tail
  {
    var s, n := EncodeX(x) + tail, |x.data|;
    assert s[..2] == ToBE(x.id, 2);
    assert s[2..4] == ToBE(n, 2);
    FromToBE(x.id, 2);
    FromToBE(n, 2);
    assert s[4..4 + n] == x.data && s[4 + n..] == tail;
  }

  lemma {:induction false} XsRoundTrip(xs: seq<XElement>, tail: seq<byte>)
    requires forall x | x in xs :: x.id < Pow256(2) && |x.data| < Pow256(2)
    ensures XElements(EncodeXs(xs) + tail, |xs|) == Done(XItems(xs), |EncodeXs(xs)|)
    decreases |xs|
  {
    hide FromBE, EncodeX, Pow256;
    if xs != [] {
      var x, more := xs[0], EncodeXs(xs[1..]) + tail;
      assert EncodeXs(xs) + tail == EncodeX(x) + more;
      ReadX(x, more);
      XsRoundTrip(xs[1..], tail);
    }
  }

  lemma {:induction false} GroupsRoundTrip(groups: seq<seq<Element>>, widths: seq<nat>, xs: seq<XElement>,
                                           extended: bool, tail: seq<byte>)
    requires |groups| == |widths| && XsFit(xs) && (!extended ==> xs == [])
    requires forall es | es in groups :: ElementsFit(es, extended)
    ensures Groups(EncodeGroups(groups, widths, xs, extended) + tail, extended, widths) ==
            Done(GroupItems(groups, widths, xs), |EncodeGroups(groups, widths, xs, extended)|)
    decreases |groups|
  {
    hide Groups, EncodeGroup, ElementItems, XItems, EncodeXs, ElementsFit, XsFit;
    var s := EncodeGroups(groups, widths, xs, extended) + tail;
    if groups != [] {
      var es, width := groups[0], widths[0];
      var more := EncodeGroups(groups[1..], widths[1..], xs, extended) + tail;
      assert s == EncodeGroup(es, extended, width) + more;
      OneGroup(es, extended, widths, more);
      GroupsRoundTrip(groups[1..], widths[1..], xs, extended, tail);
    } else {
      LastGroup(xs, extended, tail);
    }
  }

  lemma OneGroup(es: seq<Element>, extended: bool, widths: seq<nat>, more: seq<byte>)
    requires widths != [] && ElementsFit(es, extended)
    ensures Groups(EncodeGroup(es, extended, widths[0]) + more, extended, widths) ==
            Prepend(ElementItems(es, widths[0]), |EncodeGroup(es, extended, widths[0])|,
                    Groups(more, extended, widths[1..]))
  {
    hide FromBE, ToBE, Elements, EncodeElements, ElementItems, Pow256;
    var n, width := IdSize(extended), widths[0];
    var body := EncodeElements(es, extended, width) + more;
    assert EncodeGroup(es, extended, width) + more == ToBE(|es|, n) + body;
    ReadBack(|es|, n, body);
    ElementsRoundTrip(es, extended, width, more);
    assert body[|EncodeElements(es, extended, width)|..] == more;
  }

  lemma LastGroup(xs: seq<XElement>, extended: bool, tail: seq<byte>)
    requires XsFit(xs) && (!extended ==> xs == [])
    ensures var s := EncodeGroups([], [], xs, extended);
            Groups(s + tail, extended, []) == Done(XItems(xs), |s|)
  {
    hide FromBE, ToBE, XElements, EncodeXs, Pow256;
    var s := EncodeGroups([], [], xs, extended) + tail;
    if extended {
      var body := EncodeXs(xs) + tail;
      assert s == ToBE(|xs|, 2) + body;
      ReadBack(|xs|, 2, body);
      XsRoundTrip(xs, tail);
    }
  }

  lemma GpsRoundTrip(g: Gps, priority: byte, tail: seq<byte>)
    requires GpsFits(g)
    ensures ParseGps(EncodeGps(g, priority) + tail) == g
  {
    hide FromBE, ToBE, Signed, Unsigned, Pow256;
    var s := EncodeGps(g, priority) + tail;
    assert s[0..8] == ToBE(Unsigned(g.time, 8), 8);
    assert s[9..13] == ToBE(Unsigned(g.lng, 4), 4);
    assert s[13..17] == ToBE(Unsigned(g.lat, 4), 4);
    assert s[17..19] == ToBE(g.altitude, 2);
    assert s[19..21] == ToBE(g.heading, 2);
    assert s[21..22] == ToBE(g.satellites, 1);
    assert s[22..24] == ToBE(g.speed, 2);
    FromToBE(Unsigned(g.time, 8), 8);
    FromToBE(Unsigned(g.lng, 4), 4);
    FromToBE(Unsigned(g.lat, 4), 4);
    FromToBE(g.altitude, 2);
    FromToBE(g.heading, 2);
    FromToBE(g.satellites, 1);
    FromToBE(g.speed, 2);
    SignedUnsigned(g.time, 8);
    SignedUnsigned(g.lng, 4);
    SignedUnsigned(g.lat, 4);
    OneByte(s[21]);
    assert s[21..22] == [s[21]];
  }

  lemma OneByte(b: byte)
    ensures FromBE([b]) == b
  {
    assert [b][..0] == [];
  }

  lemma RecordRoundTrip(r: Record, extended: bool, tail: seq<byte>)
    requires Encodable(r, extended)
    ensures ParseRecord(EncodeRecord(r, extended) + tail, extended) ==
            Parsed(Denote(r), |EncodeRecord(r, extended)|)
  {
    hide FromBE, ToBE, Groups, ParseGps, EncodeGps, EncodeGroups, GroupItems, GpsFits, XsFit, ElementsFit;
    var n := 1 + IdSize(extended);
    var gps, groups := EncodeGps(r.gps, r.priority), EncodeGroups(r.Groups(), WIDTHS, r.xs, extended);
    var head := [0] + ToBE(ElementCount(r, extended), IdSize(extended));
    var s := EncodeRecord(r, extended) + tail;
    assert s == gps + (head + groups + tail);
    GpsRoundTrip(r.gps, r.priority, head + groups + tail);
    assert s[GPS_SIZE..] == head + (groups + tail);
    assert s[GPS_SIZE..][n..] == groups + tail;
    GroupsRoundTrip(r.Groups(), WIDTHS, r.xs, extended, tail);
  }

  lemma {:induction false} RecordsRoundTrip(rs: seq<Record>, extended: bool, tail: seq<byte>)
    requires forall r | r in rs :: Encodable(r, extended)
    ensures ParseRecords(EncodeRecords(rs, extended) + tail, extended, |rs|) ==
            Batch(DenoteAll(rs), |EncodeRecords(rs, extended)|, None)
    decreases |rs|
  {
    hide ParseRecord, EncodeRecord, Denote;
    if rs != [] {
      var more := EncodeRecords(rs[1..], extended) + tail;
      assert EncodeRecords(rs, extended) + tail == EncodeRecord(rs[0], extended) + more;
      RecordRoundTrip(rs[0], extended, more);
      RecordsRoundTrip(rs[1..], extended, tail);
    }
  }

  lemma {:induction false} EncodeRecordsConcat(a: seq<Record>, b: seq<Record>, extended: bool)
    ensures EncodeRecords(a + b, extended) == EncodeRecords(a, extended) + EncodeRecords(b, extended)
    decreases |a|
  {
    hide EncodeRecord;
    if a == [] {
      assert a + b == b;
    } else {
      assert (a + b)[1..] == a[1..] + b;
      EncodeRecordsConcat(a[1..], b, extended);
    }
  }

  /** The records that the one-byte count announces. */
  function Counted(rs: seq<Record>): (front: seq<Record>)
    ensures front <= rs && |front| == |rs| % 256
  {
    rs[..|rs| % 256]
  }

  /**
   Decoding an encoded batch returns as many of its records as the one-byte count says, so all of
   them exactly up to 255, and then stops just before the trailing count.
   */
  lemma PayloadRoundTrip(rs: seq<Record>, extended: bool)
    requires forall r | r in rs :: Encodable(r, extended)
    ensures var b := ParsePayload(EncodePayload(rs, extended));
            b.error == None && b.records == DenoteAll(Counted(rs)) &&
            (b.records == DenoteAll(rs) <==> |rs| < 256) &&
            (|rs| < 256 ==> b.used == |EncodePayload(rs, extended)| - 2)
  {
    hide *;
    PayloadDecodes(rs, extended);
    if |rs| < 256 {
      assert Counted(rs) == rs;
      WholePayload(rs, extended);
    }
  }

  lemma PayloadDecodes(rs: seq<Record>, extended: bool)
    requires forall r | r in rs :: Encodable(r, extended)
    ensures ParsePayload(EncodePayload(rs, extended)) ==
            Batch(DenoteAll(Counted(rs)), 1 + |EncodeRecords(Counted(rs), extended)|, None)
  {
    hide *;
    var front, tail := PayloadShape(rs, extended);
    assert forall r | r in front :: r in rs;
    CountedRecords(front, extended, tail);
  }

  lemma WholePayload(rs: seq<Record>, extended: bool)
    ensures |EncodePayload(rs, extended)| == 3 + |EncodeRecords(rs, extended)|
  {
    hide EncodeRecords;
  }

  lemma PayloadShape(rs: seq<Record>, extended: bool) returns (front: seq<Record>, tail: seq<byte>)
    ensures front == Counted(rs)
    ensures EncodePayload(rs, extended) ==
            [if extended then CODEC8E else CODEC8] + [|front|] + (EncodeRecords(front, extended) + tail)
  {
    hide EncodeRecords;
    front := Counted(rs);
    var n := |front|;
    tail := EncodeRecords(rs[n..], extended) + [n];
    assert rs == front + rs[n..];
    EncodeRecordsConcat(front, rs[n..], extended);
    Regroup([if extended then CODEC8E else CODEC8] + [n], EncodeRecords(front, extended), EncodeRecords(rs[n..], extended), [n]);
  }

  lemma CountedRecords(front: seq<Record>, extended: bool, tail: seq<byte>)
    requires |front| < 256 && forall r | r in front :: Encodable(r, extended)
    ensures ParsePayload([if extended then CODEC8E else CODEC8] + [|front|] + (EncodeRecords(front, extended) + tail)) ==
            Batch(DenoteAll(front), 1 + |EncodeRecords(front, extended)|, None)
  {
    hide ParseRecords, EncodeRecords, DenoteAll, Encodable;
    var body := EncodeRecords(front, extended) + tail;
    var p := [if extended then CODEC8E else CODEC8] + [|front|] + body;
    assert p[1..] == [|front|] + body;
    assert p[1..][1..] == body;
    RecordsRoundTrip(front, extended, tail);
  }

  /** The octets of a record that the decoder skips: the priority, the event id of zero, and the number of elements. */
  lemma SkippedOctets(r: Record, extended: bool)
    requires |r.one| + |r.two| + |r.four| + |r.eight| + |r.xs| < Pow256(IdSize(extended))
    ensures var s, n := EncodeRecord(r, extended), IdSize(extended);
            |s| >= 25 + n && s[8] == r.priority && s[24] == 0 &&
            FromBE(s[25..25 + n]) == |r.one| + |r.two| + |r.four| + |r.eight| + if extended then |r.xs| else 0
  {
    hide ToBE, FromBE, EncodeGroups, Pow256;
    var n, gps := IdSize(extended), EncodeGps(r.gps, r.priority);
    var count := ToBE(ElementCount(r, extended), n);
    var s := EncodeRecord(r, extended);
    assert s[..24] == gps && gps[8] == r.priority && s[24] == 0;
    assert s[8] == s[..24][8];
    assert s[25..25 + n] == count;
    Total(r);
    FromToBE(ElementCount(r, extended), n);
  }

  lemma Total(r: Record)
    ensures TotalIO(r.Groups()) == |r.one| + |r.two| + |r.four| + |r.eight|
  {
    var g1, g2, g3 := [r.two, r.four, r.eight], [r.four, r.eight], [r.eight];
    assert r.Groups()[1..] == g1 && g1[1..] == g2 && g2[1..] == g3 && g3[1..] == [];
    assert TotalIO(g3) == |r.eight| + TotalIO([]);
    assert TotalIO(g2) == |r.four| + TotalIO(g3);
    assert TotalIO(g1) == |r.two| + TotalIO(g2);
  }

  /** Fitting Codec 8 means fitting Codec 8 Extended too. */
  lemma Codec8FitsExtended(r: Record)
    requires Encodable(r, false)
    ensures Encodable(r, true)
  {
    Pow256Values();
    forall es | es in r.Groups()
      ensures ElementsFit(es, true)
    {
      assert ElementsFit(es, false);
    }
  }

  /** Records that fit Codec 8 decode to the same positions from either codec. */
  lemma CodecIndependence(rs: seq<Record>, deviceId: int)
    requires forall r | r in rs :: Encodable(r, false)
    ensures ParsePayload(EncodePayload(rs, false)).records == ParsePayload(EncodePayload(rs, true)).records
    ensures ToPositions(deviceId, ParsePayload(EncodePayload(rs, false)).records) ==
            ToPositions(deviceId, ParsePayload(EncodePayload(rs, true)).records)
  {
    hide ParsePayload, EncodePayload, Encodable, ToPositions;
    forall r | r in rs
      ensures Encodable(r, true)
    {
      Codec8FitsExtended(r);
    }
    PayloadRoundTrip(rs, false);
    PayloadRoundTrip(rs, true);
  }

  // ---------------------------------------------------------------------------
  // The device's own values

  function OwnElements(es: seq<Element>): seq<Item> {
    if es == [] then [] else [Num(es[0].id, es[0].value)] + OwnElements(es[1..])
  }

  function OwnGroups(groups: seq<seq<Element>>, xs: seq<XElement>): seq<Item> {
    if groups == [] then XItems(xs) else OwnElements(groups[0]) + OwnGroups(groups[1..], xs)
  }

  /** The record as the device holds it, with no regard to field widths. */
  function Own(r: Record): Decoded {
    Decoded(r.gps, OwnGroups(r.Groups(), r.xs))
  }

  function OwnAll(rs: seq<Record>): (ds: seq<Decoded>)
    ensures |ds| == |rs|
  {
    if rs == [] then [] else [Own(rs[0])] + OwnAll(rs[1..])
  }

  /** The decoder reads a field of `width` bytes as an unsigned number, except that 8 bytes are signed. */
  predicate InRange(v: int, width: nat) {
    if width == 8 then -128 * Pow256(7) <= v < 128 * Pow256(7) else 0 <= v < Pow256(width)
  }

  /** Signal strength and temperature are cut to signed 16 bits on their way into the position. */
  predicate Narrowed(id: nat) {
    id == 5 || id == 72
  }

  predicate ExactElements(es: seq<Element>, width: nat) {
    forall e | e in es :: InRange(e.value, width)
  }

  /** Negative temperatures, which travel as two bytes, are allowed too. */
  predicate TypedElements(es: seq<Element>, width: nat) {
    forall e | e in es :: InRange(e.value, width) || (width == 2 && Narrowed(e.id))
  }

  predicate Exact(r: Record) {
    ExactElements(r.one, 1) && ExactElements(r.two, 2) && ExactElements(r.four, 4) && ExactElements(r.eight, 8)
  }

  predicate Typed(r: Record) {
    ExactElements(r.one, 1) && TypedElements(r.two, 2) && ExactElements(r.four, 4) && ExactElements(r.eight, 8)
  }

  /** Values inside the range of their field are recovered exactly, and only those. */
  lemma WireValueExact(v: int, width: nat)
    ensures WireValue(v, width) == v <==> InRange(v, width)
  {
    if InRange(v, width) {
      if width == 8 {
        SignedUnsigned(v, 8);
      } else {
        ModSmall(v, Pow256(width));
      }
    } else if width == 8 {
      SignedInRange(Unsigned(v, 8));
    }
  }

  lemma SignedInRange(n: nat)
    requires n < Pow256(8)
    ensures InRange(Signed(n, 8), 8)
  {
  }

  /** Cutting to 16 bits forgets the detour over an unsigned field. */
  lemma NarrowedExact(v: int)
    ensures Int16(WireValue(v, 2)) == Int16(v)
    ensures -128 * Pow256(1) <= v < 128 * Pow256(1) ==> Int16(v) == v
  {
    ModSmall(Unsigned(v, 2), Pow256(2));
    if -128 * Pow256(1) <= v < 128 * Pow256(1) {
      SignedUnsigned(v, 2);
    }
  }

  lemma {:induction false} ElementsAreOwn(es: seq<Element>, width: nat)
    requires ExactElements(es, width)
    ensures ElementItems(es, width) == OwnElements(es)
    decreases |es|
  {
    hide WireValue, InRange;
    if es != [] {
      assert es[0] in es;
      WireValueExact(es[0].value, width);
      ElementsAreOwn(es[1..], width);
    }
  }

  lemma ItemsOneByOne(r: Record)
    ensures Denote(r).items ==
            ElementItems(r.one, 1) + (ElementItems(r.two, 2) + (ElementItems(r.four, 4) + (ElementItems(r.eight, 8) + XItems(r.xs))))
    ensures Own(r).items ==
            OwnElements(r.one) + (OwnElements(r.two) + (OwnElements(r.four) + (OwnElements(r.eight) + XItems(r.xs))))
  {
    hide ElementItems, OwnElements, XItems;
    var g1, g2, g3 := [r.two, r.four, r.eight], [r.four, r.eight], [r.eight];
    var w1, w2, w3: seq<nat> := [2, 4, 8], [4, 8], [8];
    assert r.Groups()[1..] == g1 && g1[1..] == g2 && g2[1..] == g3 && g3[1..] == [];
    assert WIDTHS[1..] == w1 && w1[1..] == w2 && w2[1..] == w3 && w3[1..] == [];
    assert GroupItems(g3, w3, r.xs) == ElementItems(r.eight, 8) + XItems(r.xs);
    assert GroupItems(g2, w2, r.xs) == ElementItems(r.four, 4) + GroupItems(g3, w3, r.xs);
    assert GroupItems(g1, w1, r.xs) == ElementItems(r.two, 2) + GroupItems(g2, w2, r.xs);
    assert OwnGroups(g3, r.xs) == OwnElements(r.eight) + XItems(r.xs);
    assert OwnGroups(g2, r.xs) == OwnElements(r.four) + OwnGroups(g3, r.xs);
    assert OwnGroups(g1, r.xs) == OwnElements(r.two) + OwnGroups(g2, r.xs);
  }

  /** A record whose values fit their fields means itself: its own ids and values, in wire order. */
  lemma DenoteIsOwn(r: Record)
    requires Exact(r)
    ensures Denote(r) == Own(r)
  {
    hide ElementItems, OwnElements, XItems, GroupItems, OwnGroups;
    ItemsOneByOne(r);
    ElementsAreOwn(r.one, 1);
    ElementsAreOwn(r.two, 2);
    ElementsAreOwn(r.four, 4);
    ElementsAreOwn(r.eight, 8);
  }

  /** The position without its raw values. */
  function TypedFields(p: Position): Position {
    p.(raw := map[])
  }

  lemma {:induction false} SameTypedFields(p: Position, q: Position, es: seq<Element>)
    requires TypedFields(p) == TypedFields(q) && TypedElements(es, 2)
    ensures TypedFields(ApplyAll(p, ElementItems(es, 2))) == TypedFields(ApplyAll(q, OwnElements(es)))
    decreases |es|
  {
    hide WireValue, InRange, Int16;
    if es != [] {
      var e := es[0];
      assert e in es;
      WireValueExact(e.value, 2);
      NarrowedExact(e.value);
      var v := WireValue(e.value, 2);
      var p', q' := ApplyItem(p, Num(e.id, v)), ApplyItem(q, Num(e.id, e.value));
      assert ElementItems(es, 2)[1..] == ElementItems(es[1..], 2) && OwnElements(es)[1..] == OwnElements(es[1..]);
      SameTypedFields(p', q', es[1..]);
    }
  }

  lemma {:induction false} SameItemsSameFields(p: Position, q: Position, items: seq<Item>)
    requires TypedFields(p) == TypedFields(q)
    ensures TypedFields(ApplyAll(p, items)) == TypedFields(ApplyAll(q, items))
    decreases |items|
  {
    if items != [] {
      SameItemsSameFields(ApplyItem(p, items[0]), ApplyItem(q, items[0]), items[1..]);
    }
  }

  /** With negative temperatures the raw values differ, and every typed field is still the device's own. */
  lemma TypedFieldsAreOwn(deviceId: int, r: Record)
    requires Typed(r)
    ensures TypedFields(ToPosition(deviceId, Denote(r))) == TypedFields(ToPosition(deviceId, Own(r)))
  {
    hide ElementItems, OwnElements, XItems, GroupItems, OwnGroups, ApplyAll, TypedFields;
    ItemsOneByOne(r);
    ElementsAreOwn(r.one, 1);
    ElementsAreOwn(r.four, 4);
    ElementsAreOwn(r.eight, 8);
    var start := ApplyAll(Blank(deviceId, r.gps), OwnElements(r.one));
    var rest := OwnElements(r.four) + (OwnElements(r.eight) + XItems(r.xs));
    var sent, own := ElementItems(r.two, 2), OwnElements(r.two);
    ApplyAllConcat(Blank(deviceId, r.gps), OwnElements(r.one), sent + rest);
    ApplyAllConcat(Blank(deviceId, r.gps), OwnElements(r.one), own + rest);
    ApplyAllConcat(start, sent, rest);
    ApplyAllConcat(start, own, rest);
    SameTypedFields(start, start, r.two);
    SameItemsSameFields(ApplyAll(start, sent), ApplyAll(start, own), rest);
  }
}
