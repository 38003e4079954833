/**
 The meaning of AVL payloads (Codec 8 and Codec 8 Extended): what the decoder of
 backend/internal/codec/teltonika.go computes, as functions on byte sequences.
 Scaled floats are kept as their raw integers: 1e-7 degrees, mV, 0.1 degrees C, ms.
 */
module Avl {
  import opened Options
  import opened Bytes
  import opened Framing

  /** One IO element in wire order: a fixed-width number, or a variable-length X entry. */
  datatype Item = Num(id: nat, value: int) | Blob(id: nat, data: seq<byte>)

  datatype RawValue = Number(value: int) | Hex(data: seq<byte>)

  datatype ParseError =
    | PayloadTooShort
    | UnsupportedCodec(id: byte)
    | MissingCount
    | RecordTooShort
    | IOTooShort
    | TruncatedElement(width: nat)
    | TruncatedXHeader
    | TruncatedXValue
    | PacketTooShort
    | InvalidPreamble
    | InvalidDataLength(n: nat)

  // ---------------------------------------------------------------------------
  // Positions

  datatype Gps = Gps(time: int, lng: int, lat: int, altitude: nat, heading: nat, satellites: nat, speed: nat)

  datatype Position = Position(
    deviceId: int, gps: Gps, ignition: bool, gsm: int, millivolts: int, temperature: int, odometer: int,
    rfid: Option<int>, fuel: Option<int>, backupMillivolts: Option<int>, doorOpen: Option<bool>,
    raw: map<nat, RawValue>)

  function Blank(deviceId: int, gps: Gps): Position {
    Position(deviceId, gps, false, 0, 0, 0, 0, None, None, None, None, map[])
  }

  /** The low 16 bits of a value, as a signed integer. */
  function Int16(v: int): int {
    Signed(Unsigned(v, 2), 2)
  }

  /** What one numeric element does to the typed fields. */
  function ApplyValue(p: Position, id: nat, value: int): Position {
    if id == 1 || id == 239 then p.(ignition := value == 1)
    else if id == 2 then p.(doorOpen := Some(value == 1))
    else if id == 5 then p.(gsm := Int16(value))
    else if id == 7 || id == 66 then (if p.millivolts == 0 then p.(millivolts := value) else p)
    else if id == 67 then p.(backupMillivolts := Some(value))
    else if id == 72 then p.(temperature := Int16(value))
    else if id == 16 then p.(odometer := value)
    else if id == 207 then p.(rfid := Some(value))
    else if id == 84 then p.(fuel := Some(value))
    else p
  }

  function ApplyItem(p: Position, item: Item): Position {
    match item
    case Num(id, value) => ApplyValue(p.(raw := p.raw[id := Number(value)]), id, value)
    case Blob(id, data) => p.(raw := p.raw[id := Hex(data)])
  }

  function ApplyAll(p: Position, items: seq<Item>): Position
    decreases |items|
  {
    if items == [] then p else ApplyAll(ApplyItem(p, items[0]), items[1..])
  }

  lemma {:induction false} ApplyAllConcat(p: Position, a: seq<Item>, b: seq<Item>)
    ensures ApplyAll(p, a + b) == ApplyAll(ApplyAll(p, a), b)
    decreases |a|
  {
    if a == [] {
      assert a + b == b;
    } else {
      assert (a + b)[1..] == a[1..] + b;
      ApplyAllConcat(ApplyItem(p, a[0]), a[1..], b);
    }
  }

  // ---------------------------------------------------------------------------
  // IO elements

  const WIDTHS: seq<nat> := [1, 2, 4, 8]

  /** Ids and counts take one byte in Codec 8 and two in Codec 8 Extended. */
  function IdSize(extended: bool): nat {
    if extended then 2 else 1
  }

  function ReadUnsigned(data: seq<byte>): int {
    if |data| == 8 then Signed(FromBE(data), 8) else FromBE(data)
  }

  /** The outcome of decoding part of an IO section: its items and its size, or an error. */
  datatype IO = Done(items: seq<Item>, used: nat) | Fail(error: ParseError)

  function Prepend(items: seq<Item>, used: nat, rest: IO): IO {
    match rest
    case Done(more, n) => Done(items + more, used + n)
    case Fail(_) => rest
  }

  /** `count` elements of one width. */
  function Elements(d: seq<byte>, extended: bool, width: nat, count: nat): (r: IO)
    ensures r.Done? ==> r.used <= |d|
    decreases count
  {
    var n := IdSize(extended);
    if count == 0 then Done([], 0)
    else if |d| < n + width then Fail(TruncatedElement(width))
    else
      Prepend([Num(FromBE(d[..n]), ReadUnsigned(d[n..n + width]))], n + width,
              Elements(d[n + width..], extended, width, count - 1))
  }

  /** `count` variable-length entries. */
  function XElements(d: seq<byte>, count: nat): (r: IO)
    ensures r.Done? ==> r.used <= |d|
    decreases count
  {
    if count == 0 then Done([], 0)
    else if |d| < 4 then Fail(TruncatedXHeader)
    else
      var length := FromBE(d[2..4]);
      if |d| < 4 + length then Fail(TruncatedXValue)
      else Prepend([Blob(FromBE(d[..2]), d[4..4 + length])], 4 + length, XElements(d[4 + length..], count - 1))
  }

  /** The remaining groups. A section may end, without error, wherever a group count does not fit. */
  function Groups(d: seq<byte>, extended: bool, widths: seq<nat>): (r: IO)
    ensures r.Done? ==> r.used <= |d|
    decreases |widths|, 1
  {
    var n := IdSize(extended);
    if |d| < n then Done([], 0)
    else if widths != [] then Prepend([], n, GroupTail(d[n..], extended, widths, FromBE(d[..n])))
    else if extended then Prepend([], n, XElements(d[n..], FromBE(d[..n])))
    else Done([], 0)
  }

  /** `count` elements of the first width still to come, then the other groups. */
  function GroupTail(d: seq<byte>, extended: bool, widths: seq<nat>, count: nat): (r: IO)
    requires widths != []
    ensures r.Done? ==> r.used <= |d|
    decreases |widths|, 0
  {
    var first := Elements(d, extended, widths[0], count);
    if first.Fail? then first
    else Prepend(first.items, first.used, Groups(d[first.used..], extended, widths[1..]))
  }

  /** The IO section of a record: event id, total count (both skipped), then the groups. */
  function ParseIO(d: seq<byte>, extended: bool): (r: IO)
    ensures r.Done? ==> r.used <= |d|
  {
    var n := 1 + IdSize(extended);
    if |d| < n then Fail(IOTooShort) else Prepend([], n, Groups(d[n..], extended, WIDTHS))
  }

  // ---------------------------------------------------------------------------
  // Records

  const GPS_SIZE := 24

  function ParseGps(d: seq<byte>): Gps
    requires |d| >= GPS_SIZE
  {
    Gps(Signed(FromBE(d[0..8]), 8), Signed(FromBE(d[9..13]), 4), Signed(FromBE(d[13..17]), 4),
        FromBE(d[17..19]), FromBE(d[19..21]), d[21], FromBE(d[22..24]))
  }

  /** A signed 32-bit number from its four octets. */
  function Int32(a: byte, b: byte, c: byte, d: byte): int {
    var v := 0x100_0000 * a as int + 0x1_0000 * b as int + 0x100 * c as int + d as int;
    if a < 128 then v else v - 0x1_0000_0000
  }

  /** The fixed part of a record, octet by octet. */
  lemma GpsOctets(d: seq<byte>)
    requires |d| >= 24
    ensures var g := ParseGps(d);
            g.lng == Int32(d[9], d[10], d[11], d[12]) && g.lat == Int32(d[13], d[14], d[15], d[16]) &&
            g.altitude == 256 * d[17] as int + d[18] && g.heading == 256 * d[19] as int + d[20] &&
            g.satellites == d[21] && g.speed == 256 * d[22] as int + d[23] &&
            g.time == 0x1_0000_0000 * Int32(d[0], d[1], d[2], d[3]) +
                      0x100_0000 * d[4] as int + 0x1_0000 * d[5] as int + 0x100 * d[6] as int + d[7]
  {
    hide FromBE, Pow256;
    Pow256Values();
    FourOctets(d, 9);
    FourOctets(d, 13);
    TwoOctets(d, 17);
    TwoOctets(d, 19);
    TwoOctets(d, 22);
    FourOctets(d, 0);
    FourOctets(d, 4);
    EightOctets(d[0..8]);
    assert d[0..8][..4] == d[0..4] && d[0..8][4..] == d[4..8];
  }

  lemma TwoOctets(d: seq<byte>, i: nat)
    requires i + 2 <= |d|
    ensures FromBE(d[i..i + 2]) == 256 * d[i] as int + d[i + 1]
  {
    var s := d[i..i + 2];
    assert s[..1][..0] == [];
    assert FromBE(s[..1]) == 256 * FromBE([]) + s[0];
  }

  lemma FourOctets(d: seq<byte>, i: nat)
    requires i + 4 <= |d|
    ensures FromBE(d[i..i + 4]) == 0x100_0000 * d[i] as int + 0x1_0000 * d[i + 1] as int + 0x100 * d[i + 2] as int + d[i + 3]
  {
    FromOctets(d[i..i + 4]);
  }

  lemma EightOctets(s: seq<byte>)
    requires |s| == 8
    ensures FromBE(s) == 0x1_0000_0000 * FromBE(s[..4]) + FromBE(s[4..])
  {
    var t := s[4..];
    FromOctets(t);
    assert FromBE(s) == 256 * FromBE(s[..7]) + s[7];
    assert s[..7][..6] == s[..6] && s[..6][..5] == s[..5] && s[..5][..4] == s[..4];
    assert FromBE(s[..7]) == 256 * FromBE(s[..6]) + s[6];
    assert FromBE(s[..6]) == 256 * FromBE(s[..5]) + s[5];
    assert FromBE(s[..5]) == 256 * FromBE(s[..4]) + s[4];
    assert t[0] == s[4] && t[1] == s[5] && t[2] == s[6] && t[3] == s[7];
  }

  datatype Decoded = Decoded(gps: Gps, items: seq<Item>)

  function ToPosition(deviceId: int, r: Decoded): Position {
    ApplyAll(Blank(deviceId, r.gps), r.items)
  }

  function ToPositions(deviceId: int, rs: seq<Decoded>): (ps: seq<Position>)
    ensures |ps| == |rs|
  {
    seq(|rs|, i requires 0 <= i < |rs| => ToPosition(deviceId, rs[i]))
  }

  datatype RecordResult = Parsed(record: Decoded, used: nat) | Broken(error: ParseError)

  function ParseRecord(d: seq<byte>, extended: bool): (r: RecordResult)
    ensures r.Parsed? ==> r.used <= |d|
  {
    if |d| < GPS_SIZE then Broken(RecordTooShort)
    else
      match ParseIO(d[GPS_SIZE..], extended)
      case Fail(e) => Broken(e)
      case Done(items, used) => Parsed(Decoded(ParseGps(d), items), GPS_SIZE + used)
  }

  /** The records decoded before the end or the first error, and the bytes they took. */
  datatype Batch = Batch(records: seq<Decoded>, used: nat, error: Option<ParseError>)

  function ParseRecords(d: seq<byte>, extended: bool, count: nat): (b: Batch)
    ensures b.used <= |d| && |b.records| <= count
    ensures b.error.None? ==> |b.records| == count
    decreases count
  {
    if count == 0 then Batch([], 0, None)
    else
      match ParseRecord(d, extended)
      case Broken(e) => Batch([], 0, Some(e))
      case Parsed(record, used) =>
        var b := ParseRecords(d[used..], extended, count - 1);
        Batch([record] + b.records, used + b.used, b.error)
  }

  lemma RecordsStep(d: seq<byte>, extended: bool, count: nat)
    requires count > 0
    ensures ParseRecords(d, extended, count) ==
            match ParseRecord(d, extended)
            case Broken(e) => Batch([], 0, Some(e))
            case Parsed(record, used) =>
              var b := ParseRecords(d[used..], extended, count - 1);
              Batch([record] + b.records, used + b.used, b.error)
  {
  }

  lemma RecordsEnd(d: seq<byte>, extended: bool)
    ensures ParseRecords(d, extended, 0) == Batch([], 0, None)
  {
  }

  /** Everything after the codec id: the record count, the records, and whatever follows. */
  function ParseBody(d: seq<byte>, extended: bool): Batch {
    if |d| < 1 then Batch([], 0, Some(MissingCount))
    else
      var b := ParseRecords(d[1..], extended, d[0]);
      b.(used := 1 + b.used)
  }

  function ParsePayload(payload: seq<byte>): Batch {
    if |payload| < 2 then Batch([], 0, Some(PayloadTooShort))
    else if payload[0] == CODEC8 then ParseBody(payload[1..], false)
    else if payload[0] == CODEC8E then ParseBody(payload[1..], true)
    else Batch([], 0, Some(UnsupportedCodec(payload[0])))
  }

  /** Decoding one whole packet held in memory, without the framer. */
  function ParseData(data: seq<byte>): Batch {
    if |data| < 8 then Batch([], 0, Some(PacketTooShort))
    else if data[..4] != PREAMBLE then Batch([], 0, Some(InvalidPreamble))
    else
      var n := FromBE(data[4..8]);
      if n == 0 || 8 + n > |data| then Batch([], 0, Some(InvalidDataLength(n)))
      else ParsePayload(data[8..8 + n])
  }

  /** Decoding a whole packet agrees with framing it first, whatever follows it. */
  lemma WholePacket(f: Frame, tail: seq<byte>)
    requires Legal(f)
    ensures ParseData(Wire(f) + tail) == ParsePayload(f.payload)
  {
    hide ParsePayload;
    var s, n := Wire(f) + tail, |f.payload|;
    assert s[..4] == PREAMBLE;
    assert s[4..8] == ToBE(n, 4);
    Pow256Values();
    FromToBE(n, 4);
    assert s[8..8 + n] == f.payload;
  }
}
