/**
 The decoder as the program runs it: offsets advanced in nested loops, one position updated
 in place. Each method is proved against the functions of `Avl`.
 */
module Decoder {
  import opened Options
  import opened Bytes
  import opened Framing
  import opened Avl

  datatype Result<+T> = Ok(value: T) | Err(error: ParseError)

  /** The position under construction. */
  class Cell {
    var pos: Position

    constructor (deviceId: int, gps: Gps)
      ensures pos == Blank(deviceId, gps)
    {
      pos := Blank(deviceId, gps);
    }

    method RecordIO(id: nat, value: int)
      modifies this
      ensures pos == ApplyItem(old(pos), Num(id, value))
    {
      pos := pos.(raw := pos.raw[id := Number(value)]);
      ApplyIOValue(id, value);
    }

    method RecordX(id: nat, data: seq<byte>)
      modifies this
      ensures pos == ApplyItem(old(pos), Blob(id, data))
    {
      pos := pos.(raw := pos.raw[id := Hex(data)]);
    }

    method ApplyIOValue(id: nat, value: int)
      modifies this
      ensures pos == ApplyValue(old(pos), id, value)
    {
      match id {
        case 1 | 239 => pos := pos.(ignition := value == 1);
        case 2 => pos := pos.(doorOpen := Some(value == 1));
        case 5 => pos := pos.(gsm := Int16(value));
        case 7 | 66 =>
          if pos.millivolts == 0 {
            pos := pos.(millivolts := value);
          }
        case 67 => pos := pos.(backupMillivolts := Some(value));
        case 72 => pos := pos.(temperature := Int16(value));
        case 16 => pos := pos.(odometer := value);
        case 207 => pos := pos.(rfid := Some(value));
        case 84 => pos := pos.(fuel := Some(value));
        case _ =>
      }
    }
  }

  /** What is left to decode, `part`, completes what was decoded so far to `whole`. */
  ghost predicate Completes(whole: IO, start: Position, part: IO, offset: nat, now: Position) {
    match part
    case Fail(e) => whole == Fail(e)
    case Done(items, used) =>
      whole.Done? && whole.used == offset + used && ApplyAll(start, whole.items) == ApplyAll(now, items)
  }

  /** One more item decoded, `size` bytes further on. */
  lemma CompletesStep(whole: IO, start: Position, item: Item, size: nat, part: IO, offset: nat, now: Position)
    requires Completes(whole, start, Prepend([item], size, part), offset, now)
    ensures Completes(whole, start, part, offset + size, ApplyItem(now, item))
  {
    if part.Done? {
      assert ([item] + part.items)[1..] == part.items;
    }
  }

  lemma CompletesSkip(whole: IO, start: Position, size: nat, part: IO, offset: nat, now: Position)
    requires Completes(whole, start, Prepend([], size, part), offset, now)
    ensures Completes(whole, start, part, offset + size, now)
  {
    if part.Done? {
      assert [] + part.items == part.items;
    }
  }

  lemma GroupTailStep(d: seq<byte>, extended: bool, widths: seq<nat>, count: nat)
    requires widths != [] && count > 0 && |d| >= IdSize(extended) + widths[0]
    ensures var n, w := IdSize(extended), widths[0];
            GroupTail(d, extended, widths, count) ==
            Prepend([Num(FromBE(d[..n]), ReadUnsigned(d[n..n + w]))], n + w,
                    GroupTail(d[n + w..], extended, widths, count - 1))
  {
    hide Groups, FromBE, ReadUnsigned;
    var n, w := IdSize(extended), widths[0];
    var item := Num(FromBE(d[..n]), ReadUnsigned(d[n..n + w]));
    var rest := Elements(d[n + w..], extended, w, count - 1);
    if rest.Done? {
      assert d[n + w..][rest.used..] == d[n + w + rest.used..];
      var more := Groups(d[n + w + rest.used..], extended, widths[1..]);
      if more.Done? {
        assert [item] + rest.items + more.items == [item] + (rest.items + more.items);
      }
    }
  }

  /** The elements of one group, from its count on; shared shape of both codecs' inner loops. */
  method ParseGroup(data: seq<byte>, start: nat, extended: bool, width: nat, count: nat, cell: Cell,
                    ghost widths: seq<nat>, ghost whole: IO, ghost from: Position)
    returns (r: Result<nat>)
    requires start <= |data| && widths != [] && widths[0] == width
    requires Completes(whole, from, GroupTail(data[start..], extended, widths, count), start, cell.pos)
    modifies cell
    ensures match r
            case Err(e) => whole == Fail(e)
            case Ok(offset) =>
              start <= offset <= |data| &&
              Completes(whole, from, Groups(data[offset..], extended, widths[1..]), offset, cell.pos)
  {
    hide Completes, Prepend, FromBE, ReadUnsigned, ApplyItem, Groups, Elements, GroupTail;
    var n := IdSize(extended);
    var offset := start;
    for i := 0 to count
      invariant start <= offset <= |data|
      invariant Completes(whole, from, GroupTail(data[offset..], extended, widths, count - i), offset, cell.pos)
    {
      if offset + n + width > |data| {
        TruncatedGroup(data[offset..], extended, widths, count - i);
        FailCompletes(whole, from, GroupTail(data[offset..], extended, widths, count - i), offset, cell.pos);
        return Err(TruncatedElement(width));
      }
      ghost var d := data[offset..];
      GroupTailStep(d, extended, widths, count - i);
      var id := FromBE(data[offset..offset + n]);
      var value := ReadUnsigned(data[offset + n..offset + n + width]);
      PrefixOfSuffix(data, offset, n);
      SliceOfSuffix(data, offset, n, n + width);
      CompletesStep(whole, from, Num(id, value), n + width,
                    GroupTail(d[n + width..], extended, widths, count - i - 1), offset, cell.pos);
      cell.RecordIO(id, value);
      offset := offset + n + width;
    }
    GroupTailEnd(data[offset..], extended, widths);
    CompletesSkip(whole, from, 0, Groups(data[offset..], extended, widths[1..]), offset, cell.pos);
    r := Ok(offset);
  }

  lemma TruncatedGroup(d: seq<byte>, extended: bool, widths: seq<nat>, count: nat)
    requires widths != [] && count > 0 && |d| < IdSize(extended) + widths[0]
    ensures GroupTail(d, extended, widths, count) == Fail(TruncatedElement(widths[0]))
  {
  }

  lemma GroupTailEnd(d: seq<byte>, extended: bool, widths: seq<nat>)
    requires widths != []
    ensures GroupTail(d, extended, widths, 0) == Prepend([], 0, Groups(d, extended, widths[1..]))
  {
    assert d[0..] == d;
  }

  lemma FailCompletes(whole: IO, start: Position, part: IO, offset: nat, now: Position)
    requires part.Fail? && Completes(whole, start, part, offset, now)
    ensures whole == part
  {
  }

  lemma EndCompletes(whole: IO, start: Position, offset: nat, now: Position)
    requires Completes(whole, start, Done([], 0), offset, now)
    ensures whole.Done? && whole.used == offset && ApplyAll(start, whole.items) == now
  {
  }

  /** The outcome of an IO section, as the record parser sees it. */
  ghost predicate Agrees(whole: IO, start: Position, r: Result<nat>, now: Position) {
    match r
    case Err(e) => whole == Fail(e)
    case Ok(used) => whole.Done? && whole.used == used && ApplyAll(start, whole.items) == now
  }

  lemma StartCompletes(data: seq<byte>, extended: bool, pos: Position)
    requires |data| >= 1 + IdSize(extended)
    ensures var n := 1 + IdSize(extended);
            Completes(ParseIO(data, extended), pos, Groups(data[n..], extended, WIDTHS), n, pos)
  {
    var n := 1 + IdSize(extended);
    var part := Groups(data[n..], extended, WIDTHS);
    hide Groups;
    if part.Done? {
      assert [] + part.items == part.items;
    }
  }

  method ParseIOElementsCodec8(data: seq<byte>, cell: Cell) returns (r: Result<nat>)
    modifies cell
    ensures Agrees(ParseIO(data, false), old(cell.pos), r, cell.pos)
  {
    hide Completes, Groups, GroupTail, FromBE;
    if |data| < 2 {
      return Err(IOTooShort);
    }
    var offset := 2;
    ghost var whole, from := ParseIO(data, false), cell.pos;
    StartCompletes(data, false, cell.pos);
    assert WIDTHS[0..] == WIDTHS;
    for k := 0 to |WIDTHS|
      invariant 2 <= offset <= |data|
      invariant Completes(whole, from, Groups(data[offset..], false, WIDTHS[k..]), offset, cell.pos)
    {
      ghost var widths := WIDTHS[k..];
      if offset >= |data| {
        OmittedGroups(data[offset..], false, widths);
        EndCompletes(whole, from, offset, cell.pos);
        return Ok(offset);
      }
      var count := data[offset];
      GroupHead(data[offset..], false, widths);
      OneByteCount(data[offset..]);
      assert data[offset..][1..] == data[offset + 1..];
      CompletesSkip(whole, from, 1, GroupTail(data[offset + 1..], false, widths, count), offset, cell.pos);
      var group := ParseGroup(data, offset + 1, false, WIDTHS[k], count, cell, widths, whole, from);
      if group.Err? {
        return Err(group.error);
      }
      offset := group.value;
      assert widths[1..] == WIDTHS[k + 1..];
    }
    NoMoreGroups(data[offset..]);
    EndCompletes(whole, from, offset, cell.pos);
    r := Ok(offset);
  }

  lemma OneByteCount(d: seq<byte>)
    requires |d| >= 1
    ensures FromBE(d[..1]) == d[0]
  {
    assert d[..1][..0] == [];
  }

  lemma OmittedGroups(d: seq<byte>, extended: bool, widths: seq<nat>)
    requires |d| < IdSize(extended)
    ensures Groups(d, extended, widths) == Done([], 0)
  {
  }

  lemma NoMoreGroups(d: seq<byte>)
    ensures Groups(d, false, WIDTHS[|WIDTHS|..]) == Done([], 0)
  {
  }

  lemma GroupHead(d: seq<byte>, extended: bool, widths: seq<nat>)
    requires |d| >= IdSize(extended) && widths != []
    ensures var n := IdSize(extended);
            Groups(d, extended, widths) == Prepend([], n, GroupTail(d[n..], extended, widths, FromBE(d[..n])))
  {
  }

  lemma XHead(d: seq<byte>)
    requires |d| >= 2
    ensures Groups(d, true, WIDTHS[|WIDTHS|..]) == Prepend([], 2, XElements(d[2..], FromBE(d[..2])))
  {
  }

  method ParseIOElementsExtended(data: seq<byte>, cell: Cell) returns (r: Result<nat>)
    modifies cell
    ensures Agrees(ParseIO(data, true), old(cell.pos), r, cell.pos)
  {
    hide Completes, Groups, GroupTail, FromBE;
    if |data| < 3 {
      return Err(IOTooShort);
    }
    var offset := 3;
    ghost var whole, from := ParseIO(data, true), cell.pos;
    StartCompletes(data, true, cell.pos);
    assert WIDTHS[0..] == WIDTHS;
    for k := 0 to |WIDTHS|
      invariant 3 <= offset <= |data|
      invariant Completes(whole, from, Groups(data[offset..], true, WIDTHS[k..]), offset, cell.pos)
    {
      ghost var widths := WIDTHS[k..];
      if offset + 2 > |data| {
        OmittedGroups(data[offset..], true, widths);
        EndCompletes(whole, from, offset, cell.pos);
        return Ok(offset);
      }
      var count := FromBE(data[offset..offset + 2]);
      GroupHead(data[offset..], true, widths);
      assert data[offset..][..2] == data[offset..offset + 2];
      assert data[offset..][2..] == data[offset + 2..];
      CompletesSkip(whole, from, 2, GroupTail(data[offset + 2..], true, widths, count), offset, cell.pos);
      var group := ParseGroup(data, offset + 2, true, WIDTHS[k], count, cell, widths, whole, from);
      if group.Err? {
        return Err(group.error);
      }
      offset := group.value;
      assert widths[1..] == WIDTHS[k + 1..];
    }
    r := ParseXGroup(data, offset, cell, whole, from);
  }

  /** The variable-length group that closes a Codec 8 Extended record. */
  method ParseXGroup(data: seq<byte>, start: nat, cell: Cell, ghost whole: IO, ghost from: Position)
    returns (r: Result<nat>)
    requires start <= |data|
    requires Completes(whole, from, Groups(data[start..], true, WIDTHS[|WIDTHS|..]), start, cell.pos)
    modifies cell
    ensures Agrees(whole, from, r, cell.pos)
  {
    hide Completes, Groups, FromBE, XElements, ApplyItem;
    var offset := start;
    if offset + 2 > |data| {
      OmittedGroups(data[offset..], true, WIDTHS[|WIDTHS|..]);
      EndCompletes(whole, from, offset, cell.pos);
      return Ok(offset);
    }
    var count := FromBE(data[offset..offset + 2]);
    XHead(data[offset..]);
    assert data[offset..][..2] == data[offset..offset + 2] && data[offset..][2..] == data[offset + 2..];
    CompletesSkip(whole, from, 2, XElements(data[offset + 2..], count), offset, cell.pos);
    offset := offset + 2;
    for i := 0 to count
      invariant start <= offset <= |data|
      invariant Completes(whole, from, XElements(data[offset..], count - i), offset, cell.pos)
    {
      ghost var d := data[offset..];
      XStep(d, count - i);
      if offset + 4 > |data| {
        FailCompletes(whole, from, XElements(d, count - i), offset, cell.pos);
        return Err(TruncatedXHeader);
      }
      var id := FromBE(data[offset..offset + 2]);
      var length := FromBE(data[offset + 2..offset + 4]);
      PrefixOfSuffix(data, offset, 2);
      SliceOfSuffix(data, offset, 2, 4);
      if offset + 4 + length > |data| {
        FailCompletes(whole, from, XElements(d, count - i), offset, cell.pos);
        return Err(TruncatedXValue);
      }
      var value := data[offset + 4..offset + 4 + length];
      SliceOfSuffix(data, offset, 4, 4 + length);
      CompletesStep(whole, from, Blob(id, value), 4 + length,
                    XElements(data[offset + 4 + length..], count - i - 1), offset, cell.pos);
      cell.RecordX(id, value);
      offset := offset + 4 + length;
    }
    XEnd(data[offset..]);
    EndCompletes(whole, from, offset, cell.pos);
    r := Ok(offset);
  }

  lemma XStep(d: seq<byte>, count: nat)
    requires count > 0
    ensures XElements(d, count) ==
            if |d| < 4 then Fail(TruncatedXHeader)
            else if |d| < 4 + FromBE(d[2..4]) then Fail(TruncatedXValue)
            else Prepend([Blob(FromBE(d[..2]), d[4..4 + FromBE(d[2..4])])], 4 + FromBE(d[2..4]),
                         XElements(d[4 + FromBE(d[2..4])..], count - 1))
  {
  }

  lemma XEnd(d: seq<byte>)
    ensures XElements(d, 0) == Done([], 0)
  {
  }

  /** One record: the fixed part field by field, then its IO section. */
  method ParseAVLRecord(data: seq<byte>, deviceId: int, extended: bool) returns (r: Result<(Position, nat)>)
    ensures match ParseRecord(data, extended)
            case Broken(e) => r == Err(e)
            case Parsed(record, used) => r == Ok((ToPosition(deviceId, record), used))
  {
    hide ParseIO, FromBE, Signed;
    if |data| < GPS_SIZE {
      return Err(RecordTooShort);
    }
    var offset := 0;
    var time := Signed(FromBE(data[offset..offset + 8]), 8);
    offset := offset + 8;
    offset := offset + 1;
    var lng := Signed(FromBE(data[offset..offset + 4]), 4);
    offset := offset + 4;
    var lat := Signed(FromBE(data[offset..offset + 4]), 4);
    offset := offset + 4;
    var altitude := FromBE(data[offset..offset + 2]);
    offset := offset + 2;
    var heading := FromBE(data[offset..offset + 2]);
    offset := offset + 2;
    var satellites := data[offset];
    offset := offset + 1;
    var speed := FromBE(data[offset..offset + 2]);
    offset := offset + 2;
    var cell := new Cell(deviceId, Gps(time, lng, lat, altitude, heading, satellites, speed));
    var io;
    if extended {
      io := ParseIOElementsExtended(data[offset..], cell);
    } else {
      io := ParseIOElementsCodec8(data[offset..], cell);
    }
    match io
    case Err(e) => r := Err(e);
    case Ok(used) => r := Ok((cell.pos, offset + used));
  }

  /** The record loop: the positions decoded before the end or the first broken record. */
  method ParseRecordList(data: seq<byte>, deviceId: int, extended: bool)
    returns (positions: seq<Position>, error: Option<ParseError>)
    ensures positions == ToPositions(deviceId, ParseBody(data, extended).records)
    ensures error == ParseBody(data, extended).error
  {
    hide ParseRecord, ParseRecords, ToPositions, ToPosition;
    if |data| < 1 {
      NoPositions(deviceId);
      return [], Some(MissingCount);
    }
    positions, error := [], None;
    var recordCount := data[0];
    var offset := 1;
    ghost var all := ParseRecords(data[1..], extended, recordCount);
    ghost var records: seq<Decoded> := [];
    NoPositions(deviceId);
    assert all.records == records + all.records;
    for i := 0 to recordCount
      invariant 1 <= offset <= |data|
      invariant positions == ToPositions(deviceId, records)
      invariant all.records == records + ParseRecords(data[offset..], extended, recordCount - i).records
      invariant all.error == ParseRecords(data[offset..], extended, recordCount - i).error
    {
      ghost var d := data[offset..];
      RecordsStep(d, extended, recordCount - i);
      var record := ParseAVLRecord(data[offset..], deviceId, extended);
      if record.Err? {
        assert records + [] == records;
        return positions, Some(record.error);
      }
      var (pos, bytesRead) := record.value;
      ghost var rec := ParseRecord(d, extended).record;
      PrefixOfSuffix(data, offset, bytesRead);
      ghost var more := ParseRecords(data[offset + bytesRead..], extended, recordCount - i - 1).records;
      Reassociate(records, [rec], more);
      MorePositions(deviceId, records, rec);
      positions := positions + [pos];
      records := records + [rec];
      offset := offset + bytesRead;
    }
    RecordsEnd(data[offset..], extended);
    assert records + [] == records;
  }

  lemma NoPositions(deviceId: int)
    ensures ToPositions(deviceId, []) == []
  {
  }

  lemma MorePositions(deviceId: int, records: seq<Decoded>, rec: Decoded)
    ensures ToPositions(deviceId, records + [rec]) == ToPositions(deviceId, records) + [ToPosition(deviceId, rec)]
  {
    hide ToPosition;
  }

  /** Dispatch on the codec id. */
  method ParseFrame(payload: seq<byte>, deviceId: int)
    returns (positions: seq<Position>, error: Option<ParseError>)
    ensures positions == ToPositions(deviceId, ParsePayload(payload).records)
    ensures error == ParsePayload(payload).error
  {
    hide ParseBody;
    if |payload| < 2 {
      return [], Some(PayloadTooShort);
    }
    match payload[0] {
      case 0x08 => positions, error := ParseRecordList(payload[1..], deviceId, false);
      case 0x8E => positions, error := ParseRecordList(payload[1..], deviceId, true);
      case _ => positions, error := [], Some(UnsupportedCodec(payload[0]));
    }
  }
}
