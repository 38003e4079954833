/**
 Batch storage: the chunked multi-row INSERT of
 backend/internal/repository/postgres/position_repo.go, against a table that may refuse any
 statement.
 */
module Storage {
  import opened Options
  import opened Bytes
  import opened Avl

  /** A bound argument of a statement. */
  datatype Arg =
    | Int(n: int)
    | Flag(b: bool)
    | MaybeInt(maybe: Option<int>)
    | MaybeFlag(maybeFlag: Option<bool>)
    | Raw(raw: map<nat, RawValue>)

  type Row = seq<Arg>

  const COLUMNS := 18
  const CHUNK_SIZE := 200

  /** The columns of the positions table for one position, in the order of the statement. */
  function Columns(p: Position): (row: Row)
    ensures |row| == COLUMNS
  {
    [Int(p.gps.time), Int(p.deviceId), Int(p.gps.lng), Int(p.gps.lat), Int(p.gps.speed),
     Int(p.gps.heading), Int(p.gps.altitude), Int(p.gps.satellites), Flag(p.ignition), Int(p.gsm),
     Int(p.millivolts), Int(p.temperature), Int(p.odometer), MaybeInt(p.rfid), Raw(p.raw),
     MaybeInt(p.fuel), MaybeInt(p.backupMillivolts), MaybeFlag(p.doorOpen)]
  }

  function RowsFor(ps: seq<Position>): (rows: seq<Row>)
    ensures |rows| == |ps|
  {
    seq(|ps|, i requires 0 <= i < |ps| => Columns(ps[i]))
  }

  // ---------------------------------------------------------------------------
  // The table by its column names

  /** The columns named by the statement; the location is a point, given by two coordinates. */
  datatype Column =
    | Time | DeviceId | LocationX | LocationY | Speed | Heading | Altitude | Satellites | Ignition | GsmSignal
    | Voltage | Temperature | Odometer | RfidTag | RawData | FuelLevelPct | BackupBatteryV | DoorOpen

  /** The place of each name in the statement's list. */
  function Place(name: Column): (k: nat)
    ensures k < COLUMNS
  {
    match name
    case Time => 0 case DeviceId => 1 case LocationX => 2 case LocationY => 3 case Speed => 4 case Heading => 5
    case Altitude => 6 case Satellites => 7 case Ignition => 8 case GsmSignal => 9 case Voltage => 10
    case Temperature => 11 case Odometer => 12 case RfidTag => 13 case RawData => 14
    case FuelLevelPct => 15 case BackupBatteryV => 16 case DoorOpen => 17
  }

  /** The value that a row holds under a name. */
  function ValueOf(row: Row, name: Column): Arg {
    if Place(name) < |row| then row[Place(name)] else Int(0)
  }

  function IntOf(row: Row, name: Column): int {
    var v := ValueOf(row, name);
    if v.Int? then v.n else 0
  }

  function NatOf(row: Row, name: Column): nat {
    if IntOf(row, name) < 0 then 0 else IntOf(row, name)
  }

  function FlagOf(row: Row, name: Column): bool {
    var v := ValueOf(row, name);
    v.Flag? && v.b
  }

  function MaybeIntOf(row: Row, name: Column): Option<int> {
    var v := ValueOf(row, name);
    if v.MaybeInt? then v.maybe else None
  }

  function ReadGps(row: Row): Gps {
    Gps(
      time := IntOf(row, Time), lng := IntOf(row, LocationX), lat := IntOf(row, LocationY),
      altitude := NatOf(row, Altitude), heading := NatOf(row, Heading),
      satellites := NatOf(row, Satellites), speed := NatOf(row, Speed))
  }

  /** The position that a reader of the table gets, every field by the name of its column. */
  function ReadRow(row: Row): Position {
    var door, raw := ValueOf(row, DoorOpen), ValueOf(row, RawData);
    Position(
      deviceId := IntOf(row, DeviceId),
      gps := ReadGps(row),
      ignition := FlagOf(row, Ignition), gsm := IntOf(row, GsmSignal), millivolts := IntOf(row, Voltage),
      temperature := IntOf(row, Temperature), odometer := IntOf(row, Odometer), rfid := MaybeIntOf(row, RfidTag),
      fuel := MaybeIntOf(row, FuelLevelPct), backupMillivolts := MaybeIntOf(row, BackupBatteryV),
      doorOpen := if door.MaybeFlag? then door.maybeFlag else None,
      raw := if raw.Raw? then raw.raw else map[])
  }

  function PositionsIn(rows: seq<Row>): (ps: seq<Position>)
    ensures |ps| == |rows|
  {
    seq(|rows|, i requires 0 <= i < |rows| => ReadRow(rows[i]))
  }

  /** Every value of a row is under the name of its own field. */
  lemma RowReads(p: Position)
    ensures ReadRow(Columns(p)) == p
  {
    GpsReads(p);
    hide ReadGps;
  }

  lemma GpsReads(p: Position)
    ensures ReadGps(Columns(p)) == p.gps
  {
  }

  lemma RowsRead(ps: seq<Position>)
    ensures PositionsIn(RowsFor(ps)) == ps
  {
    hide ReadRow, Columns;
    forall i | 0 <= i < |ps|
      ensures PositionsIn(RowsFor(ps))[i] == ps[i]
    {
      RowReads(ps[i]);
    }
  }

  lemma PositionsInConcat(a: seq<Row>, b: seq<Row>)
    ensures PositionsIn(a + b) == PositionsIn(a) + PositionsIn(b)
  {
    hide ReadRow;
  }

  /** A stored row determines the position it came from. */
  lemma ColumnsInjective(p: Position, q: Position)
    requires Columns(p) == Columns(q)
    ensures p == q
  {
    RowReads(p);
    RowReads(q);
  }

  lemma RowsForSplit(ps: seq<Position>, start: nat, end: nat)
    requires start <= end <= |ps|
    ensures RowsFor(ps[..end]) == RowsFor(ps[..start]) + RowsFor(ps[start..end])
    ensures RowsFor(ps[..0]) == []
  {
    hide Columns;
  }

  // ---------------------------------------------------------------------------
  // Placeholders

  /** Every placeholder of every row names an argument. */
  predicate Bound(placeholders: seq<seq<nat>>, args: seq<Arg>) {
    forall row | row in placeholders :: forall n | n in row :: 1 <= n <= |args|
  }

  /** What a statement inserts: each row with its placeholders replaced by the arguments they number. */
  function Substitute(placeholders: seq<seq<nat>>, args: seq<Arg>): (rows: seq<Row>)
    requires Bound(placeholders, args)
    ensures |rows| == |placeholders|
  {
    seq(|placeholders|, i requires 0 <= i < |placeholders| => SubstituteRow(placeholders, args, i))
  }

  function SubstituteRow(placeholders: seq<seq<nat>>, args: seq<Arg>, i: nat): (row: Row)
    requires Bound(placeholders, args) && i < |placeholders|
  {
    var row := placeholders[i];
    assert row in placeholders;
    seq(|row|, n requires 0 <= n < |row| => assert row[n] in row; args[row[n] - 1])
  }

  /** The row of `i` within its chunk: 18 consecutive numbers. */
  function Numbers(i: nat): (row: seq<nat>)
    ensures |row| == COLUMNS
  {
    seq(COLUMNS, n requires 0 <= n < COLUMNS => i * COLUMNS + n + 1)
  }

  function ArgsFor(ps: seq<Position>): (args: seq<Arg>)
    ensures |args| == COLUMNS * |ps|
  {
    if ps == [] then [] else ArgsFor(ps[..|ps| - 1]) + Columns(ps[|ps| - 1])
  }

  lemma {:induction false} ArgAt(ps: seq<Position>, i: nat, n: nat)
    requires i < |ps| && n < COLUMNS
    ensures i * COLUMNS + n < |ArgsFor(ps)| && ArgsFor(ps)[i * COLUMNS + n] == Columns(ps[i])[n]
    decreases |ps|
  {
    if i < |ps| - 1 {
      ArgAt(ps[..|ps| - 1], i, n);
    }
  }

  /** The statement as the program assembles it, row by row. */
  method BuildStatement(chunk: seq<Position>) returns (placeholders: seq<seq<nat>>, args: seq<Arg>)
    ensures Bound(placeholders, args) && Substitute(placeholders, args) == RowsFor(chunk)
    ensures PositionsIn(Substitute(placeholders, args)) == chunk
    ensures |args| == COLUMNS * |chunk|
  {
    RowsRead(chunk);
    hide PositionsIn;
    placeholders, args := [], [];
    assert chunk[..0] == [];
    for i := 0 to |chunk|
      invariant |placeholders| == i && forall k | 0 <= k < i :: placeholders[k] == Numbers(k)
      invariant args == ArgsFor(chunk[..i])
    {
      var base := i * COLUMNS;
      var row := [base + 1, base + 2, base + 3, base + 4];
      for n := 5 to 19
        invariant |row| == n - 1 && forall k | 0 <= k < n - 1 :: row[k] == base + k + 1
      {
        row := row + [base + n];
      }
      assert row == Numbers(i);
      placeholders := placeholders + [row];
      args := args + Columns(chunk[i]);
      assert chunk[..i + 1][..i] == chunk[..i];
    }
    assert chunk[..|chunk|] == chunk;
    NumberedRows(placeholders, chunk);
  }

  /** Consecutive numbering pairs every column with its own argument. */
  lemma NumberedRows(placeholders: seq<seq<nat>>, chunk: seq<Position>)
    requires |placeholders| == |chunk| && forall k | 0 <= k < |chunk| :: placeholders[k] == Numbers(k)
    ensures Bound(placeholders, ArgsFor(chunk))
    ensures Substitute(placeholders, ArgsFor(chunk)) == RowsFor(chunk)
  {
    hide ArgsFor, Columns;
    var args := ArgsFor(chunk);
    forall row | row in placeholders
      ensures forall n | n in row :: 1 <= n <= |args|
    {
      var k :| 0 <= k < |chunk| && placeholders[k] == row;
      assert (k + 1) * COLUMNS <= |args|;
    }
    forall i | 0 <= i < |chunk|
      ensures SubstituteRow(placeholders, args, i) == Columns(chunk[i])
    {
      forall n | 0 <= n < COLUMNS
        ensures SubstituteRow(placeholders, args, i)[n] == Columns(chunk[i])[n]
      {
        ArgAt(chunk, i, n);
      }
    }
  }

  // ---------------------------------------------------------------------------
  // Chunks

  /** How many of `n` rows are stored when statement number `first` on may each be refused. */
  function Accepted(n: nat, first: nat, accepts: nat -> bool): (k: nat)
    ensures k <= n
  {
    if n == 0 || !accepts(first) then 0
    else if n <= CHUNK_SIZE then n
    else CHUNK_SIZE + Accepted(n - CHUNK_SIZE, first + 1, accepts)
  }

  /** How many statements that takes. */
  function Statements(n: nat, first: nat, accepts: nat -> bool): nat {
    if n == 0 then 0
    else if n <= CHUNK_SIZE || !accepts(first) then 1
    else 1 + Statements(n - CHUNK_SIZE, first + 1, accepts)
  }

  /** All rows are stored unless a statement was refused; then the rows stored are whole chunks before it. */
  lemma {:induction false} AcceptedPrefix(n: nat, first: nat, accepts: nat -> bool)
    ensures var k := Accepted(n, first, accepts);
            var chunks := k / 200;
            k == n || (k == chunks * 200 && !accepts(first + chunks))
    ensures forall i | first <= i && (i - first) * 200 < Accepted(n, first, accepts) :: accepts(i)
    decreases n
  {
    if n > CHUNK_SIZE && accepts(first) {
      AcceptedPrefix(n - CHUNK_SIZE, first + 1, accepts);
    }
  }

  lemma {:induction false} AcceptedAll(n: nat, first: nat, accepts: nat -> bool)
    requires forall i :: accepts(i)
    ensures Accepted(n, first, accepts) == n
    decreases n
  {
    if n > CHUNK_SIZE {
      AcceptedAll(n - CHUNK_SIZE, first + 1, accepts);
    }
  }

  /** The positions table and the fate of each statement sent to it. */
  class Database {
    const accepts: nat -> bool
    var statements: nat
    var rows: seq<Row>

    constructor (accepts: nat -> bool)
      ensures this.accepts == accepts && statements == 0 && rows == []
    {
      this.accepts := accepts;
      statements, rows := 0, [];
    }

    /** One INSERT: all of its rows or none of them. */
    method Exec(placeholders: seq<seq<nat>>, args: seq<Arg>) returns (affected: Option<nat>)
      requires Bound(placeholders, args)
      modifies this
      ensures statements == old(statements) + 1
      ensures if accepts(old(statements))
              then affected == Some(|placeholders|) && rows == old(rows) + Substitute(placeholders, args)
              else affected == None && rows == old(rows)
    {
      statements := statements + 1;
      if accepts(statements - 1) {
        rows := rows + Substitute(placeholders, args);
        return Some(|placeholders|);
      }
      return None;
    }

    /** Stores the positions in chunks until one is refused; returns how many were stored. */
    method InsertBatch(positions: seq<Position>) returns (inserted: nat, failed: bool)
      modifies this
      ensures inserted == Accepted(|positions|, old(statements), accepts)
      ensures failed == (inserted < |positions|)
      ensures rows == old(rows) + RowsFor(positions[..inserted])
      ensures PositionsIn(rows) == old(PositionsIn(rows)) + positions[..inserted]
      ensures statements == old(statements) + Statements(|positions|, old(statements), accepts)
    {
      hide Columns, Substitute, Bound, RowsFor, PositionsIn;
      RowsForSplit(positions, 0, 0);
      inserted := 0;
      var start := 0;
      while start < |positions|
        invariant 0 <= start <= |positions| && inserted == start
        invariant Accepted(|positions|, old(statements), accepts) ==
                  start + Accepted(|positions| - start, statements, accepts)
        invariant old(statements) + Statements(|positions|, old(statements), accepts) ==
                  statements + Statements(|positions| - start, statements, accepts)
        invariant rows == old(rows) + RowsFor(positions[..start])
      {
        var end := start + CHUNK_SIZE;
        if end > |positions| {
          end := |positions|;
        }
        var chunk := positions[start..end];
        var placeholders, args := BuildStatement(chunk);
        assert |args| <= 0xFFFF;
        var affected := Exec(placeholders, args);
        if affected.None? {
          RowsRead(positions[..start]);
          PositionsInConcat(old(rows), RowsFor(positions[..start]));
          return inserted, true;
        }
        RowsForSplit(positions, start, end);
        inserted := inserted + affected.value;
        start := end;
      }
      failed := false;
      RowsRead(positions[..start]);
      PositionsInConcat(old(rows), RowsFor(positions[..start]));
    }
  }
}
