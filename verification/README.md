# RudraNetra telemetry pipeline: a Dafny model

The project models the path of a device's data through RudraNetra, from the bytes on the TCP socket
to the alerts and browser messages they cause, and proves what that path guarantees:

| file | component |
|---|---|
| `Options`, `Bytes`, `Buffers`, `Bits` | optional values, big-endian fields, two's complement, writes into fixed buffers, exclusive or |
| `Crc`, `CrcDivision` | the CRC-16/ARC register, its algebra, and the polynomial division it computes |
| `Framing`, `Resynchronise`, `Framer` | the leftmost reference parser of a stream, what corruption can do to it, and the `StreamFramer` that refines it |
| `Avl`, `Decoder` | the meaning of Codec 8 and Codec 8 Extended payloads, and the decoder's loops proved against it |
| `AvlMeaning`, `AvlRoundTrip`, `AvlTruncation`, `Simulator` | a closed form of a decoded position, the device's encoder and its inverse, cut payloads, the simulator's builders |
| `Codec12` | commands and responses |
| `Storage`, `Ingest`, `IngestTheorems` | the chunked INSERT, one connection's read loop, and what holds over whole connections |
| `Commands`, `CommandHistory` | the command lifecycle under every interleaving of its goroutines, and the status of every command read off the steps alone |
| `Alerts`, `AlertTheorems` | the alert engine, and its cooldown, idling, isolation and staleness laws |
| `Hub` | the WebSocket hub as a state machine |
| `Pdf` | the invoice writer and the offsets it records |

Loops and objects of the program are loops and classes here; each is proved against functions on
values, and the theorems are about those functions, for every input or every run. Scaled floats are
kept as the integers they are decoded from (1e-7 degrees, mV, 0.1 degrees C, ms); speeds, voltages and
temperatures compared by the alert engine are reals; times there are nanoseconds.

What the program cannot control is a parameter: which INSERT statements succeed, what the clock
shows, when settings change, how the network cuts the stream, and which goroutine moves next.

## Where the code does less than one might expect

Each of these is proved with the exact condition under which the expectation holds.

- A frame behind stray zero bytes is found first exactly when none of the one or two zeros before its
  preamble makes its length field look like a header (`Resynchronise.Resynchronisation`); a 264-byte
  payload behind a single zero shows the failure (`Resynchronise.StrayZeroForgesFrame`).
- Because the checksum test accepts two layouts of the field, a corrupted pair of payload bytes passes
  it exactly when the corrupted payload's own checksum is zero (`Codec12.PairCorruptionCaught`); whatever
  surrounds the pair, there is exactly one such corruption (`Codec12.UndetectedCorruption`). A connection
  does not test an all-zero field, so it counts the corruption exactly when neither the sent nor the
  corrupted payload has checksum zero (`IngestTheorems.CorruptionCounted`).
- The simulator truncates the record count to a byte, so a batch decodes to the records sent exactly
  when there are at most 255 of them (`AvlRoundTrip.PayloadRoundTrip`).
- Live events are published for all positions of a frame as soon as one is stored. They are the rows
  stored exactly when no frame of more than 200 records has its first chunk stored and its second
  refused (`IngestTheorems.LiveEventsAreRows`). Any batch of more than 200 records shows the failure
  (`IngestTheorems.EventsWithoutRows`), and 201 blank records are one (`IngestTheorems.LargeBatchExists`).
- The resynchronisation counter depends on how the stream is cut: over a connection it is the count of
  the uncut stream plus the number of reads that begin inside a run of dropped bytes with a cause on
  both sides, so it is the same exactly when there is none (`Ingest.RunConnection`). Nine zero bytes
  count once in one read and twice in two reads (`Ingest.CutCountsTwice`).
- The alert engine notes the time of an alert before it stores it, so an alert whose INSERT fails is lost
  and silences the device all the same. Every event whose condition holds has a stored alert within the
  cooldown exactly when no raised alert's INSERT fails (`AlertTheorems.NoAlertIsLost`); two speeding
  events a second apart show the failure (`AlertTheorems.LostAlert`).
- An empty command or response entry is rejected by the parser, although it can be built
  (`Codec12.CommandRoundTrip`).
- The idle threshold is the configured number of minutes only up to 153722867; above, the
  multiplication wraps at 64 bits (`AlertTheorems.ThresholdExact`).
- The hub's comment says that a client with a full buffer is disconnected. The code sends on the
  channel that only its own goroutine receives from, so the loop stops for good (`Hub.StuckForever`).
  It happens exactly when the loop reaches a subscribed client that has 256 messages it was sent and
  has not received (`Hub.StuckExactly`), and a client that receives nothing brings it about with the
  257th message (`Hub.StuckIsReachable`).
- An alert is meant for all clients of its company. It is broadcast for device 0, so through the hub's
  interface it reaches a registered client exactly when that client has no explicit subscription, or one
  to device 0 (`Hub.AlertReaches`, with a failing run in `Hub.AlertIsMissed`). The program itself never
  calls `Subscribe`, and as long as that is so every alert reaches every registered client of its
  company (`Hub.EveryAlertArrives`).
- A PDF reader gets a line back unchanged exactly when the line has no carriage return, because
  section 7.3.4.2 of ISO 32000-1 reads an unescaped end-of-line marker as a line feed
  (`Pdf.TextRoundTrip`).

## Model

| member | source | states |
|---|---|---|
| Crc.ComputeCrc16 | backend/internal/codec/framing.go:24-37 | the two nested loops compute the register function `Crc16` |
| CrcDivision.CrcIsRemainder | backend/internal/codec/framing.go:24-37 | the checksum's bits, lowest first, are the remainder of the message times x^16 divided by x^16 + x^15 + x^2 + 1, the message taken byte by byte with the lowest bit first |
| CrcDivision.ChecksumExactly | backend/internal/codec/framing.go:24-37 | the checksum is the only 16-bit number whose bits are that remainder |
| CrcDivision.RemainderIsUnique | backend/internal/codec/framing.go:24-37 | adding any multiple of the generator leaves the remainder unchanged, so it is the remainder of polynomial division |
| Crc.CrcLinear | backend/internal/codec/framing.go:24-37 | on inputs of equal length the checksum of the xor is the xor of the checksums |
| Crc.CrcResidue | backend/internal/codec/teltonika.go:417-418 | data followed by its own checksum, low byte first, has checksum zero |
| Crc.PairCorruptionDetected | backend/internal/codec/framing.go:24-37 | two payloads that differ only inside one pair of adjacent bytes have different checksums, whatever surrounds the pair |
| Framing.Judge | backend/internal/codec/framing.go:84-123 | what is taken is a legal frame whose wire bytes start the buffer; a buffer that must wait is shorter than 2^20 + 12 |
| Framing.TakenExactly | backend/internal/codec/framing.go:84-123 | a frame is taken if and only if four zero octets, a length of 1 to 1048576 and one of the ids 0x08, 0x8E, 0x0C, 0x10 are there and the frame is complete; its payload and checksum are the octets at their places |
| Framing.WaitsExactly | backend/internal/codec/framing.go:83-107 | the framer waits for more if and only if the preamble, the header or the rest of a frame of legal length may still come |
| Framing.ParseConserves | backend/internal/codec/framing.go:73-125 | for every buffer: dropped bytes, emitted frames and leftover concatenate to the input, every frame is legal, the leftover is undecided and shorter than 2^20 + 12 |
| Framing.ParseInPieces | backend/internal/codec/framing.go:62-125 | parsing two pieces one after the other, carrying the leftover, is parsing their concatenation |
| Framing.FragmentationIndependence | backend/internal/codec/framing.go:62-125 | for every stream, corrupt or not, and every way of cutting it: the same frames, dropped bytes and leftover |
| Framing.ParseWireAll | backend/internal/codec/framing.go:97-123 | a stream of legal frames parses into exactly those frames, with nothing dropped and nothing left |
| Framing.SkipScanned | backend/internal/codec/framing.go:76-92 | jumping to the first preamble, or to the last three bytes, drops exactly what the byte-at-a-time parser drops |
| Resynchronise.Resynchronisation | backend/internal/codec/framing.go:76-117 | garbage without a preamble, then any number of zeros, then any legal frame: the frame is found first, and parsing goes on behind it, if and only if no stray zero forges a header from its length; always so without zeros or for lengths below 256 |
| Resynchronise.StrayZeroForgesFrame | backend/internal/codec/framing.go:97-117 | for every 264-byte payload, one stray zero makes the framer emit a one-byte frame instead |
| Framer.StreamFramer.Append | backend/internal/codec/framing.go:62-62 | appends, and keeps the log and buffer equal to the reference parse of everything received |
| Framer.StreamFramer.FindPreamble | backend/internal/codec/framing.go:76-82 | the first preamble, or none anywhere; one probe per position looked at |
| Framer.StreamFramer.SkipToPreamble | backend/internal/codec/framing.go:83-92 | cuts the buffer to the first preamble or its last three bytes without leaving the reference parse |
| Framer.StreamFramer.Next | backend/internal/codec/framing.go:73-125 | adds to the log some dropped bytes and at most one frame of the reference parse, returns that frame and the last resynchronisation cause among the dropped bytes; without a frame, log and buffer are the reference parse of everything received |
| Framer.StreamFramer.Reset | backend/internal/codec/framing.go:68-68 | forgets buffer and history |
| Framer.FramerConservation | backend/internal/codec/framing.go:73-125 | after any calls: every received byte is in the log or the buffer, in order, and both loops have turned at most once per received byte plus once per call |
| Avl.WholePacket | backend/internal/codec/teltonika.go:117-131 | decoding a whole packet in memory agrees with decoding the payload its frame carries |
| Avl.GpsOctets | backend/internal/codec/teltonika.go:172-205 | every fixed field is the number its own octets spell, signed for time and coordinates |
| AvlMeaning.PositionIsDescription | backend/internal/codec/teltonika.go:325-361 | the element-by-element updates give, for every element list: ignition from the last of ids 1 and 239, voltage the first nonzero of 7 and 66, every other field and every raw entry the last of its id |
| Decoder.Cell.ApplyIOValue | backend/internal/codec/teltonika.go:332-361 | updates the position as `Avl.ApplyValue` says |
| Decoder.Cell.RecordIO | backend/internal/codec/teltonika.go:325-330 | records the raw value, then the typed field |
| Decoder.ParseGroup | backend/internal/codec/teltonika.go:289-298 | the loop over one group's elements continues the specified parse, or fails with its error |
| Decoder.ParseIOElementsCodec8 | backend/internal/codec/teltonika.go:246-273 | same items applied in order, same size, same error as the specified parse, including the early end at an omitted group |
| Decoder.ParseIOElementsExtended | backend/internal/codec/teltonika.go:275-299 | the same for the two-byte layout |
| Decoder.ParseXGroup | backend/internal/codec/teltonika.go:301-323 | the same for the variable-length group |
| Decoder.ParseAVLRecord | backend/internal/codec/teltonika.go:167-225 | the position and size of the specified record, or its error |
| Decoder.ParseRecordList | backend/internal/codec/teltonika.go:135-153 | the positions before the end or the first broken record, and that record's error |
| Decoder.ParseFrame | backend/internal/codec/teltonika.go:100-115 | dispatch on the codec id, with every other id an error |
| AvlRoundTrip.WireValueExact | backend/internal/codec/teltonika.go:363-377 | a value is recovered exactly if and only if it is inside its field's range, which is signed for 8 bytes and unsigned below |
| AvlRoundTrip.NarrowedExact | backend/internal/codec/teltonika.go:350-352 | a signed 16-bit temperature survives the unsigned read |
| AvlRoundTrip.DenoteIsOwn | backend/internal/codec/teltonika.go:325-377 | a record whose values fit their fields decodes to its own ids and values, in wire order |
| AvlRoundTrip.TypedFieldsAreOwn | backend/internal/codec/teltonika.go:325-377 | with negative temperatures too, every typed field of the position is the device's own; only the raw value differs |
| AvlRoundTrip.RecordRoundTrip | backend/internal/codec/teltonika.go:167-323 | decoding an encoded record, whatever follows it, returns the record and exactly its size, in both codecs and for arbitrary element lists |
| AvlRoundTrip.PayloadRoundTrip | backend/scripts/simulate_device.js:289-295 | decoding an encoded batch returns as many records as its truncated count says; all of them, stopping before the trailing count, if and only if there are at most 255 |
| AvlRoundTrip.CodecIndependence | backend/internal/codec/teltonika.go:239-323 | records that fit Codec 8 decode to the same positions from Codec 8 and Codec 8 Extended |
| AvlTruncation.TruncationInventsNothing | backend/internal/codec/teltonika.go:253-304 | if a payload and a prefix of it both decode: as many records, all but the last identical, the last with the same fixed part and a prefix of the elements |
| AvlTruncation.OmittedGroupsAreEmpty | backend/internal/codec/teltonika.go:253-304 | a record that ends at any group decodes to the groups before it, in both codecs |
| AvlRoundTrip.SkippedOctets | backend/scripts/simulate_device.js:249-270 | the octets the decoder skips: priority, event id zero, and the number of elements |
| Simulator.IoGroup | backend/scripts/simulate_device.js:160-193 | the element loop builds the specified group in either codec, and throws if and only if an id, a signed 16-bit value, an 8-byte value or the two-byte count is out of range |
| Simulator.IoGroupX8e | backend/scripts/simulate_device.js:196-208 | the same for the variable-length group, whose count, ids and lengths must fit two bytes |
| Simulator.BuildGpsPart | backend/scripts/simulate_device.js:211-222 | the 24 bytes written at their offsets are the specified fixed part; altitude, angle and speed are masked, any other field out of range throws |
| Simulator.BuildRecord | backend/scripts/simulate_device.js:225-271 | fixed part, event id, total count and groups make the specified record, or it throws, exactly when a part does or the total does not fit |
| Simulator.BuildAvlPayload | backend/scripts/simulate_device.js:289-295 | codec id, truncated count, records and count make the payload that the decoder inverts, for any number of records |
| Simulator.BuildFrame | backend/scripts/simulate_device.js:274-286 | header, data and optional checksum are the wire form of the frame |
| Simulator.BuiltIsEncodable | backend/scripts/simulate_device.js:211-271 | a record that can be built meets the conditions of the round trip exactly when its masked fields fit and Codec 8 has no X entries to drop |
| Codec12.FramedIsValid | backend/scripts/simulate_device.js:274-286 | a frame checksummed as the program and the simulator do it passes the checksum test; its payload followed by the first two octets of the field has checksum zero, and the other two are zero |
| Codec12.BothLayoutsAccepted | backend/internal/codec/framing.go:42-49 | both layouts of the checksum field are accepted, whatever the other two bytes |
| Codec12.ChecksumTestExactly | backend/internal/codec/framing.go:42-49 | those two layouts are all that is accepted |
| Codec12.PairCorruptionCaught | backend/internal/codec/framing.go:42-49 | a frame with one corrupted pair of adjacent payload bytes passes the checksum test if and only if the corrupted payload's checksum is zero |
| Codec12.UndetectedCorruption | backend/internal/codec/framing.go:42-49 | between any head and tail exactly one pair of bytes makes the checksum zero, and any other pair sent there passes the test if and only if it is corrupted into that one |
| Codec12.BuildCommandFrame | backend/internal/codec/teltonika.go:399-420 | the buffer filled field by field is the wire form of the checksummed command |
| Codec12.ParseCommandPayload | backend/internal/codec/teltonika.go:424-451 | the entries before the end or the first bad one, and that one's error |
| Codec12.CommandRoundTrip | backend/internal/codec/teltonika.go:422-451 | the entries sent come back unchanged if none is empty; otherwise the parse fails with the size zero and returns the entries before the first empty one |
| Codec12.CommandThroughFramer | backend/scripts/simulate_device.js:298-310 | up to 255 nonempty entries within the size cap: one valid frame, nothing dropped or left, the same entries |
| Codec12.SingleCommandThroughFramer | backend/internal/codec/teltonika.go:399-451 | the same for every command of 1 to 2^20 - 7 bytes |
| Storage.BuildStatement | backend/internal/repository/postgres/position_repo.go:91-130 | replacing each placeholder by the argument it numbers gives rows that, read by column name, are the positions |
| Storage.RowReads | backend/internal/repository/postgres/position_repo.go:84-127 | reading a row by the names of the statement's column list returns every field of its position |
| Storage.ColumnsInjective | backend/internal/repository/postgres/position_repo.go:108-127 | a row determines the position it came from |
| Storage.AcceptedPrefix | backend/internal/repository/postgres/position_repo.go:76-137 | either everything is stored, or whole chunks up to the first refused statement, and no statement before it was refused |
| Storage.Database.InsertBatch | backend/internal/repository/postgres/position_repo.go:68-140 | reading the table by column name afterwards gives what it gave before followed by a prefix of the positions, whose length is returned; an error says that it is not all of them |
| Ingest.Session.HandleAVLFrame | backend/cmd/rudra-ingest/main.go:298-358 | counters, table, published positions, odometer, heartbeat and acknowledgement change as `Ingest.AfterAvl` says |
| Ingest.Session.HandleFrame | backend/cmd/rudra-ingest/main.go:277-292 | a checksum mismatch is only counted; the codec id selects the handler |
| Ingest.Session.HandleCommandResponse | backend/cmd/rudra-ingest/main.go:401-430 | a response that parses to at least one entry is taken and recorded for the command that lastCommand names, if it names one; any other is ignored |
| Ingest.Session.Receive | backend/cmd/rudra-ingest/main.go:252-293 | after a read, the session has done exactly what the frames of everything received so far call for, and has counted one resynchronisation for each run of bytes dropped for a cause within the read |
| Ingest.RunConnection | backend/cmd/rudra-ingest/main.go:241-295 | the outcome of a connection depends on the stream, not on the reads that delivered it; the resynchronisation count is that of the uncut stream plus the number of reads that begin inside a run of dropped bytes with a cause on both sides |
| Ingest.ResyncsCut | backend/cmd/rudra-ingest/main.go:265-270 | draining two parts separately counts one resynchronisation more than draining them together if and only if the cut is inside a run of dropped bytes with a cause on both sides |
| Ingest.CutCountsTwice | backend/cmd/rudra-ingest/main.go:265-270 | nine zero bytes count one resynchronisation in one read and two in reads of eight and one |
| IngestTheorems.AckConservation | backend/cmd/rudra-ingest/main.go:309-352 | for every frames and every failing statements: one acknowledgement per decodable AVL frame, in order, its value the length of the prefix of the frame's positions that was stored; no row and no acknowledgement from any other frame; the stored counter is the number of rows and the sum of the acknowledgements |
| IngestTheorems.LiveEventsAreRows | backend/cmd/rudra-ingest/main.go:323-344 | over any run the published positions are the rows stored if and only if no frame was stored in part; otherwise they are more |
| IngestTheorems.CountersExactly | backend/cmd/rudra-ingest/main.go:277-345 | over any frames and any failures, every counter counts what it is for: frames, unsupported codecs, undecodable frames, failed checksums, records, heartbeats, and acknowledgements that fall short of their records |
| IngestTheorems.PositionsExactly | backend/cmd/rudra-ingest/main.go:317-321 | every position of a frame is what its record describes, but for Go's zero time, which becomes the clock's |
| IngestTheorems.AnswersExactly | backend/cmd/rudra-ingest/main.go:401-425 | over any frames, the answers recorded are, in order, the parsed responses for which lastCommand named a command, each with that command's id |
| IngestTheorems.EventsWithoutRows | backend/cmd/rudra-ingest/main.go:323-344 | any batch of more than 200 records whose first INSERT succeeds and whose second fails publishes more than it stores |
| IngestTheorems.LargeBatchExists | backend/internal/repository/postgres/position_repo.go:68-140 | such a batch: 201 blank records in one frame |
| IngestTheorems.OdometerIsGreatest | backend/cmd/rudra-ingest/main.go:332-341 | over any run, whichever updates fail: the odometer never falls and is the starting value or a published one; if no update fails it is at least every published one |
| IngestTheorems.CorruptionCounted | backend/cmd/rudra-ingest/main.go:279-282 | a frame with one corrupted pair of payload bytes is counted as a mismatch if and only if neither the sent nor the corrupted payload has checksum zero |
| IngestTheorems.EndToEnd | backend/cmd/rudra-ingest/main.go:245-358 | for every list of batches in either codec, with or without checksums: if no INSERT fails, the frames of the stream put exactly the records sent into the table, in order, acknowledge every batch with its size, count no error and leave no byte |
| IngestTheorems.MeantIsHeld | backend/internal/codec/teltonika.go:325-377 | those positions are the device's own ids and values if they fit their fields, and agree in every typed field if only temperatures are negative |
| IngestTheorems.Deliver | backend/cmd/rudra-ingest/main.go:241-358 | the same of the session object, for every way of cutting the stream into reads: its table read by column name, its replies, counters, resynchronisations and buffer |
| IngestTheorems.Transmit | backend/scripts/simulate_device.js:274-295 | the simulator's builders produce the stream of those frames |
| IngestTheorems.Simulate | backend/scripts/simulate_device.js:211-295 | from the simulator's builders through any cutting to the session: table and acknowledgements are those of the batches |
| Commands.InvStep | backend/cmd/rudra-ingest/main.go:401-485 | every atomic step of every goroutine, from the API's INSERT and publish to the handlers' updates, keeps the protocol invariant |
| Commands.StatusNeverMovesBack | backend/cmd/rudra-ingest/main.go:417-477 | over any run a command keeps its device and its status never goes back |
| CommandHistory.StatusExactly | backend/cmd/rudra-ingest/main.go:417-477 | over every run, by the steps alone: a command is Acknowledged if and only if a successful update acknowledged it in a session whose response found it, else Delivered if and only if a successful update reported the delivery that carried it, else Sent |
| CommandHistory.LookupFinds | backend/cmd/rudra-ingest/main.go:452-461 | the subscriber's next message is the next one published, and it goes to the device's latest connection, or to none if one of its connections has ended since |
| CommandHistory.RecordsExactly | backend/cmd/rudra-ingest/main.go:417-470 | the writes and acknowledgements of the safety laws are exactly those of the steps |
| CommandHistory.AcknowledgementHappens | backend/cmd/rudra-ingest/main.go:401-477 | any command for any device can be issued, delivered and acknowledged |
| Commands.AcknowledgedHere | backend/cmd/rudra-ingest/main.go:417-426 | whenever a session acknowledges a command, that command was written to this very session, is for its device, and was not acknowledged before |
| Commands.CommandSafety | backend/cmd/rudra-ingest/main.go:225-226 | in every state of every run: no command acknowledged twice, every acknowledged command written before to a session of its own IMEI, every session in the map one whose handler has not returned |
| Alerts.Raise | backend/internal/alertengine/engine.go:189-230 | an alert is stored, and then published, exactly if its INSERT succeeds |
| Alerts.ApplyRules | backend/internal/alertengine/engine.go:106-146 | the four rules in program order give the specified state, alerts, and stored alerts |
| Alerts.Engine.RulesFor | backend/internal/alertengine/engine.go:150-176 | the cached thresholds if younger than a minute, else freshly read ones with defaults for nonpositive or unreadable values |
| Alerts.Engine.Evaluate | backend/internal/alertengine/engine.go:101-147 | one event changes its own device's state and company's cache entry only, and raises and stores the specified alerts |
| Alerts.RunEngine | backend/internal/alertengine/engine.go:79-97 | the event loop skips events without device or company and raises what the run function says |
| AlertTheorems.AlertsAreRaises | backend/internal/alertengine/engine.go:101-187 | what the engine puts out for a device at its i-th event, among any number of devices, is what the rules raise on the device's own events |
| AlertTheorems.AdmittedExactly | backend/internal/alertengine/engine.go:90-95 | every event that names a device and a company is evaluated, and no other |
| AlertTheorems.ThresholdsExactly | backend/internal/alertengine/engine.go:149-176 | the speed limit and the idle minutes in force at every event are those of the company's last read, which is repeated once the cache is a minute old: the row's own if positive, else 80 and 15, whatever reads fail |
| AlertTheorems.ClockInOrder | backend/internal/alertengine/engine.go:79-104 | the events the engine evaluates are in clock order, whatever was skipped |
| AlertTheorems.RaisesAreGreedyThinning | backend/internal/alertengine/engine.go:106-146 | in the engine's output over many devices, the alerts of each kind for each device are exactly the greedy thinning of its events whose condition holds: speed above the limit, voltage between 0 and 21.5, temperature from -14 to 0, or an idle run past its threshold; by 5 minutes for speed and 30 for the others |
| AlertTheorems.CooldownHolds | backend/internal/alertengine/engine.go:106-146 | in that output, two alerts of one kind for one device are more than the cooldown apart, and a silenced condition is within the cooldown of an earlier alert |
| AlertTheorems.AlertRate | backend/internal/alertengine/engine.go:20-32 | in that output, a window of length w holds at most floor(w / cooldown) + 1 alerts of one kind for one device |
| AlertTheorems.IdleExactness | backend/internal/alertengine/engine.go:115-128 | in that output, a device gets an idle alert at an event if and only if since an earlier event its ignition was on and its speed at most 2 at every event, and not so just before, for at least the threshold in force, with no idle alert in the last 30 minutes |
| AlertTheorems.NoAlertIsLost | backend/internal/alertengine/engine.go:106-200 | in the engine's output, every event whose condition holds has a stored alert at it or within the cooldown before it if and only if no raised alert's INSERT fails |
| AlertTheorems.SilencedBy | backend/internal/alertengine/engine.go:106-200 | a silenced event has one alert that silences it, and a stored alert within the cooldown if and only if that one was stored |
| AlertTheorems.LostAlert | backend/internal/alertengine/engine.go:106-200 | two speeding events, the first INSERT failing, that leave no stored alert |
| AlertTheorems.ThresholdExact | backend/internal/alertengine/engine.go:119-119 | the threshold in force is the configured minutes if and only if they are at most 153722867; above, it is their 64-bit remainder |
| AlertTheorems.NonInterference | backend/internal/alertengine/engine.go:178-187 | what is raised for one device among all others is what its own events alone raise |
| AlertTheorems.DeviceAlone | backend/internal/alertengine/engine.go:149-187 | with constant settings and successful reads the whole engine, cache included, run on one device's events alone raises the same alerts for it |
| AlertTheorems.BoundedStaleness | backend/internal/alertengine/engine.go:149-176 | with successful reads, every threshold used is the effective value of a row the table held less than a minute before the cache was consulted |
| Hub.InvStep | backend/internal/websocket/hub.go:94-147 | every step keeps the registry, the channels and the loop consistent |
| Hub.HubSafety | backend/internal/websocket/hub.go:94-147 | in every run, full buffers or not: no send on a closed channel, no channel closed twice, no company with an empty set, and received plus queued is what was sent, in order |
| Hub.DeliveredExactly | backend/internal/websocket/hub.go:126-145 | whenever the loop waits, a client has been sent exactly its company's messages that were broadcast while it was registered and that it was subscribed to when the loop reached it, in order, and none was passed over |
| Hub.DeliveredAsAnnounced | backend/internal/websocket/hub.go:126-145 | if no change of subscription alters what the client wants of the broadcast under way, that is exactly what it was subscribed to when each message was broadcast |
| Hub.BroadcastReaches | backend/internal/websocket/hub.go:126-145 | one finished broadcast adds its message to what a client was sent if and only if the client is registered, of the company, and subscribed |
| Hub.AlertReaches | backend/internal/websocket/hub.go:167-183 | an alert reaches a registered client of its company if and only if the client has no explicit subscription, or one to device 0 |
| Hub.AlertIsMissed | backend/internal/websocket/hub.go:167-183 | a run in which a client subscribed to any other device misses an alert of its company |
| Hub.EveryAlertArrives | backend/internal/handler/handlers_ops.go:2040-2086 | in every run without explicit subscriptions, which is what the program does, a finished broadcast reaches every registered client of its company |
| Hub.StuckExactly | backend/internal/websocket/hub.go:135-142 | the loop is blocked in its own send if and only if, by the steps so far, it reached a client that wanted the message and had 256 messages sent and not received |
| Hub.StuckIsReachable | backend/internal/websocket/hub.go:135-142 | for every message, a run in which a client that receives nothing blocks the loop |
| Hub.StuckForever | backend/internal/websocket/hub.go:137-142 | from then on the send is never received: the loop stays where it is, no client is sent anything, registered or disconnected |
| Hub.SecondRegistration | backend/internal/websocket/hub.go:97-119 | registering a client object again and then unregistering it crashes the loop if and only if it had been unregistered before; the handler registers each object once |
| Hub.EventLoop.OnRegister | backend/internal/websocket/hub.go:97-103 | the registry update is the `Register` step |
| Hub.EventLoop.OnUnregister | backend/internal/websocket/hub.go:109-120 | the guarded removal and close is the `Unregister` step |
| Hub.EventLoop.OnBroadcast | backend/internal/websocket/hub.go:126-145 | the loop over the company's clients, in any order, is a sequence of `Visit` steps that reaches all of them unless a buffer is full |
| Hub.ConnectedCount | backend/internal/websocket/hub.go:186-194 | summing the sizes company by company counts every connected client exactly once |
| Pdf.BuildContent | backend/internal/handler/handlers_admin.go:1423-1430 | the line loop builds the specified content stream |
| Pdf.RenderSimplePDF | backend/internal/handler/handlers_admin.go:1422-1455 | emitting objects while recording offsets builds the specified file |
| Pdf.TextRoundTrip | backend/internal/handler/handlers_admin.go:1426-1427 | a reader gets an escaped line back if and only if it holds no carriage return |
| Pdf.LiteralEnds | backend/internal/handler/handlers_admin.go:1426-1427 | an escaped line reaches exactly to the parenthesis that closes it |
| Pdf.FindsTable | backend/internal/handler/handlers_admin.go:1446-1454 | the number behind the last "startxref" of the file is the position of the table |
| Pdf.RenderedFileIsFollowable | backend/internal/handler/handlers_admin.go:1440-1455 | for output under 10^10 bytes, a reader that has only the bytes finds "xref" at the trailing number, a 20-byte entry for object i, at its ten-digit offset "i 0 obj", and behind it the object |
| Pdf.StreamLengthIsRight | backend/internal/handler/handlers_admin.go:1424-1438 | the length that reader finds in object 4 delimits exactly the content stream, with "endstream" behind it, whatever the lines contain |
| Pdf.FileReadsBack | backend/internal/handler/handlers_admin.go:1422-1455 | a reader that follows the trailer to the catalog, the page tree, the page with its font, and the stream it shows gets every line back, with line feeds for line ends, for every list of lines |

## Left out

- The IMEI handshake, device lookup and session set-up before the first frame: they parse a single read and the modelled stream starts behind them.
- Ingest.Session.HandleAVLFrame: does not model the live event built from each published position; heartbeats are counted, and an acknowledgement counts as written when it is handed to the socket, whose error changes nothing but the log.
- Ingest.Session.HandleCommandResponse: takes what lastCommand holds as a parameter; how the slot changes, and the status of the command row, are in `Commands`.
- AvlRoundTrip.PayloadRoundTrip: is about any device, so the encoder reduces an over-long total IO count modulo its field; where the simulator throws instead is in `Simulator`.
- Simulator.IoGroup: takes the element size from the group, one of 1, 2, 4 and 8 bytes, and integers for the numbers of JavaScript.
- Commands.CommandSafety: assumes that each published command message is received at most once and that ids are positive and never reused; it does not say which response belongs to which command, since `lastCommand` is a single slot.
- Alerts.Engine.Evaluate: does not model the message text, nor a publish that fails after the alert is stored. Differences of times beyond 292 years, which Go saturates, are not modelled either.
- Storage.Database.InsertBatch: takes from PostgreSQL that one INSERT stores all of its rows or none and reports how many.
- Pdf.RenderSimplePDF: the dictionaries that do not depend on the text are a parameter; `Pdf.Fixed` holds the program's own, and `Pdf.FileReadsBack` is about them.
- Raw data as JSON and hex text, RFID as a decimal string, and float rounding: integers, bytes and maps stand for them.
- The simulator's receiving side and its movement model, and every HTTP handler, report, authentication and user-interface component.
