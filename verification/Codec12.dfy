/** Codec 12 commands and responses: building, framing and parsing them. */
module Codec12 {
  import opened Options
  import opened Bytes
  import opened Buffers
  import opened Framing
  import Crc

  /** The frame that carries a payload, checksummed as the program and the simulator do it. */
  function Framed(payload: seq<byte>): Frame {
    Frame(payload, CrcField(payload))
  }

  lemma FramedIsValid(payload: seq<byte>)
    requires payload != []
    ensures CrcValid(Framed(payload))
    ensures Crc.Crc16(payload + Framed(payload).crc[..2]) == 0 && Framed(payload).crc[2..] == [0, 0]
  {
    Crc.CrcResidue(payload);
    hide Crc.Crc16;
    var crc := Crc.Crc16(payload);
    assert crc == Crc.Low(crc) as int + 256 * (Crc.High(crc) as int);
    assert Framed(payload).crc[..2] == [Crc.Low(crc), Crc.High(crc)];
  }

  /** Either layout of the checksum field is accepted, whatever the two bytes it does not read. */
  lemma BothLayoutsAccepted(payload: seq<byte>, x: byte, y: byte)
    requires payload != []
    ensures var crc := Crc.Crc16(payload);
            CrcValid(Frame(payload, [Crc.Low(crc), Crc.High(crc), x, y])) &&
            CrcValid(Frame(payload, [x, y, Crc.High(crc), Crc.Low(crc)]))
  {
    hide Crc.Crc16;
    var crc := Crc.Crc16(payload);
    assert crc == Crc.Low(crc) as int + 256 * (Crc.High(crc) as int);
  }

  /** The two layouts are all that is accepted. */
  lemma ChecksumTestExactly(payload: seq<byte>, b0: byte, b1: byte, b2: byte, b3: byte)
    requires payload != []
    ensures var crc := Crc.Crc16(payload);
            CrcValid(Frame(payload, [b0, b1, b2, b3])) <==>
            (b0 == crc % 256 && b1 == crc / 256) || (b2 == crc / 256 && b3 == crc % 256)
  {
    hide Crc.Crc16;
  }

  /**
   Corruption of one pair of adjacent payload bytes is caught, except where the second layout, which
   then reads two zero bytes, happens to match: exactly when the corrupted payload's checksum is zero.
   */
  lemma PairCorruptionCaught(head: seq<byte>, a0: byte, a1: byte, b0: byte, b1: byte, tail: seq<byte>)
    requires a0 != b0 || a1 != b1
    ensures var sent, got := head + [a0, a1] + tail, head + [b0, b1] + tail;
            CrcValid(Frame(got, CrcField(sent))) <==> Crc.Crc16(got) == 0
  {
    hide Crc.Crc16;
    Crc.PairCorruptionDetected(head, a0, a1, b0, b1, tail);
    var crc := Crc.Crc16(head + [a0, a1] + tail);
    assert crc == Crc.Low(crc) as int + 256 * (Crc.High(crc) as int);
  }

  /**
   Whatever surrounds a pair, one corruption of it goes through: every other pair sent there can turn
   into the one that makes the checksum zero, and into no other.
   */
  lemma UndetectedCorruption(head: seq<byte>, tail: seq<byte>) returns (b0: byte, b1: byte)
    ensures forall a0: byte, a1: byte, c0: byte, c1: byte | a0 != c0 || a1 != c1 ::
              CrcValid(Frame(head + [c0, c1] + tail, CrcField(head + [a0, a1] + tail))) <==> c0 == b0 && c1 == b1
  {
    hide CrcValid, CrcField, Crc.Crc16;
    b0, b1 := Crc.ZeroPair(head, tail);
    forall a0: byte, a1: byte, c0: byte, c1: byte | a0 != c0 || a1 != c1
      ensures CrcValid(Frame(head + [c0, c1] + tail, CrcField(head + [a0, a1] + tail))) <==> c0 == b0 && c1 == b1
    {
      PairCorruptionCaught(head, a0, a1, c0, c1, tail);
    }
  }

  // ---------------------------------------------------------------------------
  // Building

  function EncodeEntries(entries: seq<seq<byte>>): seq<byte> {
    if entries == [] then [] else ToBE(|entries[0]|, 4) + entries[0] + EncodeEntries(entries[1..])
  }

  /** The payload carrying several entries; one entry for a command or a simulator response. */
  function EncodeCommand(entries: seq<seq<byte>>): seq<byte>
    requires |entries| < 256
  {
    [CODEC12, |entries|] + EncodeEntries(entries) + [|entries|]
  }

  lemma OneEntry(cmd: seq<byte>)
    ensures EncodeCommand([cmd]) == [CODEC12, 1] + ToBE(|cmd|, 4) + cmd + [1]
  {
    CommandOfOne(cmd);
    EntriesOfOne(cmd);
    hide ToBE, EncodeEntries, EncodeCommand;
    Regroup([CODEC12, 1], ToBE(|cmd|, 4), cmd, [1]);
  }

  lemma CommandOfOne(cmd: seq<byte>)
    ensures EncodeCommand([cmd]) == [CODEC12, 1] + EncodeEntries([cmd]) + [1]
  {
    hide EncodeEntries;
  }

  lemma EntriesOfOne(cmd: seq<byte>)
    ensures EncodeEntries([cmd]) == ToBE(|cmd|, 4) + cmd
  {
    hide ToBE;
    var one := [cmd];
    assert one[1..] == [];
    var size := ToBE(|cmd|, 4);
    assert EncodeEntries(one) == size + cmd + EncodeEntries([]);
    assert size + cmd + [] == size + cmd;
  }

  /** The command frame, filled in field by field. */
  method BuildCommandFrame(cmd: seq<byte>) returns (frame: array<byte>)
    ensures fresh(frame) && frame[..] == Wire(Framed(EncodeCommand([cmd])))
  {
    hide ToBE, EncodeCommand;
    var dataLen := 1 + 1 + 4 + |cmd| + 1;
    frame := new byte[8 + dataLen + 4](_ => 0);
    PutBE(frame, 0, 0, 4);
    PutBE(frame, 4, dataLen, 4);
    ghost var head := ToBE(0, 4) + ToBE(dataLen, 4);
    assert frame[..] == head + Zeros(dataLen + 4);
    FillCommand(frame, cmd, head);
    ghost var payload := [CODEC12, 1] + ToBE(|cmd|, 4) + cmd + [1];
    assert frame[8..8 + dataLen] == payload;
    var crc := Crc.ComputeCrc16(frame[8..8 + dataLen]);
    PutBytes(frame, 8 + dataLen, [Crc.Low(crc), Crc.High(crc)]);
    assert frame[..] == head + payload + [Crc.Low(crc), Crc.High(crc), 0, 0];
    OneEntry(cmd);
    ZeroPreamble();
  }

  /** The data field of a command frame, written behind its header. */
  method FillCommand(frame: array<byte>, cmd: seq<byte>, ghost head: seq<byte>)
    requires |head| == 8 && frame[..] == head + Zeros(|cmd| + 11)
    modifies frame
    ensures frame[..] == head + ([CODEC12, 1] + ToBE(|cmd|, 4) + cmd + [1]) + Zeros(4)
  {
    hide ToBE, Zeros;
    ghost var size, n := ToBE(|cmd|, 4), |cmd|;
    PutBytes(frame, 8, [CODEC12, 1]);
    Splice(head, [CODEC12, 1], n + 11);
    PutBE(frame, 10, |cmd|, 4);
    Splice(head + [CODEC12, 1], size, n + 9);
    PutBytes(frame, 14, cmd);
    Splice(head + [CODEC12, 1] + size, cmd, n + 5);
    PutBytes(frame, 14 + |cmd|, [1]);
    Splice(head + [CODEC12, 1] + size + cmd, [1], 5);
    Behind(head, [CODEC12, 1], size, cmd, [1]);
  }

  /** Overwriting the start of the zeros behind `a`. */
  lemma Splice(a: seq<byte>, b: seq<byte>, k: nat)
    requires |b| <= k
    ensures (a + Zeros(k))[..|a|] + b + (a + Zeros(k))[|a| + |b|..] == a + b + Zeros(k - |b|)
  {
  }

  lemma Behind(head: seq<byte>, a: seq<byte>, b: seq<byte>, c: seq<byte>, d: seq<byte>)
    ensures head + a + b + c + d == head + (a + b + c + d)
  {
  }

  // ---------------------------------------------------------------------------
  // Parsing

  datatype CommandError = TooShort | NotCodec12(id: byte) | TruncatedSize | InvalidSize(n: nat)

  /** The entries read before the end or the first bad one. */
  datatype Entries = Entries(entries: seq<seq<byte>>, error: Option<CommandError>)

  function ParseEntries(d: seq<byte>, count: nat): Entries
    decreases count
  {
    if count == 0 then Entries([], None)
    else if |d| < 4 then Entries([], Some(TruncatedSize))
    else
      var size := FromBE(d[..4]);
      if size == 0 || 4 + size > |d| then Entries([], Some(InvalidSize(size)))
      else
        var rest := ParseEntries(d[4 + size..], count - 1);
        Entries([d[4..4 + size]] + rest.entries, rest.error)
  }

  function ParseCommand(payload: seq<byte>): Entries {
    if |payload| < 2 then Entries([], Some(TooShort))
    else if payload[0] != CODEC12 then Entries([], Some(NotCodec12(payload[0])))
    else ParseEntries(payload[2..], payload[1])
  }

  method ParseCommandPayload(payload: seq<byte>) returns (out: seq<seq<byte>>, error: Option<CommandError>)
    ensures Entries(out, error) == ParseCommand(payload)
  {
    hide ParseEntries, FromBE;
    if |payload| < 2 {
      return [], Some(TooShort);
    }
    if payload[0] != CODEC12 {
      return [], Some(NotCodec12(payload[0]));
    }
    var quantity := payload[1];
    var offset := 2;
    ghost var all := ParseEntries(payload[2..], quantity);
    out, error := [], None;
    EmptyIsNeutral(all.entries);
    for i := 0 to quantity
      invariant 2 <= offset <= |payload|
      invariant all.entries == out + ParseEntries(payload[offset..], quantity - i).entries
      invariant all.error == ParseEntries(payload[offset..], quantity - i).error
    {
      ghost var d := payload[offset..];
      EntriesStep(d, quantity - i);
      EmptyIsNeutral(out);
      if offset + 4 > |payload| {
        return out, Some(TruncatedSize);
      }
      var size := FromBE(payload[offset..offset + 4]);
      PrefixOfSuffix(payload, offset, 4);
      if size <= 0 || offset + 4 + size > |payload| {
        return out, Some(InvalidSize(size));
      }
      var entry := payload[offset + 4..offset + 4 + size];
      SliceOfSuffix(payload, offset, 4, 4 + size);
      ghost var more := ParseEntries(payload[offset + 4 + size..], quantity - i - 1).entries;
      Reassociate(out, [entry], more);
      out := out + [entry];
      offset := offset + 4 + size;
    }
    NoEntries(payload[offset..]);
    EmptyIsNeutral(out);
  }

  lemma EntriesStep(d: seq<byte>, count: nat)
    requires count > 0
    ensures ParseEntries(d, count) ==
            if |d| < 4 then Entries([], Some(TruncatedSize))
            else
              var size := FromBE(d[..4]);
              if size == 0 || 4 + size > |d| then Entries([], Some(InvalidSize(size)))
              else
                var rest := ParseEntries(d[4 + size..], count - 1);
                Entries([d[4..4 + size]] + rest.entries, rest.error)
  {
  }

  // ---------------------------------------------------------------------------
  // Round trip

  /** One entry off the front of an encoded list. */
  lemma EntryStep(e: seq<byte>, more: seq<byte>, count: nat)
    requires |e| < Pow256(4)
    ensures ParseEntries(ToBE(|e|, 4) + e + more, count + 1) ==
            if e == [] then Entries([], Some(InvalidSize(0)))
            else var rest := ParseEntries(more, count); Entries([e] + rest.entries, rest.error)
  {
    hide ToBE, FromBE, Pow256;
    var s := ToBE(|e|, 4) + e + more;
    assert s[..4] == ToBE(|e|, 4) && s[4..4 + |e|] == e && s[4 + |e|..] == more;
    FromToBE(|e|, 4);
  }

  lemma {:induction false} EntriesRoundTrip(entries: seq<seq<byte>>, tail: seq<byte>)
    requires forall e | e in entries :: |e| < Pow256(4)
    ensures var r := ParseEntries(EncodeEntries(entries) + tail, |entries|);
            if [] in entries then r.error == Some(InvalidSize(0)) && r.entries < entries && [] !in r.entries
            else r == Entries(entries, None)
    decreases |entries|
  {
    hide ToBE, ParseEntries, Pow256, EncodeEntries;
    if entries == [] {
      NoEntries(tail);
      EncodeNone();
      assert EncodeEntries(entries) + tail == tail;
    } else {
      var e, more := entries[0], EncodeEntries(entries[1..]) + tail;
      EncodeFirst(entries);
      assert EncodeEntries(entries) + tail == ToBE(|e|, 4) + e + more;
      assert e in entries && entries == [e] + entries[1..];
      EntryStep(e, more, |entries| - 1);
      EntriesRoundTrip(entries[1..], tail);
    }
  }

  lemma EncodeNone()
    ensures EncodeEntries([]) == []
  {
  }

  lemma EncodeFirst(entries: seq<seq<byte>>)
    requires entries != []
    ensures EncodeEntries(entries) == ToBE(|entries[0]|, 4) + entries[0] + EncodeEntries(entries[1..])
  {
    hide ToBE;
  }

  lemma NoEntries(d: seq<byte>)
    ensures ParseEntries(d, 0) == Entries([], None)
  {
  }

  /** Parsing returns exactly the entries sent if none is empty; otherwise it fails at the first empty one. */
  lemma CommandRoundTrip(entries: seq<seq<byte>>)
    requires |entries| < 256 && forall e | e in entries :: |e| < Pow256(4)
    ensures var r := ParseCommand(EncodeCommand(entries));
            if [] in entries then r.error == Some(InvalidSize(0)) && r.entries < entries && [] !in r.entries
            else r == Entries(entries, None)
  {
    var n := |entries|;
    hide ParseEntries, EncodeEntries, Pow256;
    assert EncodeCommand(entries)[2..] == EncodeEntries(entries) + [n];
    EntriesRoundTrip(entries, [n]);
  }

  /** Commands and responses cross the framer: one valid frame, nothing left, the same entries. */
  lemma CommandThroughFramer(entries: seq<seq<byte>>)
    requires |entries| < 256 && |EncodeCommand(entries)| <= MAX_DATA_LEN
    requires forall e | e in entries :: 0 < |e| < Pow256(4)
    ensures var f := Framed(EncodeCommand(entries));
            Leftmost(Wire(f)) == Parse([Whole(f)], []) && CrcValid(f) &&
            ParseCommand(f.payload) == Entries(entries, None)
  {
    var f := Framed(EncodeCommand(entries));
    FramedIsValid(f.payload);
    CommandRoundTrip(entries);
    hide CrcValid, ParseCommand, EncodeCommand, CrcField;
    assert Legal(f);
    JudgeWire(f, []);
    hide Judge;
    assert Wire(f) + [] == Wire(f);
    assert Judge([]) == More by { ShortIsMore([]); }
    assert Leftmost([]) == Parse([], []);
  }

  /** A command of 1 to 2^20 - 7 bytes, sent on its own. */
  lemma SingleCommandThroughFramer(cmd: seq<byte>)
    requires 0 < |cmd| <= MAX_DATA_LEN - 7
    ensures var f := Framed(EncodeCommand([cmd]));
            Leftmost(Wire(f)) == Parse([Whole(f)], []) && CrcValid(f) && ParseCommand(f.payload) == Entries([cmd], None)
  {
    OneEntry(cmd);
    Pow256Values();
    CommandThroughFramer([cmd]);
  }
}
