/** Cutting a payload short never invents data, although a section may end at any missing group. */
module AvlTruncation {
  import opened Bytes
  import opened Framing
  import opened Avl
  import AvlRoundTrip

  lemma {:induction false} ElementsOfPrefix(q: seq<byte>, p: seq<byte>, extended: bool, width: nat, count: nat)
    requires q <= p && Elements(q, extended, width, count).Done?
    ensures Elements(p, extended, width, count) == Elements(q, extended, width, count)
    decreases count
  {
    hide FromBE, ReadUnsigned;
    if count > 0 {
      var n := IdSize(extended);
      assert p[..n] == q[..n] && p[n..n + width] == q[n..n + width];
      ElementsOfPrefix(q[n + width..], p[n + width..], extended, width, count - 1);
    }
  }

  lemma {:induction false} XElementsOfPrefix(q: seq<byte>, p: seq<byte>, count: nat)
    requires q <= p && XElements(q, count).Done?
    ensures XElements(p, count) == XElements(q, count)
    decreases count
  {
    hide FromBE;
    if count > 0 {
      assert p[..2] == q[..2] && p[2..4] == q[2..4];
      var length := FromBE(q[2..4]);
      assert p[4..4 + length] == q[4..4 + length];
      XElementsOfPrefix(q[4 + length..], p[4 + length..], count - 1);
    }
  }

  /** The shorter parse is the longer one, or a prefix of it that leaves less than a group count unread. */
  ghost predicate Shorter(q: seq<byte>, a: IO, b: IO)
    requires a.Done? && b.Done?
  {
    a == b || (a.items <= b.items && |q| - a.used < 2)
  }

  lemma {:induction false} GroupsOfPrefix(q: seq<byte>, p: seq<byte>, extended: bool, widths: seq<nat>)
    requires q <= p && Groups(q, extended, widths).Done? && Groups(p, extended, widths).Done?
    ensures Shorter(q, Groups(q, extended, widths), Groups(p, extended, widths))
    decreases |widths|
  {
    hide Elements, XElements, FromBE;
    var n := IdSize(extended);
    if |q| >= n {
      assert p[..n] == q[..n];
      var count, q', p' := FromBE(q[..n]), q[n..], p[n..];
      if widths != [] {
        var first := Elements(q', extended, widths[0], count);
        ElementsOfPrefix(q', p', extended, widths[0], count);
        GroupsOfPrefix(q'[first.used..], p'[first.used..], extended, widths[1..]);
        var a, b := Groups(q'[first.used..], extended, widths[1..]), Groups(p'[first.used..], extended, widths[1..]);
        assert a.items <= b.items ==> first.items + a.items <= first.items + b.items;
      } else if extended {
        XElementsOfPrefix(q', p', count);
      }
    }
  }

  lemma RecordOfPrefix(q: seq<byte>, p: seq<byte>, extended: bool)
    requires q <= p && ParseRecord(q, extended).Parsed? && ParseRecord(p, extended).Parsed?
    ensures var a, b := ParseRecord(q, extended), ParseRecord(p, extended);
            a == b || (a.record.gps == b.record.gps && a.record.items <= b.record.items && |q| - a.used < 2)
  {
    hide Groups;
    var n := 1 + IdSize(extended);
    GpsOfPrefix(q, p);
    GroupsOfPrefix(q[GPS_SIZE..][n..], p[GPS_SIZE..][n..], extended, WIDTHS);
  }

  lemma GpsOfPrefix(q: seq<byte>, p: seq<byte>)
    requires q <= p && |q| >= GPS_SIZE
    ensures ParseGps(p) == ParseGps(q)
  {
    hide FromBE, Signed;
    assert p[0..8] == q[0..8] && p[9..13] == q[9..13] && p[13..17] == q[13..17];
    assert p[17..19] == q[17..19] && p[19..21] == q[19..21] && p[22..24] == q[22..24];
  }

  /** Same records, except that the last one may have lost elements from its end. */
  ghost predicate LosesOnlyTail(a: seq<Decoded>, b: seq<Decoded>) {
    |a| == |b| &&
    (forall i | 0 <= i < |a| - 1 :: a[i] == b[i]) &&
    (a != [] ==> a[|a| - 1].gps == b[|b| - 1].gps && a[|a| - 1].items <= b[|b| - 1].items)
  }

  lemma {:induction false} RecordsOfPrefix(q: seq<byte>, p: seq<byte>, extended: bool, count: nat)
    requires q <= p
    requires ParseRecords(q, extended, count).error.None? && ParseRecords(p, extended, count).error.None?
    ensures LosesOnlyTail(ParseRecords(q, extended, count).records, ParseRecords(p, extended, count).records)
    decreases count
  {
    hide ParseRecord, ParseRecords;
    if count == 0 {
      RecordsEnd(q, extended);
      RecordsEnd(p, extended);
    } else {
      RecordsStep(q, extended, count);
      RecordsStep(p, extended, count);
      RecordOfPrefix(q, p, extended);
      var a, b := ParseRecord(q, extended), ParseRecord(p, extended);
      if count == 1 {
        RecordsEnd(q[a.used..], extended);
        RecordsEnd(p[b.used..], extended);
      } else {
        TooShortForMore(q[a.used..], extended, count - 1);
        RecordsOfPrefix(q[a.used..], p[a.used..], extended, count - 1);
      }
    }
  }

  lemma TooShortForMore(q: seq<byte>, extended: bool, count: nat)
    requires count > 0 && ParseRecords(q, extended, count).error.None?
    ensures |q| >= GPS_SIZE
  {
  }

  /** If a payload and a prefix of it both decode, only elements at the end of the last record can differ. */
  lemma TruncationInventsNothing(q: seq<byte>, p: seq<byte>)
    requires q <= p && ParsePayload(q).error.None? && ParsePayload(p).error.None?
    ensures LosesOnlyTail(ParsePayload(q).records, ParsePayload(p).records)
  {
    hide ParseRecords;
    assert q[1..] <= p[1..] && q[1..][1..] <= p[1..][1..];
    RecordsOfPrefix(q[1..][1..], p[1..][1..], q[0] == CODEC8E, q[1]);
  }

  // ---------------------------------------------------------------------------
  // Omitted groups

  /** The first groups of a record, and no more. */
  function EncodeSome(groups: seq<seq<AvlRoundTrip.Element>>, widths: seq<nat>, extended: bool): seq<byte>
    requires |groups| <= |widths|
  {
    if groups == [] then []
    else AvlRoundTrip.EncodeGroup(groups[0], extended, widths[0]) + EncodeSome(groups[1..], widths[1..], extended)
  }

  function SomeItems(groups: seq<seq<AvlRoundTrip.Element>>, widths: seq<nat>): seq<Item>
    requires |groups| <= |widths|
  {
    if groups == [] then [] else AvlRoundTrip.ElementItems(groups[0], widths[0]) + SomeItems(groups[1..], widths[1..])
  }

  lemma {:induction false} GroupsOmitted(groups: seq<seq<AvlRoundTrip.Element>>, widths: seq<nat>, extended: bool, rest: seq<byte>)
    requires |groups| <= |widths| && |rest| < IdSize(extended)
    requires forall es | es in groups :: AvlRoundTrip.ElementsFit(es, extended)
    ensures Groups(EncodeSome(groups, widths, extended) + rest, extended, widths) ==
            Done(SomeItems(groups, widths), |EncodeSome(groups, widths, extended)|)
    decreases |groups|
  {
    hide Groups, AvlRoundTrip.EncodeGroup, AvlRoundTrip.ElementItems, AvlRoundTrip.ElementsFit;
    var s := EncodeSome(groups, widths, extended) + rest;
    if groups == [] {
      assert s == rest;
      TooShortForGroup(rest, extended, widths);
    } else {
      var es, more := groups[0], EncodeSome(groups[1..], widths[1..], extended) + rest;
      assert s == AvlRoundTrip.EncodeGroup(es, extended, widths[0]) + more;
      AvlRoundTrip.OneGroup(es, extended, widths, more);
      GroupsOmitted(groups[1..], widths[1..], extended, rest);
    }
  }

  lemma TooShortForGroup(rest: seq<byte>, extended: bool, widths: seq<nat>)
    requires |rest| < IdSize(extended)
    ensures Groups(rest, extended, widths) == Done([], 0)
  {
  }

  /** A record may end at any group: the groups before decode as ever, and the omitted ones count as empty. */
  lemma OmittedGroupsAreEmpty(r: AvlRoundTrip.Record, extended: bool, j: nat, head: seq<byte>, rest: seq<byte>)
    requires AvlRoundTrip.Encodable(r, extended) && j <= 4 && |head| == 1 + IdSize(extended) && |rest| < IdSize(extended)
    ensures var s := AvlRoundTrip.EncodeGps(r.gps, r.priority) + head + EncodeSome(r.Groups()[..j], WIDTHS, extended);
            ParseRecord(s + rest, extended) == Parsed(Decoded(r.gps, SomeItems(r.Groups()[..j], WIDTHS)), |s|)
  {
    hide Groups, AvlRoundTrip.EncodeGps, ParseGps, EncodeSome, SomeItems, AvlRoundTrip.ElementsFit, AvlRoundTrip.GpsFits;
    hide AvlRoundTrip.XsFit;
    var gps, some := AvlRoundTrip.EncodeGps(r.gps, r.priority), EncodeSome(r.Groups()[..j], WIDTHS, extended);
    var s := gps + head + some + rest;
    assert s == gps + (head + some + rest);
    AvlRoundTrip.GpsRoundTrip(r.gps, r.priority, head + some + rest);
    assert s[GPS_SIZE..] == head + (some + rest);
    assert s[GPS_SIZE..][|head|..] == some + rest;
    assert forall es | es in r.Groups()[..j] :: es in r.Groups();
    GroupsOmitted(r.Groups()[..j], WIDTHS, extended, rest);
  }
}
