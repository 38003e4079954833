/** A decoded position as a closed-form reading of its element list. */
module AvlMeaning {
  import opened Options
  import opened Bytes
  import opened Avl

  /** The value of the last numeric element carrying one of the ids. */
  function Last(items: seq<Item>, ids: set<nat>): Option<int> {
    if items == [] then None
    else
      var x := items[|items| - 1];
      if x.Num? && x.id in ids then Some(x.value) else Last(items[..|items| - 1], ids)
  }

  /** The first nonzero value among the numeric elements carrying one of the ids, or zero. */
  function FirstNonZero(items: seq<Item>, ids: set<nat>): int {
    if items == [] then 0
    else
      var x := items[0];
      if x.Num? && x.id in ids && x.value != 0 then x.value else FirstNonZero(items[1..], ids)
  }

  /** The last element of each id, whatever its kind. */
  function LastPerId(items: seq<Item>): map<nat, RawValue> {
    if items == [] then map[]
    else
      var x := items[|items| - 1];
      LastPerId(items[..|items| - 1])[x.id := if x.Num? then Number(x.value) else Hex(x.data)]
  }

  function Or(o: Option<int>, default: int): int {
    if o.Some? then o.value else default
  }

  /** The position that the element list describes, field by field. */
  function Describe(deviceId: int, r: Decoded): Position {
    var items := r.items;
    var door := Last(items, {2});
    Position(
      deviceId, r.gps,
      Last(items, {1, 239}) == Some(1),
      Int16(Or(Last(items, {5}), 0)),
      FirstNonZero(items, {7, 66}),
      Int16(Or(Last(items, {72}), 0)),
      Or(Last(items, {16}), 0),
      Last(items, {207}),
      Last(items, {84}),
      Last(items, {67}),
      if door.Some? then Some(door.value == 1) else None,
      LastPerId(items))
  }

  lemma Int16Zero()
    ensures Int16(0) == 0
  {
    Pow256Values();
  }

  lemma {:induction false} FirstNonZeroSnoc(items: seq<Item>, x: Item, ids: set<nat>)
    ensures FirstNonZero(items + [x], ids) ==
            if FirstNonZero(items, ids) != 0 then FirstNonZero(items, ids)
            else if x.Num? && x.id in ids then x.value else 0
    decreases |items|
  {
    if items == [] {
      assert items + [x] == [x];
      assert [x][1..] == [];
    } else {
      assert (items + [x])[1..] == items[1..] + [x];
      FirstNonZeroSnoc(items[1..], x, ids);
    }
  }

  lemma LastSnoc(items: seq<Item>, x: Item, ids: set<nat>)
    ensures Last(items + [x], ids) == if x.Num? && x.id in ids then Some(x.value) else Last(items, ids)
  {
    assert (items + [x])[..|items|] == items;
  }

  lemma LastPerIdSnoc(items: seq<Item>, x: Item)
    ensures LastPerId(items + [x]) == LastPerId(items)[x.id := if x.Num? then Number(x.value) else Hex(x.data)]
  {
    assert (items + [x])[..|items|] == items;
  }

  /** Adding one element to the list changes the description as the decoder changes the position. */
  lemma DescribeSnoc(deviceId: int, gps: Gps, items: seq<Item>, x: Item)
    ensures Describe(deviceId, Decoded(gps, items + [x])) == ApplyItem(Describe(deviceId, Decoded(gps, items)), x)
  {
    hide Last, FirstNonZero, LastPerId, Int16;
    LastSnoc(items, x, {2});
    LastSnoc(items, x, {1, 239});
    LastSnoc(items, x, {5});
    LastSnoc(items, x, {72});
    LastSnoc(items, x, {16});
    LastSnoc(items, x, {207});
    LastSnoc(items, x, {84});
    LastSnoc(items, x, {67});
    LastPerIdSnoc(items, x);
    FirstNonZeroSnoc(items, x, {7, 66});
  }

  /** The decoder's element-by-element updates compute the description, whatever the elements. */
  lemma {:induction false} PositionIsDescription(deviceId: int, r: Decoded)
    ensures ToPosition(deviceId, r) == Describe(deviceId, r)
    decreases |r.items|
  {
    var items := r.items;
    if items == [] {
      Int16Zero();
    } else {
      var front, x := items[..|items| - 1], items[|items| - 1];
      assert items == front + [x];
      PositionIsDescription(deviceId, Decoded(r.gps, front));
      ApplyAllConcat(Blank(deviceId, r.gps), front, [x]);
      ApplyAllOne(ApplyAll(Blank(deviceId, r.gps), front), x);
      DescribeSnoc(deviceId, r.gps, front, x);
    }
  }

  lemma ApplyAllOne(p: Position, x: Item)
    ensures ApplyAll(p, [x]) == ApplyItem(p, x)
  {
    assert ApplyAll(p, [x]) == ApplyAll(ApplyItem(p, x), []);
  }
}
