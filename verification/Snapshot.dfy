/** The client's level list, as `LocalBook` stores it, and the map it stands for. */
module Snapshot {
  import opened MachineInts
  import opened LevelOps
  import opened ChainBook

  type Levels = seq<Order>

  /** Index of the first entry for `id`. */
  function Position(levels: Levels, id: LimitOrderId): (p: Option<nat>)
    ensures p.Some? ==> p.value < |levels| && levels[p.value].id == id
    ensures p.Some? ==> forall i | 0 <= i < p.value :: levels[i].id != id
    ensures p.None? ==> forall i | 0 <= i < |levels| :: levels[i].id != id
  {
    if levels == [] then None
    else
      var n := |levels| - 1;
      match Position(levels[..n], id)
      case Some(i) => Some(i)
      case None => if levels[n].id == id then Some(n) else None
  }

  /** Number of entries on a side. */
  function SideCount(levels: Levels, side: Side): nat {
    if levels == [] then 0
    else
      var n := |levels| - 1;
      SideCount(levels[..n], side) + (if levels[n].id.side == side then 1 else 0)
  }

  /** The map of resting sizes; the first entry for an id counts. */
  function AsMap(levels: Levels): BookMap {
    if levels == [] then map[]
    else
      var n := |levels| - 1;
      var m := AsMap(levels[..n]);
      if levels[n].id in m then m else m[levels[n].id := levels[n].size]
  }

  ghost predicate Distinct(levels: Levels) {
    forall i, j | 0 <= i < j < |levels| :: levels[i].id != levels[j].id
  }

  /** Distinct ids, positive sizes and prices, at most 16 orders a side. */
  ghost predicate WellFormed(levels: Levels) {
    && Distinct(levels)
    && (forall i | 0 <= i < |levels| :: levels[i].size > 0 && levels[i].id.priceTicks > 0)
    && SideCount(levels, Bid) <= MAX_LEVELS
    && SideCount(levels, Ask) <= MAX_LEVELS
  }

  lemma {:induction false} AsMapFirst(levels: Levels, id: LimitOrderId)
    ensures id in AsMap(levels) <==> Position(levels, id).Some?
    ensures id in AsMap(levels) ==> AsMap(levels)[id] == levels[Position(levels, id).value].size
  {
    if levels != [] {
      AsMapFirst(levels[..|levels| - 1], id);
    }
  }

  /** With distinct ids the map holds exactly the entries. */
  lemma {:induction false} AsMapEntries(levels: Levels)
    ensures forall i | 0 <= i < |levels| :: levels[i].id in AsMap(levels)
    ensures forall id | id in AsMap(levels) ::
              exists i :: 0 <= i < |levels| && levels[i].id == id && levels[i].size == AsMap(levels)[id]
    ensures Distinct(levels) ==>
              forall i | 0 <= i < |levels| :: AsMap(levels)[levels[i].id] == levels[i].size
  {
    forall i | 0 <= i < |levels|
      ensures levels[i].id in AsMap(levels)
      ensures Distinct(levels) ==> AsMap(levels)[levels[i].id] == levels[i].size
    {
      AsMapFirst(levels, levels[i].id);
    }
    forall id | id in AsMap(levels)
      ensures exists i :: 0 <= i < |levels| && levels[i].id == id && levels[i].size == AsMap(levels)[id]
    {
      AsMapFirst(levels, id);
    }
  }

  lemma {:induction false} AsMapAppend(levels: Levels, o: Order)
    ensures o.id !in AsMap(levels) ==> AsMap(levels + [o]) == AsMap(levels)[o.id := o.size]
    ensures forall side :: SideCount(levels + [o], side)
              == SideCount(levels, side) + (if o.id.side == side then 1 else 0)
  {
    assert (levels + [o])[..|levels|] == levels;
  }

  lemma {:induction false} DistinctPrefix(levels: Levels)
    requires Distinct(levels) && levels != []
    ensures Distinct(levels[..|levels| - 1])
    ensures levels[|levels| - 1].id !in AsMap(levels[..|levels| - 1])
    ensures AsMap(levels) == AsMap(levels[..|levels| - 1])[levels[|levels| - 1].id := levels[|levels| - 1].size]
  {
    var n := |levels| - 1;
    AsMapFirst(levels[..n], levels[n].id);
  }

  lemma {:induction false} AsMapUpdate(levels: Levels, i: nat, size: u64)
    requires Distinct(levels) && i < |levels|
    ensures Distinct(levels[i := Order(levels[i].id, size)])
    ensures AsMap(levels[i := Order(levels[i].id, size)]) == AsMap(levels)[levels[i].id := size]
    ensures forall side :: SideCount(levels[i := Order(levels[i].id, size)], side) == SideCount(levels, side)
  {
    var n := |levels| - 1;
    var after := levels[i := Order(levels[i].id, size)];
    DistinctPrefix(levels);
    if i == n {
      assert after[..n] == levels[..n];
    } else {
      assert after[..n] == levels[..n][i := Order(levels[i].id, size)];
      AsMapUpdate(levels[..n], i, size);
      AsMapFirst(levels[..n], levels[i].id);
    }
  }

  /** The list without entry `i`, as `Vec::remove` leaves it. */
  function Without(levels: Levels, i: nat): Levels
    requires i < |levels|
  {
    levels[..i] + levels[i + 1..]
  }

  lemma {:induction false} WithoutSplits(levels: Levels, i: nat)
    requires i < |levels| - 1
    ensures Without(levels, i) == Without(levels[..|levels| - 1], i) + [levels[|levels| - 1]]
  {
  }

  lemma {:induction false} SideCountRemove(levels: Levels, i: nat, side: Side)
    requires i < |levels|
    ensures SideCount(Without(levels, i), side) <= SideCount(levels, side)
  {
    var n := |levels| - 1;
    if i == n {
      assert Without(levels, i) == levels[..n];
    } else {
      WithoutSplits(levels, i);
      SideCountRemove(levels[..n], i, side);
      AsMapAppend(Without(levels[..n], i), levels[n]);
    }
  }

  lemma {:induction false} AsMapRemove(levels: Levels, i: nat)
    requires Distinct(levels) && i < |levels|
    ensures Distinct(Without(levels, i))
    ensures AsMap(Without(levels, i)) == AsMap(levels) - {levels[i].id}
  {
    var n := |levels| - 1;
    DistinctPrefix(levels);
    if i == n {
      assert Without(levels, i) == levels[..n];
    } else {
      WithoutSplits(levels, i);
      AsMapRemove(levels[..n], i);
      AsMapAppend(Without(levels[..n], i), levels[n]);
      assert levels[n].id != levels[i].id;
    }
  }

  lemma {:induction false} SideCountIsCardinality(levels: Levels, side: Side)
    requires Distinct(levels)
    ensures SideCount(levels, side) == |SideIds(AsMap(levels), side)|
  {
    if levels != [] {
      var n := |levels| - 1;
      DistinctPrefix(levels);
      SideCountIsCardinality(levels[..n], side);
      SideAfterInsert(AsMap(levels[..n]), levels[n].id, levels[n].size);
    }
  }

  /** Well-formedness in terms of the map. */
  lemma {:induction false} WellFormedIsLegal(levels: Levels)
    ensures WellFormed(levels) <==> Distinct(levels) && LegalBook(AsMap(levels))
  {
    AsMapEntries(levels);
    if Distinct(levels) {
      SideCountIsCardinality(levels, Bid);
      SideCountIsCardinality(levels, Ask);
    }
  }

  lemma {:induction false} SideCountsSum(levels: Levels)
    ensures SideCount(levels, Bid) + SideCount(levels, Ask) == |levels|
  {
    if levels != [] {
      SideCountsSum(levels[..|levels| - 1]);
    }
  }
}
