/** The plan `diff_to` emits: cancels, then resizes, then places. */
module DiffPlan {
  import opened MachineInts
  import opened LevelOps
  import opened SdkErrors
  import opened ChainBook
  import opened Snapshot

  /** The first complaint of the target scan: a zero size, or an id named before. */
  function TargetError(desired: Levels): Option<SdkError> {
    if desired == [] then None
    else
      var n := |desired| - 1;
      var o := desired[n];
      match TargetError(desired[..n])
      case Some(e) => Some(e)
      case None =>
        if o.size == 0 then Some(InvalidSize)
        else if Position(desired[..n], o.id).Some? then Some(LimitOrderAlreadyExists(o.id))
        else None
  }

  function CancelPlan(levels: Levels, target: BookMap, mode: CancelMode): seq<LevelOp> {
    if levels == [] then []
    else
      var o := levels[|levels| - 1];
      CancelPlan(levels[..|levels| - 1], target, mode)
        + (if o.id in target then [] else [CancelOp(mode, o.id, o.size)])
  }

  function ResizePlan(seen: BookMap, desired: Levels): seq<LevelOp> {
    if desired == [] then []
    else
      var o := desired[|desired| - 1];
      ResizePlan(seen, desired[..|desired| - 1])
        + (if o.id in seen && seen[o.id] != o.size then [LevelOp.Resize(o.id, seen[o.id], o.size)] else [])
  }

  function PlacePlan(seen: BookMap, desired: Levels): seq<LevelOp> {
    if desired == [] then []
    else
      var o := desired[|desired| - 1];
      PlacePlan(seen, desired[..|desired| - 1])
        + (if o.id in seen then [] else [LevelOp.Place(o.id, o.size)])
  }

  function Plan(levels: Levels, desired: Levels, mode: CancelMode): seq<LevelOp> {
    CancelPlan(levels, AsMap(desired), mode)
      + ResizePlan(AsMap(levels), desired)
      + PlacePlan(AsMap(levels), desired)
  }

  lemma {:induction false} TargetErrorStays(desired: Levels, n: nat)
    requires n <= |desired|
    requires TargetError(desired[..n]).Some?
    ensures TargetError(desired) == TargetError(desired[..n])
    decreases |desired| - n
  {
    if n < |desired| {
      assert desired[..n + 1][..n] == desired[..n];
      TargetErrorStays(desired, n + 1);
    } else {
      assert desired[..n] == desired;
    }
  }

  lemma {:induction false} TargetErrorMeaning(desired: Levels)
    ensures TargetError(desired).None? <==>
            Distinct(desired) && forall i | 0 <= i < |desired| :: desired[i].size > 0
  {
    if desired != [] {
      var n := |desired| - 1;
      TargetErrorMeaning(desired[..n]);
      if TargetError(desired).None? {
        assert forall i | 0 <= i < n :: desired[..n][i].id != desired[n].id;
      } else if TargetError(desired[..n]).Some? {
        assert forall i | 0 <= i < n :: desired[..n][i] == desired[i];
      }
    }
  }

  /** The ids `diff_to` collects for its cancel loop. */
  function CancelIds(levels: Levels, desired: Levels): seq<LimitOrderId> {
    if levels == [] then []
    else
      var id := levels[|levels| - 1].id;
      CancelIds(levels[..|levels| - 1], desired) + (if Position(desired, id).Some? then [] else [id])
  }

  function IdSet(ids: seq<LimitOrderId>): set<LimitOrderId> {
    set id | id in ids
  }

  function CancelOps(seen: BookMap, ids: seq<LimitOrderId>, mode: CancelMode): seq<LevelOp>
    requires forall i | 0 <= i < |ids| :: ids[i] in seen
  {
    seq(|ids|, i requires 0 <= i < |ids| => CancelOp(mode, ids[i], seen[ids[i]]))
  }

  /** The collected ids are the snapshot's ids outside the target, each once, and
      cancelling them is the cancel part of the plan. */
  lemma {:induction false} CancelIdsMeaning(levels: Levels, desired: Levels, mode: CancelMode)
    requires Distinct(levels)
    ensures var ids := CancelIds(levels, desired);
            && (forall i, j | 0 <= i < j < |ids| :: ids[i] != ids[j])
            && (forall i | 0 <= i < |ids| :: ids[i] in AsMap(levels))
            && IdSet(ids) == AsMap(levels).Keys - AsMap(desired).Keys
            && CancelOps(AsMap(levels), ids, mode) == CancelPlan(levels, AsMap(desired), mode)
  {
    if levels != [] {
      var n := |levels| - 1;
      var o, before := levels[n], CancelIds(levels[..n], desired);
      DistinctPrefix(levels);
      CancelIdsMeaning(levels[..n], desired, mode);
      AsMapFirst(desired, o.id);
      assert forall i | 0 <= i < |before| :: before[i] in AsMap(levels[..n]);
      if o.id !in AsMap(desired) {
        var ids := CancelIds(levels, desired);
        assert ids == before + [o.id];
        assert IdSet(ids) == IdSet(before) + {o.id};
        assert CancelOps(AsMap(levels), ids, mode)
            == CancelOps(AsMap(levels[..n]), before, mode) + [CancelOp(mode, o.id, o.size)];
      } else {
        assert CancelIds(levels, desired) == before;
        assert CancelOps(AsMap(levels), before, mode) == CancelOps(AsMap(levels[..n]), before, mode);
        assert CancelPlan(levels, AsMap(desired), mode) == CancelPlan(levels[..n], AsMap(desired), mode);
      }
    }
  }

  // ---------- one op per difference ----------

  /** What the plan may say about one id, given both maps. */
  function OpsFor(seen: BookMap, target: BookMap, mode: CancelMode, id: LimitOrderId): seq<LevelOp> {
    if id in seen && id !in target then [CancelOp(mode, id, seen[id])]
    else if id in seen && id in target && seen[id] != target[id] then
      [LevelOp.Resize(id, seen[id], target[id])]
    else if id !in seen && id in target then [LevelOp.Place(id, target[id])]
    else []
  }

  lemma {:induction false} OpsNameTheirOrder(o: Order, mode: CancelMode, seen: u64, id: LimitOrderId)
    ensures CancelOp(mode, o.id, o.size).Names(id) <==> id == o.id
    ensures LevelOp.Resize(o.id, seen, o.size).Names(id) <==> id == o.id
    ensures LevelOp.Place(o.id, o.size).Names(id) <==> id == o.id
  {
  }

  lemma {:induction false} CancelPlanAt(levels: Levels, target: BookMap, mode: CancelMode, id: LimitOrderId)
    requires Distinct(levels)
    ensures var m := AsMap(levels);
            OpsAt(CancelPlan(levels, target, mode), id)
              == if id in m && id !in target then [CancelOp(mode, id, m[id])] else []
  {
    if levels != [] {
      var n := |levels| - 1;
      var o, before := levels[n], CancelPlan(levels[..n], target, mode);
      DistinctPrefix(levels);
      CancelPlanAt(levels[..n], target, mode, id);
      if o.id !in target {
        OpsAtAppend(before, CancelOp(mode, o.id, o.size), id);
        OpsNameTheirOrder(o, mode, 0, id);
      } else {
        assert CancelPlan(levels, target, mode) == before;
      }
    }
  }

  lemma {:induction false} ResizePlanAt(seen: BookMap, desired: Levels, id: LimitOrderId)
    requires Distinct(desired)
    ensures var m := AsMap(desired);
            OpsAt(ResizePlan(seen, desired), id)
              == if id in m && id in seen && seen[id] != m[id]
                 then [LevelOp.Resize(id, seen[id], m[id])] else []
  {
    if desired != [] {
      var n := |desired| - 1;
      var o, before := desired[n], ResizePlan(seen, desired[..n]);
      DistinctPrefix(desired);
      ResizePlanAt(seen, desired[..n], id);
      if o.id in seen && seen[o.id] != o.size {
        OpsAtAppend(before, LevelOp.Resize(o.id, seen[o.id], o.size), id);
        OpsNameTheirOrder(o, Any, seen[o.id], id);
      } else {
        assert ResizePlan(seen, desired) == before;
      }
    }
  }

  lemma {:induction false} PlacePlanAt(seen: BookMap, desired: Levels, id: LimitOrderId)
    requires Distinct(desired)
    ensures var m := AsMap(desired);
            OpsAt(PlacePlan(seen, desired), id)
              == if id in m && id !in seen then [LevelOp.Place(id, m[id])] else []
  {
    if desired != [] {
      var n := |desired| - 1;
      var o, before := desired[n], PlacePlan(seen, desired[..n]);
      DistinctPrefix(desired);
      PlacePlanAt(seen, desired[..n], id);
      if o.id !in seen {
        OpsAtAppend(before, LevelOp.Place(o.id, o.size), id);
        OpsNameTheirOrder(o, Any, 0, id);
      } else {
        assert PlacePlan(seen, desired) == before;
      }
    }
  }

  /** The plan holds exactly one op per id on which the two maps differ, the one
      that turns the seen size into the desired one, and none for any other id. */
  lemma {:induction false} OneOpPerDifference(levels: Levels, desired: Levels, mode: CancelMode, id: LimitOrderId)
    requires Distinct(levels) && Distinct(desired)
    ensures OpsAt(Plan(levels, desired, mode), id) == OpsFor(AsMap(levels), AsMap(desired), mode, id)
  {
    var c := CancelPlan(levels, AsMap(desired), mode);
    var r := ResizePlan(AsMap(levels), desired);
    var p := PlacePlan(AsMap(levels), desired);
    OpsAtConcat(c + r, p, id);
    OpsAtConcat(c, r, id);
    CancelPlanAt(levels, AsMap(desired), mode, id);
    ResizePlanAt(AsMap(levels), desired, id);
    PlacePlanAt(AsMap(levels), desired, id);
  }

  lemma {:induction false} CancelPlanOps(levels: Levels, target: BookMap, mode: CancelMode)
    ensures forall op | op in CancelPlan(levels, target, mode) :: op.newSize == 0
    ensures |CancelPlan(levels, target, mode)| <= |levels|
  {
    if levels != [] {
      CancelPlanOps(levels[..|levels| - 1], target, mode);
    }
  }

  lemma {:induction false} WritePlanOps(seen: BookMap, desired: Levels)
    requires forall id | id in seen :: seen[id] > 0
    requires forall i | 0 <= i < |desired| :: desired[i].size > 0
    ensures forall op | op in ResizePlan(seen, desired) :: op.newSize > 0 && op.expectedSize > 0
    ensures forall op | op in PlacePlan(seen, desired) :: op.newSize > 0 && op.expectedSize == 0
    ensures |ResizePlan(seen, desired)| + |PlacePlan(seen, desired)| <= |desired|
  {
    if desired != [] {
      WritePlanOps(seen, desired[..|desired| - 1]);
    }
  }

  /** Cancels come first, then resizes, then places; and nothing else. */
  lemma {:induction false} PlanOrder(levels: Levels, desired: Levels, mode: CancelMode)
    requires WellFormed(levels)
    requires forall i | 0 <= i < |desired| :: desired[i].size > 0
    ensures forall op | op in CancelPlan(levels, AsMap(desired), mode) :: op.newSize == 0
    ensures forall op | op in ResizePlan(AsMap(levels), desired) :: op.newSize > 0 && op.expectedSize > 0
    ensures forall op | op in PlacePlan(AsMap(levels), desired) :: op.newSize > 0 && op.expectedSize == 0
    ensures |CancelPlan(levels, AsMap(desired), mode)| <= |levels|
    ensures |ResizePlan(AsMap(levels), desired)| + |PlacePlan(AsMap(levels), desired)| <= |desired|
  {
    CancelPlanOps(levels, AsMap(desired), mode);
    WellFormedIsLegal(levels);
    WritePlanOps(AsMap(levels), desired);
  }

  lemma {:induction false} CancelsDecode(levels: Levels, target: BookMap, mode: CancelMode)
    ensures forall op | op in CancelPlan(levels, target, mode) :: op.DecodedSide().Ok?
  {
    if levels != [] {
      CancelsDecode(levels[..|levels| - 1], target, mode);
    }
  }

  lemma {:induction false} WritesDecode(seen: BookMap, desired: Levels)
    ensures forall op | op in ResizePlan(seen, desired) :: op.DecodedSide().Ok?
    ensures forall op | op in PlacePlan(seen, desired) :: op.DecodedSide().Ok?
  {
    if desired != [] {
      WritesDecode(seen, desired[..|desired| - 1]);
    }
  }

  lemma {:induction false} PlanOpsDecode(levels: Levels, desired: Levels, mode: CancelMode)
    ensures forall op | op in CancelPlan(levels, AsMap(desired), mode) :: op.DecodedSide().Ok?
    ensures forall op | op in ResizePlan(AsMap(levels), desired) :: op.DecodedSide().Ok?
    ensures forall op | op in PlacePlan(AsMap(levels), desired) :: op.DecodedSide().Ok?
  {
    CancelsDecode(levels, AsMap(desired), mode);
    WritesDecode(AsMap(levels), desired);
  }

  // ---------- replaying the plan ----------

  /** The chain agrees with the snapshot wherever a guard of the plan is live. */
  ghost predicate GuardsAgree(b: BookMap, seen: BookMap) {
    && b.Keys == seen.Keys
    && forall id | id in b :: b[id] == seen[id] || seen[id] == LEVEL_OP_EXPECTED_ANY
  }

  function Resized(b: BookMap, seen: BookMap, target: BookMap): BookMap {
    map id | id in b.Keys :: if id in target && id in seen && seen[id] != target[id] then target[id] else b[id]
  }

  function Placed(b: BookMap, seen: BookMap, target: BookMap): BookMap {
    b + map id | id in target.Keys && id !in seen :: target[id]
  }

  /** Where the whole plan leaves a book that `GuardsAgree` with the snapshot. */
  function Target(b: BookMap, seen: BookMap, target: BookMap): BookMap {
    map id | id in target.Keys :: if id in b && id in seen && seen[id] == target[id] then b[id] else target[id]
  }

  lemma {:induction false} CancelAccepted(b: BookMap, o: Order, mode: CancelMode)
    requires o.id in b && o.id.priceTicks > 0
    requires b[o.id] == o.size || o.size == LEVEL_OP_EXPECTED_ANY
    ensures ApplyOp(b, CancelOp(mode, o.id, o.size)) == Ok(b - {o.id})
  {
  }

  lemma {:induction false} CancelsStep(b: BookMap, m: BookMap, target: BookMap, o: Order)
    ensures o.id !in target ==>
              b - (m.Keys - target.Keys) - {o.id} == b - (m[o.id := o.size].Keys - target.Keys)
    ensures o.id in target ==>
              b - (m.Keys - target.Keys) == b - (m[o.id := o.size].Keys - target.Keys)
  {
  }

  lemma {:induction false} ReplayCancels(b: BookMap, levels: Levels, target: BookMap, mode: CancelMode)
    requires Distinct(levels)
    requires forall id | id in AsMap(levels) :: id.priceTicks > 0 && id in b
               && (b[id] == AsMap(levels)[id] || AsMap(levels)[id] == LEVEL_OP_EXPECTED_ANY)
    ensures Replay(b, CancelPlan(levels, target, mode)) == Ok(b - (AsMap(levels).Keys - target.Keys))
  {
    if levels == [] {
      assert b - (AsMap(levels).Keys - target.Keys) == b;
    } else {
      var n := |levels| - 1;
      var o, m := levels[n], AsMap(levels[..n]);
      DistinctPrefix(levels);
      ReplayCancels(b, levels[..n], target, mode);
      CancelsStep(b, m, target, o);
      if o.id !in target {
        CancelAccepted(b - (m.Keys - target.Keys), o, mode);
        ReplayAppend(b, CancelPlan(levels[..n], target, mode), CancelOp(mode, o.id, o.size));
      } else {
        assert CancelPlan(levels, target, mode) == CancelPlan(levels[..n], target, mode);
      }
    }
  }

  lemma {:induction false} ResizedStep(b: BookMap, seen: BookMap, m: BookMap, o: Order)
    requires o.id !in m
    requires o.id in seen ==> o.id in b && (b[o.id] == seen[o.id] || seen[o.id] == LEVEL_OP_EXPECTED_ANY)
    requires o.id in seen ==> o.id.priceTicks > 0
    requires o.size > 0
    ensures o.id in seen && seen[o.id] != o.size ==>
              ApplyOp(Resized(b, seen, m), LevelOp.Resize(o.id, seen[o.id], o.size))
                == Ok(Resized(b, seen, m[o.id := o.size]))
    ensures o.id in seen && seen[o.id] != o.size ==>
              Resized(b, seen, m)[o.id := o.size] == Resized(b, seen, m[o.id := o.size])
    ensures !(o.id in seen && seen[o.id] != o.size) ==>
              Resized(b, seen, m) == Resized(b, seen, m[o.id := o.size])
  {
    if o.id in seen && seen[o.id] != o.size {
      assert Resized(b, seen, m)[o.id := o.size] == Resized(b, seen, m[o.id := o.size]);
    }
  }

  lemma {:induction false} ReplayResizes(b: BookMap, seen: BookMap, desired: Levels)
    requires Distinct(desired)
    requires forall id | id in AsMap(desired) && id in seen :: id.priceTicks > 0 && id in b
               && (b[id] == seen[id] || seen[id] == LEVEL_OP_EXPECTED_ANY)
    requires forall id | id in AsMap(desired) :: AsMap(desired)[id] > 0
    ensures Replay(b, ResizePlan(seen, desired)) == Ok(Resized(b, seen, AsMap(desired)))
  {
    if desired == [] {
      assert Resized(b, seen, AsMap(desired)) == b;
    } else {
      var n := |desired| - 1;
      var o, m := desired[n], AsMap(desired[..n]);
      DistinctPrefix(desired);
      assert AsMap(desired)[o.id] == o.size;
      assert forall id | id in m :: AsMap(desired)[id] == m[id];
      ReplayResizes(b, seen, desired[..n]);
      ResizedStep(b, seen, m, o);
      if o.id in seen && seen[o.id] != o.size {
        ReplayAppend(b, ResizePlan(seen, desired[..n]), LevelOp.Resize(o.id, seen[o.id], o.size));
      } else {
        assert ResizePlan(seen, desired) == ResizePlan(seen, desired[..n]);
      }
    }
  }

  lemma {:induction false} PlacedAppend(b: BookMap, seen: BookMap, m: BookMap, o: Order)
    requires o.id !in m
    ensures Placed(b, seen, m[o.id := o.size])
              == if o.id in seen then Placed(b, seen, m) else Placed(b, seen, m)[o.id := o.size]
  {
  }

  lemma {:induction false} RoomBelowCap(b: BookMap, cap: BookMap, id: LimitOrderId)
    requires b.Keys <= cap.Keys && id in cap && id !in b
    ensures |SideIds(b, id.side)| < |SideIds(cap, id.side)|
  {
    SubsetCardinality(SideIds(b, id.side), SideIds(cap, id.side));
    assert id in SideIds(cap, id.side) && id !in SideIds(b, id.side);
  }

  /** The chain takes a place into a book that stays within a legal one. */
  lemma {:induction false} PlaceAccepted(b: BookMap, cap: BookMap, o: Order)
    requires LegalBook(cap)
    requires b.Keys <= cap.Keys && o.id in cap && o.id !in b
    requires o.size > 0
    ensures ApplyOp(b, LevelOp.Place(o.id, o.size)) == Ok(b[o.id := o.size])
  {
    RoomBelowCap(b, cap, o.id);
  }

  lemma {:induction false} PlacedStep(b: BookMap, seen: BookMap, m: BookMap, o: Order, cap: BookMap)
    requires LegalBook(cap)
    requires o.id !in m
    requires b.Keys <= cap.Keys && m.Keys <= cap.Keys && o.id in cap
    requires o.id !in seen ==> o.id !in b
    requires o.size > 0
    ensures o.id !in seen ==>
              ApplyOp(Placed(b, seen, m), LevelOp.Place(o.id, o.size)) == Ok(Placed(b, seen, m[o.id := o.size]))
    ensures o.id in seen ==> Placed(b, seen, m) == Placed(b, seen, m[o.id := o.size])
  {
    PlacedAppend(b, seen, m, o);
    if o.id !in seen {
      PlaceAccepted(Placed(b, seen, m), cap, o);
    }
  }

  lemma {:induction false} ReplayPlaces(b: BookMap, seen: BookMap, desired: Levels, cap: BookMap)
    requires Distinct(desired)
    requires LegalBook(cap)
    requires b.Keys <= cap.Keys && AsMap(desired).Keys <= cap.Keys
    requires forall id | id in AsMap(desired) && id !in seen :: id !in b
    requires forall id | id in AsMap(desired) :: AsMap(desired)[id] > 0
    ensures Replay(b, PlacePlan(seen, desired)) == Ok(Placed(b, seen, AsMap(desired)))
  {
    if desired == [] {
      assert Placed(b, seen, AsMap(desired)) == b;
    } else {
      var n := |desired| - 1;
      var o, m := desired[n], AsMap(desired[..n]);
      DistinctPrefix(desired);
      assert AsMap(desired)[o.id] == o.size;
      assert forall id | id in m :: AsMap(desired)[id] == m[id];
      ReplayPlaces(b, seen, desired[..n], cap);
      PlacedStep(b, seen, m, o, cap);
      if o.id !in seen {
        ReplayAppend(b, PlacePlan(seen, desired[..n]), LevelOp.Place(o.id, o.size));
      } else {
        assert PlacePlan(seen, desired) == PlacePlan(seen, desired[..n]);
      }
    }
  }

  /** The three phases on maps. */
  lemma {:induction false} PhasesReachTarget(b: BookMap, seen: BookMap, target: BookMap)
    requires b.Keys == seen.Keys
    ensures var kept := b - (seen.Keys - target.Keys);
            && Resized(kept, seen, target).Keys == seen.Keys * target.Keys
            && Placed(Resized(kept, seen, target), seen, target) == Target(b, seen, target)
  {
    assert (b - (seen.Keys - target.Keys)).Keys == seen.Keys * target.Keys;
  }

  /** Every guard of the plan passes on a chain book that agrees with the
      snapshot, and the book ends at the desired sizes. */
  lemma {:induction false} ReplayPlan(b: BookMap, levels: Levels, desired: Levels, mode: CancelMode)
    requires WellFormed(levels) && WellFormed(desired)
    requires GuardsAgree(b, AsMap(levels))
    ensures Replay(b, Plan(levels, desired, mode)) == Ok(Target(b, AsMap(levels), AsMap(desired)))
  {
    WellFormedIsLegal(levels);
    WellFormedIsLegal(desired);
    var seen, target := AsMap(levels), AsMap(desired);
    var c := CancelPlan(levels, target, mode);
    var r := ResizePlan(seen, desired);
    PhasesReachTarget(b, seen, target);
    ReplayCancels(b, levels, target, mode);
    var kept := b - (seen.Keys - target.Keys);
    ReplayResizes(kept, seen, desired);
    ReplayConcat(b, c, r);
    ReplayPlaces(Resized(kept, seen, target), seen, desired, target);
    ReplayConcat(b, c + r, PlacePlan(seen, desired));
  }

  /** On the snapshot itself the plan yields exactly the desired map. */
  lemma {:induction false} PlanReachesDesired(levels: Levels, desired: Levels, mode: CancelMode)
    requires WellFormed(levels) && WellFormed(desired)
    ensures Replay(AsMap(levels), Plan(levels, desired, mode)) == Ok(AsMap(desired))
  {
    ReplayPlan(AsMap(levels), levels, desired, mode);
    assert Target(AsMap(levels), AsMap(levels), AsMap(desired)) == AsMap(desired);
  }
}
