/** What a `diff_to` plan guarantees on chain, whatever fills land in between. */
module DiffSafety {
  import opened MachineInts
  import opened LevelOps
  import opened ChainBook
  import opened Snapshot
  import opened DiffPlan

  /** The plan resizes no level whose observed size is the wildcard value; that is
      the one strict op whose guard the chain would not check. */
  ghost predicate NoWildcardResize(seen: BookMap, target: BookMap) {
    forall id | id in seen && id in target && seen[id] != target[id] :: seen[id] != LEVEL_OP_EXPECTED_ANY
  }

  /** An accepted run of the plan with any fills interleaved. */
  ghost predicate AcceptedRun(levels: Levels, desired: Levels, mode: CancelMode, events: seq<Event>) {
    OpsOf(events) == Plan(levels, desired, mode) && Run(AsMap(levels), events).Ok?
  }

  /** No filled lot rests again: each desired order ends at its size less the lots
      filled there since the snapshot, and nothing else rests. */
  ghost predicate NothingResurrected(levels: Levels, desired: Levels, events: seq<Event>)
    requires Run(AsMap(levels), events).Ok?
  {
    var after, target := Run(AsMap(levels), events).value, AsMap(desired);
    forall id ::
      if id in target then Resting(after, id) + FilledLots(events, id) == target[id]
      else Resting(after, id) == 0
  }

  lemma {:induction false} RunConserves(levels: Levels, desired: Levels, mode: CancelMode, events: seq<Event>)
    requires WellFormed(levels) && WellFormed(desired)
    requires AcceptedRun(levels, desired, mode, events)
    requires NoWildcardResize(AsMap(levels), AsMap(desired))
    ensures NothingResurrected(levels, desired, events)
  {
    WellFormedIsLegal(levels);
    var seen, target := AsMap(levels), AsMap(desired);
    forall id
      ensures if id in target then Resting(Run(seen, events).value, id) + FilledLots(events, id) == target[id]
              else Resting(Run(seen, events).value, id) == 0
    {
      OneOpPerDifference(levels, desired, mode, id);
      if OpsFor(seen, target, mode, id) == [] {
        UntouchedConserves(seen, events, id);
      } else {
        OneWriteConserves(seen, events, id, OpsFor(seen, target, mode, id)[0]);
      }
    }
  }

  /** A fill of one lot at `id`, then the plan. */
  function FillThenPlan(id: LimitOrderId, plan: seq<LevelOp>): seq<Event> {
    if plan == [] then [Fill(id, 1)]
    else FillThenPlan(id, plan[..|plan| - 1]) + [Write(plan[|plan| - 1])]
  }

  lemma {:induction false} FillThenPlanRuns(b: BookMap, id: LimitOrderId, plan: seq<LevelOp>)
    requires id in b && b[id] > 1
    requires Replay(b[id := b[id] - 1], plan).Ok?
    ensures var events := FillThenPlan(id, plan);
            OpsOf(events) == plan
            && Run(b, events) == Replay(b[id := b[id] - 1], plan)
            && FilledLots(events, id) == 1
  {
    var events := FillThenPlan(id, plan);
    if plan == [] {
      assert events[..0] == [];
      assert Run(b, events[..0]) == Ok(b);
      assert OpsOf(events[..0]) == [];
      assert FilledLots(events[..0], id) == 0;
    } else {
      FillThenPlanRuns(b, id, plan[..|plan| - 1]);
      assert events[..|events| - 1] == FillThenPlan(id, plan[..|plan| - 1]);
    }
  }

  /** A wildcard resize does resurrect: a one-lot fill before the plan is written
      back, and every guard still passes. */
  lemma {:induction false} WildcardResizeResurrects(
      levels: Levels, desired: Levels, mode: CancelMode, id: LimitOrderId)
    requires WellFormed(levels) && WellFormed(desired)
    requires id in AsMap(levels) && id in AsMap(desired)
    requires AsMap(levels)[id] == LEVEL_OP_EXPECTED_ANY && AsMap(desired)[id] != LEVEL_OP_EXPECTED_ANY
    ensures var events := FillThenPlan(id, Plan(levels, desired, mode));
            AcceptedRun(levels, desired, mode, events) && !NothingResurrected(levels, desired, events)
  {
    var seen, target := AsMap(levels), AsMap(desired);
    var plan := Plan(levels, desired, mode);
    var b := seen[id := seen[id] - 1];
    ReplayPlan(b, levels, desired, mode);
    FillThenPlanRuns(seen, id, plan);
    assert Resting(Target(b, seen, target), id) == target[id];
  }

  /** No fill is ever resurrected by an accepted run of the plan, in any
      interleaving, exactly when the plan resizes no level observed at the
      wildcard size. */
  lemma {:induction false} NoFillResurrectedIff(levels: Levels, desired: Levels, mode: CancelMode)
    requires WellFormed(levels) && WellFormed(desired)
    ensures (forall events | AcceptedRun(levels, desired, mode, events) ::
               NothingResurrected(levels, desired, events))
            <==> NoWildcardResize(AsMap(levels), AsMap(desired))
  {
    var seen, target := AsMap(levels), AsMap(desired);
    if NoWildcardResize(seen, target) {
      forall events | AcceptedRun(levels, desired, mode, events)
        ensures NothingResurrected(levels, desired, events)
      {
        RunConserves(levels, desired, mode, events);
      }
    } else {
      var id :| id in seen && id in target && seen[id] != target[id] && seen[id] == LEVEL_OP_EXPECTED_ANY;
      WildcardResizeResurrects(levels, desired, mode, id);
    }
  }

  // ---------- every intermediate state is legal ----------

  lemma {:induction false} OpAtIsOp(ops: seq<LevelOp>, id: LimitOrderId)
    ensures forall op | op in OpsAt(ops, id) :: op in ops && op.Names(id)
  {
    if ops != [] {
      OpAtIsOp(ops[..|ops| - 1], id);
    }
  }

  /** While only cancels are in, what rests was in the snapshot. */
  lemma {:induction false} RestingBeforeWrites(b: BookMap, events: seq<Event>, cancels: seq<LevelOp>, id: LimitOrderId)
    requires OpsOf(events) <= cancels
    requires forall op | op in cancels :: op.newSize == 0
    requires Run(b, events).Ok?
    requires id in Run(b, events).value
    ensures id in b
  {
    var at := OpsAt(OpsOf(events), id);
    OpAtIsOp(OpsOf(events), id);
    forall k | 0 <= k < |at| ensures at[k].newSize == 0 {
      assert at[k] in OpsOf(events);
      assert at[k] in cancels;
    }
    LastWriter(b, events, id);
  }

  /** Once all cancels are in, what rests is desired. */
  lemma {:induction false} RestingAfterCancels(
      levels: Levels, desired: Levels, mode: CancelMode, events: seq<Event>, id: LimitOrderId)
    requires WellFormed(levels) && WellFormed(desired)
    requires CancelPlan(levels, AsMap(desired), mode) <= OpsOf(events) <= Plan(levels, desired, mode)
    requires Run(AsMap(levels), events).Ok?
    requires id in Run(AsMap(levels), events).value
    ensures id in AsMap(desired)
  {
    var done, cancels := OpsOf(events), CancelPlan(levels, AsMap(desired), mode);
    if id !in AsMap(desired) {
      OneOpPerDifference(levels, desired, mode, id);
      CancelPlanAt(levels, AsMap(desired), mode, id);
      OpsAtPrefix(cancels, done, id);
      OpsAtPrefix(done, Plan(levels, desired, mode), id);
      assert OpsAt(done, id) == OpsAt(cancels, id);
      LastWriter(AsMap(levels), events, id);
    }
  }

  /** Well-formed and not crossed: what the program accepts as a resting book. */
  ghost predicate Restable(levels: Levels) {
    WellFormed(levels) && Uncrossed(AsMap(levels))
  }

  /** A run of a prefix of the plan, every step so far accepted. */
  ghost predicate PartialRun(levels: Levels, desired: Levels, mode: CancelMode, events: seq<Event>) {
    OpsOf(events) <= Plan(levels, desired, mode) && Run(AsMap(levels), events).Ok?
  }

  /** After any prefix of the plan, with any fills interleaved, each side holds at
      most 16 levels and the best bid is below the best ask, provided neither the
      snapshot nor the desired set is crossed. */
  lemma {:induction false} EveryIntermediateStateIsLegal(
      levels: Levels, desired: Levels, mode: CancelMode, events: seq<Event>)
    requires Restable(levels) && Restable(desired)
    requires PartialRun(levels, desired, mode, events)
    ensures var b := Run(AsMap(levels), events).value;
            Uncrossed(b) && forall side :: |SideIds(b, side)| <= MAX_LEVELS
  {
    WellFormedIsLegal(levels);
    WellFormedIsLegal(desired);
    PlanOrder(levels, desired, mode);
    var b := Run(AsMap(levels), events).value;
    var cancels := CancelPlan(levels, AsMap(desired), mode);
    var within := if |OpsOf(events)| < |cancels| then AsMap(levels) else AsMap(desired);
    forall id | id in b ensures id in within {
      if |OpsOf(events)| < |cancels| {
        RestingBeforeWrites(AsMap(levels), events, cancels, id);
      } else {
        RestingAfterCancels(levels, desired, mode, events, id);
      }
    }
    SideIdsMono(b, within, Bid);
    SideIdsMono(b, within, Ask);
  }

  // ---------- when a fill refuses the plan ----------

  /** The next op of a partial run is the only op of the plan at its level, so its level
      has only been filled so far, and it is what the plan says of that level. */
  lemma {:induction false} NextOpIsFirstAtItsLevel(
      levels: Levels, desired: Levels, mode: CancelMode, events: seq<Event>, id: LimitOrderId)
    requires WellFormed(levels) && WellFormed(desired)
    requires PartialRun(levels, desired, mode, events)
    requires |OpsOf(events)| < |Plan(levels, desired, mode)|
    requires Plan(levels, desired, mode)[|OpsOf(events)|].Names(id)
    ensures OpsFor(AsMap(levels), AsMap(desired), mode, id) == [Plan(levels, desired, mode)[|OpsOf(events)|]]
    ensures Resting(Run(AsMap(levels), events).value, id) + FilledLots(events, id) == Resting(AsMap(levels), id)
  {
    var plan, done := Plan(levels, desired, mode), OpsOf(events);
    var op := plan[|done|];
    assert plan == done + [op] + plan[|done| + 1..];
    OpsAtConcat(done + [op], plan[|done| + 1..], id);
    OpsAtAppend(done, op, id);
    OneOpPerDifference(levels, desired, mode, id);
    UntouchedConserves(AsMap(levels), events, id);
  }

  /** A write of the plan always finds room on its side, even where fills have emptied its
      level. */
  lemma {:induction false} NextWriteHasRoom(
      levels: Levels, desired: Levels, mode: CancelMode, events: seq<Event>, id: LimitOrderId)
    requires WellFormed(levels) && WellFormed(desired)
    requires PartialRun(levels, desired, mode, events)
    requires |OpsOf(events)| < |Plan(levels, desired, mode)|
    requires Plan(levels, desired, mode)[|OpsOf(events)|].newSize > 0
    requires id in AsMap(desired)
    ensures var after := Run(AsMap(levels), events).value;
            id in after || |SideIds(after, id.side)| < MAX_LEVELS
  {
    var after, cancels := Run(AsMap(levels), events).value, CancelPlan(levels, AsMap(desired), mode);
    var n := |OpsOf(events)|;
    PlanOrder(levels, desired, mode);
    WellFormedIsLegal(desired);
    assert forall k | 0 <= k < |cancels| :: Plan(levels, desired, mode)[k] == cancels[k] && cancels[k] in cancels;
    forall other | other in after ensures other in AsMap(desired) {
      RestingAfterCancels(levels, desired, mode, events, other);
    }
    if id !in after {
      RoomBelowCap(after, AsMap(desired), id);
    }
  }

  /** Wherever a run of the plan stands, with any fills interleaved, its next op is
      accepted exactly when its guard is the wildcard or nothing has been filled at its
      level since the snapshot; and the only way to be refused is the size mismatch. */
  lemma {:induction false} NextOpAcceptedIff(
      levels: Levels, desired: Levels, mode: CancelMode, events: seq<Event>, id: LimitOrderId)
    requires WellFormed(levels) && WellFormed(desired)
    requires PartialRun(levels, desired, mode, events)
    requires |OpsOf(events)| < |Plan(levels, desired, mode)|
    requires Plan(levels, desired, mode)[|OpsOf(events)|].Names(id)
    ensures var op := Plan(levels, desired, mode)[|OpsOf(events)|];
            var next := ApplyOp(Run(AsMap(levels), events).value, op);
            && (next.Ok? <==> op.expectedSize == LEVEL_OP_EXPECTED_ANY || FilledLots(events, id) == 0)
            && (next.Err? ==> next.error == LevelSizeMismatch)
  {
    WellFormedIsLegal(levels);
    WellFormedIsLegal(desired);
    NextOpIsFirstAtItsLevel(levels, desired, mode, events, id);
    if Plan(levels, desired, mode)[|OpsOf(events)|].newSize > 0 {
      NextWriteHasRoom(levels, desired, mode, events, id);
    }
  }

  /** What the cancel mode buys: under `Any` no cancel of a plan is ever refused, whatever
      fills land in between; under `Strict` one is refused exactly when its level has been
      filled since the snapshot, unless it was observed at the wildcard size. */
  lemma {:induction false} NextCancelAcceptedIff(
      levels: Levels, desired: Levels, mode: CancelMode, events: seq<Event>, id: LimitOrderId)
    requires WellFormed(levels) && WellFormed(desired)
    requires PartialRun(levels, desired, mode, events)
    requires |OpsOf(events)| < |Plan(levels, desired, mode)|
    requires Plan(levels, desired, mode)[|OpsOf(events)|].Names(id)
    requires Plan(levels, desired, mode)[|OpsOf(events)|].newSize == 0
    ensures id in AsMap(levels)
    ensures ApplyOp(Run(AsMap(levels), events).value, Plan(levels, desired, mode)[|OpsOf(events)|]).Ok? <==>
            mode == Any || FilledLots(events, id) == 0 || AsMap(levels)[id] == U64_MAX
  {
    WellFormedIsLegal(desired);
    NextOpIsFirstAtItsLevel(levels, desired, mode, events, id);
    NextOpAcceptedIff(levels, desired, mode, events, id);
  }
}
