/** After `RegistryFullSplitRequired`: land the first chunk alone, read the book and the
    registry again, and rebuild. */
module SplitRecovery {
  import opened MachineInts
  import opened LevelOps
  import opened ChainBook
  import opened Snapshot
  import opened DiffPlan
  import opened DiffSafety
  import opened Seating
  import opened Actions
  import opened Builders
  import opened Landing

  /** The ids on which two books differ. */
  function DiffIds(seen: BookMap, target: BookMap): set<LimitOrderId> {
    set id | id in seen.Keys + target.Keys && Resting(seen, id) != Resting(target, id)
  }

  /** The ids some op names. */
  function NamedIds(ops: seq<LevelOp>): set<LimitOrderId> {
    if ops == [] then {}
    else
      var op := ops[|ops| - 1];
      NamedIds(ops[..|ops| - 1])
        + (match op.DecodedSide()
           case Ok(side) => {LimitOrderId(side, op.priceTicks)}
           case Err(_) => {})
  }

  lemma {:induction false} NamedIdsMeaning(ops: seq<LevelOp>, id: LimitOrderId)
    ensures id in NamedIds(ops) <==> OpsAt(ops, id) != []
    ensures |NamedIds(ops)| <= |ops|
  {
    if ops != [] {
      NamedIdsMeaning(ops[..|ops| - 1], id);
    }
  }

  /** Ops that all name different ids are as many as the ids they name. */
  lemma {:induction false} DistinctOpsCount(ops: seq<LevelOp>)
    requires forall id :: |OpsAt(ops, id)| <= 1
    requires forall i | 0 <= i < |ops| :: ops[i].DecodedSide().Ok?
    ensures |NamedIds(ops)| == |ops|
  {
    if ops != [] {
      var before, op := ops[..|ops| - 1], ops[|ops| - 1];
      forall id ensures |OpsAt(before, id)| <= 1 {
        assert |OpsAt(ops, id)| <= 1;
      }
      DistinctOpsCount(before);
      var named := LimitOrderId(op.DecodedSide().value, op.priceTicks);
      assert |OpsAt(ops, named)| <= 1;
      NamedIdsMeaning(before, named);
    }
  }

  /** A plan has exactly as many ops as there are ids to change. */
  lemma {:induction false} PlanSize(levels: Levels, desired: Levels, mode: CancelMode)
    requires WellFormed(levels) && WellFormed(desired)
    ensures NamedIds(Plan(levels, desired, mode)) == DiffIds(AsMap(levels), AsMap(desired))
    ensures |Plan(levels, desired, mode)| == |DiffIds(AsMap(levels), AsMap(desired))|
  {
    var plan := Plan(levels, desired, mode);
    WellFormedIsLegal(levels);
    WellFormedIsLegal(desired);
    forall id
      ensures |OpsAt(plan, id)| <= 1
      ensures id in NamedIds(plan) <==> id in DiffIds(AsMap(levels), AsMap(desired))
    {
      OneOpPerDifference(levels, desired, mode, id);
      NamedIdsMeaning(plan, id);
    }
    PlanOpsDecode(levels, desired, mode);
    DistinctOpsCount(plan);
  }

  /** Ops leave every level they do not name alone. */
  lemma {:induction false} ReplayElsewhere(b: BookMap, ops: seq<LevelOp>, id: LimitOrderId)
    requires Replay(b, ops).Ok? && OpsAt(ops, id) == []
    ensures Resting(Replay(b, ops).value, id) == Resting(b, id)
  {
    if ops != [] {
      var n := |ops| - 1;
      ReplayElsewhere(b, ops[..n], id);
      ApplyOpEffect(Replay(b, ops[..n]).value, ops[n], id);
    }
  }

  lemma {:induction false} ReplayStaysPositive(b: BookMap, ops: seq<LevelOp>)
    requires forall id | id in b :: b[id] > 0 && id.priceTicks > 0
    requires Replay(b, ops).Ok?
    ensures forall id | id in Replay(b, ops).value :: Replay(b, ops).value[id] > 0 && id.priceTicks > 0
  {
    if ops != [] {
      ReplayStaysPositive(b, ops[..|ops| - 1]);
    }
  }

  /** Once a prefix of a plan has landed, only ids that the rest names still differ. */
  lemma {:induction false} RestNamesDifferences(b: BookMap, p: seq<LevelOp>, q: seq<LevelOp>)
    requires Replay(b, p).Ok? && Replay(b, p + q).Ok?
    ensures DiffIds(Replay(b, p).value, Replay(b, p + q).value) <= NamedIds(q)
    ensures |DiffIds(Replay(b, p).value, Replay(b, p + q).value)| <= |q|
  {
    ReplayConcat(b, p, q);
    var mid := Replay(b, p).value;
    forall id | id in DiffIds(mid, Replay(b, p + q).value) ensures id in NamedIds(q) {
      NamedIdsMeaning(q, id);
      if OpsAt(q, id) == [] {
        ReplayElsewhere(mid, q, id);
      }
    }
    NamedIdsMeaning(q, LimitOrderId(Bid, 0));
    SubsetCardinality(DiffIds(mid, Replay(b, p + q).value), NamedIds(q));
  }

  /** A plan refused for a split has exactly two chunks, and the instructions pushed
      before the refusal hold the first 32 ops. */
  lemma {:induction false} SplitStopsAfterFirstChunk(
      levels: Levels, desired: Levels, mode: CancelMode, registry: seq<Pubkey>, makerBook: Pubkey, i: nat)
    requires WellFormed(levels) && WellFormed(desired)
    requires SplitRequired(registry, makerBook, Chunks(Plan(levels, desired, mode)))
    requires FirstPlacing(Chunks(Plan(levels, desired, mode)), i)
    ensures i == 0 && |Chunks(Plan(levels, desired, mode))| == 2
    ensures 32 < |Plan(levels, desired, mode)| <= 64
    ensures Chunks(Plan(levels, desired, mode))[0] == Plan(levels, desired, mode)[..32]
  {
    AtMostTwoChunks(levels, desired, mode);
    ChunksLoseNothing(Plan(levels, desired, mode));
  }

  /** The book read after the first `k` ops of a plan have landed alone may rest. */
  lemma {:induction false} RereadIsRestable(
      levels: Levels, desired: Levels, mode: CancelMode, k: nat, reread: Levels)
    requires Restable(levels) && Restable(desired)
    requires k <= |Plan(levels, desired, mode)|
    requires Distinct(reread) && Replay(AsMap(levels), Plan(levels, desired, mode)[..k]) == Ok(AsMap(reread))
    ensures Restable(reread)
  {
    var landed := Plan(levels, desired, mode)[..k];
    WellFormedIsLegal(levels);
    WritesReplay(AsMap(levels), landed);
    EveryIntermediateStateIsLegal(levels, desired, mode, Writes(landed));
    ReplayStaysPositive(AsMap(levels), landed);
    WellFormedIsLegal(reread);
  }

  /** The plan rebuilt from there has no more ops than were left. */
  lemma {:induction false} RereadPlanFits(
      levels: Levels, desired: Levels, mode: CancelMode, k: nat, reread: Levels)
    requires WellFormed(levels) && WellFormed(desired) && WellFormed(reread)
    requires k <= |Plan(levels, desired, mode)|
    requires Replay(AsMap(levels), Plan(levels, desired, mode)[..k]) == Ok(AsMap(reread))
    ensures |Plan(reread, desired, mode)| <= |Plan(levels, desired, mode)| - k
  {
    var plan := Plan(levels, desired, mode);
    PlanReachesDesired(levels, desired, mode);
    assert plan == plan[..k] + plan[k..];
    RestNamesDifferences(AsMap(levels), plan[..k], plan[k..]);
    PlanSize(reread, desired, mode);
  }

  /** The documented recovery works: the first chunk lands alone, and the plan rebuilt
      from the book it leaves fits one instruction, reaches the same target without
      crossing, and is not refused again, whatever the registry has become. */
  lemma {:induction false} SplitRecovers(
      levels: Levels, desired: Levels, mode: CancelMode, registry: seq<Pubkey>, makerBook: Pubkey, reread: Levels)
    requires Restable(levels) && Restable(desired)
    requires SplitRequired(registry, makerBook, Chunks(Plan(levels, desired, mode)))
    requires Distinct(reread)
    requires Replay(AsMap(levels), Chunks(Plan(levels, desired, mode))[0]) == Ok(AsMap(reread))
    ensures |Plan(reread, desired, mode)| <= 32
    ensures forall registry', book' :: !SplitRequired(registry', book', Chunks(Plan(reread, desired, mode)))
    ensures Replayable(AsMap(reread), Plan(reread, desired, mode))
    ensures Replay(AsMap(reread), Plan(reread, desired, mode)) == Ok(AsMap(desired))
  {
    AtMostTwoChunks(levels, desired, mode);
    ChunksLoseNothing(Plan(levels, desired, mode));
    RereadIsRestable(levels, desired, mode, MAX_LEVEL_OPS, reread);
    RereadPlanFits(levels, desired, mode, MAX_LEVEL_OPS, reread);
    ReplaceAllReplays(reread, desired, mode);
  }

  /** Whatever else has happened to the book, fills included, a rebuild is refused only
      if the book is still unseated on a full registry and more than 32 levels differ
      from the target. */
  lemma {:induction false} RefusalNeedsManyDifferences(
      reread: Levels, desired: Levels, mode: CancelMode, registry: seq<Pubkey>, makerBook: Pubkey)
    requires WellFormed(reread) && WellFormed(desired)
    requires SplitRequired(registry, makerBook, Chunks(Plan(reread, desired, mode)))
    ensures makerBook !in registry && |registry| >= 48
    ensures |DiffIds(AsMap(reread), AsMap(desired))| > 32
  {
    PlanSize(reread, desired, mode);
  }
}
