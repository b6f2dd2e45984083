/** Whole actions landing on the program, instruction by instruction. */
module Landing {
  import opened MachineInts
  import opened LevelOps
  import opened SdkErrors
  import opened ChainBook
  import opened Snapshot
  import opened DiffPlan
  import opened DiffSafety
  import opened MakerBooks
  import opened LocalBooks
  import opened Seating
  import opened Builders

  /** What the program holds for one maker book and its market. */
  datatype Chain = Chain(book: BookMap, sequence: u64, registry: set<Pubkey>)

  /** The program takes the instruction: its number is in the window, it names the
      registry as it stands, every guard passes and the book is not crossed after. */
  ghost predicate Passes(c: Chain, ix: Instruction)
    requires ix.UpdateBookLimit?
  {
    && CheckSequenceNumber(c.sequence, ix.sequence).Ok?
    && Accepts(c.registry, ix)
    && Replay(c.book, ix.ops).Ok?
    && Uncrossed(Replay(c.book, ix.ops).value)
  }

  ghost predicate Lands(c: Chain, makerBook: Pubkey, ix: Instruction, next: Chain)
    requires ix.UpdateBookLimit?
  {
    && Passes(c, ix)
    && Replay(c.book, ix.ops) == Ok(next.book)
    && next.sequence == ix.sequence
    && SeatNext(c.registry, makerBook, ix, next.registry)
  }

  ghost predicate LandingRun(
      states: seq<Chain>, makerBook: Pubkey, postOnly: PostOnly, seq0: u64, chunks: seq<seq<LevelOp>>, n: nat)
    requires n <= |chunks|
  {
    && |states| == n + 1
    && forall i | 0 <= i < n ::
         Lands(states[i], makerBook, PlannedAt(postOnly, makerBook, seq0, chunks, i), states[i + 1])
  }

  /** Every prefix of the plan replays, to an uncrossed book. */
  ghost predicate Replayable(b: BookMap, ops: seq<LevelOp>) {
    forall k | 0 <= k <= |ops| :: Replay(b, ops[..k]).Ok? && Uncrossed(Replay(b, ops[..k]).value)
  }

  lemma {:induction false} ConcatGrows(chunks: seq<seq<LevelOp>>, n: nat)
    requires n < |chunks|
    ensures Concat(chunks[..n + 1]) == Concat(chunks[..n]) + chunks[n]
  {
    if n == 0 {
      assert chunks[..1] == [chunks[0]];
      assert Concat(chunks[..1]) == chunks[0] + Concat([]);
    } else {
      ConcatGrows(chunks[1..], n - 1);
      assert chunks[..n + 1][1..] == chunks[1..][..n];
      assert chunks[..n][1..] == chunks[1..][..n - 1];
      assert chunks[..n + 1][0] == chunks[..n][0] == chunks[0];
    }
  }

  lemma {:induction false} ConcatPrefix(chunks: seq<seq<LevelOp>>, n: nat)
    requires n <= |chunks|
    ensures Concat(chunks[..n]) <= Concat(chunks)
    decreases |chunks| - n
  {
    if n == |chunks| {
      assert chunks[..n] == chunks;
    } else {
      ConcatGrows(chunks, n);
      ConcatPrefix(chunks, n + 1);
    }
  }

  lemma {:induction false} ReplayOneMore(b: BookMap, chunks: seq<seq<LevelOp>>, n: nat, before: BookMap)
    requires n < |chunks|
    requires Replay(b, Concat(chunks[..n])) == Ok(before)
    ensures Replay(b, Concat(chunks[..n + 1])) == Replay(before, chunks[n])
  {
    ConcatGrows(chunks, n);
    ReplayConcat(b, Concat(chunks[..n]), chunks[n]);
  }

  lemma {:induction false} LandingRunPrefix(
      states: seq<Chain>, makerBook: Pubkey, postOnly: PostOnly, seq0: u64, chunks: seq<seq<LevelOp>>, n: nat)
    requires 0 < n <= |chunks|
    requires LandingRun(states, makerBook, postOnly, seq0, chunks, n)
    ensures LandingRun(states[..n], makerBook, postOnly, seq0, chunks, n - 1)
    ensures Lands(states[n - 1], makerBook, PlannedAt(postOnly, makerBook, seq0, chunks, n - 1), states[n])
  {
    assert forall i | 0 <= i < n :: states[..n][i] == states[i];
  }

  /** After `n` chunks the book is the replay of their ops, and the number written
      last is the plan's `n`th. */
  lemma {:induction false} BookDuringRun(
      states: seq<Chain>, makerBook: Pubkey, postOnly: PostOnly, seq0: u64, chunks: seq<seq<LevelOp>>, n: nat)
    requires n <= |chunks| && seq0 + |chunks| <= U64_MAX
    requires LandingRun(states, makerBook, postOnly, seq0, chunks, n)
    requires states[0].sequence == seq0
    ensures Replay(states[0].book, Concat(chunks[..n])) == Ok(states[n].book)
    ensures states[n].sequence == seq0 + n
  {
    if n > 0 {
      LandingRunPrefix(states, makerBook, postOnly, seq0, chunks, n);
      BookDuringRun(states[..n], makerBook, postOnly, seq0, chunks, n - 1);
      ReplayOneMore(states[0].book, chunks, n - 1, states[n - 1].book);
    }
  }

  function Registries(states: seq<Chain>): seq<set<Pubkey>> {
    seq(|states|, i requires 0 <= i < |states| => states[i].registry)
  }

  lemma {:induction false} RunSeats(
      states: seq<Chain>, makerBook: Pubkey, postOnly: PostOnly, seq0: u64, chunks: seq<seq<LevelOp>>, n: nat)
    requires n <= |chunks|
    requires LandingRun(states, makerBook, postOnly, seq0, chunks, n)
    ensures SeatRun(Registries(states), makerBook, Planned(postOnly, makerBook, seq0, chunks, n))
  {
    var ixs := Planned(postOnly, makerBook, seq0, chunks, n);
    forall i | 0 <= i < n
      ensures SeatNext(Registries(states)[i], makerBook, ixs[i], Registries(states)[i + 1])
    {
      assert Lands(states[i], makerBook, PlannedAt(postOnly, makerBook, seq0, chunks, i), states[i + 1]);
    }
  }

  /** The chain stands where the client read it. */
  ghost predicate AsRead(c: Chain, seq0: u64, postOnly: PostOnly) {
    && c.sequence == seq0
    && c.registry == AsSet(postOnly.registryBooks)
    && DistinctBooks(postOnly.registryBooks)
    && |postOnly.registryBooks| <= MAX_SEATED_MAKERS
  }

  /** The next chunk of a replayable plan replays on the book as it then stands. */
  lemma {:induction false} NextChunkReplays(b: BookMap, ops: seq<LevelOp>, n: nat)
    requires n < |Chunks(ops)| && Replayable(b, ops)
    requires Replay(b, Concat(Chunks(ops)[..n])).Ok?
    ensures var next := Replay(Replay(b, Concat(Chunks(ops)[..n])).value, Chunks(ops)[n]);
            next.Ok? && Uncrossed(next.value)
  {
    var chunks := Chunks(ops);
    ChunksLoseNothing(ops);
    ConcatGrows(chunks, n);
    ConcatPrefix(chunks, n + 1);
    assert ops[..|Concat(chunks[..n + 1])|] == Concat(chunks[..n + 1]);
    ReplayConcat(b, Concat(chunks[..n]), chunks[n]);
  }

  /** However the program seats the book on the way, a pushed plan whose registries rest
      on no guess never gets stuck: the next instruction always passes. After the last one
      of any plan the book is the replay of the whole plan and holds the sequence number
      the client was told. */
  lemma {:induction false} PlanLands(
      states: seq<Chain>, makerBook: Pubkey, postOnly: PostOnly, seq0: u64, ops: seq<LevelOp>, n: nat)
    requires n <= |Chunks(ops)| && seq0 + |Chunks(ops)| <= U64_MAX
    requires LandingRun(states, makerBook, postOnly, seq0, Chunks(ops), n)
    requires AsRead(states[0], seq0, postOnly)
    requires Replayable(states[0].book, ops)
    requires !SplitRequired(postOnly.registryBooks, makerBook, Chunks(ops))
    ensures n < |Chunks(ops)| && Predictable(postOnly.registryBooks, makerBook, Chunks(ops)) ==>
              Passes(states[n], PlannedAt(postOnly, makerBook, seq0, Chunks(ops), n))
    ensures n == |Chunks(ops)| ==>
              Replay(states[0].book, ops) == Ok(states[n].book) && states[n].sequence == seq0 + n
  {
    var chunks := Chunks(ops);
    BookDuringRun(states, makerBook, postOnly, seq0, chunks, n);
    if n < |chunks| && Predictable(postOnly.registryBooks, makerBook, chunks) {
      RunSeats(states, makerBook, postOnly, seq0, chunks, n);
      SeatingIsAccepted(postOnly, makerBook, seq0, chunks, Registries(states), n);
      NextChunkReplays(states[0].book, ops, n);
    } else if n == |chunks| {
      ChunksLoseNothing(ops);
      assert chunks[..n] == chunks;
    }
  }

  // ---------- the plans the builders push ----------

  function Writes(ops: seq<LevelOp>): seq<Event> {
    if ops == [] then [] else Writes(ops[..|ops| - 1]) + [Write(ops[|ops| - 1])]
  }

  lemma {:induction false} WritesReplay(b: BookMap, ops: seq<LevelOp>)
    ensures OpsOf(Writes(ops)) == ops
    ensures Run(b, Writes(ops)) == Replay(b, ops)
  {
    if ops != [] {
      var n := |ops| - 1;
      WritesReplay(b, ops[..n]);
      assert Writes(ops)[..|Writes(ops)| - 1] == Writes(ops[..n]);
    }
  }

  lemma {:induction false} ReplayPrefix(b: BookMap, ops: seq<LevelOp>, k: nat)
    requires k <= |ops| && Replay(b, ops).Ok?
    ensures Replay(b, ops[..k]).Ok?
    decreases |ops|
  {
    if k < |ops| {
      var n := |ops| - 1;
      ReplayPrefix(b, ops[..n], k);
      assert ops[..n][..k] == ops[..k];
    } else {
      assert ops[..k] == ops;
    }
  }

  /** A replace-all from an uncrossed book to an uncrossed target lands chunk by
      chunk, never crossing on the way, and ends at exactly the target. */
  lemma {:induction false} ReplaceAllReplays(levels: Levels, desired: Levels, mode: CancelMode)
    requires WellFormed(levels) && WellFormed(desired)
    requires Uncrossed(AsMap(levels)) && Uncrossed(AsMap(desired))
    ensures Replayable(AsMap(levels), Plan(levels, desired, mode))
    ensures Replay(AsMap(levels), Plan(levels, desired, mode)) == Ok(AsMap(desired))
  {
    var seen, plan := AsMap(levels), Plan(levels, desired, mode);
    PlanReachesDesired(levels, desired, mode);
    forall k | 0 <= k <= |plan|
      ensures Replay(seen, plan[..k]).Ok? && Uncrossed(Replay(seen, plan[..k]).value)
    {
      ReplayPrefix(seen, plan, k);
      WritesReplay(seen, plan[..k]);
      EveryIntermediateStateIsLegal(levels, desired, mode, Writes(plan[..k]));
    }
  }

  /** The places of a batch, replayed on the snapshot, rest exactly the new orders
      beside the old ones; and a batch always carries the registry. */
  lemma {:induction false} PlacesReplay(seen: Levels, orders: Levels)
    requires WellFormed(seen + orders)
    ensures Replay(AsMap(seen), PlaceOps(orders)) == Ok(AsMap(seen + orders))
    ensures orders != [] ==> LevelOpsMaySeat(PlaceOps(orders))
  {
    if orders == [] {
      assert seen + orders == seen;
    } else {
      var n := |orders| - 1;
      var o, all := orders[n], seen + orders;
      assert all[..|all| - 1] == seen + orders[..n];
      WellFormedPrefix(all, |all| - 1);
      PlacesReplay(seen, orders[..n]);
      DistinctPrefix(all);
      WellFormedIsLegal(all);
      PlaceAccepted(AsMap(seen + orders[..n]), AsMap(all), o);
      assert PlaceOps(orders)[..n] == PlaceOps(orders[..n]);
    }
  }

  /** The cancels of a batch, replayed on the snapshot, remove exactly those ids. */
  lemma {:induction false} CancelsReplay(seen: BookMap, ids: seq<LimitOrderId>, mode: CancelMode)
    requires LegalBook(seen) && EachRestsOnce(seen, ids)
    ensures Replay(seen, CancelOps(seen, ids, mode)) == Ok(seen - IdSet(ids))
  {
    if ids == [] {
      assert seen - IdSet(ids) == seen;
    } else {
      var n := |ids| - 1;
      assert ids == ids[..n] + [ids[n]];
      assert IdSet(ids) == IdSet(ids[..n]) + {ids[n]};
      CancelsReplay(seen, ids[..n], mode);
      var op := CancelOp(mode, ids[n], seen[ids[n]]);
      assert CancelOps(seen, ids, mode) == CancelOps(seen, ids[..n], mode) + [op];
      ReplayAppend(seen, CancelOps(seen, ids[..n], mode), op);
      CancelAccepted(seen - IdSet(ids[..n]), Order(ids[n], seen[ids[n]]), mode);
      assert seen - IdSet(ids[..n]) - {ids[n]} == seen - IdSet(ids);
    }
  }

  lemma {:induction false} PrefixKeys(levels: Levels, n: nat)
    requires n <= |levels|
    ensures AsMap(levels[..n]).Keys <= AsMap(levels).Keys
    decreases |levels|
  {
    if n < |levels| {
      var m := |levels| - 1;
      PrefixKeys(levels[..m], n);
      assert levels[..m][..n] == levels[..n];
    } else {
      assert levels[..n] == levels;
    }
  }

  lemma {:induction false} WithinUncrossed(b: BookMap, c: BookMap)
    requires b.Keys <= c.Keys && Uncrossed(c)
    ensures Uncrossed(b)
  {
  }

  lemma {:induction false} GrownPrefix(seen: Levels, orders: Levels, k: nat)
    requires WellFormed(seen + orders) && k <= |orders|
    ensures WellFormed(seen + orders[..k])
    ensures AsMap(seen + orders[..k]).Keys <= AsMap(seen + orders).Keys
  {
    var all := seen + orders;
    assert all[..|seen| + k] == seen + orders[..k];
    WellFormedPrefix(all, |seen| + k);
    PrefixKeys(all, |seen| + k);
  }

  lemma {:induction false} PlacesPrefix(seen: Levels, orders: Levels, k: nat)
    requires Restable(seen + orders) && k <= |orders|
    ensures Replay(AsMap(seen), PlaceOps(orders)[..k]).Ok?
    ensures Uncrossed(Replay(AsMap(seen), PlaceOps(orders)[..k]).value)
  {
    assert PlaceOps(orders)[..k] == PlaceOps(orders[..k]);
    GrownPrefix(seen, orders, k);
    PlacesReplay(seen, orders[..k]);
    WithinUncrossed(AsMap(seen + orders[..k]), AsMap(seen + orders));
  }

  /** Every prefix of a place batch rests within the new book, so it never crosses. */
  lemma {:induction false} PlacesReplayable(seen: Levels, orders: Levels)
    requires Restable(seen + orders)
    ensures Replayable(AsMap(seen), PlaceOps(orders))
    ensures Replay(AsMap(seen), PlaceOps(orders)) == Ok(AsMap(seen + orders))
  {
    PlacesReplay(seen, orders);
    forall k | 0 <= k <= |PlaceOps(orders)|
      ensures Replay(AsMap(seen), PlaceOps(orders)[..k]).Ok?
      ensures Uncrossed(Replay(AsMap(seen), PlaceOps(orders)[..k]).value)
    {
      PlacesPrefix(seen, orders, k);
    }
  }

  /** Every prefix of a cancel batch rests within the old book. */
  lemma {:induction false} CancelsReplayable(seen: BookMap, ids: seq<LimitOrderId>, mode: CancelMode)
    requires LegalBook(seen) && Uncrossed(seen) && EachRestsOnce(seen, ids)
    ensures Replayable(seen, CancelOps(seen, ids, mode))
    ensures Replay(seen, CancelOps(seen, ids, mode)) == Ok(seen - IdSet(ids))
  {
    CancelsReplay(seen, ids, mode);
    var ops := CancelOps(seen, ids, mode);
    forall k | 0 <= k <= |ops|
      ensures Replay(seen, ops[..k]).Ok? && Uncrossed(Replay(seen, ops[..k]).value)
    {
      assert ops[..k] == CancelOps(seen, ids[..k], mode);
      CancelsReplay(seen, ids[..k], mode);
    }
  }

  /** A modify rests within the old book until its last op, which leaves the new one. */
  lemma {:induction false} ModifyReplayable(seen: BookMap, id: LimitOrderId, target: Order, mode: CancelMode)
    requires LegalBook(seen) && Uncrossed(seen) && target.id.side == id.side
    requires Modifiable(seen, id, target) && Uncrossed(Modified(seen, id, target))
    ensures Replayable(seen, ModifyOps(seen[id], id, target, mode))
  {
    var ops := ModifyOps(seen[id], id, target, mode);
    ModifyLands(seen, id, target, mode);
    forall k | 0 <= k <= |ops|
      ensures Replay(seen, ops[..k]).Ok? && Uncrossed(Replay(seen, ops[..k]).value)
    {
      if k == 0 {
        assert ops[..k] == [];
      } else if k == |ops| {
        assert ops[..k] == ops;
      } else {
        assert ops[..k] == [ops[0]];
        ReplayOne(seen, ops[0]);
        CancelAccepted(seen, Order(id, seen[id]), mode);
      }
    }
  }

  // ---------- each action lands ----------

  /** The program takes the instruction, and however it seats the book, this is the
      book and the number it then holds. */
  ghost predicate LandsAs(c: Chain, makerBook: Pubkey, ix: Instruction, book: BookMap, sequence: u64)
    requires ix.UpdateBookLimit?
  {
    && Passes(c, ix)
    && forall next | Lands(c, makerBook, ix, next) :: next.book == book && next.sequence == sequence
  }

  lemma {:induction false} OneWriteLands(
      c: Chain, makerBook: Pubkey, postOnly: PostOnly, current: Option<MakerBook>, ops: seq<LevelOp>)
    requires 0 < |ops| <= MAX_LEVEL_OPS
    requires AsRead(c, CurrentSequence(current), postOnly) && CurrentSequence(current) < U64_MAX
    requires Replayable(c.book, ops)
    ensures Replay(c.book, ops).Ok?
    ensures LandsAs(c, makerBook, OneWrite(current, postOnly, ops), Replay(c.book, ops).value,
                    CurrentSequence(current) + 1)
  {
    OneChunkPlan(postOnly, makerBook, current, ops);
    assert PlannedAt(postOnly, makerBook, CurrentSequence(current), Chunks(ops), 0)
        == Planned(postOnly, makerBook, CurrentSequence(current), Chunks(ops), 1)[0];
    assert Predictable(postOnly.registryBooks, makerBook, Chunks(ops));
    PlanLands([c], makerBook, postOnly, CurrentSequence(current), ops, 0);
    assert ops[..|ops|] == ops;
  }

  /** The write of `BuildPlace` lands and leaves the old orders with the new ones. */
  lemma {:induction false} PlaceLands(
      c: Chain, makerBook: Pubkey, postOnly: PostOnly, current: Option<MakerBook>, orders: Levels)
    requires AsRead(c, CurrentSequence(current), postOnly) && CurrentSequence(current) < U64_MAX
    requires c.book == AsMap(Seen(current))
    requires orders != [] && Restable(Seen(current) + orders)
    ensures LandsAs(c, makerBook, OneWrite(current, postOnly, PlaceOps(orders)), AsMap(Seen(current) + orders),
                    CurrentSequence(current) + 1)
  {
    PlacesReplayable(Seen(current), orders);
    AtMostOneWrite(Seen(current) + orders);
    OneWriteLands(c, makerBook, postOnly, current, PlaceOps(orders));
  }

  /** The write of `BuildModify` lands and leaves the modified book. */
  lemma {:induction false} ModifyWriteLands(
      c: Chain, makerBook: Pubkey, postOnly: PostOnly, current: MakerBook,
      id: LimitOrderId, target: Order, mode: CancelMode)
    requires AsRead(c, current.lastUpdatedSequenceNumber, postOnly)
    requires current.lastUpdatedSequenceNumber < U64_MAX
    requires c.book == AsMap(SnapshotOf(current)) && Restable(SnapshotOf(current))
    requires target.id.side == id.side && Modifiable(c.book, id, target) && Uncrossed(Modified(c.book, id, target))
    ensures LandsAs(c, makerBook, OneWrite(Some(current), postOnly, ModifyOps(c.book[id], id, target, mode)),
                    Modified(c.book, id, target), current.lastUpdatedSequenceNumber + 1)
  {
    WellFormedIsLegal(SnapshotOf(current));
    ModifyReplayable(c.book, id, target, mode);
    ModifyLands(c.book, id, target, mode);
    OneWriteLands(c, makerBook, postOnly, Some(current), ModifyOps(c.book[id], id, target, mode));
  }

  lemma {:induction false} IdSetSize(ids: seq<LimitOrderId>)
    requires forall i, j | 0 <= i < j < |ids| :: ids[i] != ids[j]
    ensures |IdSet(ids)| == |ids|
  {
    if ids != [] {
      var n := |ids| - 1;
      IdSetSize(ids[..n]);
      assert ids == ids[..n] + [ids[n]];
      assert IdSet(ids) == IdSet(ids[..n]) + {ids[n]};
    }
  }

  lemma {:induction false} KeysFitList(levels: Levels)
    ensures |AsMap(levels).Keys| <= |levels|
  {
    if levels != [] {
      var n := |levels| - 1;
      KeysFitList(levels[..n]);
      SubsetCardinality(AsMap(levels).Keys, AsMap(levels[..n]).Keys + {levels[n].id});
    }
  }

  lemma {:induction false} DistinctIdsFit(levels: Levels, ids: seq<LimitOrderId>)
    requires WellFormed(levels) && EachRestsOnce(AsMap(levels), ids)
    ensures |ids| <= MAX_LEVEL_OPS
  {
    AtMostOneWrite(levels);
    IdSetSize(ids);
    SubsetCardinality(IdSet(ids), AsMap(levels).Keys);
    KeysFitList(levels);
  }

  /** The write of `BuildCancel`, which carries no books, lands and leaves the snapshot
      without the ids. */
  lemma {:induction false} CancelLands(
      c: Chain, makerBook: Pubkey, postOnly: PostOnly, current: MakerBook,
      ids: seq<LimitOrderId>, mode: CancelMode)
    requires AsRead(c, current.lastUpdatedSequenceNumber, postOnly)
    requires current.lastUpdatedSequenceNumber < U64_MAX
    requires c.book == AsMap(SnapshotOf(current)) && Restable(SnapshotOf(current))
    requires ids != [] && EachRestsOnce(c.book, ids)
    ensures var next := current.lastUpdatedSequenceNumber + 1;
            LandsAs(c, makerBook, UpdateBookLimit([], postOnly.crossPolicy, next, CancelOps(c.book, ids, mode)),
                    c.book - IdSet(ids), next)
  {
    WellFormedIsLegal(SnapshotOf(current));
    CancelsReplayable(c.book, ids, mode);
    DistinctIdsFit(SnapshotOf(current), ids);
    CancelsNeverSeat(c.book, ids, mode);
    OneWriteLands(c, makerBook, postOnly, Some(current), CancelOps(c.book, ids, mode));
  }

  lemma {:induction false} OpAtItsId(ops: seq<LevelOp>, op: LevelOp, id: LimitOrderId)
    requires op in ops && op.Names(id)
    ensures op in OpsAt(ops, id)
  {
    if op != ops[|ops| - 1] {
      OpAtItsId(ops[..|ops| - 1], op, id);
    }
  }

  lemma {:induction false} ChunkOpsAreOps(ops: seq<LevelOp>, i: nat)
    requires i < |Chunks(ops)|
    ensures forall op | op in Chunks(ops)[i] :: op in ops
  {
    if |ops| > MAX_LEVEL_OPS && i > 0 {
      ChunkOpsAreOps(ops[MAX_LEVEL_OPS..], i - 1);
    }
  }

  /** A marked op of a plan has a live guard, unless it resizes a level observed at the
      wildcard size. */
  lemma {:induction false} MarkedPlanOp(levels: Levels, desired: Levels, mode: CancelMode, op: LevelOp)
    requires WellFormed(levels) && WellFormed(desired)
    requires NoWildcardResize(AsMap(levels), AsMap(desired))
    requires op in Plan(levels, desired, mode) && op.MayPlaceOrGrow() && op.DecodedSide().Ok?
    ensures SurelyGrows(op)
  {
    var id := LimitOrderId(op.DecodedSide().value, op.priceTicks);
    OpAtItsId(Plan(levels, desired, mode), op, id);
    OneOpPerDifference(levels, desired, mode, id);
  }

  /** A replace-all that resizes no level observed at the wildcard size leaves nothing of
      its registries to guess. */
  lemma {:induction false} PlanIsPredictable(
      levels: Levels, desired: Levels, mode: CancelMode, registry: seq<Pubkey>, makerBook: Pubkey)
    requires WellFormed(levels) && WellFormed(desired)
    requires NoWildcardResize(AsMap(levels), AsMap(desired))
    ensures Predictable(registry, makerBook, Chunks(Plan(levels, desired, mode)))
  {
    var plan := Plan(levels, desired, mode);
    var chunks := Chunks(plan);
    PlanOpsDecode(levels, desired, mode);
    forall i | 0 <= i < |chunks| && LevelOpsMaySeat(chunks[i])
      ensures LevelOpsSurelySeat(chunks[i])
    {
      MaySeatMeaning(chunks[i]);
      ChunkOpsAreOps(plan, i);
      var k :| 0 <= k < |chunks[i]| && chunks[i][k].MayPlaceOrGrow();
      assert chunks[i][k] in plan;
      MarkedPlanOp(levels, desired, mode, chunks[i][k]);
    }
    LiveGuardsArePredictable(registry, makerBook, chunks);
  }

  /** The writes of `BuildReplaceAll` land one after the other, however the program seats
      the book on the way, when their registries rest on no guess, and leave exactly the
      target and the number returned. */
  lemma {:induction false} ReplaceAllLands(
      states: seq<Chain>, makerBook: Pubkey, postOnly: PostOnly, current: Option<MakerBook>,
      desired: Levels, mode: CancelMode, n: nat)
    requires Restable(Seen(current)) && Restable(desired)
    requires var chunks := Chunks(Plan(Seen(current), desired, mode));
             && n <= |chunks| && CurrentSequence(current) + |chunks| <= U64_MAX
             && !SplitRequired(postOnly.registryBooks, makerBook, chunks)
             && LandingRun(states, makerBook, postOnly, CurrentSequence(current), chunks, n)
    requires AsRead(states[0], CurrentSequence(current), postOnly) && states[0].book == AsMap(Seen(current))
    ensures var chunks := Chunks(Plan(Seen(current), desired, mode));
            && (n < |chunks| && Predictable(postOnly.registryBooks, makerBook, chunks) ==>
                  Passes(states[n], PlannedAt(postOnly, makerBook, CurrentSequence(current), chunks, n)))
            && (n == |chunks| ==>
                  states[n].book == AsMap(desired) && states[n].sequence == CurrentSequence(current) + |chunks|)
  {
    ReplaceAllReplays(Seen(current), desired, mode);
    PlanLands(states, makerBook, postOnly, CurrentSequence(current), Plan(Seen(current), desired, mode), n);
  }

  /** After a landed plan the window refuses the number the builders returned as the
      next one: it is the last number written. */
  lemma {:induction false} ReturnedNumberIsStale(
      states: seq<Chain>, makerBook: Pubkey, postOnly: PostOnly, seq0: u64, ops: seq<LevelOp>)
    requires seq0 + |Chunks(ops)| <= U64_MAX
    requires LandingRun(states, makerBook, postOnly, seq0, Chunks(ops), |Chunks(ops)|)
    requires states[0].sequence == seq0
    ensures var returned := WrapU64(seq0 + |Chunks(ops)|);
            CheckSequenceNumber(states[|Chunks(ops)|].sequence, returned)
              == Err(StaleSequenceNumber(returned, returned))
  {
    BookDuringRun(states, makerBook, postOnly, seq0, Chunks(ops), |Chunks(ops)|);
    SequenceWindow(seq0 + |Chunks(ops)|, seq0 + |Chunks(ops)|);
  }
}
