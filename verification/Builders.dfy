/** The order actions: what the user wants in, the instructions to land out. */
module Builders {
  import opened MachineInts
  import opened LevelOps
  import opened SdkErrors
  import opened ChainBook
  import opened Snapshot
  import opened DiffPlan
  import opened MakerBooks
  import opened LocalBooks
  import opened Seating
  import opened Actions
  import opened ClientCollateral
  import Machine = ClientMachine

  datatype ActionResult = ActionResult(
    instructions: seq<Instruction>,
    placedIds: seq<LimitOrderId>,
    nextSequenceNumber: u64)

  // ---------- the book an action starts from ----------

  function Seen(current: Option<MakerBook>): Levels {
    match current
    case None => []
    case Some(book) => SnapshotOf(book)
  }

  ghost predicate Convertible(current: Option<MakerBook>) {
    current.Some? ==>
      && Priced(current.value.bidLevels, current.value.midPriceTicks)
      && Priced(current.value.askLevels, current.value.midPriceTicks)
  }

  function CurrentSequence(current: Option<MakerBook>): u64 {
    match current
    case None => 0
    case Some(book) => book.lastUpdatedSequenceNumber
  }

  method OpenBook(current: Option<MakerBook>) returns (r: SdkResult<LocalBook>)
    ensures r.Ok? <==> Convertible(current)
    ensures r.Ok? ==> fresh(r.value) && r.value.levels == Seen(current)
    ensures r.Err? ==> r.error == OffsetOverflow
  {
    if current.Some? {
      r := LocalBook.FromMakerBook(current.value);
    } else {
      var local := new LocalBook.Empty();
      r := Ok(local);
    }
  }

  /** A collateral movement of nothing is left out. */
  function Deposit(deposit: Option<CollateralArgs>): seq<Instruction> {
    match deposit
    case Some(d) => if d.baseLots == 0 && d.quoteLots == 0 then [] else [MakerDepositFunds(d)]
    case None => []
  }

  function Withdrawal(withdraw: Option<CollateralArgs>): seq<Instruction> {
    match withdraw
    case Some(w) => if w.baseLots == 0 && w.quoteLots == 0 then [] else [MakerWithdrawFunds(w)]
    case None => []
  }

  function Setup(current: Option<MakerBook>, deposit: Option<CollateralArgs>): seq<Instruction> {
    (if current.None? then [InitializeMakerBook] else []) + Deposit(deposit)
  }

  /** A plan that fits one instruction. */
  function OneWrite(current: Option<MakerBook>, postOnly: PostOnly, ops: seq<LevelOp>): Instruction {
    UpdateBookLimit(if LevelOpsMaySeat(ops) then postOnly.registryBooks else [],
                    postOnly.crossPolicy, WrapU64(CurrentSequence(current) + 1), ops)
  }

  lemma {:induction false} OneChunkPlan(
      postOnly: PostOnly, makerBook: Pubkey, current: Option<MakerBook>, ops: seq<LevelOp>)
    requires 0 < |ops| <= MAX_LEVEL_OPS
    ensures Chunks(ops) == [ops]
    ensures !SplitRequired(postOnly.registryBooks, makerBook, Chunks(ops))
    ensures Planned(postOnly, makerBook, CurrentSequence(current), Chunks(ops), 1) == [OneWrite(current, postOnly, ops)]
  {
  }

  /** The setup instructions, then the planned writes. */
  function Written(
      current: Option<MakerBook>, makerBook: Pubkey, postOnly: PostOnly,
      setup: seq<Instruction>, ops: seq<LevelOp>, placedIds: seq<LimitOrderId>): ActionResult
  {
    var chunks := Chunks(ops);
    ActionResult(setup + Planned(postOnly, makerBook, CurrentSequence(current), chunks, |chunks|),
                 placedIds, WrapU64(CurrentSequence(current) + |chunks|))
  }

  /** The number the book holds when write `i` lands: the write's before it, or `seq0`. */
  function NumberBefore(ixs: seq<Instruction>, i: nat, seq0: u64): u64
    requires i < |ixs|
  {
    if i > 0 && ixs[i - 1].UpdateBookLimit? then ixs[i - 1].sequence else seq0
  }

  /** The writes carry the policy and count up by one from the number given. */
  ghost predicate CountsFrom(ixs: seq<Instruction>, seq0: u64, crossPolicy: u8) {
    forall i | 0 <= i < |ixs| && ixs[i].UpdateBookLimit? ::
      && ixs[i].crossPolicy == crossPolicy
      && ixs[i].sequence == WrapU64(NumberBefore(ixs, i, seq0) + 1)
  }

  /** What an action sends: the book is initialised just when there is none, a given
      movement of funds of any positive figure is sent once and nothing else is, and
      everything comes in order: initialise, deposit, writes, withdraw. The first write
      is numbered one past the book's own number, or 1 on a new book. */
  ghost predicate Shaped(
      ixs: seq<Instruction>, current: Option<MakerBook>, postOnly: PostOnly,
      deposit: Option<CollateralArgs>, withdraw: Option<CollateralArgs>)
  {
    && CountsFrom(ixs, if current.None? then 0 else current.value.lastUpdatedSequenceNumber, postOnly.crossPolicy)
    && (InitializeMakerBook in ixs <==> current.None?)
    && (forall args :: MakerDepositFunds(args) in ixs <==>
          deposit == Some(args) && (args.baseLots > 0 || args.quoteLots > 0))
    && (forall args :: MakerWithdrawFunds(args) in ixs <==>
          withdraw == Some(args) && (args.baseLots > 0 || args.quoteLots > 0))
    && InStages(ixs)
  }

  lemma {:induction false} WrapNext(x: nat)
    ensures WrapU64(WrapU64(x) + 1) == WrapU64(x + 1)
  {
  }

  lemma {:induction false} PlannedCountsAt(
      postOnly: PostOnly, book: Pubkey, seq0: u64, chunks: seq<seq<LevelOp>>, i: nat, ixs: seq<Instruction>)
    requires i < |chunks| && ixs == Planned(postOnly, book, seq0, chunks, |chunks|)
    ensures ixs[i].UpdateBookLimit? && ixs[i].crossPolicy == postOnly.crossPolicy
    ensures ixs[i].sequence == WrapU64(NumberBefore(ixs, i, seq0) + 1)
  {
    if i > 0 {
      var last := seq0 + 1 + (i - 1);
      assert ixs[i - 1].sequence == WrapU64(last);
      assert ixs[i].sequence == WrapU64(last + 1);
      WrapNext(last);
    }
  }

  lemma {:induction false} PlannedCounts(
      current: Option<MakerBook>, makerBook: Pubkey, postOnly: PostOnly, chunks: seq<seq<LevelOp>>)
    ensures CountsFrom(Planned(postOnly, makerBook, CurrentSequence(current), chunks, |chunks|),
                       if current.None? then 0 else current.value.lastUpdatedSequenceNumber, postOnly.crossPolicy)
  {
    var ixs := Planned(postOnly, makerBook, CurrentSequence(current), chunks, |chunks|);
    forall i | 0 <= i < |ixs|
      ensures ixs[i].UpdateBookLimit? && ixs[i].crossPolicy == postOnly.crossPolicy
      ensures ixs[i].sequence == WrapU64(NumberBefore(ixs, i, CurrentSequence(current)) + 1)
    {
      PlannedCountsAt(postOnly, makerBook, CurrentSequence(current), chunks, i, ixs);
    }
  }

  /** Instructions around the writes do not disturb their numbers. */
  lemma {:induction false} CountsAround(
      setup: seq<Instruction>, writes: seq<Instruction>, close: seq<Instruction>, seq0: u64, crossPolicy: u8)
    requires forall i | 0 <= i < |setup| :: !setup[i].UpdateBookLimit?
    requires forall i | 0 <= i < |close| :: !close[i].UpdateBookLimit?
    requires CountsFrom(writes, seq0, crossPolicy)
    ensures CountsFrom(setup + writes + close, seq0, crossPolicy)
  {
    var ixs := setup + writes + close;
    forall i | 0 <= i < |ixs|
      ensures i < |setup| ==> !ixs[i].UpdateBookLimit?
      ensures |setup| + |writes| <= i ==> !ixs[i].UpdateBookLimit?
    {
    }
    forall i | 0 <= i < |ixs| && ixs[i].UpdateBookLimit?
      ensures ixs[i].crossPolicy == crossPolicy
      ensures ixs[i].sequence == WrapU64(NumberBefore(ixs, i, seq0) + 1)
    {
      var k := i - |setup|;
      assert ixs[i] == writes[k];
      assert writes[k].sequence == WrapU64(NumberBefore(writes, k, seq0) + 1);
      if k > 0 {
        assert ixs[i - 1] == writes[k - 1];
      } else if i > 0 {
        assert ixs[i - 1] == setup[i - 1];
      }
    }
  }

  lemma {:induction false} StagesAround(
      setup: seq<Instruction>, writes: seq<Instruction>, close: seq<Instruction>)
    requires InStages(setup) && forall i | 0 <= i < |setup| :: Stage(setup[i]) < 2
    requires forall i | 0 <= i < |writes| :: writes[i].UpdateBookLimit?
    requires InStages(close) && forall i | 0 <= i < |close| :: Stage(close[i]) == 3
    ensures InStages(setup + writes + close)
  {
    var ixs := setup + writes + close;
    forall i | 0 <= i < |ixs|
      ensures i < |setup| ==> Stage(ixs[i]) < 2
      ensures |setup| <= i < |setup| + |writes| ==> ixs[i].UpdateBookLimit?
      ensures |setup| + |writes| <= i ==> Stage(ixs[i]) == 3
    {
    }
  }

  /** Only writes lie between the setup and the withdrawal. */
  lemma {:induction false} SentAround(
      setup: seq<Instruction>, writes: seq<Instruction>, close: seq<Instruction>, ix: Instruction)
    requires forall i | 0 <= i < |writes| :: writes[i].UpdateBookLimit?
    requires !ix.UpdateBookLimit?
    ensures ix in setup + writes + close <==> ix in setup || ix in close
  {
    assert ix in setup + writes + close <==> ix in setup || ix in writes || ix in close;
  }

  /** What the setup and the withdrawal hold. */
  lemma {:induction false} SentBeside(
      current: Option<MakerBook>, deposit: Option<CollateralArgs>, withdraw: Option<CollateralArgs>,
      args: CollateralArgs)
    ensures InitializeMakerBook in Setup(current, deposit) <==> current.None?
    ensures MakerDepositFunds(args) in Setup(current, deposit)
            <==> deposit == Some(args) && (args.baseLots > 0 || args.quoteLots > 0)
    ensures MakerWithdrawFunds(args) in Withdrawal(withdraw)
            <==> withdraw == Some(args) && (args.baseLots > 0 || args.quoteLots > 0)
    ensures MakerWithdrawFunds(args) !in Setup(current, deposit)
    ensures InitializeMakerBook !in Withdrawal(withdraw) && MakerDepositFunds(args) !in Withdrawal(withdraw)
  {
  }

  lemma {:induction false} ShapedAround(
      setup: seq<Instruction>, writes: seq<Instruction>, close: seq<Instruction>, current: Option<MakerBook>,
      postOnly: PostOnly, deposit: Option<CollateralArgs>, withdraw: Option<CollateralArgs>)
    requires setup == Setup(current, deposit)
    requires forall i | 0 <= i < |writes| :: writes[i].UpdateBookLimit?
    requires CountsFrom(writes, if current.None? then 0 else current.value.lastUpdatedSequenceNumber,
                        postOnly.crossPolicy)
    requires close == Withdrawal(withdraw)
    ensures Shaped(setup + writes + close, current, postOnly, deposit, withdraw)
  {
    CountsAround(setup, writes, close, if current.None? then 0 else current.value.lastUpdatedSequenceNumber,
                 postOnly.crossPolicy);
    StagesAround(setup, writes, close);
    SentBeside(current, deposit, withdraw, CollateralArgs(0, 0));
    SentAround(setup, writes, close, InitializeMakerBook);
    forall args
      ensures MakerDepositFunds(args) in setup + writes + close
              <==> deposit == Some(args) && (args.baseLots > 0 || args.quoteLots > 0)
      ensures MakerWithdrawFunds(args) in setup + writes + close
              <==> withdraw == Some(args) && (args.baseLots > 0 || args.quoteLots > 0)
    {
      SentBeside(current, deposit, withdraw, args);
      SentAround(setup, writes, close, MakerDepositFunds(args));
      SentAround(setup, writes, close, MakerWithdrawFunds(args));
    }
  }

  lemma {:induction false} WrittenIsShaped(
      current: Option<MakerBook>, makerBook: Pubkey, postOnly: PostOnly,
      deposit: Option<CollateralArgs>, ops: seq<LevelOp>, placedIds: seq<LimitOrderId>)
    ensures Shaped(Written(current, makerBook, postOnly, Setup(current, deposit), ops, placedIds).instructions,
                   current, postOnly, deposit, None)
  {
    var chunks := Chunks(ops);
    var writes := Planned(postOnly, makerBook, CurrentSequence(current), chunks, |chunks|);
    PlannedCounts(current, makerBook, postOnly, chunks);
    ShapedAround(Setup(current, deposit), writes, [], current, postOnly, deposit, None);
    assert Setup(current, deposit) + writes + [] == Setup(current, deposit) + writes;
  }

  lemma {:induction false} WrittenAlone(
      current: MakerBook, makerBook: Pubkey, postOnly: PostOnly, ops: seq<LevelOp>, placedIds: seq<LimitOrderId>)
    ensures Shaped(Written(Some(current), makerBook, postOnly, [], ops, placedIds).instructions,
                   Some(current), postOnly, None, None)
  {
    WrittenIsShaped(Some(current), makerBook, postOnly, None, ops, placedIds);
    assert Setup(Some(current), None) == [];
  }

  lemma {:induction false} WrittenThenWithdrawn(
      current: MakerBook, makerBook: Pubkey, postOnly: PostOnly,
      withdraw: Option<CollateralArgs>, ops: seq<LevelOp>)
    ensures Shaped(Written(Some(current), makerBook, postOnly, [], ops, []).instructions + Withdrawal(withdraw),
                   Some(current), postOnly, None, withdraw)
  {
    var chunks := Chunks(ops);
    var writes := Planned(postOnly, makerBook, CurrentSequence(Some(current)), chunks, |chunks|);
    PlannedCounts(Some(current), makerBook, postOnly, chunks);
    ShapedAround([], writes, Withdrawal(withdraw), Some(current), postOnly, None, withdraw);
    assert [] + writes == writes;
  }

  /** The end of every action: push the plan and report. A plan of 1 to 32 ops is
      always one instruction, numbered one past the book's, and never needs a split. */
  method Finish(
      current: Option<MakerBook>, makerBook: Pubkey, postOnly: PostOnly,
      setup: seq<Instruction>, ops: seq<LevelOp>, placedIds: seq<LimitOrderId>)
    returns (r: SdkResult<ActionResult>)
    ensures r.Err? <==> SplitRequired(postOnly.registryBooks, makerBook, Chunks(ops))
    ensures r.Err? ==> r.error == RegistryFullSplitRequired(|ops|)
    ensures r.Ok? ==> r.value == Written(current, makerBook, postOnly, setup, ops, placedIds)
    ensures 0 < |ops| <= MAX_LEVEL_OPS ==>
              r == Ok(ActionResult(setup + [OneWrite(current, postOnly, ops)], placedIds,
                                   WrapU64(CurrentSequence(current) + 1)))
  {
    if 0 < |ops| <= MAX_LEVEL_OPS {
      OneChunkPlan(postOnly, makerBook, current, ops);
    }
    var instructions, next := PushLevelOps(setup, makerBook, postOnly, CurrentSequence(current), ops);
    var nextSequenceNumber :- next;
    r := Ok(ActionResult(instructions, placedIds, nextSequenceNumber));
  }

  // ---------- place ----------

  function Lots(orders: seq<Resolved>): Levels
    requires AllResolved(orders)
  {
    seq(|orders|, i requires 0 <= i < |orders| => orders[i].value)
  }

  function Ids(orders: Levels): seq<LimitOrderId> {
    seq(|orders|, i requires 0 <= i < |orders| => orders[i].id)
  }

  /** The orders' ids, in input order. */
  ghost predicate NamesOrders(ids: seq<LimitOrderId>, orders: seq<Resolved>) {
    |ids| == |orders| && forall i | 0 <= i < |orders| :: orders[i].Ok? && ids[i] == orders[i].value.id
  }

  function PlaceOps(orders: Levels): seq<LevelOp> {
    seq(|orders|, i requires 0 <= i < |orders| => LevelOp.Place(orders[i].id, orders[i].size))
  }

  lemma {:induction false} WellFormedPrefix(levels: Levels, n: nat)
    requires n <= |levels| && WellFormed(levels)
    ensures WellFormed(levels[..n])
    decreases |levels|
  {
    if n < |levels| {
      var m := |levels| - 1;
      assert WellFormed(levels[..m]);
      WellFormedPrefix(levels[..m], n);
      assert levels[..m][..n] == levels[..n];
    } else {
      assert levels[..n] == levels;
    }
  }

  /** A list that stays well-formed has room for its last order. */
  lemma {:induction false} LastOrderFits(levels: Levels, o: Order)
    requires WellFormed(levels + [o])
    ensures o.size > 0 && o.id.priceTicks > 0 && o.id !in AsMap(levels)
    ensures SideCount(levels, o.id.side) < MAX_LEVELS
  {
    assert (levels + [o])[..|levels|] == levels;
    DistinctPrefix(levels + [o]);
  }

  lemma {:induction false} AtMostOneWrite(levels: Levels)
    requires WellFormed(levels)
    ensures |levels| <= MAX_LEVEL_OPS
  {
    SideCountsSum(levels);
  }

  /** If the whole list is well-formed, so is every step towards it. */
  lemma {:induction false} NextOrderFits(seen: Levels, orders: Levels, i: nat)
    requires i < |orders| && WellFormed(seen + orders)
    ensures var o := orders[i];
            && o.size > 0 && o.id.priceTicks > 0
            && o.id !in AsMap(seen + orders[..i])
            && SideCount(seen + orders[..i], o.id.side) < MAX_LEVELS
  {
    WellFormedPrefix(seen + orders, |seen| + i + 1);
    assert (seen + orders)[..|seen| + i + 1] == seen + orders[..i] + [orders[i]];
    LastOrderFits(seen + orders[..i], orders[i]);
  }

  lemma {:induction false} LotsGrow(orders: seq<Resolved>, i: nat)
    requires i < |orders| && AllResolved(orders[..i + 1])
    ensures AllResolved(orders[..i])
    ensures Lots(orders[..i + 1]) == Lots(orders[..i]) + [orders[i].value]
  {
    assert forall j | 0 <= j < i :: orders[..i + 1][j] == orders[..i][j];
  }

  lemma {:induction false} LotsPrefix(orders: seq<Resolved>, i: nat)
    requires i <= |orders| && AllResolved(orders)
    ensures AllResolved(orders[..i])
    ensures Lots(orders[..i]) == Lots(orders)[..i]
  {
  }

  /** Order `i` is the first that cannot be placed, and why. */
  ghost predicate PlaceFailsAt(seen: Levels, orders: seq<Resolved>, i: nat, error: SdkError) {
    && i < |orders|
    && AllResolved(orders[..i])
    && WellFormed(seen + Lots(orders[..i]))
    && match orders[i]
       case Err(e) => error == e
       case Ok(o) => Machine.Next(AsMap(seen + Lots(orders[..i])), Machine.Place(o.id, o.size)) == Err(error)
  }

  /** The place loop; an error is the first failing order's own. */
  method PlaceAll(local: LocalBook, orders: seq<Resolved>) returns (r: SdkResult<seq<LevelOp>>)
    modifies local
    ensures r.Ok? ==>
              && AllResolved(orders)
              && local.levels == old(local.levels) + Lots(orders)
              && r.value == PlaceOps(Lots(orders))
    ensures old(WellFormed(local.levels)) ==>
              (r.Ok? <==> AllResolved(orders) && WellFormed(old(local.levels) + Lots(orders)))
    ensures old(WellFormed(local.levels)) && r.Err? ==>
              exists i: nat :: PlaceFailsAt(old(local.levels), orders, i, r.error)
  {
    ghost var seen := local.levels;
    var ops: seq<LevelOp> := [];
    for i := 0 to |orders|
      invariant AllResolved(orders[..i])
      invariant local.levels == seen + Lots(orders[..i])
      invariant WellFormed(seen) ==> WellFormed(local.levels)
      invariant ops == PlaceOps(Lots(orders[..i]))
    {
      if orders[i].Err? {
        assert WellFormed(seen) ==> PlaceFailsAt(seen, orders, i, orders[i].error);
        return Err(orders[i].error);
      }
      var o := orders[i].value;
      LotsGrow(orders, i);
      if AllResolved(orders) && WellFormed(seen + Lots(orders)) {
        LotsPrefix(orders, i);
        NextOrderFits(seen, Lots(orders), i);
      }
      var op := local.Place(o.id, o.size);
      if op.Err? {
        assert WellFormed(seen) ==> PlaceFailsAt(seen, orders, i, op.error);
        return Err(op.error);
      }
      ops := ops + [op.value];
    }
    assert orders[..|orders|] == orders;
    r := Ok(ops);
  }

  /** Places new orders. From a well-formed snapshot it succeeds exactly when every
      order resolves, the book with the new orders is well-formed and it is not
      crossed; then it is always one instruction, whatever the registry holds. */
  method BuildPlace(
      current: Option<MakerBook>, makerBook: Pubkey, orders: seq<Resolved>,
      deposit: Option<CollateralArgs>, postOnly: PostOnly)
    returns (r: SdkResult<ActionResult>)
    ensures r.Ok? ==> Shaped(r.value.instructions, current, postOnly, deposit, None)
    ensures r.Ok? ==> NamesOrders(r.value.placedIds, orders)
    ensures orders == [] ==> r == Err(EmptyOrderList)
    ensures orders != [] && !Convertible(current) ==> r == Err(OffsetOverflow)
    ensures WellFormed(Seen(current)) ==>
              (r.Ok? <==>
                && orders != []
                && Convertible(current)
                && AllResolved(orders)
                && WellFormed(Seen(current) + Lots(orders))
                && Uncrossed(AsMap(Seen(current) + Lots(orders))))
    ensures WellFormed(Seen(current)) && r.Err? && orders != [] && Convertible(current) ==>
              if AllResolved(orders) && WellFormed(Seen(current) + Lots(orders)) then r.error.CrossedBookOffsets?
              else exists i: nat :: PlaceFailsAt(Seen(current), orders, i, r.error)
    ensures WellFormed(Seen(current)) && r.Ok? ==>
              && AllResolved(orders)
              && r.value == ActionResult(
                   Setup(current, deposit) + [OneWrite(current, postOnly, PlaceOps(Lots(orders)))],
                   Ids(Lots(orders)),
                   WrapU64(CurrentSequence(current) + 1))
  {
    if orders == [] {
      return Err(EmptyOrderList);
    }
    var local :- OpenBook(current);
    var ops :- PlaceAll(local, orders);
    var _ :- local.CheckNotCrossed();
    if WellFormed(Seen(current)) {
      AtMostOneWrite(Seen(current) + Lots(orders));
    }
    WrittenIsShaped(current, makerBook, postOnly, deposit, ops, Ids(Lots(orders)));
    r := Finish(current, makerBook, postOnly, Setup(current, deposit), ops, Ids(Lots(orders)));
  }

  // ---------- modify ----------

  /** The plan of a modify, given the size observed at the old id. */
  function ModifyOps(observed: u64, id: LimitOrderId, target: Order, mode: CancelMode): seq<LevelOp> {
    if target.id == id then [LevelOp.Resize(id, observed, target.size)]
    else if target.size == 0 then [CancelOp(mode, id, observed)]
    else [CancelOp(mode, id, observed), LevelOp.Place(target.id, target.size)]
  }

  /** The book after a modify: the old order is gone, the new one rests. */
  function Modified(seen: BookMap, id: LimitOrderId, target: Order): BookMap {
    if target.size == 0 then seen - {id} else (seen - {id})[target.id := target.size]
  }

  ghost predicate Modifiable(seen: BookMap, id: LimitOrderId, target: Order) {
    && id in seen
    && (target.id != id && target.size > 0 ==> target.id.priceTicks > 0 && target.id !in seen)
  }

  /** Cancelling an order always makes room for its replacement. */
  lemma {:induction false} ReplacementFits(seen: BookMap, id: LimitOrderId)
    requires LegalBook(seen) && id in seen
    ensures |SideIds(seen - {id}, id.side)| < MAX_LEVELS
  {
    RoomBelowCap(seen - {id}, seen, id);
  }

  lemma {:induction false} ReplayOne(b: BookMap, op: LevelOp)
    ensures Replay(b, [op]) == ApplyOp(b, op)
  {
    assert [op][..0] == [];
  }

  lemma {:induction false} ReplayTwo(b: BookMap, first: LevelOp, second: LevelOp)
    requires ApplyOp(b, first).Ok?
    ensures Replay(b, [first, second]) == ApplyOp(ApplyOp(b, first).value, second)
  {
    ReplayOne(b, first);
    assert [first, second][..1] == [first];
  }

  lemma {:induction false} ModifiedIsLegal(seen: BookMap, id: LimitOrderId, target: Order)
    requires LegalBook(seen) && target.id.side == id.side
    requires Modifiable(seen, id, target)
    ensures LegalBook(Modified(seen, id, target))
  {
    ReplacementFits(seen, id);
    SideIdsMono(seen - {id}, seen, Bid);
    SideIdsMono(seen - {id}, seen, Ask);
    if target.size > 0 {
      SideAfterInsert(seen - {id}, target.id, target.size);
    }
  }

  /** A modify's plan passes its guards on the snapshot and leaves the modified,
      still legal, book. */
  lemma {:induction false} ModifyLands(seen: BookMap, id: LimitOrderId, target: Order, mode: CancelMode)
    requires LegalBook(seen) && target.id.side == id.side
    requires Modifiable(seen, id, target)
    ensures Replay(seen, ModifyOps(seen[id], id, target, mode)) == Ok(Modified(seen, id, target))
    ensures LegalBook(Modified(seen, id, target))
  {
    ModifiedIsLegal(seen, id, target);
    CancelAccepted(seen, Order(id, seen[id]), mode);
    if target.id == id {
      ReplayOne(seen, LevelOp.Resize(id, seen[id], target.size));
      assert seen[id := target.size] == (seen - {id})[id := target.size];
    } else if target.size == 0 {
      ReplayOne(seen, CancelOp(mode, id, seen[id]));
    } else {
      ReplayTwo(seen, CancelOp(mode, id, seen[id]), LevelOp.Place(target.id, target.size));
      PlaceAccepted(seen - {id}, Modified(seen, id, target), target);
    }
  }

  /** Why an order cannot be modified. */
  function ModifyError(seen: BookMap, id: LimitOrderId, target: Order): SdkError {
    if id !in seen then LimitOrderNotFound(id)
    else if target.id.priceTicks == 0 then PriceBelowResolution
    else LimitOrderAlreadyExists(target.id)
  }

  lemma {:induction false} ResizeIsModify(seen: BookMap, id: LimitOrderId, size: u64)
    ensures size > 0 ==> seen[id := size] == Modified(seen, id, Order(id, size))
  {
  }

  lemma {:induction false} RoomAfterCancel(before: Levels, after: Levels, id: LimitOrderId)
    ensures WellFormed(before) && WellFormed(after) && id in AsMap(before) && AsMap(after) == AsMap(before) - {id} ==>
              SideCount(after, id.side) < MAX_LEVELS
  {
    if WellFormed(before) && WellFormed(after) && id in AsMap(before) && AsMap(after) == AsMap(before) - {id} {
      WellFormedIsLegal(before);
      ReplacementFits(AsMap(before), id);
      SideCountIsCardinality(after, id.side);
    }
  }

  method ModifyLocal(local: LocalBook, id: LimitOrderId, target: Order, mode: CancelMode)
    returns (r: SdkResult<seq<LevelOp>>)
    requires target.id.side == id.side
    modifies local
    ensures old(WellFormed(local.levels)) ==> (r.Ok? <==> Modifiable(old(local.Book()), id, target))
    ensures old(WellFormed(local.levels)) && r.Err? ==> r.error == ModifyError(old(local.Book()), id, target)
    ensures old(WellFormed(local.levels)) && r.Ok? ==>
              && WellFormed(local.levels)
              && local.Book() == Modified(old(local.Book()), id, target)
              && r.value == ModifyOps(old(local.Book())[id], id, target, mode)
  {
    if target.id == id {
      ResizeIsModify(local.Book(), id, target.size);
      var op :- local.Resize(id, target.size);
      r := Ok([op]);
    } else {
      var cancel :- local.Cancel(id, mode);
      if target.size == 0 {
        r := Ok([cancel]);
      } else {
        RoomAfterCancel(old(local.levels), local.levels, id);
        var place :- local.Place(target.id, target.size);
        r := Ok([cancel, place]);
      }
    }
  }

  method ModifyUncrossed(local: LocalBook, id: LimitOrderId, target: Order, mode: CancelMode)
    returns (r: SdkResult<seq<LevelOp>>)
    requires target.id.side == id.side
    modifies local
    ensures old(WellFormed(local.levels)) ==>
              var seen := old(local.Book());
              && (r.Ok? <==> Modifiable(seen, id, target) && Uncrossed(Modified(seen, id, target)))
              && (r.Ok? ==> r.value == ModifyOps(seen[id], id, target, mode))
              && (r.Err? ==>
                    if Modifiable(seen, id, target) then r.error.CrossedBookOffsets?
                    else r.error == ModifyError(seen, id, target))
  {
    var ops :- ModifyLocal(local, id, target, mode);
    var _ :- local.CheckNotCrossed();
    r := Ok(ops);
  }

  /** Moves or resizes one order. It succeeds exactly when the order rests, the new
      slot is free and the result is not crossed: never for lack of room. */
  method BuildModify(
      current: MakerBook, makerBook: Pubkey, id: LimitOrderId, target: Resolved, postOnly: PostOnly, mode: CancelMode)
    returns (r: SdkResult<ActionResult>)
    requires target.Ok? ==> target.value.id.side == id.side
    ensures WellFormed(SnapshotOf(current)) ==>
              (r.Ok? <==>
                && Convertible(Some(current))
                && target.Ok?
                && Modifiable(AsMap(SnapshotOf(current)), id, target.value)
                && Uncrossed(Modified(AsMap(SnapshotOf(current)), id, target.value)))
    ensures WellFormed(SnapshotOf(current)) && Convertible(Some(current)) && r.Err? ==>
              match target
              case Err(e) => r.error == e
              case Ok(o) =>
                if Modifiable(AsMap(SnapshotOf(current)), id, o) then r.error.CrossedBookOffsets?
                else if id !in AsMap(SnapshotOf(current)) then r.error == LimitOrderNotFound(id)
                else if o.id.priceTicks == 0 then r.error == PriceBelowResolution
                else r.error == LimitOrderAlreadyExists(o.id)
    ensures r.Ok? ==> Shaped(r.value.instructions, Some(current), postOnly, None, None)
    ensures WellFormed(SnapshotOf(current)) && r.Ok? ==>
              var observed := AsMap(SnapshotOf(current))[id];
              r.value == ActionResult(
                [OneWrite(Some(current), postOnly, ModifyOps(observed, id, target.value, mode))],
                if target.value.size == 0 then [] else [target.value.id],
                WrapU64(current.lastUpdatedSequenceNumber + 1))
  {
    var local :- OpenBook(Some(current));
    var o :- target;
    var ops :- ModifyUncrossed(local, id, o, mode);
    var placedIds := if o.size == 0 then [] else [o.id];
    WrittenAlone(current, makerBook, postOnly, ops, placedIds);
    r := Finish(Some(current), makerBook, postOnly, [], ops, placedIds);
  }

  // ---------- cancel ----------

  ghost predicate EachRestsOnce(seen: BookMap, ids: seq<LimitOrderId>) {
    && (forall i, j | 0 <= i < j < |ids| :: ids[i] != ids[j])
    && (forall i | 0 <= i < |ids| :: ids[i] in seen)
  }

  /** Id `i` is the first that does not rest, or no longer does. */
  ghost predicate CancelFailsAt(seen: BookMap, ids: seq<LimitOrderId>, i: nat) {
    i < |ids| && EachRestsOnce(seen, ids[..i]) && ids[i] !in seen - IdSet(ids[..i])
  }

  lemma {:induction false} CancelNext(seen: BookMap, ids: seq<LimitOrderId>, k: nat)
    requires k < |ids| && EachRestsOnce(seen, ids[..k])
    ensures ids[k] in seen - IdSet(ids[..k]) <==> EachRestsOnce(seen, ids[..k + 1])
    ensures EachRestsOnce(seen, ids) ==> EachRestsOnce(seen, ids[..k + 1])
  {
    assert forall j | 0 <= j < k :: ids[..k + 1][j] == ids[..k][j];
  }

  /** The cancel loop; it fails on the first id that does not rest. */
  method CancelAll(local: LocalBook, ids: seq<LimitOrderId>, mode: CancelMode) returns (r: SdkResult<seq<LevelOp>>)
    modifies local
    ensures old(WellFormed(local.levels)) ==> (r.Ok? <==> EachRestsOnce(old(local.Book()), ids))
    ensures old(WellFormed(local.levels)) && r.Err? ==>
              exists i: nat :: CancelFailsAt(old(local.Book()), ids, i) && r.error == LimitOrderNotFound(ids[i])
    ensures old(WellFormed(local.levels)) && r.Ok? ==>
              && local.Book() == old(local.Book()) - IdSet(ids)
              && r.value == CancelOps(old(local.Book()), ids, mode)
              && |ids| <= |old(local.levels)|
  {
    ghost var wf, seen, size := WellFormed(local.levels), local.Book(), |local.levels|;
    var ops: seq<LevelOp> := [];
    for k := 0 to |ids|
      invariant wf ==> WellFormed(local.levels) && local.Book() == seen - IdSet(ids[..k])
      invariant wf ==> EachRestsOnce(seen, ids[..k]) && ops == CancelOps(seen, ids[..k], mode)
      invariant |local.levels| == size - k
    {
      assert ids[..k + 1] == ids[..k] + [ids[k]];
      assert IdSet(ids[..k + 1]) == IdSet(ids[..k]) + {ids[k]};
      if wf {
        CancelNext(seen, ids, k);
      }
      var op := local.Cancel(ids[k], mode);
      if op.Err? {
        assert wf ==> CancelFailsAt(seen, ids, k);
        return Err(op.error);
      }
      ops := ops + [op.value];
    }
    assert ids[..|ids|] == ids;
    r := Ok(ops);
  }

  lemma {:induction false} CancelsNeverSeat(seen: BookMap, ids: seq<LimitOrderId>, mode: CancelMode)
    requires forall i | 0 <= i < |ids| :: ids[i] in seen
    ensures !LevelOpsMaySeat(CancelOps(seen, ids, mode))
  {
    MaySeatMeaning(CancelOps(seen, ids, mode));
  }

  /** The one write of a cancel: it needs none of the registered books. */
  lemma {:induction false} CancelWrite(
      current: MakerBook, postOnly: PostOnly, seen: BookMap, ids: seq<LimitOrderId>, mode: CancelMode)
    requires forall i | 0 <= i < |ids| :: ids[i] in seen
    ensures [] + [OneWrite(Some(current), postOnly, CancelOps(seen, ids, mode))]
              == [UpdateBookLimit([], postOnly.crossPolicy, WrapU64(current.lastUpdatedSequenceNumber + 1),
                                  CancelOps(seen, ids, mode))]
  {
    CancelsNeverSeat(seen, ids, mode);
  }

  /** Cancels orders. It succeeds exactly when the ids are distinct and all rest;
      the one instruction carries none of the registered books, and a withdrawal
      follows it. */
  method BuildCancel(
      current: MakerBook, makerBook: Pubkey, ids: seq<LimitOrderId>,
      withdraw: Option<CollateralArgs>, postOnly: PostOnly, mode: CancelMode)
    returns (r: SdkResult<ActionResult>)
    ensures r.Ok? ==> Shaped(r.value.instructions, Some(current), postOnly, None, withdraw)
    ensures r.Ok? ==> r.value.placedIds == []
    ensures ids == [] ==> r == Err(EmptyOrderList)
    ensures WellFormed(SnapshotOf(current)) ==>
              (r.Ok? <==> ids != [] && Convertible(Some(current)) && EachRestsOnce(AsMap(SnapshotOf(current)), ids))
    ensures WellFormed(SnapshotOf(current)) && r.Err? && ids != [] && Convertible(Some(current)) ==>
              exists i: nat ::
                CancelFailsAt(AsMap(SnapshotOf(current)), ids, i) && r.error == LimitOrderNotFound(ids[i])
    ensures WellFormed(SnapshotOf(current)) && r.Ok? ==>
              var next := WrapU64(current.lastUpdatedSequenceNumber + 1);
              r.value == ActionResult(
                [UpdateBookLimit([], postOnly.crossPolicy, next, CancelOps(AsMap(SnapshotOf(current)), ids, mode))]
                  + Withdrawal(withdraw),
                [], next)
  {
    if ids == [] {
      return Err(EmptyOrderList);
    }
    var local :- OpenBook(Some(current));
    var ops :- CancelAll(local, ids, mode);
    if WellFormed(SnapshotOf(current)) {
      AtMostOneWrite(SnapshotOf(current));
      CancelWrite(current, postOnly, AsMap(SnapshotOf(current)), ids, mode);
    }
    WrittenThenWithdrawn(current, makerBook, postOnly, withdraw, ops);
    var written :- Finish(Some(current), makerBook, postOnly, [], ops, []);
    r := Ok(written.(instructions := written.instructions + Withdrawal(withdraw)));
  }

  // ---------- replace all ----------

  ghost predicate FirstUnresolved(orders: seq<Resolved>, i: nat) {
    i < |orders| && AllResolved(orders[..i]) && orders[i].Err?
  }

  method ResolveAll(orders: seq<Resolved>) returns (r: SdkResult<Levels>)
    ensures r.Ok? <==> AllResolved(orders)
    ensures r.Ok? ==> r.value == Lots(orders)
    ensures r.Err? ==> exists i: nat :: FirstUnresolved(orders, i) && r.error == orders[i].error
  {
    var desired: Levels := [];
    for i := 0 to |orders|
      invariant AllResolved(orders[..i]) && desired == Lots(orders[..i])
    {
      if orders[i].Err? {
        assert FirstUnresolved(orders, i);
        return Err(orders[i].error);
      }
      LotsGrow(orders, i);
      desired := desired + [orders[i].value];
    }
    assert orders[..|orders|] == orders;
    r := Ok(desired);
  }

  /** A replace-all plan always fits two instructions. */
  lemma {:induction false} AtMostTwoChunks(levels: Levels, desired: Levels, mode: CancelMode)
    requires WellFormed(levels) && WellFormed(desired)
    ensures |Chunks(Plan(levels, desired, mode))| <= 2
  {
    AtMostOneWrite(levels);
    AtMostOneWrite(desired);
    PlanOrder(levels, desired, mode);
    ChunksLoseNothing(Plan(levels, desired, mode));
  }

  method DiffUncrossed(local: LocalBook, desired: Levels, mode: CancelMode) returns (r: SdkResult<seq<LevelOp>>)
    modifies local
    ensures TargetError(desired).Some? ==> r == Err(TargetError(desired).value)
    ensures old(WellFormed(local.levels)) && TargetError(desired).None? && r.Err? ==>
              if WellFormed(desired) then r.error.CrossedBookOffsets?
              else exists j: nat :: TargetFailsAt(old(local.Book()), desired, j, r.error)
    ensures old(WellFormed(local.levels)) ==>
              (r.Ok? <==> WellFormed(desired) && Uncrossed(AsMap(desired)))
    ensures old(WellFormed(local.levels)) && r.Ok? ==>
              r.value == Plan(old(local.levels), desired, mode) && |Chunks(r.value)| <= 2
  {
    var ops :- local.DiffTo(desired, mode);
    var _ :- local.CheckNotCrossed();
    if old(WellFormed(local.levels)) {
      AtMostTwoChunks(old(local.levels), desired, mode);
    }
    r := Ok(ops);
  }

  /** Replaces the whole order set. From a well-formed snapshot it succeeds exactly
      when the target is well-formed and not crossed, and the registry does not
      force a split; the instructions are the diff plan, in at most two chunks. */
  method BuildReplaceAll(
      current: Option<MakerBook>, makerBook: Pubkey, orders: seq<Resolved>,
      deposit: Option<CollateralArgs>, postOnly: PostOnly, mode: CancelMode)
    returns (r: SdkResult<ActionResult>)
    ensures r.Ok? ==> Shaped(r.value.instructions, current, postOnly, deposit, None)
    ensures r.Ok? ==> NamesOrders(r.value.placedIds, orders)
    ensures orders == [] ==> r == Err(EmptyOrderList)
    ensures WellFormed(Seen(current)) ==>
              (r.Ok? <==>
                && orders != []
                && Convertible(current)
                && AllResolved(orders)
                && WellFormed(Lots(orders))
                && Uncrossed(AsMap(Lots(orders)))
                && !SplitRequired(postOnly.registryBooks, makerBook, Chunks(Plan(Seen(current), Lots(orders), mode))))
    ensures orders != [] && Convertible(current) && AllResolved(orders) && TargetError(Lots(orders)).Some? ==>
              r == Err(TargetError(Lots(orders)).value)
    ensures WellFormed(Seen(current)) && orders != [] && Convertible(current) && AllResolved(orders)
            && TargetError(Lots(orders)).None? && r.Err? ==>
              if !WellFormed(Lots(orders)) then
                exists j: nat :: TargetFailsAt(AsMap(Seen(current)), Lots(orders), j, r.error)
              else if !Uncrossed(AsMap(Lots(orders))) then r.error.CrossedBookOffsets?
              else r.error == RegistryFullSplitRequired(|Plan(Seen(current), Lots(orders), mode)|)
    ensures orders != [] && Convertible(current) && !AllResolved(orders) ==>
              exists i: nat :: FirstUnresolved(orders, i) && r == Err(orders[i].error)
    ensures orders != [] && !Convertible(current) ==> r == Err(OffsetOverflow)
    ensures WellFormed(Seen(current)) && r.Ok? ==>
              var ops := Plan(Seen(current), Lots(orders), mode);
              && |Chunks(ops)| <= 2
              && r.value == Written(current, makerBook, postOnly, Setup(current, deposit), ops, Ids(Lots(orders)))
  {
    if orders == [] {
      return Err(EmptyOrderList);
    }
    var local :- OpenBook(current);
    var desired :- ResolveAll(orders);
    var ops :- DiffUncrossed(local, desired, mode);
    WrittenIsShaped(current, makerBook, postOnly, deposit, ops, Ids(desired));
    r := Finish(current, makerBook, postOnly, Setup(current, deposit), ops, Ids(desired));
  }
}
