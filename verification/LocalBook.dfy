/** The client's mutable book: a level list edited in place, whose every change
    returns the op that makes the chain agree. */
module LocalBooks {
  import opened MachineInts
  import opened LevelOps
  import opened SdkErrors
  import opened ChainBook
  import opened Snapshot
  import opened DiffPlan
  import opened MakerBooks
  import Machine = ClientMachine

  lemma {:induction false} KeptByRemove(levels: Levels, i: nat)
    requires i < |levels|
    ensures WellFormed(levels) ==>
              WellFormed(Without(levels, i)) && AsMap(Without(levels, i)) == AsMap(levels) - {levels[i].id}
  {
    if WellFormed(levels) {
      AsMapRemove(levels, i);
      SideCountRemove(levels, i, Bid);
      SideCountRemove(levels, i, Ask);
    }
  }

  lemma {:induction false} KeptByUpdate(levels: Levels, i: nat, size: u64)
    requires i < |levels| && size > 0
    ensures var after := levels[i := Order(levels[i].id, size)];
            WellFormed(levels) ==> WellFormed(after) && AsMap(after) == AsMap(levels)[levels[i].id := size]
  {
    if WellFormed(levels) {
      AsMapUpdate(levels, i, size);
    }
  }

  lemma {:induction false} KeptByAppend(levels: Levels, o: Order)
    requires o.id !in AsMap(levels) && o.size > 0 && o.id.priceTicks > 0
    requires SideCount(levels, o.id.side) < MAX_LEVELS
    ensures AsMap(levels + [o]) == AsMap(levels)[o.id := o.size]
    ensures WellFormed(levels) ==> WellFormed(levels + [o])
  {
    AsMapAppend(levels, o);
    AsMapEntries(levels);
  }

  function SnapshotOf(book: MakerBook): Levels {
    ActiveOrders(book.bidLevels, Bid, book.midPriceTicks) + ActiveOrders(book.askLevels, Ask, book.midPriceTicks)
  }

  /** Highest bid price of a list. */
  function BestBid(levels: Levels): (best: Option<u64>)
    ensures best.None? <==> forall i | 0 <= i < |levels| :: levels[i].id.side != Bid
    ensures best.Some? ==> exists i :: 0 <= i < |levels| && levels[i].id == LimitOrderId(Bid, best.value)
    ensures best.Some? ==>
              forall i | 0 <= i < |levels| && levels[i].id.side == Bid :: levels[i].id.priceTicks <= best.value
  {
    if levels == [] then None
    else
      var n := |levels| - 1;
      var rest := BestBid(levels[..n]);
      assert forall i | 0 <= i < n :: levels[..n][i] == levels[i];
      if levels[n].id.side == Bid && (rest.None? || rest.value <= levels[n].id.priceTicks)
      then Some(levels[n].id.priceTicks) else rest
  }

  /** Lowest ask price of a list. */
  function BestAsk(levels: Levels): (best: Option<u64>)
    ensures best.None? <==> forall i | 0 <= i < |levels| :: levels[i].id.side != Ask
    ensures best.Some? ==> exists i :: 0 <= i < |levels| && levels[i].id == LimitOrderId(Ask, best.value)
    ensures best.Some? ==>
              forall i | 0 <= i < |levels| && levels[i].id.side == Ask :: best.value <= levels[i].id.priceTicks
  {
    if levels == [] then None
    else
      var n := |levels| - 1;
      var rest := BestAsk(levels[..n]);
      assert forall i | 0 <= i < n :: levels[..n][i] == levels[i];
      if levels[n].id.side == Ask && (rest.None? || levels[n].id.priceTicks <= rest.value)
      then Some(levels[n].id.priceTicks) else rest
  }

  ghost predicate PositiveTarget(desired: Levels) {
    Distinct(desired) && forall i | 0 <= i < |desired| :: desired[i].size > 0
  }

  /** What the cancel loop leaves: the snapshot cut down to the target's ids. */
  ghost predicate ResizeLoopReady(levels: Levels, desired: Levels, snapshot: Levels) {
    && PositiveTarget(desired)
    && WellFormed(levels)
    && AsMap(levels) == AsMap(snapshot) - (AsMap(snapshot).Keys - AsMap(desired).Keys)
  }

  /** What the two first loops leave of the snapshot. */
  function Kept(seen: BookMap, target: BookMap): BookMap {
    map id | id in target.Keys && id in seen :: target[id]
  }

  /** What the resize loop leaves: every kept id at its desired size. */
  ghost predicate PlaceLoopReady(levels: Levels, desired: Levels, snapshot: Levels) {
    && PositiveTarget(desired)
    && WellFormed(levels)
    && AsMap(levels) == Kept(AsMap(snapshot), AsMap(desired))
  }

  /** Target order `j` is the first that cannot be placed, and why: the orders before
      it rest, and the machine refuses it there. */
  ghost predicate TargetFailsAt(seen: BookMap, desired: Levels, j: nat, error: SdkError) {
    && j < |desired|
    && desired[j].id !in seen
    && var now := Placed(Kept(seen, AsMap(desired)), seen, AsMap(desired[..j]));
       LegalBook(now) && Machine.Next(now, Machine.Place(desired[j].id, desired[j].size)) == Err(error)
  }

  lemma {:induction false} TargetPrefix(desired: Levels, j: nat)
    requires PositiveTarget(desired) && j < |desired|
    ensures desired[..j + 1][..j] == desired[..j]
    ensures desired[j].id !in AsMap(desired[..j])
    ensures AsMap(desired[..j + 1]) == AsMap(desired[..j])[desired[j].id := desired[j].size]
    ensures desired[j].id in AsMap(desired) && AsMap(desired)[desired[j].id] == desired[j].size
    ensures AsMap(desired[..j]).Keys <= AsMap(desired).Keys
  {
    assert desired[..j + 1][..j] == desired[..j];
    DistinctPrefix(desired[..j + 1]);
    AsMapFirst(desired, desired[j].id);
    forall id | id in AsMap(desired[..j]) ensures id in AsMap(desired) {
      AsMapFirst(desired[..j], id);
      AsMapFirst(desired, id);
      assert desired[Position(desired[..j], id).value].id == id;
    }
  }

  lemma {:induction false} PlaceLoopStep(b: BookMap, seen: BookMap, desired: Levels, j: nat)
    requires PositiveTarget(desired) && j < |desired|
    requires b == Kept(seen, AsMap(desired))
    ensures var o, now := desired[j], Placed(b, seen, AsMap(desired[..j]));
            && (o.id in now <==> o.id in seen)
            && now.Keys <= AsMap(desired).Keys
            && o.id in AsMap(desired)
            && Placed(b, seen, AsMap(desired[..j + 1])) == (if o.id in seen then now else now[o.id := o.size])
            && PlacePlan(seen, desired[..j + 1])
                 == PlacePlan(seen, desired[..j]) + (if o.id in seen then [] else [LevelOp.Place(o.id, o.size)])
  {
    TargetPrefix(desired, j);
    PlacedAppend(b, seen, AsMap(desired[..j]), desired[j]);
  }

  /** A distinct, positive target can only fail on a zero price or a full side. */
  lemma {:induction false} TargetErrorKinds(seen: BookMap, desired: Levels, j: nat, error: SdkError)
    requires PositiveTarget(desired) && TargetFailsAt(seen, desired, j, error)
    ensures error == if desired[j].id.priceTicks == 0 then PriceBelowResolution else BookFull(desired[j].id.side)
  {
    PlaceLoopStep(Kept(seen, AsMap(desired)), seen, desired, j);
  }

  /** After the cancels and the resizes, what is kept has its target size. */
  lemma {:induction false} ResizedIsKept(seen: BookMap, target: BookMap)
    ensures Resized(seen - (seen.Keys - target.Keys), seen, target) == Kept(seen, target)
  {
  }

  lemma {:induction false} CancelLoopStep(seen: BookMap, ids: seq<LimitOrderId>, mode: CancelMode, k: nat)
    requires forall i, j | 0 <= i < j < |ids| :: ids[i] != ids[j]
    requires forall i | 0 <= i < |ids| :: ids[i] in seen
    requires k < |ids|
    ensures var now := seen - IdSet(ids[..k]);
            && ids[k] in now
            && now[ids[k]] == seen[ids[k]]
            && now - {ids[k]} == seen - IdSet(ids[..k + 1])
    ensures CancelOps(seen, ids, mode)[..k] + [CancelOp(mode, ids[k], seen[ids[k]])]
              == CancelOps(seen, ids, mode)[..k + 1]
  {
    assert ids[..k + 1] == ids[..k] + [ids[k]];
    assert IdSet(ids[..k + 1]) == IdSet(ids[..k]) + {ids[k]};
  }

  lemma {:induction false} ResizeLoopStep(b: BookMap, seen: BookMap, desired: Levels, j: nat)
    requires PositiveTarget(desired) && j < |desired|
    requires b == seen - (seen.Keys - AsMap(desired).Keys)
    ensures var o, now := desired[j], Resized(b, seen, AsMap(desired[..j]));
            && (o.id in now <==> o.id in seen)
            && (o.id in now ==> now[o.id] == seen[o.id])
            && Resized(b, seen, AsMap(desired[..j + 1]))
                 == (if o.id in seen && seen[o.id] != o.size then now[o.id := o.size] else now)
            && ResizePlan(seen, desired[..j + 1])
                 == ResizePlan(seen, desired[..j])
                    + (if o.id in seen && seen[o.id] != o.size
                       then [LevelOp.Resize(o.id, seen[o.id], o.size)] else [])
  {
    TargetPrefix(desired, j);
    var o, m := desired[j], AsMap(desired[..j]);
    var now := Resized(b, seen, m);
    assert Resized(b, seen, m[o.id := o.size])
        == if o.id in seen && seen[o.id] != o.size then now[o.id := o.size] else now;
  }

  /** A well-formed target leaves room for each of its orders. */
  lemma {:induction false} RoomForTarget(levels: Levels, desired: Levels, id: LimitOrderId)
    requires WellFormed(levels) && WellFormed(desired)
    requires AsMap(levels).Keys <= AsMap(desired).Keys
    requires id in AsMap(desired) && id !in AsMap(levels)
    ensures id.priceTicks > 0 && SideCount(levels, id.side) < MAX_LEVELS
  {
    WellFormedIsLegal(desired);
    SideCountIsCardinality(levels, id.side);
    RoomBelowCap(AsMap(levels), AsMap(desired), id);
  }

  /** A call on the list did what the map machine does: same error, or the same
      next map and op. */
  ghost predicate Refines(before: BookMap, c: Machine.Command, after: BookMap, r: SdkResult<LevelOp>) {
    match Machine.Next(before, c)
    case Err(e) => r == Err(e) && after == before
    case Ok(step) => r == Ok(step.op) && after == step.book
  }

  /** Only the first entry for `id` is gone. */
  ghost predicate FirstRemoved(before: Levels, id: LimitOrderId, after: Levels) {
    Position(before, id).Some? && after == Without(before, Position(before, id).value)
  }

  /** Only the first entry for `id` has a new size. */
  ghost predicate FirstResized(before: Levels, id: LimitOrderId, size: u64, after: Levels) {
    Position(before, id).Some? && after == before[Position(before, id).value := Order(id, size)]
  }

  class LocalBook {
    var levels: seq<Order>

    constructor Empty()
      ensures levels == []
    {
      levels := [];
    }

    constructor (orders: seq<Order>)
      ensures levels == orders
    {
      levels := orders;
    }

    /** Snapshots an on-chain book: its active levels at absolute prices, bids then
        asks. Fails exactly when an active level has no representable price. */
    static method FromMakerBook(book: MakerBook) returns (r: SdkResult<LocalBook>)
      ensures r.Ok? <==> Priced(book.bidLevels, book.midPriceTicks) && Priced(book.askLevels, book.midPriceTicks)
      ensures r.Ok? ==> fresh(r.value) && r.value.levels == SnapshotOf(book)
      ensures r.Err? ==> r.error == OffsetOverflow
    {
      var bids :- SideOrders(book.bidLevels, Bid, book.midPriceTicks);
      var asks :- SideOrders(book.askLevels, Ask, book.midPriceTicks);
      var snapshot := new LocalBook(bids + asks);
      r := Ok(snapshot);
    }

    /** The inner loop of `from_maker_book`. */
    static method SideOrders(levels: seq<MakerLevel>, side: Side, anchor: u64) returns (r: SdkResult<seq<Order>>)
      ensures r == if Priced(levels, anchor) then Ok(ActiveOrders(levels, side, anchor)) else Err(OffsetOverflow)
    {
      var orders: seq<Order> := [];
      for i := 0 to |levels|
        invariant orders == ActiveOrders(levels[..i], side, anchor)
        invariant forall j | 0 <= j < i && levels[j].IsActive() :: levels[j].AbsolutePrice(anchor).Some?
      {
        assert levels[..i + 1][..i] == levels[..i];
        var level := levels[i];
        if level.IsActive() {
          match level.AbsolutePrice(anchor) {
            case None =>
              return Err(OffsetOverflow);
            case Some(price) =>
              orders := orders + [Order(LimitOrderId(side, price), level.sizeInBaseLots)];
          }
        }
      }
      assert levels[..|levels|] == levels;
      r := Ok(orders);
    }

    /** Refuses a book whose best bid reaches its best ask: succeeds exactly when
        every bid rests below every ask. */
    function CheckNotCrossed(): (r: SdkResult<()>)
      reads this
      ensures r.Ok? <==> Uncrossed(Book())
      ensures r.Err? ==> exists bid, ask :: r == Err(CrossedBookOffsets(bid, ask)) && bid >= ask
    {
      AsMapEntries(levels);
      match (BestBid(levels), BestAsk(levels))
      case (Some(bid), Some(ask)) => if bid >= ask then Err(CrossedBookOffsets(bid, ask)) else Ok(())
      case _ => Ok(())
    }

    /** The map the list stands for. */
    ghost function Book(): BookMap
      reads this
    {
      AsMap(levels)
    }

    function SizeOf(id: LimitOrderId): (size: Option<u64>)
      reads this
      ensures size == if id in Book() then Some(Book()[id]) else None
    {
      AsMapFirst(levels, id);
      match Position(levels, id)
      case Some(i) => Some(levels[i].size)
      case None => None
    }

    /** Removes the first order at `id` and returns its size. */
    method Remove(id: LimitOrderId) returns (r: SdkResult<u64>)
      modifies this
      ensures r.Ok? <==> id in old(Book())
      ensures r.Ok? ==> r.value == old(Book())[id]
      ensures r.Ok? ==> FirstRemoved(old(levels), id, levels) && |levels| == |old(levels)| - 1
      ensures r.Ok? && old(WellFormed(levels)) ==> WellFormed(levels) && Book() == old(Book()) - {id}
      ensures r.Err? ==> r.error == LimitOrderNotFound(id) && levels == old(levels)
    {
      AsMapFirst(levels, id);
      match Position(levels, id) {
        case None =>
          r := Err(LimitOrderNotFound(id));
        case Some(i) =>
          KeptByRemove(levels, i);
          r := Ok(levels[i].size);
          levels := Without(levels, i);
      }
    }

    /** Rests a new order. A well-formed list refines the map machine's `Place`. */
    method Place(id: LimitOrderId, size: u64) returns (r: SdkResult<LevelOp>)
      modifies this
      ensures r.Ok? <==> size > 0 && id.priceTicks > 0 && id !in old(Book())
                         && SideCount(old(levels), id.side) < MAX_LEVELS
      ensures r.Ok? ==> levels == old(levels) + [Order(id, size)] && Book() == old(Book())[id := size]
      ensures r.Ok? ==> r.value == LevelOp.Place(id, size)
      ensures r.Err? ==> levels == old(levels)
      ensures old(WellFormed(levels)) ==>
                WellFormed(levels) && Refines(old(Book()), Machine.Place(id, size), Book(), r)
    {
      var side := SideCount(levels, id.side);
      if size == 0 {
        r := Err(InvalidSize);
      } else if id.priceTicks == 0 {
        r := Err(PriceBelowResolution);
      } else if SizeOf(id).Some? {
        r := Err(LimitOrderAlreadyExists(id));
      } else if side >= MAX_LEVELS {
        r := Err(BookFull(id.side));
      } else {
        KeptByAppend(levels, Order(id, size));
        levels := levels + [Order(id, size)];
        r := Ok(LevelOp.Place(id, size));
      }
      if old(WellFormed(levels)) {
        SideCountIsCardinality(old(levels), id.side);
      }
    }

    /** Removes an order; the mode picks the guard the op carries. */
    method Cancel(id: LimitOrderId, mode: CancelMode) returns (r: SdkResult<LevelOp>)
      modifies this
      ensures r.Ok? <==> id in old(Book())
      ensures r.Ok? ==> r.value == CancelOp(mode, id, old(Book())[id])
      ensures r.Ok? && id.priceTicks > 0 && mode == Any ==> RemovesWhateverRests(r.value, id)
      ensures r.Ok? && id.priceTicks > 0 && mode == Strict ==> RemovesOnly(r.value, id, old(Book())[id])
      ensures r.Ok? ==> FirstRemoved(old(levels), id, levels) && |levels| == |old(levels)| - 1
      ensures r.Err? ==> levels == old(levels)
      ensures old(WellFormed(levels)) ==>
                WellFormed(levels) && Refines(old(Book()), Machine.Cancel(id, mode), Book(), r)
    {
      var observed := Remove(id);
      match observed {
        case Err(e) => r := Err(e);
        case Ok(size) =>
          r := Ok(match mode
                  case Any => LevelOp.CancelAny(id)
                  case Strict => LevelOp.Resize(id, size, 0));
      }
    }

    /** Changes an order's size in place; zero is a strict cancel. */
    method Resize(id: LimitOrderId, newSize: u64) returns (r: SdkResult<LevelOp>)
      modifies this
      ensures r.Ok? <==> id in old(Book())
      ensures r.Ok? ==> r.value == LevelOp.Resize(id, old(Book())[id], newSize)
      ensures r.Ok? ==>
                if newSize == 0 then FirstRemoved(old(levels), id, levels)
                else FirstResized(old(levels), id, newSize, levels)
      ensures r.Ok? && newSize > 0 && old(WellFormed(levels)) ==> Book() == old(Book())[id := newSize]
      ensures r.Err? ==> levels == old(levels)
      ensures old(WellFormed(levels)) ==>
                WellFormed(levels) && Refines(old(Book()), Machine.Resize(id, newSize), Book(), r)
    {
      if newSize == 0 {
        r := Cancel(id, Strict);
        return;
      }
      AsMapFirst(levels, id);
      match Position(levels, id) {
        case None =>
          r := Err(LimitOrderNotFound(id));
        case Some(i) =>
          var observed := levels[i].size;
          KeptByUpdate(levels, i, newSize);
          levels := levels[i := Order(id, newSize)];
          r := Ok(LevelOp.Resize(id, observed, newSize));
      }
    }

    /** Turns the snapshot into exactly `desired` and returns the plan: cancels,
        then resizes, then places. From a well-formed snapshot it succeeds exactly
        when the target is well-formed in the same sense. */
    method DiffTo(desired: seq<Order>, mode: CancelMode) returns (r: SdkResult<seq<LevelOp>>)
      modifies this
      ensures TargetError(desired).Some? ==> r == Err(TargetError(desired).value) && levels == old(levels)
      ensures old(WellFormed(levels)) ==> (r.Ok? <==> WellFormed(desired))
      ensures old(WellFormed(levels)) && TargetError(desired).None? && r.Err? ==>
                exists j: nat :: TargetFailsAt(old(Book()), desired, j, r.error)
      ensures old(WellFormed(levels)) && r.Ok? ==>
                && WellFormed(levels)
                && Book() == AsMap(desired)
                && r.value == Plan(old(levels), desired, mode)
    {
      for n := 0 to |desired|
        invariant levels == old(levels)
        invariant TargetError(desired[..n]).None?
      {
        var o := desired[n];
        assert desired[..n + 1][..n] == desired[..n];
        if o.size == 0 {
          TargetErrorStays(desired, n + 1);
          return Err(InvalidSize);
        }
        if Position(desired[..n], o.id).Some? {
          TargetErrorStays(desired, n + 1);
          return Err(LimitOrderAlreadyExists(o.id));
        }
      }
      assert desired[..|desired|] == desired;
      TargetErrorMeaning(desired);
      var cancels :- CancelMissing(desired, mode);
      var resizes :- ResizeDiffering(desired, old(levels));
      ResizedIsKept(old(Book()), AsMap(desired));
      var places :- PlaceMissing(desired, old(levels));
      r := Ok(cancels + resizes + places);
    }

    /** The first loop of `diff_to`: cancel what is not wanted. */
    method CancelMissing(desired: seq<Order>, mode: CancelMode) returns (r: SdkResult<seq<LevelOp>>)
      modifies this
      ensures old(WellFormed(levels)) ==>
                && WellFormed(levels)
                && Book() == old(Book()) - (old(Book()).Keys - AsMap(desired).Keys)
                && r == Ok(CancelPlan(old(levels), AsMap(desired), mode))
    {
      ghost var wf, seen := WellFormed(levels), Book();
      var toCancel := CancelIds(levels, desired);
      if wf {
        CancelIdsMeaning(levels, desired, mode);
      }
      var ops: seq<LevelOp> := [];
      for k := 0 to |toCancel|
        invariant wf ==> WellFormed(levels) && Book() == seen - IdSet(toCancel[..k])
        invariant wf ==> ops == CancelOps(seen, toCancel, mode)[..k]
      {
        if wf {
          CancelLoopStep(seen, toCancel, mode, k);
        }
        var op :- Cancel(toCancel[k], mode);
        ops := ops + [op];
      }
      assert toCancel[..|toCancel|] == toCancel;
      assert wf ==> ops == CancelOps(seen, toCancel, mode);
      r := Ok(ops);
    }

    /** The second loop of `diff_to`: resize what rests at another size. */
    method ResizeDiffering(desired: seq<Order>, ghost snapshot: seq<Order>)
      returns (r: SdkResult<seq<LevelOp>>)
      modifies this
      ensures ResizeLoopReady(old(levels), desired, snapshot) ==>
                && WellFormed(levels)
                && Book() == Resized(old(Book()), AsMap(snapshot), AsMap(desired))
                && r == Ok(ResizePlan(AsMap(snapshot), desired))
    {
      ghost var ready, b, seen := ResizeLoopReady(levels, desired, snapshot), Book(), AsMap(snapshot);
      var ops: seq<LevelOp> := [];
      assert Resized(b, seen, AsMap(desired[..0])) == b;
      for j := 0 to |desired|
        invariant ready ==> WellFormed(levels) && Book() == Resized(b, seen, AsMap(desired[..j]))
        invariant ready ==> ops == ResizePlan(seen, desired[..j])
      {
        var o := desired[j];
        if ready {
          ResizeLoopStep(b, seen, desired, j);
        }
        match SizeOf(o.id) {
          case Some(have) =>
            if have != o.size {
              var op :- Resize(o.id, o.size);
              ops := ops + [op];
            }
          case None =>
        }
      }
      assert desired[..|desired|] == desired;
      r := Ok(ops);
    }

    /** The third loop of `diff_to`: place what does not rest yet. */
    method PlaceMissing(desired: seq<Order>, ghost snapshot: seq<Order>)
      returns (r: SdkResult<seq<LevelOp>>)
      modifies this
      ensures PlaceLoopReady(old(levels), desired, snapshot) ==>
                && (r.Ok? <==> WellFormed(desired))
                && (r.Ok? ==> WellFormed(levels)
                              && Book() == AsMap(desired)
                              && r.value == PlacePlan(AsMap(snapshot), desired))
                && (r.Err? ==> exists j: nat :: TargetFailsAt(AsMap(snapshot), desired, j, r.error))
    {
      ghost var ready, b, seen := PlaceLoopReady(levels, desired, snapshot), Book(), AsMap(snapshot);
      var ops: seq<LevelOp> := [];
      assert Placed(b, seen, AsMap(desired[..0])) == b;
      for j := 0 to |desired|
        invariant ready ==> WellFormed(levels) && Book() == Placed(b, seen, AsMap(desired[..j]))
        invariant ready ==> ops == PlacePlan(seen, desired[..j])
      {
        var o := desired[j];
        if ready {
          PlaceLoopStep(b, seen, desired, j);
          if WellFormed(desired) && o.id !in seen {
            RoomForTarget(levels, desired, o.id);
          }
        }
        if SizeOf(o.id).None? {
          if ready {
            WellFormedIsLegal(levels);
          }
          var op := Place(o.id, o.size);
          if op.Err? {
            assert ready ==> TargetFailsAt(seen, desired, j, op.error);
            return Err(op.error);
          }
          ops := ops + [op.value];
        }
      }
      assert desired[..|desired|] == desired;
      if ready {
        assert Placed(b, seen, AsMap(desired)) == AsMap(desired);
        WellFormedIsLegal(levels);
        WellFormedIsLegal(desired);
      }
      r := Ok(ops);
    }
  }

  lemma {:induction false} SnapshotShape(levels: seq<MakerLevel>, side: Side, anchor: u64)
    ensures var orders := ActiveOrders(levels, side, anchor);
            && |orders| <= |levels|
            && (forall i | 0 <= i < |orders| ::
                  orders[i].id.side == side && orders[i].size > 0 && orders[i].id.priceTicks > 0)
            && SideCount(orders, side) == |orders|
            && SideCount(orders, if side == Bid then Ask else Bid) == 0
  {
    if levels != [] {
      var n := |levels| - 1;
      SnapshotShape(levels[..n], side, anchor);
      var before := ActiveOrders(levels[..n], side, anchor);
      if ActiveOrders(levels, side, anchor) != before {
        assert ActiveOrders(levels, side, anchor)[..|before|] == before;
      }
    }
  }

  lemma {:induction false} SideCountConcat(a: Levels, b: Levels, side: Side)
    ensures SideCount(a + b, side) == SideCount(a, side) + SideCount(b, side)
  {
    if b == [] {
      assert a + b == a;
    } else {
      assert (a + b)[..|a + b| - 1] == a + b[..|b| - 1];
      SideCountConcat(a, b[..|b| - 1], side);
    }
  }

  lemma {:induction false} DistinctConcat(a: Levels, b: Levels)
    requires forall i | 0 <= i < |a| :: a[i].id.side == Bid
    requires forall i | 0 <= i < |b| :: b[i].id.side == Ask
    ensures Distinct(a + b) <==> Distinct(a) && Distinct(b)
  {
    assert forall i | 0 <= i < |a| :: (a + b)[i] == a[i];
    assert forall i | 0 <= i < |b| :: (a + b)[|a| + i] == b[i];
  }

  /** One side of a snapshot: positive orders, at most 16 of them, all on that side. */
  ghost predicate OneSided(orders: Levels, side: Side) {
    && (forall i | 0 <= i < |orders| ::
          orders[i].id.side == side && orders[i].size > 0 && orders[i].id.priceTicks > 0)
    && |orders| <= MAX_LEVELS
    && SideCount(orders, side) == |orders|
    && SideCount(orders, if side == Bid then Ask else Bid) == 0
  }

  lemma {:induction false} WellFormedConcat(bids: Levels, asks: Levels)
    requires OneSided(bids, Bid) && OneSided(asks, Ask)
    ensures WellFormed(bids + asks) <==> Distinct(bids) && Distinct(asks)
  {
    SideCountConcat(bids, asks, Bid);
    SideCountConcat(bids, asks, Ask);
    DistinctConcat(bids, asks);
  }

  /** A snapshot is a well-formed list exactly when no two active levels of a side
      share a price. */
  lemma {:induction false} SnapshotWellFormed(book: MakerBook)
    ensures WellFormed(SnapshotOf(book)) <==>
            Distinct(ActiveOrders(book.bidLevels, Bid, book.midPriceTicks))
            && Distinct(ActiveOrders(book.askLevels, Ask, book.midPriceTicks))
  {
    SnapshotShape(book.bidLevels, Bid, book.midPriceTicks);
    SnapshotShape(book.askLevels, Ask, book.midPriceTicks);
    WellFormedConcat(ActiveOrders(book.bidLevels, Bid, book.midPriceTicks),
                     ActiveOrders(book.askLevels, Ask, book.midPriceTicks));
  }
}
