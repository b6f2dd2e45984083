/** Orders of a limit-order book, and the compare-and-set op on one level. */
module LevelOps {
  import opened MachineInts

  const MAX_LEVELS := 16
  const MAX_LEVEL_OPS := 32

  const LEVEL_OP_SIDE_BID := 0
  const LEVEL_OP_SIDE_ASK := 1

  /** The `expectedSize` that skips the compare-and-set check. */
  const LEVEL_OP_EXPECTED_ANY := U64_MAX

  datatype Side = Bid | Ask

  datatype LimitOrderId = LimitOrderId(side: Side, priceTicks: u64)

  datatype Order = Order(id: LimitOrderId, size: u64)

  datatype CancelMode = Any | Strict

  datatype LevelOp = LevelOp(side: u8, priceTicks: u64, expectedSize: u64, newSize: u64) {

    static function New(side: Side, priceTicks: u64, expectedSize: u64, newSize: u64): LevelOp {
      LevelOp(match side case Bid => LEVEL_OP_SIDE_BID case Ask => LEVEL_OP_SIDE_ASK,
              priceTicks, expectedSize, newSize)
    }

    static function Place(id: LimitOrderId, size: u64): LevelOp {
      New(id.side, id.priceTicks, 0, size)
    }

    static function CancelAny(id: LimitOrderId): LevelOp {
      New(id.side, id.priceTicks, LEVEL_OP_EXPECTED_ANY, 0)
    }

    static function Resize(id: LimitOrderId, observed: u64, newSize: u64): LevelOp {
      New(id.side, id.priceTicks, observed, newSize)
    }

    function DecodedSide(): Result<Side, ArcherError> {
      if side == LEVEL_OP_SIDE_BID then Ok(Bid)
      else if side == LEVEL_OP_SIDE_ASK then Ok(Ask)
      else Err(InvalidInstructionData)
    }

    predicate MayPlaceOrGrow() {
      newSize > 0 && (expectedSize == LEVEL_OP_EXPECTED_ANY || newSize > expectedSize)
    }

    /** The op addresses the level of `id`. */
    predicate Names(id: LimitOrderId) {
      DecodedSide() == Ok(id.side) && priceTicks == id.priceTicks
    }
  }

  /** The cancel op of a client that observed `observed` lots at `id`. */
  function CancelOp(mode: CancelMode, id: LimitOrderId, observed: u64): LevelOp {
    match mode
    case Any => LevelOp.CancelAny(id)
    case Strict => LevelOp.Resize(id, observed, 0)
  }

  /** An op that, once accepted, is sure to place or grow its level: it is marked, and its
      guard is checked. */
  predicate SurelyGrows(op: LevelOp) {
    op.MayPlaceOrGrow() && op.expectedSize != LEVEL_OP_EXPECTED_ANY
  }

  /** Some op is sure to place or grow a level. */
  predicate LevelOpsSurelySeat(ops: seq<LevelOp>) {
    exists i :: 0 <= i < |ops| && SurelyGrows(ops[i])
  }

  /** Some op may place or grow a level. */
  predicate LevelOpsMaySeat(ops: seq<LevelOp>) {
    ops != [] && (LevelOpsMaySeat(ops[..|ops| - 1]) || ops[|ops| - 1].MayPlaceOrGrow())
  }

  lemma {:induction false} MaySeatMeaning(ops: seq<LevelOp>)
    ensures LevelOpsMaySeat(ops) <==> exists i :: 0 <= i < |ops| && ops[i].MayPlaceOrGrow()
  {
    if ops != [] {
      var n := |ops| - 1;
      MaySeatMeaning(ops[..n]);
      assert forall i | 0 <= i < n :: ops[..n][i] == ops[i];
    }
  }
}
