/** The client-side errors, with the payloads a caller can act on. */
module SdkErrors {
  import opened MachineInts
  import opened LevelOps

  datatype SdkError =
    | InvalidSize
    | InvalidPrice
    | PriceBelowResolution
    | SizeBelowResolution
    | OffsetOverflow
    | ArithmeticOverflow
    | EmptyOrderList
    | LimitOrderAlreadyExists(id: LimitOrderId)
    | LimitOrderNotFound(id: LimitOrderId)
    | BookFull(side: Side)
    | CrossedBookOffsets(bid: u64, ask: u64)
    | RegistryFullSplitRequired(ops: nat)
    | StaleSequenceNumber(current: u64, proposed: u64)
    | SequenceNumberTooFarAhead(current: u64, proposed: u64)
    | TooManyLevels(count: nat)
    | BidsNotDescending(index: nat)
    | AsksNotAscending(index: nat)
    | CrossedBook
    | DuplicateOffset(offset: i64, index: nat)

  type SdkResult<+T> = Result<T, SdkError>

  /** A checked step of client arithmetic; every failure is an overflow to the caller. */
  function OrOverflow<T>(r: Result<T, ArcherError>): SdkResult<T> {
    match r
    case Ok(value) => Ok(value)
    case Err(_) => Err(SdkError.ArithmeticOverflow)
  }
}
