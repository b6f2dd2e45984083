/** The chain side of a limit-order book: a map of resting sizes changed by
    compare-and-set ops and by fills, in any interleaving. */
module ChainBook {
  import opened MachineInts
  import opened LevelOps

  /** Resting lots by order id; an id that rests nothing is absent. */
  type BookMap = map<LimitOrderId, u64>

  datatype Event = Fill(id: LimitOrderId, lots: u64) | Write(op: LevelOp)

  function Resting(b: BookMap, id: LimitOrderId): u64 {
    if id in b then b[id] else 0
  }

  function SideIds(b: BookMap, side: Side): set<LimitOrderId> {
    set id | id in b.Keys && id.side == side
  }

  /** Positive sizes and prices, at most 16 levels a side. */
  ghost predicate LegalBook(b: BookMap) {
    && (forall id | id in b :: b[id] > 0 && id.priceTicks > 0)
    && |SideIds(b, Bid)| <= MAX_LEVELS
    && |SideIds(b, Ask)| <= MAX_LEVELS
  }

  /** Every bid rests strictly below every ask. */
  ghost predicate Uncrossed(b: BookMap) {
    forall x, y | x in b && y in b && x.side == Bid && y.side == Ask :: x.priceTicks < y.priceTicks
  }

  /** One `UpdateBookLimit` op: the guard, the side cap, then the write. */
  function ApplyOp(b: BookMap, op: LevelOp): Result<BookMap, ArcherError> {
    var side :- op.DecodedSide();
    var id := LimitOrderId(side, op.priceTicks);
    if op.priceTicks == 0 then
      Err(InvalidPrice)
    else if op.expectedSize != LEVEL_OP_EXPECTED_ANY && Resting(b, id) != op.expectedSize then
      Err(LevelSizeMismatch)
    else if op.newSize == 0 then
      Ok(b - {id})
    else if id !in b && |SideIds(b, side)| >= MAX_LEVELS then
      Err(MakerBookSideFull)
    else
      Ok(b[id := op.newSize])
  }

  /** A fill takes at most what rests; a level filled to zero is gone. */
  function ApplyFill(b: BookMap, id: LimitOrderId, lots: u64): Result<BookMap, ArcherError> {
    if lots == 0 || lots > Resting(b, id) then
      Err(InsufficientBalance)
    else if lots == Resting(b, id) then
      Ok(b - {id})
    else
      Ok(b[id := b[id] - lots])
  }

  /** Whatever rests at `id`, on any chain book, the op removes it. */
  ghost predicate RemovesWhateverRests(op: LevelOp, id: LimitOrderId) {
    forall b: BookMap :: ApplyOp(b, op) == Ok(b - {id})
  }

  /** On any chain book the op removes the level at `id` if exactly `observed` lots rest
      there, and is refused with the size mismatch otherwise; the wildcard size is not
      checked. */
  ghost predicate RemovesOnly(op: LevelOp, id: LimitOrderId, observed: u64) {
    forall b: BookMap ::
      ApplyOp(b, op) == if Resting(b, id) == observed || observed == U64_MAX then Ok(b - {id})
                        else Err(LevelSizeMismatch)
  }

  function ApplyEvent(b: BookMap, e: Event): Result<BookMap, ArcherError> {
    match e
    case Fill(id, lots) => ApplyFill(b, id, lots)
    case Write(op) => ApplyOp(b, op)
  }

  /** The book after the whole trace, if every step is accepted. */
  function Run(b: BookMap, events: seq<Event>): Result<BookMap, ArcherError> {
    if events == [] then Ok(b)
    else
      var prev :- Run(b, events[..|events| - 1]);
      ApplyEvent(prev, events[|events| - 1])
  }

  function Replay(b: BookMap, ops: seq<LevelOp>): Result<BookMap, ArcherError> {
    if ops == [] then Ok(b)
    else
      var prev :- Replay(b, ops[..|ops| - 1]);
      ApplyOp(prev, ops[|ops| - 1])
  }

  /** The ops of a trace, in order. */
  function OpsOf(events: seq<Event>): seq<LevelOp> {
    if events == [] then []
    else
      var e := events[|events| - 1];
      OpsOf(events[..|events| - 1]) + (if e.Write? then [e.op] else [])
  }

  /** The ops that name `id`, in order. */
  function OpsAt(ops: seq<LevelOp>, id: LimitOrderId): seq<LevelOp> {
    if ops == [] then []
    else
      var op := ops[|ops| - 1];
      OpsAt(ops[..|ops| - 1], id) + (if op.Names(id) then [op] else [])
  }

  /** Lots filled at `id` over the whole trace. */
  function FilledLots(events: seq<Event>, id: LimitOrderId): nat {
    if events == [] then 0
    else
      var e := events[|events| - 1];
      FilledLots(events[..|events| - 1], id) + (if e.Fill? && e.id == id then e.lots else 0)
  }

  /** Lots filled at `id` after the last op that named it. */
  function FilledSinceWrite(events: seq<Event>, id: LimitOrderId): nat {
    if events == [] then 0
    else
      var e := events[|events| - 1];
      match e
      case Fill(i, lots) => FilledSinceWrite(events[..|events| - 1], id) + (if i == id then lots else 0)
      case Write(op) => if op.Names(id) then 0 else FilledSinceWrite(events[..|events| - 1], id)
  }

  lemma {:induction false} ApplyOpEffect(b: BookMap, op: LevelOp, id: LimitOrderId)
    requires ApplyOp(b, op).Ok?
    ensures op.Names(id) ==> Resting(ApplyOp(b, op).value, id) == op.newSize
    ensures op.Names(id) && op.expectedSize != LEVEL_OP_EXPECTED_ANY ==> Resting(b, id) == op.expectedSize
    ensures !op.Names(id) ==> Resting(ApplyOp(b, op).value, id) == Resting(b, id)
    ensures !op.Names(id) ==> (id in ApplyOp(b, op).value <==> id in b)
    ensures op.Names(id) ==> (id in ApplyOp(b, op).value <==> op.newSize > 0)
  {
  }

  /** `may_place_or_grow` means what it says: an accepted op that is not marked never
      grows its level, and under a live guard a marked op always does. */
  lemma {:induction false} GrowsWhenMarked(b: BookMap, op: LevelOp, id: LimitOrderId)
    requires ApplyOp(b, op).Ok? && op.Names(id)
    ensures !op.MayPlaceOrGrow() ==> Resting(ApplyOp(b, op).value, id) <= Resting(b, id)
    ensures op.MayPlaceOrGrow() && op.expectedSize != LEVEL_OP_EXPECTED_ANY ==>
              Resting(ApplyOp(b, op).value, id) > Resting(b, id)
  {
    ApplyOpEffect(b, op, id);
  }

  /** The op grows the level at `id` on this book. */
  ghost predicate Grows(b: BookMap, op: LevelOp, id: LimitOrderId) {
    ApplyOp(b, op).Ok? && Resting(ApplyOp(b, op).value, id) > Resting(b, id)
  }

  /** The marks are exact: an op is marked just when it grows its level on some book, and
      surely grows just when it does so on every book that accepts it. */
  lemma {:induction false} MarksAreExact(op: LevelOp, id: LimitOrderId)
    requires op.Names(id) && id.priceTicks > 0
    ensures op.MayPlaceOrGrow() <==> exists b: BookMap :: Grows(b, op, id)
    ensures SurelyGrows(op) <==> forall b: BookMap :: ApplyOp(b, op).Ok? ==> Grows(b, op, id)
  {
    var empty: BookMap := map[];
    var observed: BookMap := if 0 < op.expectedSize then map[id := op.expectedSize] else empty;
    assert ApplyOp(observed, op).Ok? by {
      assert SideIds(empty, id.side) == {};
    }
    assert ApplyOp(empty, op).Ok? || op.expectedSize != LEVEL_OP_EXPECTED_ANY by {
      assert SideIds(empty, id.side) == {};
    }
    if op.MayPlaceOrGrow() {
      assert Grows(if op.expectedSize == LEVEL_OP_EXPECTED_ANY then empty else observed, op, id);
    }
    forall b: BookMap | ApplyOp(b, op).Ok?
      ensures Grows(b, op, id) ==> op.MayPlaceOrGrow()
      ensures SurelyGrows(op) ==> Grows(b, op, id)
    {
      GrowsWhenMarked(b, op, id);
    }
    assert !SurelyGrows(op) ==> !Grows(observed, op, id);
  }

  lemma {:induction false} OpsAtConcat(a: seq<LevelOp>, b: seq<LevelOp>, id: LimitOrderId)
    ensures OpsAt(a + b, id) == OpsAt(a, id) + OpsAt(b, id)
  {
    if b == [] {
      assert a + b == a;
    } else {
      var n := |b| - 1;
      assert (a + b)[..|a + b| - 1] == a + b[..n];
      OpsAtConcat(a, b[..n], id);
    }
  }

  lemma {:induction false} OpsAtPrefix(p: seq<LevelOp>, ops: seq<LevelOp>, id: LimitOrderId)
    requires p <= ops
    ensures OpsAt(p, id) <= OpsAt(ops, id)
  {
    assert ops == p + ops[|p|..];
    OpsAtConcat(p, ops[|p|..], id);
  }

  lemma {:induction false} OpsAtAppend(ops: seq<LevelOp>, op: LevelOp, id: LimitOrderId)
    ensures op.Names(id) ==> OpsAt(ops + [op], id) == OpsAt(ops, id) + [op]
    ensures !op.Names(id) ==> OpsAt(ops + [op], id) == OpsAt(ops, id)
  {
    assert (ops + [op])[..|ops + [op]| - 1] == ops;
  }

  lemma {:induction false} ReplayConcat(b: BookMap, p: seq<LevelOp>, q: seq<LevelOp>)
    requires Replay(b, p).Ok?
    ensures Replay(b, p + q) == Replay(Replay(b, p).value, q)
  {
    if q == [] {
      assert p + q == p;
    } else {
      var n := |q| - 1;
      assert (p + q)[..|p + q| - 1] == p + q[..n];
      ReplayConcat(b, p, q[..n]);
    }
  }

  lemma {:induction false} ReplayAppend(b: BookMap, ops: seq<LevelOp>, op: LevelOp)
    requires Replay(b, ops).Ok?
    ensures Replay(b, ops + [op]) == ApplyOp(Replay(b, ops).value, op)
  {
    assert (ops + [op])[..|ops + [op]| - 1] == ops;
  }

  lemma {:induction false} SplitLastOp(events: seq<Event>, id: LimitOrderId)
    requires events != []
    ensures var n := |events| - 1;
            OpsAt(OpsOf(events), id) == OpsAt(OpsOf(events[..n]), id)
              + (if events[n].Write? && events[n].op.Names(id) then [events[n].op] else [])
  {
    var n := |events| - 1;
    if events[n].Write? {
      assert OpsOf(events)[..|OpsOf(events)| - 1] == OpsOf(events[..n]);
    } else {
      assert OpsOf(events) == OpsOf(events[..n]);
    }
  }

  /** Where nothing is written, lots are conserved: what rests plus what was
      filled is what rested at the start. */
  lemma {:induction false} UntouchedConserves(b: BookMap, events: seq<Event>, id: LimitOrderId)
    requires Run(b, events).Ok?
    requires OpsAt(OpsOf(events), id) == []
    ensures Resting(Run(b, events).value, id) + FilledLots(events, id) == Resting(b, id)
  {
    if events != [] {
      var n := |events| - 1;
      var e := events[n];
      SplitLastOp(events, id);
      UntouchedConserves(b, events[..n], id);
      if e.Write? {
        ApplyOpEffect(Run(b, events[..n]).value, e.op, id);
      }
    }
  }

  /** Where exactly one op is written, the level ends at the written size less
      the lots filled since; and if the op's guard is live and equals the size at
      the start, no lot was filled before it. */
  lemma {:induction false} OneWriteConserves(b: BookMap, events: seq<Event>, id: LimitOrderId, op: LevelOp)
    requires Run(b, events).Ok?
    requires OpsAt(OpsOf(events), id) == [op]
    ensures op.newSize == 0 ==> Resting(Run(b, events).value, id) == 0
    ensures op.expectedSize == Resting(b, id) && op.expectedSize != LEVEL_OP_EXPECTED_ANY
            ==> Resting(Run(b, events).value, id) + FilledLots(events, id) == op.newSize
  {
    if events != [] {
      var n := |events| - 1;
      var e := events[n];
      SplitLastOp(events, id);
      if e.Write? {
        ApplyOpEffect(Run(b, events[..n]).value, e.op, id);
        if e.op.Names(id) {
          assert |OpsAt(OpsOf(events[..n]), id)| == 0;
          assert OpsAt(OpsOf(events), id)[0] == e.op;
          UntouchedConserves(b, events[..n], id);
        } else {
          OneWriteConserves(b, events[..n], id, op);
        }
      } else {
        OneWriteConserves(b, events[..n], id, op);
      }
    }
  }

  /** A level that rests after a trace was written last with a positive size, or
      was never written and rested from the start. */
  lemma {:induction false} LastWriter(b: BookMap, events: seq<Event>, id: LimitOrderId)
    requires Run(b, events).Ok?
    requires id in Run(b, events).value
    ensures var at := OpsAt(OpsOf(events), id);
            if at == [] then id in b else at[|at| - 1].newSize > 0
  {
    if events != [] {
      var n := |events| - 1;
      var e := events[n];
      SplitLastOp(events, id);
      if e.Write? {
        ApplyOpEffect(Run(b, events[..n]).value, e.op, id);
        if !e.op.Names(id) {
          LastWriter(b, events[..n], id);
        }
      } else {
        LastWriter(b, events[..n], id);
      }
    }
  }

  // ---------- what no trace can break ----------

  lemma {:induction false} SubsetCardinality<T>(s: set<T>, t: set<T>)
    requires s <= t
    ensures |s| <= |t|
    ensures |s| == |t| ==> s == t
  {
    if s != {} {
      var x :| x in s;
      SubsetCardinality(s - {x}, t - {x});
    }
  }

  lemma {:induction false} SideIdsMono(b: BookMap, c: BookMap, side: Side)
    requires b.Keys <= c.Keys
    ensures |SideIds(b, side)| <= |SideIds(c, side)|
  {
    SubsetCardinality(SideIds(b, side), SideIds(c, side));
  }

  lemma {:induction false} SideAfterInsert(b: BookMap, id: LimitOrderId, size: u64)
    requires id !in b
    ensures forall side :: |SideIds(b[id := size], side)|
              == |SideIds(b, side)| + (if side == id.side then 1 else 0)
  {
    assert SideIds(b[id := size], id.side) == SideIds(b, id.side) + {id};
    var other := if id.side == Bid then Ask else Bid;
    assert SideIds(b[id := size], other) == SideIds(b, other);
  }

  lemma {:induction false} EventStaysLegal(b: BookMap, e: Event)
    requires LegalBook(b) && ApplyEvent(b, e).Ok?
    ensures LegalBook(ApplyEvent(b, e).value)
  {
    var after := ApplyEvent(b, e).value;
    if e.Write? && e.op.newSize > 0 && LimitOrderId(e.op.DecodedSide().value, e.op.priceTicks) !in b {
      SideAfterInsert(b, LimitOrderId(e.op.DecodedSide().value, e.op.priceTicks), e.op.newSize);
    } else {
      SideIdsMono(after, b, Bid);
      SideIdsMono(after, b, Ask);
    }
  }

  /** Whatever ops and fills are accepted, in any order: no level rests nothing or at no
      price, and no side ever has more than 16. */
  lemma {:induction false} ChainStaysLegal(b: BookMap, events: seq<Event>)
    requires LegalBook(b) && Run(b, events).Ok?
    ensures LegalBook(Run(b, events).value)
  {
    if events != [] {
      var n := |events| - 1;
      ChainStaysLegal(b, events[..n]);
      EventStaysLegal(Run(b, events[..n]).value, events[n]);
    }
  }

  /** On a legal book room is missing exactly for a new level on a side of 16, and only an
      op that expects no level there, or checks nothing, is told so. */
  lemma {:induction false} SideFullIff(b: BookMap, op: LevelOp, id: LimitOrderId)
    requires LegalBook(b) && op.Names(id) && id.priceTicks > 0
    ensures ApplyOp(b, op) == Err(MakerBookSideFull) <==>
            && op.newSize > 0 && id !in b && |SideIds(b, id.side)| == 16
            && (op.expectedSize == 0 || op.expectedSize == U64_MAX)
  {
  }

  /** One level filled in pieces. */
  function FillsAt(id: LimitOrderId, lots: seq<u64>): seq<Event> {
    seq(|lots|, i requires 0 <= i < |lots| => Fill(id, lots[i]))
  }

  ghost predicate AllPositive(lots: seq<u64>) {
    forall i | 0 <= i < |lots| :: lots[i] > 0
  }

  lemma {:induction false} LastFill(id: LimitOrderId, lots: seq<u64>)
    requires lots != []
    ensures var n := |lots| - 1;
            && FillsAt(id, lots)[..n] == FillsAt(id, lots[..n])
            && FillsAt(id, lots)[n] == Fill(id, lots[n])
            && (AllPositive(lots) <==> AllPositive(lots[..n]) && lots[n] > 0)
  {
    var n := |lots| - 1;
    assert forall i | 0 <= i < n :: lots[..n][i] == lots[i];
  }

  /** A level can be filled in any positive pieces up to what rests, and no further; they
      take exactly their sum from it, all of it at the most, and nothing elsewhere. */
  lemma {:induction false} FillsAcceptedIff(b: BookMap, id: LimitOrderId, lots: seq<u64>)
    ensures Run(b, FillsAt(id, lots)).Ok? <==> AllPositive(lots) && Sum(lots) <= Resting(b, id)
    ensures Run(b, FillsAt(id, lots)).Ok? ==>
              var after := Run(b, FillsAt(id, lots)).value;
              && Resting(after, id) == Resting(b, id) - Sum(lots)
              && after - {id} == b - {id}
              && (lots != [] ==> (id in after <==> Sum(lots) < Resting(b, id)))
  {
    if lots != [] {
      LastFill(id, lots);
      FillsAcceptedIff(b, id, lots[..|lots| - 1]);
    }
  }
}
