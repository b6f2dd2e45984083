/** What a client's book does, told on maps: the machine that `LocalBook` refines
    and whose ops the chain must accept. */
module ClientMachine {
  import opened MachineInts
  import opened LevelOps
  import opened SdkErrors
  import opened ChainBook
  import opened Snapshot

  datatype Command =
    | Place(id: LimitOrderId, size: u64)
    | Cancel(id: LimitOrderId, mode: CancelMode)
    | Resize(id: LimitOrderId, newSize: u64)

  datatype Outcome = Outcome(book: BookMap, op: LevelOp)

  function Next(b: BookMap, c: Command): SdkResult<Outcome> {
    match c
    case Place(id, size) =>
      if size == 0 then Err(InvalidSize)
      else if id.priceTicks == 0 then Err(PriceBelowResolution)
      else if id in b then Err(LimitOrderAlreadyExists(id))
      else if |SideIds(b, id.side)| >= MAX_LEVELS then Err(BookFull(id.side))
      else Ok(Outcome(b[id := size], LevelOp.Place(id, size)))
    case Cancel(id, mode) =>
      if id !in b then Err(LimitOrderNotFound(id))
      else Ok(Outcome(b - {id}, CancelOp(mode, id, b[id])))
    case Resize(id, newSize) =>
      if id !in b then Err(LimitOrderNotFound(id))
      else if newSize == 0 then Ok(Outcome(b - {id}, CancelOp(Strict, id, b[id])))
      else Ok(Outcome(b[id := newSize], LevelOp.Resize(id, b[id], newSize)))
  }

  datatype Session = Session(book: BookMap, ops: seq<LevelOp>)

  /** A run of successful commands, with the ops it returned. */
  function Commands(b: BookMap, cs: seq<Command>): SdkResult<Session> {
    if cs == [] then Ok(Session(b, []))
    else
      var prev :- Commands(b, cs[..|cs| - 1]);
      var step :- Next(prev.book, cs[|cs| - 1]);
      Ok(Session(step.book, prev.ops + [step.op]))
  }

  /** One command keeps the book legal, and its op does to an equal chain book
      what the command did to the client's. */
  lemma {:induction false} StepSimulates(b: BookMap, c: Command)
    requires LegalBook(b)
    requires Next(b, c).Ok?
    ensures LegalBook(Next(b, c).value.book)
    ensures ApplyOp(b, Next(b, c).value.op) == Ok(Next(b, c).value.book)
    ensures Next(b, c).value.op.Names(c.id)
  {
    var after := Next(b, c).value.book;
    if c.Place? {
      SideAfterInsert(b, c.id, c.size);
    } else if c.Resize? && c.newSize > 0 {
      assert after.Keys == b.Keys;
    } else {
      SideIdsMono(after, b, Bid);
      SideIdsMono(after, b, Ask);
    }
  }

  /** From a legal snapshot every run of successful commands keeps the book legal,
      and replaying its ops on an equal chain book passes every guard and ends at
      the same map. */
  lemma {:induction false} SessionSimulatesChain(b: BookMap, cs: seq<Command>)
    requires LegalBook(b)
    requires Commands(b, cs).Ok?
    ensures LegalBook(Commands(b, cs).value.book)
    ensures Replay(b, Commands(b, cs).value.ops) == Ok(Commands(b, cs).value.book)
    ensures |Commands(b, cs).value.ops| == |cs|
  {
    if cs != [] {
      var n := |cs| - 1;
      SessionSimulatesChain(b, cs[..n]);
      var prev := Commands(b, cs[..n]).value;
      StepSimulates(prev.book, cs[n]);
      var ops := Commands(b, cs).value.ops;
      assert ops[..|ops| - 1] == prev.ops;
    }
  }

  /** Fills land between the client's read and its writes. Whatever the
      interleaving, what rests plus what was filled since the last write is
      exactly what the client's book says. */
  lemma {:induction false} SessionUnderFills(b: BookMap, cs: seq<Command>, events: seq<Event>, id: LimitOrderId)
    requires LegalBook(b)
    requires Commands(b, cs).Ok?
    requires OpsOf(events) == Commands(b, cs).value.ops
    requires Run(b, events).Ok?
    ensures Resting(Run(b, events).value, id) + FilledSinceWrite(events, id)
              == Resting(Commands(b, cs).value.book, id)
    decreases |events|
  {
    if events == [] {
      SessionSimulatesChain(b, cs);
      assert cs == [];
    } else {
      var n := |events| - 1;
      if events[n].Fill? {
        assert OpsOf(events) == OpsOf(events[..n]);
        SessionUnderFills(b, cs, events[..n], id);
      } else {
        SessionSimulatesChain(b, cs);
        var m := |cs| - 1;
        SessionSimulatesChain(b, cs[..m]);
        var prev := Commands(b, cs[..m]).value;
        StepSimulates(prev.book, cs[m]);
        assert OpsOf(events)[..m] == OpsOf(events[..n]);
        assert Commands(b, cs).value.ops[..m] == prev.ops;
        assert events[n].op == Commands(b, cs).value.ops[m];
        SessionUnderFills(b, cs[..m], events[..n], id);
        ApplyOpEffect(Run(b, events[..n]).value, events[n].op, id);
        ApplyOpEffect(prev.book, events[n].op, id);
      }
    }
  }

  /** A write of a positive size that the chain accepts has seen every fill: the
      lots filled at its level since the previous write are zero, unless the
      client's own figure for the level was the wildcard value. */
  lemma {:induction false} PositiveWriteHasSeenEveryFill(b: BookMap, cs: seq<Command>, events: seq<Event>)
    requires LegalBook(b)
    requires Commands(b, cs).Ok?
    requires OpsOf(events) == Commands(b, cs).value.ops
    requires events != [] && events[|events| - 1].Write?
    requires Run(b, events).Ok?
    ensures cs != []
    ensures var prev := events[..|events| - 1];
            var c := cs[|cs| - 1];
            var op := events[|events| - 1].op;
            op.Names(c.id)
            && (op.newSize > 0 && FilledSinceWrite(prev, c.id) > 0
                ==> Commands(b, cs[..|cs| - 1]).Ok?
                    && Resting(Commands(b, cs[..|cs| - 1]).value.book, c.id) == LEVEL_OP_EXPECTED_ANY)
  {
    var n := |events| - 1;
    SessionSimulatesChain(b, cs);
    assert |OpsOf(events)| > 0;
    var m := |cs| - 1;
    SessionSimulatesChain(b, cs[..m]);
    var prev := Commands(b, cs[..m]).value;
    StepSimulates(prev.book, cs[m]);
    assert OpsOf(events)[..m] == OpsOf(events[..n]);
    assert Commands(b, cs).value.ops[..m] == prev.ops;
    assert events[n].op == Commands(b, cs).value.ops[m];
    SessionUnderFills(b, cs[..m], events[..n], cs[m].id);
    ApplyOpEffect(Run(b, events[..n]).value, events[n].op, cs[m].id);
  }
}
