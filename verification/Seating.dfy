/** Level-op instructions, the registry's seating rule and the sequence window. */
module Seating {
  import opened MachineInts
  import opened LevelOps
  import opened SdkErrors

  const MAX_SEATED_MAKERS := 48
  const MAX_SEQUENCE_JUMP := 0xFFFF

  datatype Pubkey = Pubkey(key: nat)

  datatype PostOnly = PostOnly(registryBooks: seq<Pubkey>, crossPolicy: u8)

  datatype CollateralArgs = CollateralArgs(baseLots: u64, quoteLots: u64)

  datatype Instruction =
    | InitializeMakerBook
    | MakerDepositFunds(args: CollateralArgs)
    | MakerWithdrawFunds(args: CollateralArgs)
    | UpdateBookLimit(registryBooks: seq<Pubkey>, crossPolicy: u8, sequence: u64, ops: seq<LevelOp>)

  /** Where an instruction belongs in an action: setup, funding, writes, withdrawal. */
  function Stage(ix: Instruction): nat {
    match ix
    case InitializeMakerBook => 0
    case MakerDepositFunds(_) => 1
    case UpdateBookLimit(_, _, _, _) => 2
    case MakerWithdrawFunds(_) => 3
  }

  /** Stages in order, and nothing but writes more than once. */
  ghost predicate InStages(ixs: seq<Instruction>) {
    forall i, j | 0 <= i < j < |ixs| ::
      Stage(ixs[i]) < Stage(ixs[j]) || (ixs[i].UpdateBookLimit? && ixs[j].UpdateBookLimit?)
  }

  // ---------- chunking ----------

  /** `slice::chunks(32)`. */
  function Chunks(ops: seq<LevelOp>): seq<seq<LevelOp>> {
    if ops == [] then []
    else if |ops| <= MAX_LEVEL_OPS then [ops]
    else [ops[..MAX_LEVEL_OPS]] + Chunks(ops[MAX_LEVEL_OPS..])
  }

  function Concat(chunks: seq<seq<LevelOp>>): seq<LevelOp> {
    if chunks == [] then [] else chunks[0] + Concat(chunks[1..])
  }

  /** Chunking loses nothing: the chunks concatenate back, each holds 1 to 32 ops,
      and there are as few as possible. */
  lemma {:induction false} ChunksLoseNothing(ops: seq<LevelOp>)
    ensures Concat(Chunks(ops)) == ops
    ensures forall i | 0 <= i < |Chunks(ops)| :: 1 <= |Chunks(ops)[i]| <= 32
    ensures 32 * (|Chunks(ops)| - 1) < |ops| <= 32 * |Chunks(ops)| || ops == []
  {
    if |ops| > MAX_LEVEL_OPS {
      ChunksLoseNothing(ops[MAX_LEVEL_OPS..]);
      assert Chunks(ops)[1..] == Chunks(ops[MAX_LEVEL_OPS..]);
    } else if ops != [] {
      assert Concat([ops]) == ops + Concat([]);
    }
  }

  // ---------- the sequence window ----------

  function CheckSequenceNumber(current: u64, proposed: u64): SdkResult<()> {
    if proposed <= current then Err(StaleSequenceNumber(current, proposed))
    else if proposed - current > MAX_SEQUENCE_JUMP then Err(SequenceNumberTooFarAhead(current, proposed))
    else Ok(())
  }

  /** The number the book's next update must carry, capped at u64. */
  function NextSequenceNumber(current: u64): u64 {
    SaturateU64(current + 1)
  }

  /** The window: exactly the 65535 numbers after the book's own, of which the next
      number is the least. */
  lemma {:induction false} SequenceWindow(current: u64, proposed: u64)
    ensures CheckSequenceNumber(current, proposed).Ok? <==> current < proposed <= current + 65_535
    ensures CheckSequenceNumber(current, NextSequenceNumber(current)).Ok? <==> current < U64_MAX
    ensures CheckSequenceNumber(current, proposed).Ok? ==> NextSequenceNumber(current) <= proposed
    ensures proposed <= current ==>
              CheckSequenceNumber(current, proposed) == Err(StaleSequenceNumber(current, proposed))
    ensures proposed > current + 65_535 ==>
              CheckSequenceNumber(current, proposed) == Err(SequenceNumberTooFarAhead(current, proposed))
  {
  }

  /** `seq += 1` in u64, as a release build wraps it. */
  function WrapU64(x: nat): u64 {
    x % (U64_MAX + 1)
  }

  // ---------- the plan of instructions ----------

  /** The book is in the registry, or a chunk before `i` seats it. */
  predicate SeatedBefore(registry: seq<Pubkey>, book: Pubkey, chunks: seq<seq<LevelOp>>, i: nat)
    requires i <= |chunks|
  {
    book in registry || exists j :: 0 <= j < i && LevelOpsMaySeat(chunks[j])
  }

  /** The registry as it will stand when chunk `i` lands, if no eviction is needed. */
  function RegistryAt(registry: seq<Pubkey>, book: Pubkey, chunks: seq<seq<LevelOp>>, i: nat): seq<Pubkey>
    requires i <= |chunks|
  {
    if book !in registry && SeatedBefore(registry, book, chunks, i) then registry + [book] else registry
  }

  function PlannedAt(
      postOnly: PostOnly, book: Pubkey, seq0: u64, chunks: seq<seq<LevelOp>>, i: nat): Instruction
    requires i < |chunks|
  {
    UpdateBookLimit(
      if LevelOpsMaySeat(chunks[i]) then RegistryAt(postOnly.registryBooks, book, chunks, i) else [],
      postOnly.crossPolicy, WrapU64(seq0 + 1 + i), chunks[i])
  }

  function Planned(
      postOnly: PostOnly, book: Pubkey, seq0: u64, chunks: seq<seq<LevelOp>>, n: nat): seq<Instruction>
    requires n <= |chunks|
  {
    seq(n, i requires 0 <= i < n => PlannedAt(postOnly, book, seq0, chunks, i))
  }

  /** Two chunks may seat, the first of them before `n`. */
  ghost predicate PlacingPair(chunks: seq<seq<LevelOp>>, n: nat) {
    exists i, j :: 0 <= i < j < |chunks| && i < n && LevelOpsMaySeat(chunks[i]) && LevelOpsMaySeat(chunks[j])
  }

  /** The plan would need a second placing chunk after an eviction. */
  ghost predicate SplitRequired(registry: seq<Pubkey>, book: Pubkey, chunks: seq<seq<LevelOp>>) {
    && book !in registry
    && |registry| >= MAX_SEATED_MAKERS
    && PlacingPair(chunks, |chunks|)
  }

  /** Instruction `i`'s number is in the window of the one written before it. */
  ghost predicate SequencePasses(seq0: u64, ixs: seq<Instruction>, i: nat)
    requires i < |ixs| && forall j | 0 <= j < |ixs| :: ixs[j].UpdateBookLimit?
  {
    CheckSequenceNumber(if i == 0 then seq0 else ixs[i - 1].sequence, ixs[i].sequence).Ok?
  }

  /** The chunk numbers, each checked against the book as updated so far, all pass
      exactly when the counter does not run past u64. */
  lemma {:induction false} SequencesPassIff(
      postOnly: PostOnly, book: Pubkey, seq0: u64, chunks: seq<seq<LevelOp>>)
    ensures var ixs := Planned(postOnly, book, seq0, chunks, |chunks|);
            (forall i | 0 <= i < |chunks| :: SequencePasses(seq0, ixs, i)) <==> seq0 + |chunks| <= U64_MAX
  {
    var ixs := Planned(postOnly, book, seq0, chunks, |chunks|);
    if seq0 + |chunks| > U64_MAX {
      var i := U64_MAX - seq0;
      assert ixs[i].sequence == WrapU64(U64_MAX + 1) == 0;
      assert !SequencePasses(seq0, ixs, i);
    } else {
      assert forall i | 0 <= i < |chunks| :: ixs[i].sequence == seq0 + 1 + i;
    }
  }

  // ---------- the registry on chain ----------

  function AsSet(books: seq<Pubkey>): set<Pubkey> {
    set b | b in books
  }

  /** Each registry entry once, in any order. */
  ghost predicate EachOnce(books: seq<Pubkey>, registry: set<Pubkey>) {
    |books| == |registry| && AsSet(books) == registry
  }

  /** The program reads the books only of a call that may seat. */
  ghost predicate Accepts(registry: set<Pubkey>, ix: Instruction)
    requires ix.UpdateBookLimit?
  {
    LevelOpsMaySeat(ix.ops) ==> EachOnce(ix.registryBooks, registry)
  }

  /** Seating: a call of an unseated book that places or grows a level takes a free slot;
      on a full registry it may displace any one seat, or earn none. A call that is only
      marked as placing, by an op whose guard is not checked, may turn out to shrink its
      level, and then seats nothing. */
  ghost predicate SeatNext(registry: set<Pubkey>, book: Pubkey, ix: Instruction, next: set<Pubkey>)
    requires ix.UpdateBookLimit?
  {
    if !LevelOpsMaySeat(ix.ops) || book in registry then next == registry
    else
      || (!LevelOpsSurelySeat(ix.ops) && next == registry)
      || if |registry| < MAX_SEATED_MAKERS then next == registry + {book}
         else next == registry || exists evicted | evicted in registry :: next == registry - {evicted} + {book}
  }

  /** Some chunk before `i` is sure to seat. */
  predicate SurelySeatedBefore(chunks: seq<seq<LevelOp>>, i: nat)
    requires i <= |chunks|
  {
    exists j :: 0 <= j < i && LevelOpsSurelySeat(chunks[j])
  }

  /** Chunk `i` may seat, and so may an earlier one, but none before it surely does. */
  ghost predicate GuessedAt(chunks: seq<seq<LevelOp>>, i: nat) {
    && i < |chunks|
    && LevelOpsMaySeat(chunks[i])
    && (exists j :: 0 <= j < i && LevelOpsMaySeat(chunks[j]))
    && !SurelySeatedBefore(chunks, i)
  }

  /** The client's prediction of the registry rests on no guess. */
  ghost predicate Predictable(registry: seq<Pubkey>, book: Pubkey, chunks: seq<seq<LevelOp>>) {
    book in registry || forall i: nat :: !GuessedAt(chunks, i)
  }

  ghost predicate SeatRun(registries: seq<set<Pubkey>>, book: Pubkey, ixs: seq<Instruction>)
    requires forall i | 0 <= i < |ixs| :: ixs[i].UpdateBookLimit?
  {
    && |registries| == |ixs| + 1
    && forall i | 0 <= i < |ixs| :: SeatNext(registries[i], book, ixs[i], registries[i + 1])
  }

  ghost predicate DistinctBooks(books: seq<Pubkey>) {
    forall i, j | 0 <= i < j < |books| :: books[i] != books[j]
  }

  lemma {:induction false} DistinctIsEachOnce(books: seq<Pubkey>)
    requires DistinctBooks(books)
    ensures EachOnce(books, AsSet(books))
  {
    if books != [] {
      var n := |books| - 1;
      DistinctIsEachOnce(books[..n]);
      assert AsSet(books) == AsSet(books[..n]) + {books[n]};
      assert books[n] !in books[..n];
    }
  }

  lemma {:induction false} SeatRunPrefix(
      postOnly: PostOnly, book: Pubkey, seq0: u64, chunks: seq<seq<LevelOp>>,
      registries: seq<set<Pubkey>>, n: nat)
    requires 0 < n <= |chunks|
    requires SeatRun(registries, book, Planned(postOnly, book, seq0, chunks, n))
    ensures SeatRun(registries[..n], book, Planned(postOnly, book, seq0, chunks, n - 1))
    ensures SeatNext(registries[n - 1], book, PlannedAt(postOnly, book, seq0, chunks, n - 1), registries[n])
  {
    var ixs := Planned(postOnly, book, seq0, chunks, n);
    forall i | 0 <= i < n
      ensures SeatNext(registries[i], book, PlannedAt(postOnly, book, seq0, chunks, i), registries[i + 1])
    {
      assert SeatNext(registries[i], book, ixs[i], registries[i + 1]);
    }
  }

  /** The registry is the predicted one, or still the given one while nothing has surely
      seated the book. */
  ghost predicate AsPredicted(
      registry: set<Pubkey>, r: seq<Pubkey>, book: Pubkey, chunks: seq<seq<LevelOp>>, i: nat)
    requires i <= |chunks|
  {
    registry == AsSet(RegistryAt(r, book, chunks, i)) || (registry == AsSet(r) && !SurelySeatedBefore(chunks, i))
  }

  lemma {:induction false} SurelySeatsMaySeat(ops: seq<LevelOp>)
    ensures LevelOpsSurelySeat(ops) ==> LevelOpsMaySeat(ops)
  {
    MaySeatMeaning(ops);
  }

  lemma {:induction false} SureIsSeated(r: seq<Pubkey>, book: Pubkey, chunks: seq<seq<LevelOp>>, i: nat)
    requires i <= |chunks|
    ensures SurelySeatedBefore(chunks, i) ==> SeatedBefore(r, book, chunks, i)
  {
    forall j | 0 <= j < i ensures LevelOpsSurelySeat(chunks[j]) ==> LevelOpsMaySeat(chunks[j]) {
      SurelySeatsMaySeat(chunks[j]);
    }
  }

  /** How the prediction moves past chunk `i`. */
  lemma {:induction false} PredictionGrows(r: seq<Pubkey>, book: Pubkey, chunks: seq<seq<LevelOp>>, i: nat)
    requires i < |chunks|
    ensures book !in r && LevelOpsMaySeat(chunks[i]) ==> RegistryAt(r, book, chunks, i + 1) == r + [book]
    ensures book in r || !LevelOpsMaySeat(chunks[i]) ==>
              RegistryAt(r, book, chunks, i + 1) == RegistryAt(r, book, chunks, i)
    ensures SurelySeatedBefore(chunks, i + 1) <==> SurelySeatedBefore(chunks, i) || LevelOpsSurelySeat(chunks[i])
    ensures RegistryAt(r, book, chunks, i) == r || RegistryAt(r, book, chunks, i) == r + [book]
    ensures book !in r && SurelySeatedBefore(chunks, i) ==> RegistryAt(r, book, chunks, i) == r + [book]
  {
    SureIsSeated(r, book, chunks, i);
    assert SeatedBefore(r, book, chunks, i + 1) <==> SeatedBefore(r, book, chunks, i) || LevelOpsMaySeat(chunks[i]);
  }

  /** One landing keeps the prediction. */
  lemma {:induction false} RegistryStep(
      r: seq<Pubkey>, book: Pubkey, chunks: seq<seq<LevelOp>>, i: nat,
      before: set<Pubkey>, after: set<Pubkey>, ix: Instruction)
    requires DistinctBooks(r) && i < |chunks|
    requires ix.UpdateBookLimit? && ix.ops == chunks[i] && SeatNext(before, book, ix, after)
    ensures !LevelOpsMaySeat(chunks[i]) ==> after == before
    ensures (book in r || |r| < MAX_SEATED_MAKERS) && AsPredicted(before, r, book, chunks, i) ==>
              AsPredicted(after, r, book, chunks, i + 1)
  {
    DistinctIsEachOnce(r);
    SurelySeatsMaySeat(chunks[i]);
    PredictionGrows(r, book, chunks, i);
    assert AsSet(r + [book]) == AsSet(r) + {book};
  }

  /** What the registry is once `n` chunks have landed: the given one while nothing
      has placed, and as predicted as long as no eviction is possible. */
  lemma {:induction false} RegistryDuringRun(
      postOnly: PostOnly, book: Pubkey, seq0: u64, chunks: seq<seq<LevelOp>>,
      registries: seq<set<Pubkey>>, n: nat)
    requires DistinctBooks(postOnly.registryBooks)
    requires n <= |chunks|
    requires SeatRun(registries, book, Planned(postOnly, book, seq0, chunks, n))
    requires registries[0] == AsSet(postOnly.registryBooks)
    ensures (forall j | 0 <= j < n :: !LevelOpsMaySeat(chunks[j])) ==> registries[n] == registries[0]
    ensures book in postOnly.registryBooks || |postOnly.registryBooks| < 48 ==>
              AsPredicted(registries[n], postOnly.registryBooks, book, chunks, n)
  {
    if n > 0 {
      SeatRunPrefix(postOnly, book, seq0, chunks, registries, n);
      RegistryDuringRun(postOnly, book, seq0, chunks, registries[..n], n - 1);
      RegistryStep(postOnly.registryBooks, book, chunks, n - 1, registries[n - 1], registries[n],
                   PlannedAt(postOnly, book, seq0, chunks, n - 1));
    }
  }

  /** Unless a split is required or the prediction rests on a guess, whatever seats
      evictions have taken so far, the next chunk is accepted: a placing chunk carries
      exactly the registry as it stands when it lands, and every other chunk carries no
      books. */
  lemma {:induction false} SeatingIsAccepted(
      postOnly: PostOnly, book: Pubkey, seq0: u64, chunks: seq<seq<LevelOp>>,
      registries: seq<set<Pubkey>>, n: nat)
    requires DistinctBooks(postOnly.registryBooks) && |postOnly.registryBooks| <= 48
    requires !SplitRequired(postOnly.registryBooks, book, chunks)
    requires Predictable(postOnly.registryBooks, book, chunks)
    requires n < |chunks|
    requires SeatRun(registries, book, Planned(postOnly, book, seq0, chunks, n))
    requires registries[0] == AsSet(postOnly.registryBooks)
    ensures Accepts(registries[n], PlannedAt(postOnly, book, seq0, chunks, n))
    ensures !LevelOpsMaySeat(chunks[n]) ==> PlannedAt(postOnly, book, seq0, chunks, n).registryBooks == []
  {
    var r := postOnly.registryBooks;
    RegistryDuringRun(postOnly, book, seq0, chunks, registries, n);
    DistinctIsEachOnce(r);
    if book !in r {
      DistinctIsEachOnce(r + [book]);
      assert !GuessedAt(chunks, n);
    }
  }

  /** The registries of a landing of the first `n` chunks, from the given one. */
  ghost predicate SeatsFrom(
      registries: seq<set<Pubkey>>, postOnly: PostOnly, book: Pubkey, seq0: u64, chunks: seq<seq<LevelOp>>, n: nat)
    requires n <= |chunks|
  {
    && SeatRun(registries, book, Planned(postOnly, book, seq0, chunks, n))
    && registries[0] == AsSet(postOnly.registryBooks)
  }

  /** A guess can go wrong: if no call so far turns out to place or grow a level, the
      guessing chunk names a book too many. */
  lemma {:induction false} GuessCanFail(
      postOnly: PostOnly, book: Pubkey, seq0: u64, chunks: seq<seq<LevelOp>>, n: nat)
    requires DistinctBooks(postOnly.registryBooks) && book !in postOnly.registryBooks
    requires GuessedAt(chunks, n)
    ensures exists registries :: SeatsFrom(registries, postOnly, book, seq0, chunks, n)
              && !Accepts(registries[n], PlannedAt(postOnly, book, seq0, chunks, n))
  {
    var r := postOnly.registryBooks;
    var registries := seq(n + 1, _ => AsSet(r));
    var ixs := Planned(postOnly, book, seq0, chunks, n);
    DistinctIsEachOnce(r);
    forall i | 0 <= i < n ensures SeatNext(registries[i], book, ixs[i], registries[i + 1]) {
      assert !LevelOpsSurelySeat(chunks[i]);
    }
    assert SeatsFrom(registries, postOnly, book, seq0, chunks, n);
    assert PlannedAt(postOnly, book, seq0, chunks, n).registryBooks == r + [book];
  }

  /** Every run of a plan that needs no split is accepted, whatever the program seats and
      evicts, exactly when the prediction rests on no guess. */
  lemma {:induction false} SeatingAcceptedIff(
      postOnly: PostOnly, book: Pubkey, seq0: u64, chunks: seq<seq<LevelOp>>)
    requires DistinctBooks(postOnly.registryBooks) && |postOnly.registryBooks| <= 48
    requires !SplitRequired(postOnly.registryBooks, book, chunks)
    ensures (forall registries, n: nat | n < |chunks| && SeatsFrom(registries, postOnly, book, seq0, chunks, n) ::
               Accepts(registries[n], PlannedAt(postOnly, book, seq0, chunks, n)))
            <==> Predictable(postOnly.registryBooks, book, chunks)
  {
    if Predictable(postOnly.registryBooks, book, chunks) {
      forall registries, n: nat | n < |chunks| && SeatsFrom(registries, postOnly, book, seq0, chunks, n)
        ensures Accepts(registries[n], PlannedAt(postOnly, book, seq0, chunks, n))
      {
        SeatingIsAccepted(postOnly, book, seq0, chunks, registries, n);
      }
    } else {
      var n: nat :| GuessedAt(chunks, n);
      GuessCanFail(postOnly, book, seq0, chunks, n);
    }
  }

  /** Marks with a live guard leave nothing to guess. */
  lemma {:induction false} LiveGuardsArePredictable(registry: seq<Pubkey>, book: Pubkey, chunks: seq<seq<LevelOp>>)
    requires forall i | 0 <= i < |chunks| :: LevelOpsMaySeat(chunks[i]) ==> LevelOpsSurelySeat(chunks[i])
    ensures Predictable(registry, book, chunks)
  {
    forall i: nat ensures !GuessedAt(chunks, i) {
    }
  }

  /** A split cannot be avoided by guessing: after the first placing chunk of an
      unseated book on a full registry, no list of books is right for every seat
      the program may take. */
  lemma {:induction false} NoListSurvivesEviction(
      registry: set<Pubkey>, book: Pubkey, placing: Instruction, guess: seq<Pubkey>)
    requires placing.UpdateBookLimit? && LevelOpsMaySeat(placing.ops)
    requires book !in registry && |registry| == 48
    ensures exists next :: SeatNext(registry, book, placing, next) && !EachOnce(guess, next)
  {
    var a :| a in registry;
    assert |registry - {a}| == 47;
    var b :| b in registry - {a};
    var nextA, nextB := registry - {a} + {book}, registry - {b} + {book};
    assert a in nextB && a !in nextA;
    assert SeatNext(registry, book, placing, nextA);
    assert SeatNext(registry, book, placing, nextB);
  }
}
