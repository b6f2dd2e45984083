/** The limit-order action builders: op plans cut into instructions. */
module Actions {
  import opened MachineInts
  import opened LevelOps
  import opened SdkErrors
  import opened Seating

  predicate LaterPlacing(chunks: seq<seq<LevelOp>>, from: nat) {
    exists j :: from <= j < |chunks| && LevelOpsMaySeat(chunks[j])
  }

  ghost predicate FirstPlacing(chunks: seq<seq<LevelOp>>, i: nat) {
    i < |chunks| && LevelOpsMaySeat(chunks[i]) && forall j | 0 <= j < i :: !LevelOpsMaySeat(chunks[j])
  }

  /** What the seating loop knows before chunk `i`. */
  ghost predicate SeatingState(
      registry: seq<Pubkey>, book: Pubkey, chunks: seq<seq<LevelOp>>, i: nat, books: seq<Pubkey>, seated: bool)
    requires i <= |chunks|
  {
    && (seated <==> SeatedBefore(registry, book, chunks, i))
    && (!seated || LaterPlacing(chunks, i) ==> books == RegistryAt(registry, book, chunks, i))
    && (|registry| >= MAX_SEATED_MAKERS && book !in registry ==>
          !PlacingPair(chunks, i) && (seated ==> !LaterPlacing(chunks, i)))
  }

  lemma {:induction false} PairStep(chunks: seq<seq<LevelOp>>, i: nat)
    requires i < |chunks|
    ensures PlacingPair(chunks, i + 1)
            <==> PlacingPair(chunks, i) || (LevelOpsMaySeat(chunks[i]) && LaterPlacing(chunks, i + 1))
    ensures PlacingPair(chunks, i + 1) ==> PlacingPair(chunks, |chunks|)
  {
  }

  lemma {:induction false} SeatingStep(
      registry: seq<Pubkey>, book: Pubkey, chunks: seq<seq<LevelOp>>, i: nat, books: seq<Pubkey>, seated: bool)
    requires i < |chunks|
    requires SeatingState(registry, book, chunks, i, books, seated)
    ensures LevelOpsMaySeat(chunks[i]) ==> books == RegistryAt(registry, book, chunks, i)
    ensures !LevelOpsMaySeat(chunks[i]) || seated ==> SeatingState(registry, book, chunks, i + 1, books, seated)
    ensures LevelOpsMaySeat(chunks[i]) && !seated && !LaterPlacing(chunks, i + 1) ==>
              SeatingState(registry, book, chunks, i + 1, books, true)
    ensures LevelOpsMaySeat(chunks[i]) && !seated && LaterPlacing(chunks, i + 1) ==>
              if |books| >= MAX_SEATED_MAKERS
              then FirstPlacing(chunks, i) && SplitRequired(registry, book, chunks)
              else SeatingState(registry, book, chunks, i + 1, books + [book], true)
  {
    assert LaterPlacing(chunks, i) <==> LevelOpsMaySeat(chunks[i]) || LaterPlacing(chunks, i + 1);
    assert SeatedBefore(registry, book, chunks, i + 1)
      <==> SeatedBefore(registry, book, chunks, i) || LevelOpsMaySeat(chunks[i]);
    PairStep(chunks, i);
  }

  lemma {:induction false} PlannedGrows(
      postOnly: PostOnly, book: Pubkey, seq0: u64, chunks: seq<seq<LevelOp>>, i: nat)
    requires i < |chunks|
    ensures Planned(postOnly, book, seq0, chunks, i + 1)
              == Planned(postOnly, book, seq0, chunks, i) + [PlannedAt(postOnly, book, seq0, chunks, i)]
    ensures WrapU64(WrapU64(seq0 + i) + 1) == WrapU64(seq0 + 1 + i)
  {
  }

  /** Cuts the ops into instructions of at most 32, tracking sequence numbers and
      registry seating. Fails exactly when a split is required, after pushing the
      instructions up to the first placing chunk. */
  method PushLevelOps(
      instructions: seq<Instruction>, makerBook: Pubkey, postOnly: PostOnly, currentSeq: u64, ops: seq<LevelOp>)
    returns (pushed: seq<Instruction>, r: SdkResult<u64>)
    ensures r.Err? <==> SplitRequired(postOnly.registryBooks, makerBook, Chunks(ops))
    ensures r.Err? ==> r.error == RegistryFullSplitRequired(|ops|)
    ensures r.Ok? ==>
              && pushed == instructions + Planned(postOnly, makerBook, currentSeq, Chunks(ops), |Chunks(ops)|)
              && r.value == WrapU64(currentSeq + |Chunks(ops)|)
    ensures r.Err? ==>
              exists i: nat :: FirstPlacing(Chunks(ops), i)
                && pushed == instructions + Planned(postOnly, makerBook, currentSeq, Chunks(ops), i + 1)
  {
    pushed := instructions;
    var sequence: u64 := currentSeq;
    var books := postOnly.registryBooks;
    var seated := makerBook in books;
    var chunks := Chunks(ops);
    for i := 0 to |chunks|
      invariant sequence == WrapU64(currentSeq + i)
      invariant pushed == instructions + Planned(postOnly, makerBook, currentSeq, chunks, i)
      invariant SeatingState(postOnly.registryBooks, makerBook, chunks, i, books, seated)
    {
      SeatingStep(postOnly.registryBooks, makerBook, chunks, i, books, seated);
      PlannedGrows(postOnly, makerBook, currentSeq, chunks, i);
      sequence := WrapU64(sequence + 1);
      var maySeat := LevelOpsMaySeat(chunks[i]);
      pushed := pushed + [UpdateBookLimit(if maySeat then books else [], postOnly.crossPolicy, sequence, chunks[i])];
      if maySeat && !seated {
        if LaterPlacing(chunks, i + 1) {
          if |books| >= MAX_SEATED_MAKERS {
            return pushed, Err(RegistryFullSplitRequired(|ops|));
          }
          books := books + [makerBook];
        }
        seated := true;
      }
    }
    r := Ok(sequence);
  }
}
