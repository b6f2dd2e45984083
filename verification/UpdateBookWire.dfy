/** The fixed 536-byte `UpdateBook` payload and its accessors. */
module UpdateBookWire {
  import opened MachineInts
  import opened LevelOps
  import opened MakerBooks
  import opened Bytes

  const MAKER_LEVEL_SIZE := 16
  const BIDS_OFFSET := 24
  const ASKS_OFFSET := 280
  const LEN := 536

  datatype UpdateBookParams = UpdateBookParams(
    sequenceNumber: u64,
    midPriceTicks: u64,
    bidLevels: seq<MakerLevel>,
    askLevels: seq<MakerLevel>)

  function LevelBytes(level: MakerLevel): (b: Bytes)
    ensures |b| == MAKER_LEVEL_SIZE
  {
    U64Bytes(level.sizeInBaseLots) + I64Bytes(level.priceOffsetTicks)
  }

  function LevelsBytes(levels: seq<MakerLevel>): (b: Bytes)
    ensures |b| == MAKER_LEVEL_SIZE * |levels|
  {
    if levels == [] then [] else LevelsBytes(levels[..|levels| - 1]) + LevelBytes(levels[|levels| - 1])
  }

  // ---------- accessors ----------

  function SequenceNumber(data: Bytes): u64
    requires |data| >= LEN
  {
    U64At(data, 1)
  }

  function MidPriceTicks(data: Bytes): u64
    requires |data| >= LEN
  {
    U64At(data, 9)
  }

  function LevelAt(data: Bytes, at: nat): MakerLevel
    requires at + MAKER_LEVEL_SIZE <= |data|
  {
    MakerLevel(U64At(data, at), I64At(data, at + 8))
  }

  /** Slot `i` of the 32-slot level array that starts at byte 24. */
  function LevelSlot(data: Bytes, i: nat): MakerLevel
    requires |data| >= LEN && i < 2 * MAX_LEVELS
  {
    LevelAt(data, BIDS_OFFSET + MAKER_LEVEL_SIZE * i)
  }

  function Bids(data: Bytes): seq<MakerLevel>
    requires |data| >= LEN
  {
    seq(Min(data[17], MAX_LEVELS), i requires 0 <= i < MAX_LEVELS => LevelSlot(data, i))
  }

  function Asks(data: Bytes): seq<MakerLevel>
    requires |data| >= LEN
  {
    seq(Min(data[18], MAX_LEVELS), i requires 0 <= i < MAX_LEVELS => LevelSlot(data, MAX_LEVELS + i))
  }

  // ---------- the encoder ----------

  function Header(p: UpdateBookParams): (b: Bytes)
    requires |p.bidLevels| <= MAX_LEVELS && |p.askLevels| <= MAX_LEVELS
    ensures |b| == BIDS_OFFSET
  {
    [0] + U64Bytes(p.sequenceNumber) + U64Bytes(p.midPriceTicks) + [|p.bidLevels|, |p.askLevels|] + Zeros(5)
  }

  /** One side's 16 slots, the unused ones zero. */
  function Region(levels: seq<MakerLevel>): (b: Bytes)
    requires |levels| <= MAX_LEVELS
    ensures |b| == ASKS_OFFSET - BIDS_OFFSET
  {
    LevelsBytes(levels) + Zeros(MAKER_LEVEL_SIZE * (MAX_LEVELS - |levels|))
  }

  function UpdateBookBytes(p: UpdateBookParams): (b: Bytes)
    requires |p.bidLevels| <= MAX_LEVELS && |p.askLevels| <= MAX_LEVELS
    ensures |b| == LEN
  {
    Header(p) + Region(p.bidLevels) + Region(p.askLevels)
  }

  /** The loop's body: a level's size, then its offset. */
  method WriteLevel(data: array<u8>, at: nat, ghost written: Bytes, level: MakerLevel)
    requires at == |written| && at + MAKER_LEVEL_SIZE <= data.Length
    requires data[..] == written + Zeros(data.Length - at)
    modifies data
    ensures data[..] == written + LevelBytes(level) + Zeros(data.Length - at - MAKER_LEVEL_SIZE)
  {
    ghost var size := U64Bytes(level.sizeInBaseLots);
    OverwriteZeros(written, size, data.Length - at);
    CopyInto(data, at, U64Bytes(level.sizeInBaseLots));
    OverwriteZeros(written + size, I64Bytes(level.priceOffsetTicks), data.Length - at - 8);
    CopyInto(data, at + 8, I64Bytes(level.priceOffsetTicks));
    assert written + size + I64Bytes(level.priceOffsetTicks) == written + LevelBytes(level);
  }

  /** One side's loop: each level from the side's offset on. */
  method WriteLevels(data: array<u8>, start: nat, ghost written: Bytes, levels: seq<MakerLevel>)
    requires |levels| <= MAX_LEVELS
    requires start == |written| && start + MAKER_LEVEL_SIZE * MAX_LEVELS <= data.Length
    requires data[..] == written + Zeros(data.Length - start)
    modifies data
    ensures data[..] == written + LevelsBytes(levels) + Zeros(data.Length - start - MAKER_LEVEL_SIZE * |levels|)
  {
    for i := 0 to |levels|
      invariant data[..] == written + LevelsBytes(levels[..i]) + Zeros(data.Length - start - MAKER_LEVEL_SIZE * i)
    {
      assert levels[..i + 1][..i] == levels[..i];
      ghost var before := written + LevelsBytes(levels[..i]);
      WriteLevel(data, start + i * MAKER_LEVEL_SIZE, before, levels[i]);
      assert before + LevelBytes(levels[i]) == written + LevelsBytes(levels[..i + 1]);
    }
    assert levels[..|levels|] == levels;
  }

  /** The fixed fields of a zeroed buffer. */
  method WriteHeader(data: array<u8>, p: UpdateBookParams)
    requires |p.bidLevels| <= MAX_LEVELS && |p.askLevels| <= MAX_LEVELS
    requires data.Length == LEN && data[..] == Zeros(LEN)
    modifies data
    ensures data[..] == Header(p) + Zeros(LEN - BIDS_OFFSET)
  {
    ghost var number, mid := U64Bytes(p.sequenceNumber), U64Bytes(p.midPriceTicks);
    assert data[..] == Zeros(1) + Zeros(535);
    OverwriteZeros(Zeros(1), number, 535);
    CopyInto(data, 1, U64Bytes(p.sequenceNumber));
    OverwriteZeros(Zeros(1) + number, mid, 527);
    CopyInto(data, 9, U64Bytes(p.midPriceTicks));
    data[17] := |p.bidLevels|;
    data[18] := |p.askLevels|;
  }

  /** Two's complement in a word. */
  function TwosComplement(x: i64): nat {
    if x < 0 then x + 0x1_0000_0000_0000_0000 else x
  }

  /** One side's region from byte `at`: 16 bytes a level, the size and then the offset,
      and zeros up to 256. */
  ghost predicate RegionDocumented(b: Bytes, at: nat, levels: seq<MakerLevel>) {
    && at + 256 <= |b| && |levels| <= 16
    && (forall i | 0 <= i < |levels| ::
          && WordAt(b, at + 16 * i, levels[i].sizeInBaseLots)
          && WordAt(b, at + 16 * i + 8, TwosComplement(levels[i].priceOffsetTicks)))
    && forall k | at + 16 * |levels| <= k < at + 256 :: b[k] == 0
  }

  /** The documented layout, byte by byte. */
  ghost predicate Documented(b: Bytes, p: UpdateBookParams) {
    && |b| == 536
    && b[0] == 0
    && WordAt(b, 1, p.sequenceNumber)
    && WordAt(b, 9, p.midPriceTicks)
    && b[17] == |p.bidLevels| && b[18] == |p.askLevels|
    && (forall k | 19 <= k < 24 :: b[k] == 0)
    && RegionDocumented(b, 24, p.bidLevels)
    && RegionDocumented(b, 280, p.askLevels)
  }

  lemma {:induction false} LevelDocumented(before: Bytes, level: MakerLevel, after: Bytes)
    ensures var b := before + LevelBytes(level) + after;
            && WordAt(b, |before|, level.sizeInBaseLots)
            && WordAt(b, |before| + 8, TwosComplement(level.priceOffsetTicks))
  {
    var size, offset := U64Bytes(level.sizeInBaseLots), I64Bytes(level.priceOffsetTicks);
    var b := before + LevelBytes(level) + after;
    assert b == before + size + (offset + after);
    WordWithin(before, level.sizeInBaseLots, offset + after);
    assert b == before + size + offset + after;
    WordWithin(before + size, TwosComplement(level.priceOffsetTicks), after);
  }

  lemma {:induction false} LevelsDocumented(before: Bytes, levels: seq<MakerLevel>, after: Bytes, i: nat)
    requires i < |levels|
    ensures var b := before + LevelsBytes(levels) + after;
            && WordAt(b, |before| + 16 * i, levels[i].sizeInBaseLots)
            && WordAt(b, |before| + 16 * i + 8, TwosComplement(levels[i].priceOffsetTicks))
    decreases |levels|
  {
    var n := |levels| - 1;
    var front, last := LevelsBytes(levels[..n]), LevelBytes(levels[n]);
    if i < n {
      assert before + LevelsBytes(levels) + after == before + front + (last + after);
      LevelsDocumented(before, levels[..n], last + after, i);
    } else {
      assert before + LevelsBytes(levels) + after == before + front + last + after;
      LevelDocumented(before + front, levels[n], after);
    }
  }

  lemma {:induction false} RegionIsDocumented(before: Bytes, levels: seq<MakerLevel>, after: Bytes)
    requires |levels| <= MAX_LEVELS
    ensures RegionDocumented(before + Region(levels) + after, |before|, levels)
  {
    var pad := Zeros(MAKER_LEVEL_SIZE * (MAX_LEVELS - |levels|));
    var b := before + Region(levels) + after;
    assert b == before + LevelsBytes(levels) + (pad + after);
    forall i | 0 <= i < |levels|
      ensures WordAt(b, |before| + 16 * i, levels[i].sizeInBaseLots)
      ensures WordAt(b, |before| + 16 * i + 8, TwosComplement(levels[i].priceOffsetTicks))
    {
      LevelsDocumented(before, levels, pad + after, i);
    }
  }

  lemma {:induction false} HeaderDocumented(p: UpdateBookParams, rest: Bytes)
    requires |p.bidLevels| <= MAX_LEVELS && |p.askLevels| <= MAX_LEVELS
    ensures var b := Header(p) + rest;
            && b[0] == 0
            && b[17] == |p.bidLevels| && b[18] == |p.askLevels|
            && forall k | 19 <= k < 24 :: b[k] == 0
    ensures WordAt(Header(p) + rest, 1, p.sequenceNumber)
    ensures WordAt(Header(p) + rest, 9, p.midPriceTicks)
  {
    var number, mid := U64Bytes(p.sequenceNumber), U64Bytes(p.midPriceTicks);
    var tail := [|p.bidLevels|, |p.askLevels|] + Zeros(5) + rest;
    assert Header(p) + rest == [0] + number + (mid + tail);
    WordWithin([0], p.sequenceNumber, mid + tail);
    assert Header(p) + rest == [0] + number + mid + tail;
    WordWithin([0] + number, p.midPriceTicks, tail);
  }

  lemma {:induction false} UpdateIsDocumented(p: UpdateBookParams)
    requires |p.bidLevels| <= MAX_LEVELS && |p.askLevels| <= MAX_LEVELS
    ensures Documented(UpdateBookBytes(p), p)
  {
    var b, bids, asks := UpdateBookBytes(p), Region(p.bidLevels), Region(p.askLevels);
    assert b == Header(p) + (bids + asks);
    HeaderDocumented(p, bids + asks);
    assert b == Header(p) + bids + asks;
    RegionIsDocumented(Header(p), p.bidLevels, asks);
    assert b == Header(p) + bids + asks + [];
    RegionIsDocumented(Header(p) + bids, p.askLevels, []);
  }

  /** Fills a zeroed buffer in place; the source panics on a side of more than 16. */
  method EncodeUpdateBookData(p: UpdateBookParams) returns (b: Bytes)
    requires |p.bidLevels| <= MAX_LEVELS && |p.askLevels| <= MAX_LEVELS
    ensures b == UpdateBookBytes(p)
    ensures Documented(b, p)
  {
    var data := new u8[LEN](_ => 0);
    assert data[..] == Zeros(LEN);
    WriteHeader(data, p);
    WriteLevels(data, BIDS_OFFSET, Header(p), p.bidLevels);
    ghost var written := Header(p) + Region(p.bidLevels);
    assert data[..] == written + Zeros(256);
    WriteLevels(data, ASKS_OFFSET, written, p.askLevels);
    b := data[..];
    assert b == UpdateBookBytes(p);
    UpdateIsDocumented(p);
  }

  // ---------- the round trip ----------

  lemma {:induction false} LevelReadsBack(before: Bytes, level: MakerLevel, after: Bytes)
    ensures LevelAt(before + LevelBytes(level) + after, |before|) == level
  {
    var size, offset := U64Bytes(level.sizeInBaseLots), I64Bytes(level.priceOffsetTicks);
    assert before + LevelBytes(level) + after == before + size + (offset + after);
    WordReadsBack(before, level.sizeInBaseLots, offset + after);
    assert before + LevelBytes(level) + after == before + size + offset + after;
    OffsetReadsBack(before + size, level.priceOffsetTicks, after);
  }

  lemma {:induction false} LevelsReadBack(before: Bytes, levels: seq<MakerLevel>, after: Bytes, i: nat)
    requires i < |levels|
    ensures LevelAt(before + LevelsBytes(levels) + after, |before| + MAKER_LEVEL_SIZE * i) == levels[i]
    decreases |levels|
  {
    var n := |levels| - 1;
    var front, last := LevelsBytes(levels[..n]), LevelBytes(levels[n]);
    if i < n {
      assert before + LevelsBytes(levels) + after == before + front + (last + after);
      LevelsReadBack(before, levels[..n], last + after, i);
    } else {
      assert before + LevelsBytes(levels) + after == before + front + last + after;
      LevelReadsBack(before + front, levels[n], after);
    }
  }

  lemma {:induction false} HeaderReadsBack(p: UpdateBookParams, levels: Bytes)
    requires |p.bidLevels| <= MAX_LEVELS && |p.askLevels| <= MAX_LEVELS
    requires |levels| == LEN - BIDS_OFFSET
    ensures var data := Header(p) + levels;
            && data[0] == 0
            && SequenceNumber(data) == p.sequenceNumber
            && MidPriceTicks(data) == p.midPriceTicks
            && data[17] == |p.bidLevels| && data[18] == |p.askLevels|
  {
    var number, mid := U64Bytes(p.sequenceNumber), U64Bytes(p.midPriceTicks);
    var tail := [|p.bidLevels|, |p.askLevels|] + Zeros(5) + levels;
    assert Header(p) + levels == [0] + number + (mid + tail);
    WordReadsBack([0], p.sequenceNumber, mid + tail);
    assert Header(p) + levels == [0] + number + mid + tail;
    WordReadsBack([0] + number, p.midPriceTicks, tail);
  }

  /** Slot `i` of a side's region reads back its level, wherever the region starts. */
  lemma {:induction false} RegionReadsBack(before: Bytes, levels: seq<MakerLevel>, after: Bytes, i: nat)
    requires i < |levels| <= MAX_LEVELS
    ensures LevelAt(before + Region(levels) + after, |before| + MAKER_LEVEL_SIZE * i) == levels[i]
  {
    var pad := Zeros(MAKER_LEVEL_SIZE * (MAX_LEVELS - |levels|));
    assert before + Region(levels) + after == before + LevelsBytes(levels) + (pad + after);
    LevelsReadBack(before, levels, pad + after, i);
  }

  lemma {:induction false} SidesReadBack(p: UpdateBookParams)
    requires |p.bidLevels| <= MAX_LEVELS && |p.askLevels| <= MAX_LEVELS
    ensures forall i | 0 <= i < |p.bidLevels| :: LevelSlot(UpdateBookBytes(p), i) == p.bidLevels[i]
    ensures forall i | 0 <= i < |p.askLevels| :: LevelSlot(UpdateBookBytes(p), MAX_LEVELS + i) == p.askLevels[i]
  {
    var data, before := UpdateBookBytes(p), Header(p) + Region(p.bidLevels);
    forall i | 0 <= i < |p.bidLevels| ensures LevelSlot(data, i) == p.bidLevels[i] {
      RegionReadsBack(Header(p), p.bidLevels, Region(p.askLevels), i);
    }
    forall i | 0 <= i < |p.askLevels| ensures LevelSlot(data, MAX_LEVELS + i) == p.askLevels[i] {
      assert data == before + Region(p.askLevels) + [];
      RegionReadsBack(before, p.askLevels, [], i);
    }
  }

  /** The accessors read back exactly what was encoded, for any number of levels up
      to 16 a side and any offset, and the discriminator byte is left zero. */
  lemma {:induction false} AccessorsUndoEncode(p: UpdateBookParams)
    requires |p.bidLevels| <= MAX_LEVELS && |p.askLevels| <= MAX_LEVELS
    ensures var data := UpdateBookBytes(p);
            && data[0] == 0
            && UpdateBookParams(SequenceNumber(data), MidPriceTicks(data), Bids(data), Asks(data)) == p
  {
    var data := UpdateBookBytes(p);
    assert data == Header(p) + (Region(p.bidLevels) + Region(p.askLevels));
    HeaderReadsBack(p, Region(p.bidLevels) + Region(p.askLevels));
    SidesReadBack(p);
    assert Bids(data) == p.bidLevels;
    assert Asks(data) == p.askLevels;
  }
}
