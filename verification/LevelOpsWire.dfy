/** The `UpdateBookLimit` payload. */
module LevelOpsWire {
  import opened MachineInts
  import opened LevelOps
  import opened Bytes

  const LEVEL_OP_SIZE := 25
  const LEVEL_OPS_HEADER_SIZE := 11
  const UPDATE_BOOK_LIMIT := 36

  /** Side, price, expected size, new size. */
  function OpBytes(op: LevelOp): (b: Bytes)
    ensures |b| == LEVEL_OP_SIZE
  {
    [op.side] + U64Bytes(op.priceTicks) + U64Bytes(op.expectedSize) + U64Bytes(op.newSize)
  }

  /** One op's 25 bytes: the side, 0 for a bid and 1 for an ask, then three words. */
  ghost predicate OpDocumented(b: Bytes, op: LevelOp) {
    && |b| == 25
    && b[0] == op.side
    && WordAt(b, 1, op.priceTicks)
    && WordAt(b, 9, op.expectedSize)
    && WordAt(b, 17, op.newSize)
  }

  lemma {:induction false} OpBytesDocumented(op: LevelOp)
    ensures OpDocumented(OpBytes(op), op)
  {
    WordBytes(op.priceTicks);
    WordBytes(op.expectedSize);
    WordBytes(op.newSize);
  }

  /** `LevelOp::encode`, slice by slice. */
  method Encode(op: LevelOp) returns (b: Bytes)
    ensures b == OpBytes(op)
    ensures OpDocumented(b, op)
  {
    OpBytesDocumented(op);
    var out := new u8[LEVEL_OP_SIZE](_ => 0);
    assert out[..] == [] + Zeros(LEVEL_OP_SIZE);
    out[0] := op.side;
    assert out[..] == [op.side] + Zeros(24);
    OverwriteZeros([op.side], U64Bytes(op.priceTicks), 24);
    CopyInto(out, 1, U64Bytes(op.priceTicks));
    OverwriteZeros([op.side] + U64Bytes(op.priceTicks), U64Bytes(op.expectedSize), 16);
    CopyInto(out, 9, U64Bytes(op.expectedSize));
    OverwriteZeros([op.side] + U64Bytes(op.priceTicks) + U64Bytes(op.expectedSize), U64Bytes(op.newSize), 8);
    CopyInto(out, 17, U64Bytes(op.newSize));
    b := out[..];
  }

  function DecodeOp(b: Bytes): Result<LevelOp, ArcherError> {
    if |b| < LEVEL_OP_SIZE then Err(InvalidInstructionData)
    else if b[0] != LEVEL_OP_SIDE_BID && b[0] != LEVEL_OP_SIDE_ASK then Err(InvalidInstructionData)
    else Ok(LevelOp(b[0], U64At(b, 1), U64At(b, 9), U64At(b, 17)))
  }

  /** Decoding an encoded op gives it back exactly when its side byte is valid,
      whatever follows it. */
  lemma {:induction false} DecodeUndoesEncode(op: LevelOp, rest: Bytes)
    ensures DecodeOp(OpBytes(op) + rest) == if op.DecodedSide().Ok? then Ok(op) else Err(InvalidInstructionData)
  {
    var all := OpBytes(op) + rest;
    var price, expected, new_ := U64Bytes(op.priceTicks), U64Bytes(op.expectedSize), U64Bytes(op.newSize);
    assert all == [op.side] + price + (expected + new_ + rest);
    WordReadsBack([op.side], op.priceTicks, expected + new_ + rest);
    assert all == [op.side] + price + expected + (new_ + rest);
    WordReadsBack([op.side] + price, op.expectedSize, new_ + rest);
    assert all == [op.side] + price + expected + new_ + rest;
    WordReadsBack([op.side] + price + expected, op.newSize, rest);
  }

  /** Encoding a decoded op gives back the 25 bytes it was read from. */
  lemma {:induction false} EncodeUndoesDecode(b: Bytes)
    ensures DecodeOp(b).Ok? <==> |b| >= 25 && (b[0] == 0 || b[0] == 1)
    ensures DecodeOp(b).Err? ==> DecodeOp(b) == Err(InvalidInstructionData)
    ensures DecodeOp(b).Ok? ==> OpBytes(DecodeOp(b).value) == b[..LEVEL_OP_SIZE] && DecodeOp(b).value.DecodedSide().Ok?
  {
    if DecodeOp(b).Ok? {
      WordIsItsBytes(b, 1);
      WordIsItsBytes(b, 9);
      WordIsItsBytes(b, 17);
    }
  }

  function OpsBytes(ops: seq<LevelOp>): (b: Bytes)
    ensures |b| == LEVEL_OP_SIZE * |ops|
  {
    if ops == [] then [] else OpsBytes(ops[..|ops| - 1]) + OpBytes(ops[|ops| - 1])
  }

  datatype Payload = Payload(crossPolicy: u8, sequence: u64, ops: seq<LevelOp>)

  ghost predicate Sendable(p: Payload) {
    1 <= |p.ops| <= MAX_LEVEL_OPS && forall i | 0 <= i < |p.ops| :: p.ops[i].DecodedSide().Ok?
  }

  function PayloadBytes(p: Payload): Bytes
    requires |p.ops| <= MAX_LEVEL_OPS
  {
    [UPDATE_BOOK_LIMIT, p.crossPolicy] + U64Bytes(p.sequence) + [|p.ops|] + OpsBytes(p.ops)
  }

  /** The documented layout, byte by byte. */
  ghost predicate Documented(data: Bytes, crossPolicy: u8, sequence: u64, ops: seq<LevelOp>) {
    && |data| == 11 + 25 * |ops|
    && data[0] == 36
    && data[1] == crossPolicy
    && WordAt(data, 2, sequence)
    && data[10] == |ops|
    && forall i | 0 <= i < |ops| :: OpDocumented(data[11 + 25 * i..11 + 25 * i + 25], ops[i])
  }

  lemma {:induction false} OpsBytesAt(ops: seq<LevelOp>, i: nat)
    requires i < |ops|
    ensures OpsBytes(ops)[25 * i..25 * i + 25] == OpBytes(ops[i])
  {
    var n := |ops| - 1;
    var b := OpsBytes(ops);
    if i < n {
      OpsBytesAt(ops[..n], i);
      assert b[25 * i..25 * i + 25] == OpsBytes(ops[..n])[25 * i..25 * i + 25];
    } else {
      assert b[25 * i..25 * i + 25] == OpBytes(ops[n]);
    }
  }

  lemma {:induction false} HeaderDocumented(p: Payload)
    requires |p.ops| <= MAX_LEVEL_OPS
    ensures var data := PayloadBytes(p);
            |data| == 11 + 25 * |p.ops| && data[0] == 36 && data[1] == p.crossPolicy && data[10] == |p.ops|
    ensures WordAt(PayloadBytes(p), 2, p.sequence)
  {
    var head, tail := [UPDATE_BOOK_LIMIT, p.crossPolicy], [|p.ops|] + OpsBytes(p.ops);
    WordWithin(head, p.sequence, tail);
    assert PayloadBytes(p) == head + U64Bytes(p.sequence) + tail;
  }

  lemma {:induction false} OpWithinPayload(p: Payload, i: nat)
    requires i < |p.ops| <= MAX_LEVEL_OPS
    ensures |PayloadBytes(p)| == 11 + 25 * |p.ops|
    ensures PayloadBytes(p)[11 + 25 * i..11 + 25 * i + 25] == OpBytes(p.ops[i])
  {
    var data := PayloadBytes(p);
    OpsBytesAt(p.ops, i);
    assert data[11..] == OpsBytes(p.ops);
    assert data[11 + 25 * i..11 + 25 * i + 25] == data[11..][25 * i..25 * i + 25];
  }

  lemma {:induction false} PayloadDocumented(p: Payload)
    requires |p.ops| <= MAX_LEVEL_OPS
    ensures Documented(PayloadBytes(p), p.crossPolicy, p.sequence, p.ops)
  {
    HeaderDocumented(p);
    forall i | 0 <= i < |p.ops|
      ensures OpDocumented(PayloadBytes(p)[11 + 25 * i..11 + 25 * i + 25], p.ops[i])
    {
      OpWithinPayload(p, i);
      OpBytesDocumented(p.ops[i]);
    }
  }

  /** An op built for a bid has side byte 0 on the wire, and one built for an ask 1. */
  ghost predicate SidesDocumented(data: Bytes, ops: seq<LevelOp>) {
    && |data| == 11 + 25 * |ops|
    && forall i, side, price, expected, size |
         0 <= i < |ops| && ops[i] == LevelOp.New(side, price, expected, size) ::
         data[11 + 25 * i] == if side == Bid then 0 else 1
  }

  lemma {:induction false} SidesAreDocumented(data: Bytes, crossPolicy: u8, sequence: u64, ops: seq<LevelOp>)
    requires Documented(data, crossPolicy, sequence, ops)
    ensures SidesDocumented(data, ops)
  {
    forall i, side, price, expected, size |
      0 <= i < |ops| && ops[i] == LevelOp.New(side, price, expected, size)
      ensures data[11 + 25 * i] == if side == Bid then 0 else 1
    {
      assert OpDocumented(data[11 + 25 * i..11 + 25 * i + 25], ops[i]);
      assert data[11 + 25 * i..11 + 25 * i + 25][0] == data[11 + 25 * i];
    }
  }

  /** The side byte of every op the client builds. */
  lemma {:induction false} SideBytes(id: LimitOrderId, size: u64, newSize: u64, mode: CancelMode)
    ensures var byte := if id.side == Bid then 0 else 1;
            && LevelOp.New(id.side, id.priceTicks, size, newSize).side == byte
            && LevelOp.Place(id, size).side == byte
            && LevelOp.CancelAny(id).side == byte
            && LevelOp.Resize(id, size, newSize).side == byte
            && CancelOp(mode, id, size).side == byte
  {
  }

  lemma {:induction false} PayloadSidesDocumented(p: Payload)
    requires |p.ops| <= MAX_LEVEL_OPS
    ensures SidesDocumented(PayloadBytes(p), p.ops)
  {
    PayloadDocumented(p);
    SidesAreDocumented(PayloadBytes(p), p.crossPolicy, p.sequence, p.ops);
  }

  lemma {:induction false} NextOpBytes(header: Bytes, ops: seq<LevelOp>, i: nat)
    requires i < |ops|
    ensures header + OpsBytes(ops[..i]) + OpBytes(ops[i]) == header + OpsBytes(ops[..i + 1])
  {
    assert ops[..i + 1][..i] == ops[..i];
  }

  lemma {:induction false} PayloadFromPieces(crossPolicy: u8, sequence: u64, ops: seq<LevelOp>)
    requires |ops| <= MAX_LEVEL_OPS
    ensures var data := [UPDATE_BOOK_LIMIT] + [crossPolicy] + U64Bytes(sequence) + [|ops|] + OpsBytes(ops);
            && data == PayloadBytes(Payload(crossPolicy, sequence, ops))
            && Documented(data, crossPolicy, sequence, ops)
            && SidesDocumented(data, ops)
  {
    var p := Payload(crossPolicy, sequence, ops);
    assert [UPDATE_BOOK_LIMIT] + [crossPolicy] == [UPDATE_BOOK_LIMIT, crossPolicy];
    PayloadDocumented(p);
    PayloadSidesDocumented(p);
  }

  /** The full payload, pushed piece by piece; the source panics on any other number
      of ops. */
  method EncodeLevelOps(crossPolicy: u8, sequence: u64, ops: seq<LevelOp>) returns (data: Bytes)
    requires 1 <= |ops| <= MAX_LEVEL_OPS
    ensures data == PayloadBytes(Payload(crossPolicy, sequence, ops))
    ensures Documented(data, crossPolicy, sequence, ops)
    ensures SidesDocumented(data, ops)
  {
    data := [UPDATE_BOOK_LIMIT];
    data := data + [crossPolicy];
    data := data + U64Bytes(sequence);
    data := data + [|ops|];
    ghost var header := data;
    for i := 0 to |ops|
      invariant data == header + OpsBytes(ops[..i])
    {
      NextOpBytes(header, ops, i);
      var encoded := Encode(ops[i]);
      data := data + encoded;
    }
    assert ops[..|ops|] == ops;
    PayloadFromPieces(crossPolicy, sequence, ops);
  }

  function DecodeOps(b: Bytes, n: nat): Result<seq<LevelOp>, ArcherError>
    requires |b| == LEVEL_OP_SIZE * n
  {
    if n == 0 then Ok([])
    else
      var before :- DecodeOps(b[..LEVEL_OP_SIZE * (n - 1)], n - 1);
      var op :- DecodeOp(b[LEVEL_OP_SIZE * (n - 1)..]);
      Ok(before + [op])
  }

  /** The documented layout, read strictly. */
  function ParseLevelOps(data: Bytes): Result<Payload, ArcherError> {
    if |data| < LEVEL_OPS_HEADER_SIZE || data[0] != UPDATE_BOOK_LIMIT then Err(InvalidInstructionData)
    else
      var n := data[10];
      if n == 0 || n > MAX_LEVEL_OPS || |data| != LEVEL_OPS_HEADER_SIZE + LEVEL_OP_SIZE * n
      then Err(InvalidInstructionData)
      else
        var ops :- DecodeOps(data[LEVEL_OPS_HEADER_SIZE..], n);
        Ok(Payload(data[1], U64At(data, 2), ops))
  }

  lemma {:induction false} OpsReadBack(ops: seq<LevelOp>)
    requires forall i | 0 <= i < |ops| :: ops[i].DecodedSide().Ok?
    ensures DecodeOps(OpsBytes(ops), |ops|) == Ok(ops)
  {
    if ops != [] {
      var n := |ops| - 1;
      var b := OpsBytes(ops);
      OpsReadBack(ops[..n]);
      assert b[..LEVEL_OP_SIZE * n] == OpsBytes(ops[..n]);
      assert b[LEVEL_OP_SIZE * n..] == OpBytes(ops[n]) == OpBytes(ops[n]) + [];
      assert ops == ops[..n] + [ops[n]];
      DecodeUndoesEncode(ops[n], []);
    }
  }

  lemma {:induction false} OpsAreTheirBytes(b: Bytes, n: nat)
    requires |b| == LEVEL_OP_SIZE * n
    requires DecodeOps(b, n).Ok?
    ensures |DecodeOps(b, n).value| == n
    ensures OpsBytes(DecodeOps(b, n).value) == b
    ensures forall i | 0 <= i < n :: DecodeOps(b, n).value[i].DecodedSide().Ok?
  {
    if n > 0 {
      var m := LEVEL_OP_SIZE * (n - 1);
      OpsAreTheirBytes(b[..m], n - 1);
      EncodeUndoesDecode(b[m..]);
      var ops := DecodeOps(b, n).value;
      assert ops[..n - 1] == DecodeOps(b[..m], n - 1).value;
      assert b[m..][..LEVEL_OP_SIZE] == b[m..];
      assert b == b[..m] + b[m..];
    }
  }

  /** Parsing a payload returns the policy, the sequence and the op list it was
      built from. */
  lemma {:induction false} ParseUndoesEncode(p: Payload)
    requires Sendable(p)
    ensures ParseLevelOps(PayloadBytes(p)) == Ok(p)
  {
    var data := PayloadBytes(p);
    var head := [UPDATE_BOOK_LIMIT, p.crossPolicy];
    assert data == head + U64Bytes(p.sequence) + ([|p.ops|] + OpsBytes(p.ops));
    WordReadsBack(head, p.sequence, [|p.ops|] + OpsBytes(p.ops));
    assert data[10] == |p.ops|;
    assert data[LEVEL_OPS_HEADER_SIZE..] == OpsBytes(p.ops);
    OpsReadBack(p.ops);
  }

  /** And whatever parses is the encoding of what it parses to: no two payloads are
      read as the same write. */
  lemma {:induction false} EncodeUndoesParse(data: Bytes)
    requires ParseLevelOps(data).Ok?
    ensures Sendable(ParseLevelOps(data).value)
    ensures PayloadBytes(ParseLevelOps(data).value) == data
  {
    var n := data[10];
    OpsAreTheirBytes(data[LEVEL_OPS_HEADER_SIZE..], n);
    WordIsItsBytes(data, 2);
  }
}
