/** Little-endian integers in byte strings, and slices written in place. */
module Bytes {
  import opened MachineInts
  import opened Rounding

  type Bytes = seq<u8>

  const U64_SPAN := U64_MAX + 1

  function Span(n: nat): (s: nat)
    ensures s > 0
  {
    if n == 0 then 1 else 0x100 * Span(n - 1)
  }

  /** The low `n` bytes of `x`, least significant first. */
  function ToLe(x: nat, n: nat): (b: Bytes)
    ensures |b| == n
  {
    if n == 0 then [] else [x % 0x100] + ToLe(x / 0x100, n - 1)
  }

  function FromLe(b: Bytes): nat {
    if b == [] then 0 else b[0] + 0x100 * FromLe(b[1..])
  }

  lemma {:induction false} FromToLe(x: nat, n: nat)
    requires x < Span(n)
    ensures FromLe(ToLe(x, n)) == x
  {
    if n > 0 {
      FromToLe(x / 0x100, n - 1);
      assert ToLe(x, n)[1..] == ToLe(x / 0x100, n - 1);
    }
  }

  lemma {:induction false} ToFromLe(b: Bytes)
    ensures FromLe(b) < Span(|b|)
    ensures ToLe(FromLe(b), |b|) == b
  {
    if b != [] {
      ToFromLe(b[1..]);
      assert FromLe(b) % 0x100 == b[0] && FromLe(b) / 0x100 == FromLe(b[1..]);
    }
  }

  lemma {:induction false} EightBytes()
    ensures Span(8) == U64_SPAN
  {
    assert Span(0) == 1 && Span(1) == 0x100 && Span(2) == 0x1_0000 && Span(3) == 0x100_0000;
    assert Span(4) == 0x1_0000_0000 && Span(5) == 0x100_0000_0000 && Span(6) == 0x1_0000_0000_0000;
  }

  function U64Bytes(x: u64): (b: Bytes)
    ensures |b| == 8
  {
    ToLe(x, 8)
  }

  function U64At(b: Bytes, at: nat): u64
    requires at + 8 <= |b|
  {
    ToFromLe(b[at..at + 8]);
    EightBytes();
    FromLe(b[at..at + 8])
  }

  /** Two's complement. */
  function I64Bytes(x: i64): (b: Bytes)
    ensures |b| == 8
  {
    U64Bytes(if x < 0 then x + U64_SPAN else x)
  }

  function I64At(b: Bytes, at: nat): i64
    requires at + 8 <= |b|
  {
    var raw := U64At(b, at);
    if raw > I64_MAX then raw - U64_SPAN else raw
  }

  /** A word written after `before` reads back, and is all its eight bytes hold. */
  lemma {:induction false} WordReadsBack(before: Bytes, x: u64, after: Bytes)
    ensures U64At(before + U64Bytes(x) + after, |before|) == x
  {
    var all := before + U64Bytes(x) + after;
    assert all[|before|..|before| + 8] == U64Bytes(x);
    EightBytes();
    FromToLe(x, 8);
  }

  lemma {:induction false} OffsetReadsBack(before: Bytes, x: i64, after: Bytes)
    ensures I64At(before + I64Bytes(x) + after, |before|) == x
  {
    WordReadsBack(before, if x < 0 then x + U64_SPAN else x, after);
  }

  lemma {:induction false} WordIsItsBytes(b: Bytes, at: nat)
    requires at + 8 <= |b|
    ensures U64Bytes(U64At(b, at)) == b[at..at + 8]
  {
    ToFromLe(b[at..at + 8]);
  }

  /** The eight bytes at `at` are `x`, least significant first. */
  ghost predicate WordAt(b: Bytes, at: nat, x: nat) {
    && at + 8 <= |b|
    && b[at] == x % 0x100
    && b[at + 1] == x / 0x100 % 0x100
    && b[at + 2] == x / 0x1_0000 % 0x100
    && b[at + 3] == x / 0x100_0000 % 0x100
    && b[at + 4] == x / 0x1_0000_0000 % 0x100
    && b[at + 5] == x / 0x100_0000_0000 % 0x100
    && b[at + 6] == x / 0x1_0000_0000_0000 % 0x100
    && b[at + 7] == x / 0x100_0000_0000_0000 % 0x100
  }

  lemma {:induction false} NestedDivision(x: nat, d: nat)
    requires d > 0
    ensures x / 0x100 / d == x / (0x100 * d)
  {
    NestedFloor(x, 0x100, d);
  }

  lemma {:induction false} LeByte(x: nat, n: nat, j: nat)
    requires j < n
    ensures ToLe(x, n)[j] == x / Span(j) % 0x100
  {
    if j > 0 {
      LeByte(x / 0x100, n - 1, j - 1);
      NestedDivision(x, Span(j - 1));
    }
  }

  lemma {:induction false} WordBytes(x: u64)
    ensures WordAt(U64Bytes(x), 0, x)
  {
    EightBytes();
    LeByte(x, 8, 0);
    LeByte(x, 8, 1);
    LeByte(x, 8, 2);
    LeByte(x, 8, 3);
    LeByte(x, 8, 4);
    LeByte(x, 8, 5);
    LeByte(x, 8, 6);
    LeByte(x, 8, 7);
    assert Span(7) == 0x100_0000_0000_0000;
  }

  lemma {:induction false} WordWithin(before: Bytes, x: u64, after: Bytes)
    ensures WordAt(before + U64Bytes(x) + after, |before|, x)
  {
    WordBytes(x);
    var all := before + U64Bytes(x) + after;
    assert forall j | 0 <= j < 8 :: all[|before| + j] == U64Bytes(x)[j];
  }

  function Zeros(n: nat): (b: Bytes)
    ensures |b| == n
  {
    seq(n, _ => 0)
  }

  function Overwrite(b: Bytes, at: nat, bytes: Bytes): Bytes
    requires at + |bytes| <= |b|
  {
    b[..at] + bytes + b[at + |bytes|..]
  }

  /** `copy_from_slice` into a buffer. */
  method CopyInto(buffer: array<u8>, at: nat, bytes: Bytes)
    requires at + |bytes| <= buffer.Length
    modifies buffer
    ensures buffer[..] == Overwrite(old(buffer[..]), at, bytes)
  {
    forall i | 0 <= i < |bytes| {
      buffer[at + i] := bytes[i];
    }
  }

  /** Writing at the end of what is written only consumes zeros. */
  lemma {:induction false} OverwriteZeros(written: Bytes, bytes: Bytes, room: nat)
    requires |bytes| <= room
    ensures Overwrite(written + Zeros(room), |written|, bytes) == written + bytes + Zeros(room - |bytes|)
  {
  }
}
