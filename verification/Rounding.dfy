/** Floor and ceiling division of naturals, as Galois connections with
    multiplication. Every rounding argument of the project goes through these. */
module Rounding {
  function Ceil(x: nat, d: nat): nat
    requires d > 0
  {
    (x + d - 1) / d
  }

  lemma {:induction false} MulMono(a: nat, b: nat, c: nat)
    requires a <= b
    ensures a * c <= b * c
  {
  }

  lemma {:induction false} MulCancel(a: nat, b: nat, c: nat)
    requires c > 0
    requires a * c <= b * c
    ensures a <= b
  {
    if a > b {
      assert (b + 1) * c == b * c + c;
      MulMono(b + 1, a, c);
    }
  }

  /** `v <= x / d` exactly when `v` whole copies of `d` fit in `x`. */
  lemma {:induction false} FloorGe(x: nat, d: nat, v: nat)
    requires d > 0
    ensures v <= x / d <==> v * d <= x
  {
    var q := x / d;
    assert q * d <= x < (q + 1) * d by { assert x == q * d + x % d; }
    if v <= q {
      MulMono(v, q, d);
    } else {
      MulMono(q + 1, v, d);
    }
  }

  /** `Ceil(x, d) <= v` exactly when `v` copies of `d` cover `x`. */
  lemma {:induction false} CeilLe(x: nat, d: nat, v: nat)
    requires d > 0
    ensures Ceil(x, d) <= v <==> x <= v * d
  {
    FloorGe(x + d - 1, d, v + 1);
    assert (v + 1) * d == v * d + d;
  }

  lemma {:induction false} FloorBounds(x: nat, d: nat)
    requires d > 0
    ensures (x / d) * d <= x < (x / d) * d + d
  {
  }

  lemma {:induction false} CeilBounds(x: nat, d: nat)
    requires d > 0
    ensures x <= Ceil(x, d) * d < x + d
  {
    CeilLe(x, d, Ceil(x, d));
    if Ceil(x, d) > 0 {
      CeilLe(x, d, Ceil(x, d) - 1);
      assert (Ceil(x, d) - 1) * d == Ceil(x, d) * d - d;
    }
  }

  lemma {:induction false} FloorUnique(x: nat, d: nat, q: nat)
    requires d > 0
    requires q * d <= x < q * d + d
    ensures x / d == q
  {
    FloorGe(x, d, q);
    FloorGe(x, d, q + 1);
    assert (q + 1) * d == q * d + d;
  }

  lemma {:induction false} ExactDivision(q: nat, d: nat)
    requires d > 0
    ensures (q * d) / d == q
    ensures (q * d) % d == 0
    ensures Ceil(q * d, d) == q
  {
    FloorUnique(q * d, d, q);
    FloorUnique(q * d + d - 1, d, q);
  }

  lemma {:induction false} FloorMono(x: nat, y: nat, d: nat)
    requires d > 0 && x <= y
    ensures x / d <= y / d
  {
    FloorBounds(x, d);
    FloorGe(y, d, x / d);
  }

  lemma {:induction false} CeilMono(x: nat, y: nat, d: nat)
    requires d > 0 && x <= y
    ensures Ceil(x, d) <= Ceil(y, d)
  {
    FloorMono(x + d - 1, y + d - 1, d);
  }

  /** Two successive floors are one floor by the product. */
  lemma {:induction false} NestedFloor(x: nat, a: nat, b: nat)
    requires a > 0 && b > 0
    ensures a * b > 0
    ensures (x / a) / b == x / (a * b)
  {
    var q := (x / a) / b;
    FloorBounds(x / a, b);
    FloorGe(x, a, q * b);
    FloorGe(x, a, q * b + b);
    assert q * b * a == q * (a * b);
    assert (q * b + b) * a == q * (a * b) + a * b;
    FloorUnique(x, a * b, q);
  }

  lemma {:induction false} SplitProduct(a: nat, b: nat, d: nat)
    ensures (a + b) * d == a * d + b * d
  {
  }

  lemma {:induction false} CeilOfSumAtMost(x: nat, y: nat, d: nat)
    requires d > 0
    ensures Ceil(x + y, d) <= Ceil(x, d) + Ceil(y, d)
  {
    CeilBounds(x, d);
    CeilBounds(y, d);
    SplitProduct(Ceil(x, d), Ceil(y, d), d);
    CeilLe(x + y, d, Ceil(x, d) + Ceil(y, d));
  }

  lemma {:induction false} BelowTwoMore(s: nat, c: nat, d: nat)
    requires s * d < c * d + 2 * d
    ensures s <= c + 1
  {
    SplitProduct(c, 2, d);
    if s >= c + 2 {
      MulMono(c + 2, s, d);
    }
  }

  lemma {:induction false} CeilOfSumAtLeast(x: nat, y: nat, d: nat)
    requires d > 0
    ensures Ceil(x, d) + Ceil(y, d) <= Ceil(x + y, d) + 1
  {
    CeilBounds(x, d);
    CeilBounds(y, d);
    CeilBounds(x + y, d);
    SplitProduct(Ceil(x, d), Ceil(y, d), d);
    BelowTwoMore(Ceil(x, d) + Ceil(y, d), Ceil(x + y, d), d);
  }

  lemma {:induction false} CeilOfSum(x: nat, y: nat, d: nat)
    requires d > 0
    ensures Ceil(x + y, d) <= Ceil(x, d) + Ceil(y, d) <= Ceil(x + y, d) + 1
  {
    CeilOfSumAtMost(x, y, d);
    CeilOfSumAtLeast(x, y, d);
  }

  /** Two conversion pairs that stand for one ratio. */
  ghost predicate SameRatio(num: nat, den: nat, num': nat, den': nat) {
    num * den' == num' * den
  }

  lemma {:induction false} RatioBound(w: nat, num: nat, den: nat, num': nat, den': nat, v: nat)
    requires den > 0 && den' > 0 && SameRatio(num, den, num', den')
    requires w * num <= v * den
    ensures w * num' <= v * den'
  {
    MulMono(w * num, v * den, den');
    assert w * num * den' == w * (num * den');
    assert w * (num' * den) == (w * num') * den;
    assert v * den * den' == (v * den') * den;
    MulCancel(w * num', v * den', den);
  }

  /** Scaling by a ratio and rounding up does not depend on the pair. */
  lemma {:induction false} CeilOfRatio(w: nat, num: nat, den: nat, num': nat, den': nat)
    requires den > 0 && den' > 0 && SameRatio(num, den, num', den')
    ensures Ceil(w * num, den) == Ceil(w * num', den')
  {
    var c, c' := Ceil(w * num, den), Ceil(w * num', den');
    CeilLe(w * num, den, c);
    CeilLe(w * num', den', c');
    RatioBound(w, num, den, num', den', c);
    RatioBound(w, num', den', num, den, c');
    CeilLe(w * num', den', c);
    CeilLe(w * num, den, c');
  }
}
