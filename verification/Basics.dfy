/** What the kernel components share: options and results, bytes, and arithmetic with powers of two. */
module Basics {

  datatype Option<+T> = None | Some(value: T)

  datatype Result<+T, +E> = Ok(value: T) | Err(error: E)

  type u8 = x: int | 0 <= x < 0x100

  function NatMin(a: nat, b: nat): nat { if a < b then a else b }

  function NatMax(a: nat, b: nat): nat { if a < b then b else a }

  ghost predicate Distinct(s: seq<nat>) {
    forall i, j :: 0 <= i < j < |s| ==> s[i] != s[j]
  }

  lemma {:induction false} MultipleMod(q: nat, a: nat)
    requires a > 0
    ensures (q * a) % a == 0
  {
    if q > 0 {
      MultipleMod(q - 1, a);
      assert q * a == (q - 1) * a + a;
      ModStep((q - 1) * a, a);
    }
  }

  lemma ModStep(x: nat, a: nat)
    requires a > 0
    ensures (x + a) % a == x % a
    ensures (x + a) / a == x / a + 1
  {
    var q, m := x / a, x % a;
    assert x + a == (q + 1) * a + m;
    DivModUnique(x + a, a, q + 1, m);
  }

  lemma DivModUnique(x: nat, a: nat, q: nat, m: nat)
    requires a > 0 && m < a
    requires x == q * a + m
    ensures x / a == q && x % a == m
  {
    var q', m' := x / a, x % a;
    assert x == q' * a + m' && 0 <= m' < a;
    assert q' < q ==> (q' + 1) * a <= q * a;
    assert q < q' ==> (q + 1) * a <= q' * a;
  }

  predicate IsPowerOfTwo(a: nat) {
    a == 1 || (a > 1 && a % 2 == 0 && IsPowerOfTwo(a / 2))
  }

  lemma SmallPowerOrMultipleOfEight(a: nat)
    requires IsPowerOfTwo(a)
    ensures a == 1 || a == 2 || a == 4 || a % 8 == 0
  {
  }

  /** The smallest multiple of `a` that is at least `x`. */
  function AlignUp(x: nat, a: nat): nat
    requires a > 0
  {
    x + (a - x % a) % a
  }

  lemma AlignUpValue(x: nat, a: nat, q: nat, m: nat)
    requires a > 0 && m < a && x == q * a + m
    ensures AlignUp(x, a) == if m == 0 then x else (q + 1) * a
  {
    DivModUnique(x, a, q, m);
    if m == 0 {
      DivModUnique(a, a, 1, 0);
    } else {
      DivModUnique(a - m, a, 0, a - m);
    }
  }

  lemma LeastMultiple(q: nat, m: nat, a: nat, y: nat)
    requires 0 < m < a && q * a + m <= y && y % a == 0
    ensures (q + 1) * a <= y
  {
    var qy := y / a;
    assert y == qy * a;
    assert qy <= q ==> qy * a <= q * a;
    assert q < qy ==> (q + 1) * a <= qy * a;
  }

  lemma AlignUpIsLeastMultiple(x: nat, a: nat)
    requires a > 0
    ensures x <= AlignUp(x, a) < x + a
    ensures AlignUp(x, a) % a == 0
    ensures AlignUp(x, a) == x <==> x % a == 0
    ensures forall y: nat :: x <= y && y % a == 0 ==> AlignUp(x, a) <= y
  {
    hide AlignUp;
    var q, m := x / a, x % a;
    AlignUpValue(x, a, q, m);
    if m != 0 {
      MultipleMod(q + 1, a);
      forall y: nat | x <= y && y % a == 0
        ensures AlignUp(x, a) <= y
      {
        LeastMultiple(q, m, a, y);
      }
    }
  }

  /** A multiple of a power of two above four is a multiple of eight. */
  lemma MultipleOfEight(x: nat, a: nat)
    requires a > 0 && x % a == 0 && a % 8 == 0
    ensures x % 8 == 0
  {
    var q, k := x / a, a / 8;
    assert x == q * a && a == 8 * k;
    assert q * (8 * k) == (q * k) * 8;
    MultipleMod(q * k, 8);
  }
}
