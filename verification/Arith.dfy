/** Facts of nonlinear arithmetic that the other proofs lean on. */
module Arith {
  function Min(a: int, b: int): int {
    if a <= b then a else b
  }

  function Max(a: int, b: int): int {
    if a <= b then b else a
  }

  lemma MulMonotone(a: int, b: int, s: nat)
    requires a <= b
    ensures a * s <= b * s
  {
  }

  lemma MulNext(a: int, s: int)
    ensures (a + 1) * s == a * s + s
  {
  }

  lemma QuotientUnique(a: int, d: int, q: int, m: int)
    requires d >= 1 && a == q * d + m && 0 <= m < d
    ensures a / d == q
  {
    var q' := a / d;
    if q' > q {
      MulMonotone(q + 1, q', d);
      MulNext(q, d);
    } else if q' < q {
      MulMonotone(q' + 1, q, d);
      MulNext(q', d);
    }
  }

  lemma DivStep(a: int, d: int)
    requires d >= 1 && a >= d
    ensures a / d == (a - d) / d + 1
  {
    MulNext((a - d) / d, d);
    QuotientUnique(a, d, (a - d) / d + 1, (a - d) % d);
  }

  lemma QuotientBelow(k: nat, size: nat, n: nat)
    requires size >= 1 && k < n * size
    ensures 0 <= k / size < n
  {
    if n <= k / size {
      MulMonotone(n, k / size, size);
    }
  }

  lemma DivBounds(k: nat, size: nat, f: nat)
    requires size >= 1
    ensures k / size == f <==> f * size <= k < f * size + size
  {
    if f * size <= k < f * size + size {
      QuotientUnique(k, size, f, k - f * size);
    }
  }
}
