/** Division and remainder of natural numbers. */
module Division {
  lemma DivMod(q: nat, d: nat, r: nat)
    requires r < d
    ensures (q * d + r) / d == q && (q * d + r) % d == r
  {
    var x := q * d + r;
    assert x == d * (x / d) + x % d;
    if x / d > q { MulLess(q + 1, x / d, d); } else if x / d < q { MulLess(x / d + 1, q, d); }
  }

  lemma MulLess(a: nat, b: nat, d: nat)
    requires a <= b
    ensures a * d <= b * d
  {
  }

  lemma MulStep(a: nat, b: nat)
    ensures a * (b + 1) == a * b + a && (b + 1) * a == b * a + a
  {
  }

  lemma Regroup(a: nat, b: nat, c: nat)
    ensures a * (b * c) == (a * b) * c && (b * a) * c == a * (b * c)
  {
  }

  lemma Filled(q: nat, k: nat, d: nat, r: nat)
    requires q < k && r < d
    ensures q * d + r < k * d
  {
    MulLess(q + 1, k, d);
    assert (q + 1) * d == q * d + d;
  }

  lemma Rebuilt(x: nat, d: nat)
    requires d > 0
    ensures x / d * d + x % d == x
  {
  }

  lemma Below(x: nat, k: nat, d: nat)
    requires d > 0 && (x < k * d || x < d * k)
    ensures x / d < k
  {
    assert x == d * (x / d) + x % d;
    if x / d >= k { MulLess(k, x / d, d); }
  }
}
