/** Blocks of bytes under exclusive or, and sums of the blocks of one row. */
module Parity {
  type Block = seq<bv8>

  function Zeros(n: nat): Block { seq(n, _ => 0) }

  function Xor(a: Block, b: Block): (r: Block)
    requires |a| == |b|
    ensures |r| == |a|
  {
    seq(|a|, i requires 0 <= i < |a| => a[i] ^ b[i])
  }

  lemma XorZero(a: Block)
    ensures Xor(a, Zeros(|a|)) == a && Xor(Zeros(|a|), a) == a && Xor(a, a) == Zeros(|a|)
  {
  }

  lemma XorComm(a: Block, b: Block)
    requires |a| == |b|
    ensures Xor(a, b) == Xor(b, a)
  {
  }

  lemma XorAssoc(a: Block, b: Block, c: Block)
    requires |a| == |b| == |c|
    ensures Xor(Xor(a, b), c) == Xor(a, Xor(b, c))
  {
    forall i | 0 <= i < |a| ensures Xor(Xor(a, b), c)[i] == Xor(a, Xor(b, c))[i] {
      Assoc(a[i], b[i], c[i]);
    }
  }

  lemma Assoc(a: bv8, b: bv8, c: bv8)
    ensures (a ^ b) ^ c == a ^ (b ^ c)
  {
  }

  /** (a + b) + c == (a + c) + b. */
  lemma XorSwap(a: Block, b: Block, c: Block)
    requires |a| == |b| == |c|
    ensures Xor(Xor(a, b), c) == Xor(Xor(a, c), b)
  {
    XorAssoc(a, b, c);
    XorAssoc(a, c, b);
    XorComm(b, c);
  }

  /** Adding the same block twice changes nothing. */
  lemma XorTwice(a: Block, b: Block)
    requires |a| == |b|
    ensures Xor(Xor(a, b), b) == a
  {
    XorAssoc(a, b, b);
    XorZero(b);
    XorZero(a);
  }

  /** Two blocks that sum to zero are equal. */
  lemma XorCancel(a: Block, b: Block)
    requires |a| == |b| && Xor(a, b) == Zeros(|a|)
    ensures a == b
  {
    XorTwice(a, b);
    XorZero(b);
  }

  predicate Row(c: seq<Block>, bs: nat) { forall d | 0 <= d < |c| :: |c[d]| == bs }

  /** The sum of the first n blocks of a row, leaving out the disks in skip. */
  function Sum(c: seq<Block>, bs: nat, n: nat, skip: set<nat>): (r: Block)
    requires Row(c, bs) && n <= |c|
    ensures |r| == bs
  {
    if n == 0 then Zeros(bs)
    else if n - 1 in skip then Sum(c, bs, n - 1, skip)
    else Xor(Sum(c, bs, n - 1, skip), c[n - 1])
  }

  /** One disk's block can be taken out of the sum. */
  lemma {:induction false} Extract(c: seq<Block>, bs: nat, n: nat, skip: set<nat>, d: nat)
    requires Row(c, bs) && d < n <= |c| && d !in skip
    ensures Sum(c, bs, n, skip) == Xor(Sum(c, bs, n, skip + {d}), c[d])
  {
    if d == n - 1 {
      SameSum(c, c, bs, n - 1, skip, skip + {d});
    } else {
      Extract(c, bs, n - 1, skip, d);
      if n - 1 !in skip {
        XorSwap(Sum(c, bs, n - 1, skip + {d}), c[d], c[n - 1]);
      }
    }
  }

  /** Only the disks summed matter. */
  lemma {:induction false} SameSum(c: seq<Block>, c': seq<Block>, bs: nat, n: nat, skip: set<nat>, skip': set<nat>)
    requires Row(c, bs) && Row(c', bs) && n <= |c| == |c'|
    requires forall d: nat | d < n :: (d in skip <==> d in skip') && (d !in skip ==> c[d] == c'[d])
    ensures Sum(c, bs, n, skip) == Sum(c', bs, n, skip')
  {
    if n > 0 {
      SameSum(c, c', bs, n - 1, skip, skip');
    }
  }

  /** In a row that sums to zero every block is the sum of the others. */
  lemma Missing(c: seq<Block>, bs: nat, d: nat)
    requires Row(c, bs) && d < |c| && Sum(c, bs, |c|, {}) == Zeros(bs)
    ensures Sum(c, bs, |c|, {d}) == c[d]
  {
    Extract(c, bs, |c|, {}, d);
    assert {} + {d} == {d};
    XorCancel(Sum(c, bs, |c|, {d}), c[d]);
  }

  /** Block d replaced by x, and block p by whatever makes the row sum to zero again. */
  function Balanced(c: seq<Block>, bs: nat, d: nat, p: nat, x: Block): seq<Block>
    requires Row(c, bs) && d < |c| && p < |c| && |x| == bs
  {
    c[d := x][p := Xor(Sum(c, bs, |c|, {p, d}), x)]
  }

  lemma BalancedZero(c: seq<Block>, bs: nat, d: nat, p: nat, x: Block)
    requires Row(c, bs) && d < |c| && p < |c| && |x| == bs && d != p
    ensures Row(Balanced(c, bs, d, p, x), bs) && Sum(Balanced(c, bs, d, p, x), bs, |c|, {}) == Zeros(bs)
  {
    var c' := Balanced(c, bs, d, p, x);
    var rest := Sum(c, bs, |c|, {p, d});
    Extract(c', bs, |c|, {}, p);
    assert {} + {p} == {p};
    Extract(c', bs, |c|, {p}, d);
    assert {p} + {d} == {p, d};
    SameSum(c, c', bs, |c|, {p, d}, {p, d});
    assert Sum(c', bs, |c|, {}) == Xor(Xor(rest, x), Xor(rest, x));
    XorZero(Xor(rest, x));
  }

  /** The subtractive update gives the same parity as summing afresh. */
  lemma Subtractive(c: seq<Block>, bs: nat, d: nat, p: nat, x: Block)
    requires Row(c, bs) && d < |c| && p < |c| && |x| == bs && d != p && Sum(c, bs, |c|, {}) == Zeros(bs)
    ensures Xor(Xor(c[p], c[d]), x) == Xor(Sum(c, bs, |c|, {p, d}), x)
  {
    Missing(c, bs, p);
    Extract(c, bs, |c|, {p}, d);
    assert {p} + {d} == {p, d};
    XorTwice(Sum(c, bs, |c|, {p, d}), c[d]);
  }
}
