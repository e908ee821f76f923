/** A page table as a tree of pages, and the recursive walk that frees it. */
module PageTree {
  import opened PageLayout

  /** The index n levels above i. */
  function Ancestor(i: nat, n: nat): nat {
    if n == 0 then i else Ancestor(i, n - 1) / ENTRIES
  }

  /** The place `a` is a table of root r at or below entry (l, index). */
  predicate Under(a: Role, r: nat, l: nat, index: nat) {
    a.At? && a.root == r && 1 <= a.level <= l && Ancestor(a.index, l - a.level) == index
  }

  /**
   Page p is the table at (l, index) of root r, its valid entries lead to tables below, level-1 entries are
   all invalid, and nothing is in use below an invalid entry.
   */
  ghost predicate Tree(s: Mem, r: nat, p: nat, l: nat, index: nat)
    decreases l
  {
    && 1 <= l && p in s.role && s.role[p] == At(r, l, index) && p < |s.pages|
    && (forall q | q in s.role && s.role[q] == At(r, l, index) :: q == p)
    && forall k | 0 <= k < ENTRIES :: Branch(s, r, l, index, k, s.pages[p][k])
  }

  ghost predicate Branch(s: Mem, r: nat, l: nat, index: nat, k: nat, e: Word)
    requires 1 <= l
    decreases l, 0
  {
    if Valid(e) then 1 < l && !LeafBits(e) && Tree(s, r, e.ppn, l - 1, index * ENTRIES + k)
    else 1 < l ==> forall q | q in s.role :: !Under(s.role[q], r, l - 1, index * ENTRIES + k)
  }

  /** A valid entry hangs from valid entries. */
  lemma {:induction false} ValidUp(m: seq<Page>, r: nat, l: nat, i: nat, n: nat)
    requires l + n <= 3 && Valid(Entry(m, r, l, i))
    ensures Valid(Entry(m, r, l + n, Ancestor(i, n)))
  {
    if n > 0 {
      ValidUp(m, r, l, i, n - 1);
    }
  }

  /** With every leaf unmapped, the pages of a table form such a tree. */
  lemma {:induction false} TreeOf(s: Mem, lo: nat, r: nat, p: nat, l: nat, index: nat)
    requires Good(s, lo) && p in s.role && s.role[p] == At(r, l, index) && 1 <= l
    requires forall v: nat | v < Span(0) :: Flat(s.pages, r, v) == ZERO
    ensures Tree(s, r, p, l, index)
    decreases l
  {
    hide Entry, Tree;
    Holder(s, lo, p, 0);
    forall k: nat | k < ENTRIES ensures Branch(s, r, l, index, k, s.pages[p][k]) {
      BranchOf(s, lo, r, p, l, index, k);
    }
    assert Tree(s, r, p, l, index) by { OnlyOne(s, lo, r, p, l, index); TreeIs(s, r, p, l, index); }
  }

  lemma TreeIs(s: Mem, r: nat, p: nat, l: nat, index: nat)
    requires 1 <= l && p in s.role && s.role[p] == At(r, l, index) && p < |s.pages|
    requires forall q | q in s.role && s.role[q] == At(r, l, index) :: q == p
    requires forall k | 0 <= k < ENTRIES :: Branch(s, r, l, index, k, s.pages[p][k])
    ensures Tree(s, r, p, l, index)
  {
  }

  lemma OnlyOne(s: Mem, lo: nat, r: nat, p: nat, l: nat, index: nat)
    requires Good(s, lo) && p in s.role && s.role[p] == At(r, l, index)
    ensures forall q | q in s.role && s.role[q] == At(r, l, index) :: q == p
  {
    hide Entry;
  }

  lemma {:induction false} BranchOf(s: Mem, lo: nat, r: nat, p: nat, l: nat, index: nat, k: nat)
    requires Good(s, lo) && p in s.role && s.role[p] == At(r, l, index) && 1 <= l && k < ENTRIES && p < |s.pages|
    requires forall v: nat | v < Span(0) :: Flat(s.pages, r, v) == ZERO
    ensures Branch(s, r, l, index, k, s.pages[p][k])
    decreases l, 0
  {
    hide Entry, Tree;
    Holder(s, lo, p, k);
    var e, x := s.pages[p][k], index * ENTRIES + k;
    if l == 1 {
      assert Flat(s.pages, r, x) == ZERO;
    } else if Valid(e) {
      assert Position(s.role, r, l - 1, x);
      TreeOf(s, lo, r, e.ppn, l - 1, x);
    } else {
      forall q: nat | q in s.role ensures !Under(s.role[q], r, l - 1, x) {
        if Under(s.role[q], r, l - 1, x) {
          ValidUp(s.pages, r, s.role[q].level, s.role[q].index, l - 1 - s.role[q].level);
        }
      }
    }
  }

  /** The tree below a place stays one while its own pages do and no page is added. */
  lemma {:induction false} TreeFrame(s: Mem, s': Mem, r: nat, p: nat, l: nat, index: nat)
    requires Tree(s, r, p, l, index) && |s'.pages| == |s.pages|
    requires forall q: nat | q in s'.role :: q in s.role && s'.role[q] == s.role[q]
    requires forall q: nat | q in s.role && Under(s.role[q], r, l, index) ::
             q in s'.role && q < |s.pages| && s'.pages[q] == s.pages[q]
    ensures Tree(s', r, p, l, index)
    decreases l
  {
    assert Under(s.role[p], r, l, index);
    forall k: nat | k < ENTRIES ensures Branch(s', r, l, index, k, s'.pages[p][k]) {
      var e := s.pages[p][k];
      assert Branch(s, r, l, index, k, e);
      if Valid(e) {
        forall q: nat | q in s.role && Under(s.role[q], r, l - 1, index * ENTRIES + k)
          ensures Under(s.role[q], r, l, index)
        {
          UnderUp(s.role[q], r, l, index, k);
        }
        TreeFrame(s, s', r, e.ppn, l - 1, index * ENTRIES + k);
      }
    }
  }

  lemma UnderUp(a: Role, r: nat, l: nat, index: nat, k: nat)
    requires 1 < l && k < ENTRIES && Under(a, r, l - 1, index * ENTRIES + k)
    ensures Under(a, r, l, index)
  {
    assert l - a.level - 1 == l - 1 - a.level;
  }

  /** Below (l, index), in one of its first k subtrees. */
  predicate InFirst(a: Role, r: nat, l: nat, index: nat, k: nat) {
    a.At? && a.root == r && 1 <= a.level < l
      && index * ENTRIES <= Ancestor(a.index, l - 1 - a.level) < index * ENTRIES + k
  }

  /** Exactly the tables at or below (l, index) are gone; every other page in use is untouched. */
  ghost predicate Pruned(s0: Mem, s: Mem, r: nat, l: nat, index: nat) {
    && |s.pages| == |s0.pages|
    && (forall q: nat | q in s.role :: q in s0.role && s.role[q] == s0.role[q])
    && (forall q: nat | q in s0.role :: q in s.role <==> !Under(s0.role[q], r, l, index))
    && (forall q: nat | q in s.role :: q < |s.pages| && s.pages[q] == s0.pages[q])
  }

  /** Partway through the loop over page p: its first k subtrees are gone. */
  ghost predicate Pruning(s0: Mem, s: Mem, r: nat, p: nat, l: nat, index: nat, k: nat) {
    && |s.pages| == |s0.pages|
    && (forall q: nat | q in s.role :: q in s0.role && s.role[q] == s0.role[q])
    && (forall q: nat | q in s0.role :: q in s.role <==> !InFirst(s0.role[q], r, l, index, k))
    && (forall q: nat | q in s.role && q != p :: q < |s.pages| && s.pages[q] == s0.pages[q])
    && p in s.role && p < |s.pages|
    && (forall j: nat | k <= j < ENTRIES :: s.pages[p][j] == s0.pages[p][j])
  }

  lemma PruneNone(s: Mem, r: nat, p: nat, l: nat, index: nat)
    requires p in s.role && p < |s.pages| && forall q: nat | q in s.role :: q < |s.pages|
    ensures Pruning(s, s, r, p, l, index, 0)
  {
  }

  lemma PruneSkip(s0: Mem, s: Mem, r: nat, p: nat, l: nat, index: nat, k: nat)
    requires Pruning(s0, s, r, p, l, index, k) && Tree(s0, r, p, l, index) && k < ENTRIES && !Valid(s.pages[p][k])
    ensures Pruning(s0, s, r, p, l, index, k + 1)
  {
    assert Branch(s0, r, l, index, k, s0.pages[p][k]);
    hide Ancestor, Tree;
    forall q: nat | q in s0.role
      ensures InFirst(s0.role[q], r, l, index, k + 1) == InFirst(s0.role[q], r, l, index, k)
    {
      assert !(1 < l && Under(s0.role[q], r, l - 1, index * ENTRIES + k));
    }
  }

  /** The next subtree is still whole when its turn comes. */
  lemma NextWhole(s0: Mem, s: Mem, r: nat, p: nat, l: nat, index: nat, k: nat)
    requires Pruning(s0, s, r, p, l, index, k) && Tree(s0, r, p, l, index) && k < ENTRIES && Valid(s.pages[p][k])
    ensures 1 < l && !LeafBits(s.pages[p][k]) && Tree(s, r, s.pages[p][k].ppn, l - 1, index * ENTRIES + k)
  {
    var e := s0.pages[p][k];
    assert Branch(s0, r, l, index, k, e);
    hide Ancestor;
    TreeFrame(s0, s, r, e.ppn, l - 1, index * ENTRIES + k);
  }

  lemma PruneChild(s0: Mem, s: Mem, s': Mem, r: nat, p: nat, l: nat, index: nat, k: nat)
    requires Pruning(s0, s, r, p, l, index, k) && k < ENTRIES && 1 < l && s0.role[p] == At(r, l, index)
    requires Pruned(s, s', r, l - 1, index * ENTRIES + k)
    ensures p in s'.role && p < |s'.pages|
    ensures Pruning(s0, Stored(s', p, k, ZERO), r, p, l, index, k + 1)
  {
    hide Ancestor;
    forall q: nat | q in s0.role
      ensures InFirst(s0.role[q], r, l, index, k + 1) ==
              (InFirst(s0.role[q], r, l, index, k) || Under(s0.role[q], r, l - 1, index * ENTRIES + k))
    {
    }
  }

  lemma PruneAll(s0: Mem, s: Mem, lo: nat, r: nat, p: nat, l: nat, index: nat)
    requires Pruning(s0, s, r, p, l, index, ENTRIES) && Tree(s0, r, p, l, index) && Accounted(s, lo)
    ensures Pruned(s0, Freed(s, p), r, l, index)
  {
    assert 1 <= l && s0.role[p] == At(r, l, index)
           && (forall q | q in s0.role && s0.role[q] == At(r, l, index) :: q == p);
    forall q: nat | q in s0.role
      ensures Under(s0.role[q], r, l, index) == (q == p || InFirst(s0.role[q], r, l, index, ENTRIES))
    {
      UnderSplit(s0.role[q], r, l, index);
    }
    hide Tree, Ancestor, Accounted;
  }

  lemma UnderSplit(a: Role, r: nat, l: nat, index: nat)
    requires 1 <= l
    ensures Under(a, r, l, index) == (a == At(r, l, index) || InFirst(a, r, l, index, ENTRIES))
  {
    if a.At? && a.level < l {
      assert Ancestor(a.index, l - a.level) == Ancestor(a.index, l - a.level - 1) / ENTRIES;
    }
  }

  /** Freeing a whole table leaves the other tables and all content as they were, and the invariant. */
  lemma PrunedGood(s0: Mem, s: Mem, lo: nat, r: nat)
    requires Good(s0, lo) && IsRoot(s0.role, r) && Pruned(s0, s, r, 3, 0) && Accounted(s, lo)
    requires forall v: nat | v < Span(0) :: Flat(s0.pages, r, v) == ZERO
    ensures Good(s, lo)
    ensures forall q: nat | q in s0.role :: q in s.role <==> !(s0.role[q].At? && s0.role[q].root == r)
    ensures forall t: nat, v: nat | IsRoot(s0.role, t) && t != r && v < Span(0) ::
            Flat(s.pages, t, v) == Flat(s0.pages, t, v)
  {
    hide Entry, Under, Flat, Accounted, Linked;
    forall q: nat | q in s0.role ensures q in s.role <==> !(s0.role[q].At? && s0.role[q].root == r) {
      GoneIff(s0, lo, r, q);
    }
    forall t: nat, l: nat, i: nat | Position(s0.role, t, l, i) && t != r
      ensures Entry(s.pages, t, l, i) == Entry(s0.pages, t, l, i)
    {
      OtherEntry(s0, s, lo, r, t, l, i);
    }
    assert Placed(s);
    OtherLinked(s0, s, lo, r);
    OtherFlat(s0, s, r);
  }

  lemma GoneIff(s0: Mem, lo: nat, r: nat, q: nat)
    requires Good(s0, lo) && q in s0.role
    requires forall v: nat | v < Span(0) :: Flat(s0.pages, r, v) == ZERO
    ensures Under(s0.role[q], r, 3, 0) == (s0.role[q].At? && s0.role[q].root == r)
  {
    hide Entry;
    var a := s0.role[q];
    if a.At? && a.root == r {
      if a.level == 0 { UserMapped(s0, lo, q); assert false; }
      AncestorTop(a.index, a.level);
    }
  }

  lemma AncestorTop(i: nat, level: nat)
    requires 1 <= level <= 3 && i < Span(level)
    ensures Ancestor(i, 3 - level) == 0
  {
    assert Ancestor(i, 1) == Ancestor(i, 0) / ENTRIES && Ancestor(i, 2) == Ancestor(i, 1) / ENTRIES;
  }

  lemma {:induction false} OtherEntry(s0: Mem, s: Mem, lo: nat, r: nat, t: nat, l: nat, i: nat)
    requires Good(s0, lo) && Position(s0.role, t, l, i) && t != r && |s.pages| == |s0.pages|
    requires forall q: nat | q in s0.role && s0.role[q].At? && s0.role[q].root != r ::
             q < |s.pages| && s.pages[q] == s0.pages[q]
    ensures Entry(s.pages, t, l, i) == Entry(s0.pages, t, l, i)
    decreases 3 - l
  {
    if l < 3 {
      OtherEntry(s0, s, lo, r, t, l + 1, i / ENTRIES);
      assert Position(s0.role, t, l + 1, i / ENTRIES);
    }
  }

  lemma OtherLinked(s0: Mem, s: Mem, lo: nat, r: nat)
    requires Good(s0, lo) && (forall q: nat | q in s.role :: q in s0.role && s.role[q] == s0.role[q])
    requires forall q: nat | q in s0.role :: q in s.role <==> !(s0.role[q].At? && s0.role[q].root == r)
    requires forall t: nat, l: nat, i: nat | Position(s0.role, t, l, i) && t != r ::
               Entry(s.pages, t, l, i) == Entry(s0.pages, t, l, i)
    ensures Linked(s)
  {
    hide Entry;
    forall t: nat, l: nat, i: nat | Position(s.role, t, l, i) ensures Position(s0.role, t, l, i) && t != r {
      assert t in s0.role;
    }
  }

  lemma OtherFlat(s0: Mem, s: Mem, r: nat)
    requires forall t: nat, l: nat, i: nat | Position(s0.role, t, l, i) && t != r ::
               Entry(s.pages, t, l, i) == Entry(s0.pages, t, l, i)
    ensures forall t: nat, v: nat | IsRoot(s0.role, t) && t != r && v < Span(0) ::
            Flat(s.pages, t, v) == Flat(s0.pages, t, v)
  {
    hide Entry;
    forall t: nat, v: nat | IsRoot(s0.role, t) && t != r && v < Span(0)
      ensures Flat(s.pages, t, v) == Flat(s0.pages, t, v)
    {
      assert Position(s0.role, t, 0, v);
    }
  }
}
