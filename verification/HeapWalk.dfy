/** Walking the arena from header to header: statistics and the consistency check. */
module HeapWalk {
  import opened HeapLayout
  import opened Malloc

  datatype Stats = Stats(arena: nat, inUse: nat, free: nat, header: nat, freeBlocks: nat, largest: nat)

  /** The block at g, added to totals. */
  function Plus(t: Stats, m: Arena, g: nat): Stats
    requires g < |m|
  {
    if Used(m, g) then t.(header := t.header + UNIT, inUse := t.inUse + m[g].lo)
    else t.(header := t.header + UNIT, free := t.free + m[g].lo, freeBlocks := t.freeBlocks + 1,
            largest := if m[g].lo > t.largest then m[g].lo else t.largest)
  }

  /** The totals are right for the blocks before cell g, of which the first k on the list are free. */
  ghost predicate TotalsAt(s: Heap, t: Stats, g: nat, k: nat) {
    && k <= |s.fl| && t.arena == UNIT * |s.m| && t.freeBlocks == k
    && t.inUse + t.free + t.header == UNIT * g
    && (forall j | 0 <= j < k :: s.fl[j] < g && s.fl[j] < |s.m| && s.m[s.fl[j]].lo <= t.largest)
    && (forall j | k <= j < |s.fl| :: g <= s.fl[j])
    && (if k == 0 then t.largest == 0 else exists j :: 0 <= j < k && s.fl[j] < |s.m| && s.m[s.fl[j]].lo == t.largest)
  }

  lemma TotalsNext(s: Heap, t: Stats, g: nat, k: nat)
    requires Good(s) && g in s.heads && TotalsAt(s, t, g, k)
    ensures g < |s.m|
    ensures TotalsAt(s, Plus(t, s.m, g), Next(s.m, g), if Used(s.m, g) then k else k + 1)
    ensures !Used(s.m, g) ==> k < |s.fl| && s.fl[k] == g
  {
    hide Good, MagicOk, UsedBit, Cells, Sized;
    ListInside(s);
    BlockBytes(s, g);
    FreeHere(s, g, k);
    AheadOf(s, g, k);
    LargestNext(s, t, g, k);
  }

  lemma AheadOf(s: Heap, g: nat, k: nat)
    requires Good(s) && g in s.heads && k <= |s.fl| && forall j | k <= j < |s.fl| :: g <= s.fl[j]
    ensures g < Next(s.m, g)
    ensures forall j | k <= j < |s.fl| && s.fl[j] != g :: Next(s.m, g) <= s.fl[j]
    ensures forall j | k < j < |s.fl| :: s.fl[j] != g
  {
    hide MagicOk, UsedBit, Closed, Ordered, Linked, Cells, Sized;
    NextHead(s.m, s.heads, g);
    forall j: nat | k <= j < |s.fl| && s.fl[j] != g ensures Next(s.m, g) <= s.fl[j] { Apart(s.m, s.heads, g, s.fl[j]); }
    forall j: nat | k < j < |s.fl| ensures s.fl[j] != g { assert s.fl[k] < s.fl[j]; }
  }

  lemma BlockBytes(s: Heap, g: nat)
    requires Good(s) && g in s.heads
    ensures g < |s.m| && UNIT * g + UNIT + s.m[g].lo == UNIT * Next(s.m, g)
  {
    hide MagicOk, UsedBit, Closed, Ordered, Linked;
  }

  lemma FreeHere(s: Heap, g: nat, k: nat)
    requires Good(s) && g in s.heads && g < |s.m| && k <= |s.fl|
    requires (forall j | 0 <= j < k :: s.fl[j] < g) && forall j | k <= j < |s.fl| :: g <= s.fl[j]
    ensures !Used(s.m, g) <==> k < |s.fl| && s.fl[k] == g
  {
    hide MagicOk, UsedBit, Closed, Ordered, Linked, Cells, Sized;
    if !Used(s.m, g) {
      var j: nat :| j < |s.fl| && s.fl[j] == g;
      assert k <= j;
      InOrder(s.fl, k, j);
    }
  }

  lemma InOrder(fl: seq<nat>, k: nat, j: nat)
    requires Ascending(fl) && k <= j < |fl|
    ensures fl[k] <= fl[j]
  {
  }

  lemma ListInside(s: Heap)
    requires Good(s)
    ensures forall j | 0 <= j < |s.fl| :: s.fl[j] in s.heads && s.fl[j] < |s.m|
  {
    hide MagicOk, UsedBit, Closed, Ordered, Linked, Cells, Sized, Ascending;
  }

  lemma LargestNext(s: Heap, t: Stats, g: nat, k: nat)
    requires TotalsAt(s, t, g, k) && g < |s.m| && !Used(s.m, g) ==> k < |s.fl| && s.fl[k] == g
    ensures TotalsAt(s, t, g, k) && g < |s.m| && !Used(s.m, g) ==>
              exists j :: 0 <= j < k + 1 && s.fl[j] < |s.m| && s.m[s.fl[j]].lo == Plus(t, s.m, g).largest
  {
    hide UsedBit;
    if TotalsAt(s, t, g, k) && g < |s.m| && !Used(s.m, g) {
      if s.m[g].lo > t.largest {
        assert s.m[s.fl[k]].lo == Plus(t, s.m, g).largest;
      } else if k > 0 {
        var j: nat :| j < k && s.fl[j] < |s.m| && s.m[s.fl[j]].lo == t.largest;
        assert s.m[s.fl[j]].lo == Plus(t, s.m, g).largest;
      } else {
        assert s.m[s.fl[k]].lo == Plus(t, s.m, g).largest;
      }
    }
  }

  /** Every byte is a live payload, a free payload or a header; the free blocks are those on the list. */
  method GetStats(a: Allocator) returns (t: Stats)
    requires a.Valid()
    ensures a.m == [] ==> t == Stats(0, 0, 0, 0, 0, 0)
    ensures a.m != [] ==> TotalsAt(a.State(), t, |a.m|, |a.fl|) && t.inUse + t.free + t.header == t.arena
  {
    hide MagicOk, UsedBit, Closed, Ordered, Linked, Cells, Sized, TotalsAt;
    t := Stats(0, 0, 0, 0, 0, 0);
    if a.m == [] {
      return;
    }
    ghost var s := a.State();
    t := t.(arena := UNIT * |a.m|);
    var g := 0;
    ghost var k := 0;
    assert TotalsAt(s, t, 0, 0) by { TotalsStart(s, t); }
    while g < |a.m|
      invariant g <= |a.m| && (g < |a.m| ==> g in s.heads) && TotalsAt(s, t, g, k)
      decreases |a.m| - g
    {
      TotalsNext(s, t, g, k);
      NextHead(s.m, s.heads, g);
      k := if Used(a.m, g) then k else k + 1;
      t := Plus(t, a.m, g);
      g := Next(a.m, g);
    }
    TotalsEnd(s, t, k);
  }

  lemma TotalsStart(s: Heap, t: Stats)
    requires t == Stats(UNIT * |s.m|, 0, 0, 0, 0, 0)
    ensures TotalsAt(s, t, 0, 0)
  {
  }

  lemma TotalsEnd(s: Heap, t: Stats, k: nat)
    requires Good(s) && TotalsAt(s, t, |s.m|, k)
    ensures k == |s.fl| && t.inUse + t.free + t.header == t.arena
  {
    hide MagicOk, UsedBit, Closed, Ordered, Linked, Cells, Sized;
    PlaceInside(s, k);
  }

  lemma PlaceInside(s: Heap, k: nat)
    requires Good(s)
    ensures k < |s.fl| ==> s.fl[k] < |s.m|
  {
    ListInside(s);
  }

  // ---- the consistency check -----------------------------------------------------------------

  /**
   The check. A good heap passes and its last error is left alone. For any arena at all, passing means that
   the headers tile it and, with merging on, that no two free blocks touch. `wild` is what a link read
   past the arena's end would give.
   */
  method CheckHeap(a: Allocator, wild: nat) returns (bad: nat, ghost seen: set<nat>)
    modifies a`err
    ensures a.Valid() ==> bad == 0
    ensures a.err == if bad == 0 then old(a.err) else Corrupt
    ensures bad == 0 && a.m != [] ==> Tiled(a.m, seen) && (a.merge ==> NoneTouch(a.m, seen))
  {
    hide Good, MagicOk, UsedBit, Cells, Sized, Tiled, NoneTouch, Coalesced;
    bad, seen := 0, {};
    if a.m == [] {
      return;
    }
    var free;
    bad, free, seen := CheckBlocks(a);
    if bad == 0 {
      var more := CheckList(a, wild, free);
      bad := more;
    }
    if bad != 0 {
      a.err := Corrupt;
    }
  }

  ghost predicate NoneTouch(m: Arena, heads: set<nat>) {
    forall h: nat | h in heads && h < |m| && !Used(m, h) ::
      Next(m, h) < |m| ==> Used(m, Next(m, h))
  }

  /** Blocks [0, p) of the walk so far. */
  ghost predicate TiledTo(m: Arena, seen: set<nat>, p: nat) {
    && p <= |m| && (p > 0 ==> 0 in seen)
    && (forall h: nat | h in seen :: h < |m| && Header(m, h) && Next(m, h) <= p)
    && (forall h: nat {:trigger Next(m, h)} | h in seen :: Next(m, h) == p || Next(m, h) in seen)
    && (forall h: nat, k: nat {:trigger h in seen, k in seen} | h in seen && k in seen && h < k :: Next(m, h) <= k)
  }

  /** Among the blocks of the walk so far no two free ones touch. */
  ghost predicate NoneTouchTo(m: Arena, seen: set<nat>, p: nat) {
    forall h: nat | h in seen && h < |m| && !Used(m, h) && Next(m, h) < p :: Next(m, h) < |m| ==> Used(m, Next(m, h))
  }

  lemma WalkNext(m: Arena, seen: set<nat>, p: nat)
    requires TiledTo(m, seen, p) && p < |m| && Header(m, p)
    ensures TiledTo(m, seen + {p}, Next(m, p)) && p < Next(m, p)
  {
    hide MagicOk;
  }

  lemma WalkDone(m: Arena, seen: set<nat>)
    requires TiledTo(m, seen, |m|) && m != []
    ensures Tiled(m, seen) && (NoneTouchTo(m, seen, |m|) ==> NoneTouch(m, seen))
  {
    hide MagicOk, Sized, UsedBit, Cells;
  }

  lemma TouchNext(m: Arena, seen: set<nat>, prev: nat, p: nat)
    requires TiledTo(m, seen, p) && NoneTouchTo(m, seen, p) && p < |m| && Header(m, p)
    requires p > 0 ==> prev < |m| && Next(m, prev) == p && (Used(m, prev) || Used(m, p))
    requires forall h: nat | h in seen && h < |m| && Next(m, h) == p :: h == prev
    ensures NoneTouchTo(m, seen + {p}, Next(m, p))
  {
    hide MagicOk, Sized, UsedBit;
  }

  /** A block ends where one before it does only if it is that one. */
  lemma SameEnd(m: Arena, seen: set<nat>, prev: nat, p: nat)
    requires TiledTo(m, seen, p) && prev in seen && prev < |m| && Next(m, prev) == p
    ensures forall h: nat | h in seen && h < |m| && Next(m, h) == p :: h == prev
  {
    hide MagicOk, Sized, UsedBit;
  }

  /** In a good heap every block of the walk is one of its own. */
  lemma GoodStep(s: Heap, p: nat, k: nat)
    requires Good(s) && p in s.heads && k <= |s.fl|
    requires (forall j | 0 <= j < k :: s.fl[j] < p) && forall j | k <= j < |s.fl| :: p <= s.fl[j]
    ensures p < |s.m| && Header(s.m, p) && p + 2 <= Next(s.m, p) <= |s.m|
    ensures Next(s.m, p) < |s.m| ==> Next(s.m, p) in s.heads
    ensures !Used(s.m, p) <==> k < |s.fl| && s.fl[k] == p
    ensures var k' := if Used(s.m, p) then k else k + 1;
      (forall j | 0 <= j < k' :: s.fl[j] < Next(s.m, p)) && forall j | k' <= j < |s.fl| :: Next(s.m, p) <= s.fl[j]
  {
    hide MagicOk, UsedBit, Closed, Ordered, Linked, Ascending, Cells;
    NextHead(s.m, s.heads, p);
    LinkCell(s.m, s.heads, p);
    FreeHere(s, p, k);
    AheadOf(s, p, k);
  }

  /** How far the walk has come in a good heap: at one of its blocks, past the first k free ones. */
  ghost predicate GoodAt(s: Heap, p: nat, k: nat) {
    && Good(s) && p <= |s.m| && (p < |s.m| ==> p in s.heads) && k <= |s.fl|
    && (forall j | 0 <= j < k :: s.fl[j] < p) && (forall j | k <= j < |s.fl| :: p <= s.fl[j])
  }

  method CheckBlocks(a: Allocator) returns (bad: nat, free: nat, ghost seen: set<nat>)
    requires a.m != []
    ensures bad == 0 ==> Tiled(a.m, seen) && (a.merge ==> NoneTouch(a.m, seen))
    ensures a.Valid() ==> bad == 0 && free == |a.fl|
  {
    hide Good, MagicOk, UsedBit, Cells, Sized, Tiled, NoneTouch, Coalesced, TiledTo, NoneTouchTo, GoodAt, Header, Next;
    bad, free, seen := 0, 0, {};
    ghost var s, ok := a.State(), a.Valid();
    var maxsteps, steps, p: nat, prev: nat := |a.m| / 2 + 1, 0, 0, 0;
    WalkStart(s, ok);
    while p < |a.m|
      invariant p <= |a.m| && prev < |a.m|
      invariant bad == 0 ==> TiledTo(a.m, seen, p) && (a.merge ==> NoneTouchTo(a.m, seen, p))
      invariant p > 0 ==> prev in seen && Next(a.m, prev) == p
      invariant ok ==> bad == 0 && GoodAt(s, p, free) && 2 * steps <= p && (p > 0 ==> prev in s.heads)
      decreases |a.m| - p
    {
      steps := steps + 1;
      if steps > maxsteps || !Header(a.m, p) {
        if ok { GoodHere(s, p, free); }
        bad := bad + 1;
        return;
      }
      if bad == 0 { WalkOne(a.m, seen, prev, p); }
      if ok { GoodNext(s, p, free, prev, a.merge); }
      HeaderInside(a.m, p);
      if !Used(a.m, p) {
        free := free + 1;
        if a.merge && p > 0 && !Used(a.m, prev) {
          bad := bad + 1;
        }
      }
      seen := seen + {p};
      prev := p;
      p := Next(a.m, p);
    }
    if bad == 0 { WalkDone(a.m, seen); }
    if ok { GoodEnd(s, free); }
  }

  lemma WalkStart(s: Heap, ok: bool)
    requires s.m != [] && (ok ==> Good(s))
    ensures TiledTo(s.m, {}, 0) && NoneTouchTo(s.m, {}, 0) && (ok ==> GoodAt(s, 0, 0))
  {
  }

  lemma HeaderInside(m: Arena, p: nat)
    requires Header(m, p)
    ensures p < |m| && p < Next(m, p) <= |m|
  {
  }

  lemma WalkOne(m: Arena, seen: set<nat>, prev: nat, p: nat)
    requires TiledTo(m, seen, p) && p < |m| && Header(m, p) && prev < |m|
             && (p > 0 ==> prev in seen && Next(m, prev) == p)
    ensures TiledTo(m, seen + {p}, Next(m, p))
    ensures NoneTouchTo(m, seen, p) && (p == 0 || Used(m, prev) || Used(m, p)) ==>
            NoneTouchTo(m, seen + {p}, Next(m, p))
  {
    hide Header, MagicOk, Sized, Cells, UsedBit, NoneTouchTo;
    WalkNext(m, seen, p);
    if p > 0 { SameEnd(m, seen, prev, p); }
    if NoneTouchTo(m, seen, p) && (p == 0 || Used(m, prev) || Used(m, p)) { TouchNext(m, seen, prev, p); }
  }

  lemma GoodHere(s: Heap, p: nat, k: nat)
    requires GoodAt(s, p, k) && p < |s.m|
    ensures Header(s.m, p)
  {
    GoodStep(s, p, k);
  }

  lemma GoodNext(s: Heap, p: nat, k: nat, prev: nat, merge: bool)
    requires GoodAt(s, p, k) && p < |s.m| && (merge ==> Coalesced(s))
    requires p > 0 ==> prev in s.heads && prev < |s.m| && Next(s.m, prev) == p
    ensures GoodAt(s, Next(s.m, p), if Used(s.m, p) then k else k + 1) && p + 2 <= Next(s.m, p) && p in s.heads
    ensures merge && p > 0 ==> Used(s.m, prev) || Used(s.m, p)
  {
    hide Good, MagicOk, UsedBit, Cells, Sized, Header;
    GoodStep(s, p, k);
    assert merge && p > 0 ==> !Touching(s, prev);
  }

  lemma GoodEnd(s: Heap, k: nat)
    requires GoodAt(s, |s.m|, k)
    ensures k == |s.fl|
  {
    hide Good;
    PlaceInside(s, k);
  }

  /** Blocks take two cells at least, so the list cannot be longer than the step bound. */
  lemma {:induction false} Spaced(s: Heap, k: nat)
    requires Good(s) && k < |s.fl|
    ensures 2 * k <= s.fl[k] && s.fl[k] + 2 <= |s.m|
  {
    hide MagicOk, UsedBit, Closed, Ordered, Linked, Cells;
    LinkCell(s.m, s.heads, s.fl[k]);
    if k > 0 {
      Spaced(s, k - 1);
      Apart(s.m, s.heads, s.fl[k - 1], s.fl[k]);
    }
  }

  method CheckList(a: Allocator, wild: nat, free: nat) returns (bad: nat)
    requires a.m != []
    ensures a.Valid() && free == |a.fl| ==> bad == 0
  {
    hide Good, MagicOk, UsedBit, Cells, Sized, Coalesced;
    bad := 0;
    ghost var s, ok := a.State(), a.Valid();
    var maxsteps, steps, listed, prev, cur := |a.m| / 2 + 1, 0, 0, 0, a.head;
    if ok { ListStart(s); }
    while cur != 0
      invariant ok ==> bad == 0 && steps == listed <= |a.fl| && cur == Entry(a.base, a.fl, listed)
                       && prev == if listed == 0 then 0 else Addr(a.base, a.fl[listed - 1])
      decreases maxsteps - steps
    {
      if ok { ListStep(s, listed); }
      steps := steps + 1;
      if steps > maxsteps
         || cur < a.base || cur + UNIT > Addr(a.base, |a.m|) || cur % UNIT != 0
         || !MagicOk(a.m[(cur - a.base) / UNIT].hi) || Used(a.m, (cur - a.base) / UNIT)
         || (prev != 0 && cur <= prev)
      {
        bad := bad + 1;
        break;
      }
      prev := cur;
      listed := listed + 1;
      var g := (cur - a.base) / UNIT;
      cur := if g + 1 < |a.m| then a.m[g + 1].lo else wild;
    }
    if listed != free {
      bad := bad + 1;
    }
    if ok { ListEnd(s); }
  }

  lemma ListStart(s: Heap)
    requires Good(s)
    ensures s.head == Entry(s.base, s.fl, 0)
  {
  }

  lemma ListEnd(s: Heap)
    requires Good(s)
    ensures s.base > 0
  {
  }

  /** The k-th entry passes every test. */
  lemma ListStep(s: Heap, k: nat)
    requires Good(s) && k < |s.fl|
    ensures var cur, g := Addr(s.base, s.fl[k]), s.fl[k];
      && s.base <= cur && cur + UNIT <= Addr(s.base, |s.m|) && cur % UNIT == 0 && (cur - s.base) / UNIT == g
      && g + 1 < |s.m| && MagicOk(s.m[g].hi) && !Used(s.m, g) && s.m[g + 1].lo == Entry(s.base, s.fl, k + 1)
      && k + 1 <= |s.m| / 2 && (k > 0 ==> Addr(s.base, s.fl[k - 1]) < cur)
  {
    hide MagicOk, UsedBit, Closed, Ordered, Cells, Sized;
    Spaced(s, k);
    assert Linked(s, k);
  }
}
