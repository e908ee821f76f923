/** The reference allocator: one arena, an address-ordered free list, three fit policies. */
module Malloc {
  import opened HeapLayout
  import opened Division

  datatype Fit = First | Best | Worst
  datatype Err = Okay | NotOurs | NotABlock | DoubleFree | Corrupt

  /** What the first allocation finds outside: the arena's address (0 if mapping fails), its size, the merge switch. */
  datatype Mapping = Mapping(at: nat, bytes: nat, merge: bool)

  predicate MappingOk(e: Mapping) { e.at % UNIT == 0 && e.bytes % UNIT == 0 && e.bytes >= 0x1_0000 }

  const WORDS: nat := 0x1_0000_0000_0000_0000    // size_t wraps here

  /** (n + a - 1) / a * a in size_t arithmetic. */
  function RoundUp(n: nat, a: nat): (r: nat)
    requires a > 0
  {
    var t := (n + a - 1) % WORDS;
    t - t % a
  }

  function Clamped(want: nat): (n: nat)
    ensures 0x1_0000 <= n <= 0x400_0000
  {
    if want < 0x1_0000 then 0x1_0000 else if want > 0x400_0000 then 0x400_0000 else want
  }

  /** The arena's size: the wanted one within [64 KiB, 64 MiB], rounded up to pages. */
  function ArenaBytes(want: nat, page: nat): nat
    requires page > 0
  {
    RoundUp(Clamped(want), page)
  }

  /** The clamped size rounded up to whole pages, hence to whole cells. */
  lemma ArenaBytesOk(want: nat, page: nat)
    requires 0 < page <= 0x1_0000 && page % UNIT == 0
    ensures Clamped(want) <= ArenaBytes(want, page) < Clamped(want) + page
    ensures ArenaBytes(want, page) % page == 0 && ArenaBytes(want, page) % UNIT == 0
  {
    hide Clamped, RoundUp;
    var q := PageRounded(Clamped(want), page);
    DivMod(q, page, 0);
    WholeCells(q, page);
  }

  lemma WholeCells(q: nat, page: nat)
    requires page % UNIT == 0
    ensures q * page % UNIT == 0
  {
    var u := page / UNIT;
    Regroup(q, u, UNIT);
    DivMod(q * u, UNIT, 0);
  }

  /** Rounding up gives the first multiple of the page size that is not smaller. */
  lemma PageRounded(n: nat, page: nat) returns (q: nat)
    requires page > 0 && n + page <= WORDS
    ensures RoundUp(n, page) == q * page && n <= q * page < n + page
  {
    var t := n + page - 1;
    assert t % WORDS == t;
    q := t / page;
    Rebuilt(t, page);
  }

  /** The payload size a request needs, 0 if rounding it up wraps around. */
  function Need(size: nat): nat {
    var n := RoundUp(if size != 0 then size else 1, UNIT);
    var need := if n < UNIT then UNIT else n;
    if need < size then 0 else need
  }

  /** The smallest block size that holds the request, for every request that does not wrap. */
  lemma NeedExact(size: nat)
    requires size < WORDS
    ensures Need(size) == 0 <==> size > WORDS - UNIT
    ensures Need(size) != 0 ==>
            Sized(Need(size)) && Need(size) >= size && (Need(size) < size + UNIT || Need(size) == UNIT)
  {
  }

  predicate Fits(s: Heap, j: nat, need: nat) { j < |s.fl| && s.fl[j] < |s.m| && s.m[s.fl[j]].lo >= need }

  /** The i-th free block is the policy's choice among the first n, ties going to the lowest address. */
  ghost predicate Chosen(s: Heap, fit: Fit, need: nat, i: nat, n: nat) {
    Fits(s, i, need) && i < n &&
    forall j | 0 <= j < n && Fits(s, j, need) ::
      match fit
      case First => i <= j
      case Best => s.m[s.fl[i]].lo < s.m[s.fl[j]].lo || (s.m[s.fl[i]].lo == s.m[s.fl[j]].lo && i <= j)
      case Worst => s.m[s.fl[i]].lo > s.m[s.fl[j]].lo || (s.m[s.fl[i]].lo == s.m[s.fl[j]].lo && i <= j)
  }

  /** A new arena: one free block. */
  function NewHeap(e: Mapping): Heap
    requires MappingOk(e)
  {
    var m := seq(e.bytes / UNIT, _ => Cell(0, 0));
    Heap(m[0 := Cell(e.bytes - UNIT, MAGIC)], e.at, e.at, {0}, [0])
  }

  lemma NewHeapGood(e: Mapping)
    requires MappingOk(e) && e.at != 0
    ensures Good(NewHeap(e)) && Coalesced(NewHeap(e))
  {
    FlagFacts();
    var s := NewHeap(e);
    assert e.bytes == UNIT * |s.m| && Cells(e.bytes - UNIT) == |s.m| - 1;
    assert Header(s.m, 0);
    assert Linked(s, 0);
  }

  class Allocator {
    var m: Arena           // empty until the first allocation
    var base: nat
    var head: nat
    var fit: Fit
    var err: Err
    var merge: bool
    ghost var heads: set<nat>
    ghost var fl: seq<nat>

    ghost function State(): Heap
      reads this
    {
      Heap(m, base, head, heads, fl)
    }

    ghost predicate Valid()
      reads this
    {
      m != [] ==> Good(State()) && (merge ==> Coalesced(State()))
    }

    constructor ()
      ensures Valid() && m == [] && fit == First && err == Okay && merge
    {
      m, base, head, fit, err, merge, heads, fl := [], 0, 0, First, Okay, true, {}, [];
    }

    /** Throw the arena away. */
    method Reset()
      modifies this
      ensures Valid() && m == [] && err == Okay && fit == old(fit)
    {
      m, base, head, err, heads, fl := [], 0, 0, Okay, {}, [];
    }

    method ArenaInit(e: Mapping) returns (ok: bool)
      requires MappingOk(e) && m == []
      modifies this
      ensures ok == (e.at != 0) && fit == old(fit) && err == old(err)
      ensures ok ==> m != [] && State() == NewHeap(e) && merge == e.merge && Valid()
      ensures !ok ==> State() == old(State())
    {
      if e.at == 0 {
        return false;
      }
      NewHeapGood(e);
      m := seq(e.bytes / UNIT, _ => Cell(0, 0));
      base := e.at;
      m := m[0 := Cell(e.bytes - UNIT, MAGIC)];
      head := e.at;
      merge := e.merge;
      heads, fl := {0}, [0];
      ok := true;
    }

    /** The free block the policy picks and its predecessor, as addresses; 0 for none. */
    method FindBlock(need: nat) returns (best: nat, bestPrev: nat, ghost i: nat)
      requires Good(State())
      ensures best == 0 ==> forall j | 0 <= j < |fl| :: !Fits(State(), j, need)
      ensures best != 0 ==>
                && Chosen(State(), fit, need, i, |fl|) && best == Addr(base, fl[i])
                && bestPrev == if i == 0 then 0 else Addr(base, fl[i - 1])
    {
      hide Cells, Sized, MagicOk, UsedBit, Closed, Ordered, Ascending;
      var prev, cur := 0, head;
      best, bestPrev, i := 0, 0, 0;
      ghost var k := 0;
      while cur != 0
        invariant k <= |fl| && cur == Entry(base, fl, k) && prev == if k == 0 then 0 else Addr(base, fl[k - 1])
        invariant best == 0 ==> forall j | 0 <= j < k :: !Fits(State(), j, need)
        invariant best != 0 ==>
                    && fit != First && Chosen(State(), fit, need, i, k) && best == Addr(base, fl[i])
                    && bestPrev == if i == 0 then 0 else Addr(base, fl[i - 1])
        decreases |fl| - k
      {
        var g := (cur - base) / UNIT;
        assert g == fl[k] && Linked(State(), k);
        if m[g].lo >= need {
          if fit == First {
            return cur, prev, k;
          }
          var size := if best == 0 then 0 else m[(best - base) / UNIT].lo;
          if best == 0 || (fit == Best && m[g].lo < size) || (fit == Worst && m[g].lo > size) {
            best, bestPrev, i := cur, prev, k;
          }
        }
        prev := cur;
        cur := m[g + 1].lo;
        k := k + 1;
      }
    }

    /** A block for `size` bytes, chosen by the policy; 0 if the arena, or the request, does not allow one. */
    method Mymalloc(size: nat, e: Mapping) returns (p: nat, ghost i: nat)
      requires Valid() && size < WORDS && MappingOk(e)
      modifies this
      ensures Valid() && fit == old(fit) && err == old(err)
      ensures old(m) == [] && e.at == 0 ==> p == 0 && State() == old(State())
      ensures old(m) != [] || e.at != 0 ==>
                var s := if old(m) == [] then NewHeap(e) else old(State());
                && Good(s)
                && if p == 0 then Refused(s, size) && State() == s
                   else Granted(s, fit, size, i, p) && State() == Taken(s, i, Need(size))
    {
      hide NewHeap, Good, Coalesced, Taken, Chosen, Granted, Refused, Need, Sized;
      i := 0;
      if m == [] {
        var ok := ArenaInit(e);
        if !ok { return 0, 0; }
      }
      p, i := Allocate(size);
    }

    /** The same once the arena is there. */
    method Allocate(size: nat) returns (p: nat, ghost i: nat)
      requires m != [] && Valid() && size < WORDS
      modifies this
      ensures Valid() && fit == old(fit) && err == old(err) && merge == old(merge) && m != []
      ensures if p == 0 then Refused(old(State()), size) && State() == old(State())
              else Granted(old(State()), fit, size, i, p) && State() == Taken(old(State()), i, Need(size))
    {
      hide Tiled, Coalesced, Taken, Chosen, Need, Sized, Linked, Ascending;
      i := 0;
      NeedExact(size);
      var need := Need(size);
      if need == 0 {
        return 0, 0;
      }
      var b, prev;
      b, prev, i := FindBlock(need);
      if b == 0 {
        return 0, 0;
      }
      ChosenFits(State(), fit, need, i);
      p := b + UNIT;
      BlockAligned(base, fl[i], p);
      Take(b, prev, need, i);
    }

    /** Take block b off the list, leaving its tail there if that can be a block. */
    method Take(b: nat, prev: nat, need: nat, ghost i: nat)
      requires m != [] && Valid() && Sized(need) && Fits(State(), i, need)
      requires b == Addr(base, fl[i]) && prev == if i == 0 then 0 else Addr(base, fl[i - 1])
      modifies this
      ensures Valid() && State() == Taken(old(State()), i, need) && m != []
      ensures fit == old(fit) && err == old(err) && merge == old(merge)
    {
      hide MagicOk, Sized, UsedBit, Closed, Ordered, Ascending, Linked, Coalesced, Cells, Listed, Split, Removed, Drop;
      ghost var s := State();
      TakenGood(s, i, need);
      ListPlace(s, i);
      if m[(b - base) / UNIT].lo >= need + 2 * UNIT {
        TakeFront(b, prev, need, i);
      } else {
        TakeWhole(b, prev, i);
      }
    }

    method TakeFront(b: nat, prev: nat, need: nat, ghost i: nat)
      requires Good(State()) && CanSplit(State(), i, need)
      requires b == Addr(base, fl[i]) && prev == if i == 0 then 0 else Addr(base, fl[i - 1])
      modifies this`m, this`head, this`heads, this`fl
      ensures State() == Split(old(State()), i, need)
    {
      hide MagicOk, Sized, UsedBit, Closed, Ordered, Ascending, Linked, Cells, Listed, Header, CutCells;
      ghost var s := State();
      ListPlace(s, i);
      TailInside(s, i, need);
      var g := (b - base) / UNIT;
      var rem := g + 1 + Cells(need);
      CutTail(g, rem, need);
      SetPrev(prev, base + UNIT * rem);
      m := SetFlags(m, g, MAGIC + 1);
      heads, fl := heads + {rem}, fl[i := rem];
    }

    method CutTail(g: nat, rem: nat, need: nat)
      requires g + 1 < rem && rem + 1 < |m| && m[g].lo >= need + UNIT
      modifies this`m
      ensures m == CutCells(old(m), g, rem, need)
    {
      m := SetFlags(SetSize(m, rem, m[g].lo - need - UNIT), rem, MAGIC);
      m := SetSize(SetLink(m, rem, m[g + 1].lo), g, need);
    }

    method TakeWhole(b: nat, prev: nat, ghost i: nat)
      requires Good(State()) && i < |fl|
      requires b == Addr(base, fl[i]) && prev == if i == 0 then 0 else Addr(base, fl[i - 1])
      modifies this`m, this`head, this`fl
      ensures State() == Removed(old(State()), i)
    {
      hide MagicOk, Sized, UsedBit, Closed, Ordered, Ascending, Linked, Cells, Listed, Drop;
      ghost var s := State();
      ListPlace(s, i);
      var g := (b - base) / UNIT;
      SetPrev(prev, m[g + 1].lo);
      m := SetFlags(m, g, MAGIC + 1);
      fl := Drop(fl, i);
    }

    /** Store x as the successor of `prev`, or as the head of the list. */
    method SetPrev(prev: nat, x: nat)
      requires prev == 0 || (base <= prev && (prev - base) / UNIT + 1 < |m|)
      modifies this`m, this`head
      ensures if prev == 0 then head == x && m == old(m)
              else head == old(head) && m == SetLink(old(m), (prev - base) / UNIT, x)
    {
      if prev == 0 {
        head := x;
      } else {
        m := SetLink(m, (prev - base) / UNIT, x);
      }
    }

    /**
     Free a pointer. Anything that fails the tests leaves the heap as it is and is reported; a live block's
     payload goes back to the list, merged with the free blocks it touches. A pointer that passes the tests
     without being a live block (its sixteen bytes before look like a live header) is not left alone.
     */
    method Myfree(p: nat) returns (ghost i: nat)
      requires Valid()
      modifies this
      ensures fit == old(fit) && merge == old(merge) && base == old(base)
      ensures p == 0 ==> State() == old(State()) && err == old(err)
      ensures p != 0 && Verdict(old(m), base, p) != Okay ==> State() == old(State()) && err == Verdict(old(m), base, p)
      ensures p != 0 && Verdict(old(m), base, p) == Okay ==>
                var s, h := old(State()), BlockOf(base, p);
                && err == old(err) && h < |s.m|
                && if h in s.heads then Good(s) && CanInsert(s, i, h) && State() == Released(s, i, h, merge)
                   else m != s.m
      ensures p == 0 || Verdict(old(m), base, p) != Okay || BlockOf(base, p) in old(heads) ==> Valid()
    {
      hide Good, Coalesced, Released, CanInsert;
      i := 0;
      if p == 0 {
        return;
      }
      if m == [] || p <= base || p >= Addr(base, |m|) {
        err := NotOurs;
        return;
      }
      if (p - UNIT) % UNIT != 0 || !Header(m, BlockOf(base, p)) {
        err := NotABlock;
        return;
      }
      if !Used(m, BlockOf(base, p)) {
        err := DoubleFree;
        return;
      }
      i := Release(BlockOf(base, p));
    }

    /** The part of freeing after the tests, on a header that looks live. */
    method Release(g: nat) returns (ghost i: nat)
      requires m != [] && Valid() && Header(m, g) && Used(m, g)
      modifies this`m, this`head, this`heads, this`fl
      ensures g in old(heads) ==>
                && Valid() && Good(old(State())) && CanInsert(old(State()), i, g)
                && State() == Released(old(State()), i, g, merge)
      ensures g !in old(heads) ==> m != old(m)
    {
      hide MagicOk, Sized, UsedBit, Closed, Ordered, Ascending, Linked, Coalesced, Cells, Listed, Add, Insert, AllKept,
           Forward, Backward;
      FlagFacts();
      ghost var s := State();
      var prev, cur;
      m := SetFlags(m, g, MAGIC);
      prev, cur, i := FindPlace(g, s);
      PlaceFound(s, i, g, prev, cur);
      LinkIn(g, prev, cur, s, i);
      if g in s.heads {
        ReleasedGood(s, i, g, merge);
        InsertGood(s, i, g);
        InsertPlace(s, i, g);
        PlaceAfter(s, i, g, prev, cur);
      }
      if merge {
        ghost var s1 := State();
        MergeForward(g, cur, i);
        if g in s.heads { ForwardPlace(s1, i); ForwardBefore(s1, i, prev); }
        MergeBackward(g, prev, i);
      }
    }

    /** Put block g between prev and cur. */
    method LinkIn(g: nat, prev: nat, cur: nat, ghost s: Heap, ghost i: nat)
      requires Good(s) && i <= |s.fl| && g + 1 < |s.m| && State() == s.(m := SetFlags(s.m, g, MAGIC))
      requires cur == Entry(base, s.fl, i) && prev == if i == 0 then 0 else Addr(base, s.fl[i - 1])
      modifies this`m, this`head, this`fl
      ensures |m| == |s.m| && m[g].hi == MAGIC
      ensures CanInsert(s, i, g) ==> State() == Insert(s, i, g)
    {
      hide MagicOk, Sized, UsedBit, Closed, Ordered, Ascending, Linked, Cells, Listed, Add, Entry;
      if i > 0 { ListPlace(s, i - 1); }
      BasePositive(s);
      m := SetLink(m, g, cur);
      SetPrev(prev, Addr(base, g));
      fl := Add(fl, i, g);
    }

    /** If block g ends where cur begins, g absorbs it. */
    method MergeForward(g: nat, cur: nat, ghost i: nat)
      requires g + 1 < |m| && (cur != 0 ==> base <= cur && (cur - base) / UNIT + 1 < |m|)
      modifies this`m, this`heads, this`fl
      ensures |m| == |old(m)| && m[g].hi == old(m)[g].hi
      ensures Good(old(State())) && i < |old(fl)| && old(fl)[i] == g && cur == Entry(base, old(fl), i + 1) ==>
                State() == Forward(old(State()), i)
    {
      hide MagicOk, Sized, UsedBit, Closed, Ordered, Ascending, Linked, Listed, Drop;
      ghost var s := State();
      ghost var listed := Good(s) && i < |s.fl| && s.fl[i] == g && cur == Entry(base, s.fl, i + 1);
      if listed { EndsAt(s, i); }
      if cur != 0 && Addr(base, g) + UNIT + m[g].lo == cur {
        var c := (cur - base) / UNIT;
        m := SetSize(m, g, m[g].lo + UNIT + m[c].lo);
        m := SetLink(m, g, m[c + 1].lo);
        if listed { heads, fl := heads - {c}, Drop(fl, i + 1); }
      }
    }

    /** If prev ends where block g begins, prev absorbs it. */
    method MergeBackward(g: nat, prev: nat, ghost i: nat)
      requires g + 1 < |m| && (prev != 0 ==> base <= prev && (prev - base) / UNIT + 1 < |m|)
      modifies this`m, this`heads, this`fl
      ensures |m| == |old(m)| && m[g].hi == old(m)[g].hi
      ensures (Good(old(State())) && i < |old(fl)| && old(fl)[i] == g
               && prev == if i == 0 then 0 else Addr(base, old(fl)[i - 1])) ==> State() == Backward(old(State()), i)
    {
      hide MagicOk, Sized, UsedBit, Closed, Ordered, Ascending, Linked, Listed, Drop;
      ghost var s := State();
      ghost var listed := && Good(s) && i < |s.fl| && s.fl[i] == g
                          && prev == if i == 0 then 0 else Addr(base, s.fl[i - 1]);
      if listed && i > 0 { EndsAt(s, i - 1); }
      if prev != 0 && prev + UNIT + m[(prev - base) / UNIT].lo == Addr(base, g) {
        var a := (prev - base) / UNIT;
        m := SetSize(m, a, m[a].lo + UNIT + m[g].lo);
        m := SetLink(m, a, m[g + 1].lo);
        if listed { heads, fl := heads - {g}, Drop(fl, i); }
      }
    }

    /** Walk the list to the first free block past g. */
    method FindPlace(g: nat, ghost s: Heap) returns (prev: nat, cur: nat, ghost i: nat)
      requires Good(s) && g < |s.m| && base == s.base && head == s.head && m == SetFlags(s.m, g, MAGIC)
      ensures i <= |s.fl| && cur == Entry(base, s.fl, i) && prev == if i == 0 then 0 else Addr(base, s.fl[i - 1])
      ensures (i > 0 ==> s.fl[i - 1] < g) && (i < |s.fl| ==> g <= s.fl[i])
    {
      hide MagicOk, Sized, UsedBit, Closed, Ordered, Ascending, Cells;
      prev, cur, i := 0, head, 0;
      while cur != 0 && cur < Addr(base, g)
        invariant i <= |s.fl| && cur == Entry(base, s.fl, i) && prev == if i == 0 then 0 else Addr(base, s.fl[i - 1])
        invariant i > 0 ==> s.fl[i - 1] < g
        decreases |s.fl| - i
      {
        ListPlace(s, i);
        assert Linked(s, i);
        prev := cur;
        cur := m[(cur - base) / UNIT + 1].lo;
        i := i + 1;
      }
    }
  }

  /** A live block's payload passes the tests of freeing; a free block's reports a double free. */
  lemma BlockVerdict(s: Heap, h: nat)
    requires Good(s) && h in s.heads
    ensures h < |s.m| && BlockOf(s.base, Addr(s.base, h + 1)) == h
    ensures Verdict(s.m, s.base, Addr(s.base, h + 1)) == if Used(s.m, h) then Okay else DoubleFree
  {
    hide MagicOk, UsedBit, Closed, Ordered, Ascending, Linked, Sized, Cells;
    LinkCell(s.m, s.heads, h);
  }

  /** Freeing the same pointer again is caught, merged away or not. */
  lemma FreedAgain(s: Heap, i: nat, h: nat, merge: bool)
    requires Good(s) && CanInsert(s, i, h)
    ensures Verdict(Released(s, i, h, merge).m, s.base, Addr(s.base, h + 1)) == DoubleFree
  {
    hide Insert, Merge, MagicOk, Sized, Cells, UsedBit, Closed, Ordered, Ascending, Linked, Add, Kept, Listed,
         Drop, Verdict;
    InsertGood(s, i, h);
    InsertCells(s, i, h);
    InsertPlace(s, i, h);
    FlagFacts();
    BasePositive(s);
    var s1 := Insert(s, i, h);
    assert s1.m[h].hi == MAGIC && s1.base == s.base;
    var s' := Released(s, i, h, merge);
    if merge {
      ForwardPlace(s1, i);
      var s2 := Forward(s1, i);
      if CanMerge(s1, i) { MergeCells(s1, i); }
      if i > 0 && CanMerge(s2, i - 1) { MergeCells(s2, i - 1); }
      assert s'.m[h] == s2.m[h] || h in s'.heads;
      assert h in s2.heads && Header(s2.m, h) && s2.m[h].hi == MAGIC;
    }
    StillHeader(s'.m, s.base, s.m, h);
  }

  /** A new arena whose first block, of 112 bytes, holds what looks like the header of a live block. */
  function Forged(e: Mapping): Heap
    requires MappingOk(e) && e.at != 0
  {
    NewHeapGood(e);
    Stored(Taken(NewHeap(e), 0, 112), 3, Cell(16, MAGIC + 1))
  }

  /**
   Payload bytes can look like a live header, and freeing then accepts a pointer into the block: in every arena,
   whatever the policy, the first allocation of 112 bytes allows it once the program has filled in its third cell.
   */
  lemma LookAlike(e: Mapping, fit: Fit)
    requires MappingOk(e) && e.at != 0
    ensures Good(NewHeap(e)) && Granted(NewHeap(e), fit, 112, 0, Addr(e.at, 1))
    ensures var s, p := Forged(e), Addr(e.at, 4);
      && Good(s) && Coalesced(s)
      && Verdict(s.m, s.base, p) == Okay && BlockOf(s.base, p) !in s.heads
  {
    hide Coalesced, Listed, MagicOk, Closed, Ordered, Split, Tail;
    NewHeapGood(e);
    FlagFacts();
    var s0 := NewHeap(e);
    assert CanSplit(s0, 0, 112) && Cells(112) == 7;
    TakenGood(s0, 0, 112);
    SplitCells(s0, 0, 112);
    SplitHead(s0, 0, 112, 0);
    var s1 := Split(s0, 0, 112);
    assert s1.m[0] == Cell(112, MAGIC + 1) && Next(s1.m, 0) == 8;
    StoredGood(s1, 0, 3, Cell(16, MAGIC + 1));
    Inside(s1.m, s1.heads, 0, 3);
    assert Header(Forged(e).m, 3);
  }

  lemma StillHeader(m: Arena, base: nat, m0: Arena, h: nat)
    requires |m| == |m0| && Header(m, h) && m[h].hi == MAGIC && base > 0 && base % UNIT == 0
    ensures Verdict(m, base, Addr(base, h + 1)) == DoubleFree
  {
    FlagFacts();
  }

  /** No block fits, or the size cannot be rounded up. */
  ghost predicate Refused(s: Heap, size: nat) {
    Need(size) == 0 || forall j | 0 <= j < |s.fl| :: !Fits(s, j, Need(size))
  }

  /** p is the payload, aligned, of the block the policy picks. */
  ghost predicate Granted(s: Heap, fit: Fit, size: nat, i: nat, p: nat) {
    && Chosen(s, fit, Need(size), i, |s.fl|) && Sized(Need(size)) && Need(size) >= size
    && p == Addr(s.base, s.fl[i] + 1) && p % UNIT == 0
  }

  /** The cell of the header before payload p. */
  function BlockOf(base: nat, p: nat): nat {
    if p >= base + UNIT then (p - UNIT - base) / UNIT else 0
  }

  /** The tests of freeing, in their order. */
  function Verdict(m: Arena, base: nat, p: nat): Err {
    if m == [] || p <= base || p >= Addr(base, |m|) then NotOurs
    else if p < UNIT || (p - UNIT) % UNIT != 0 || !Header(m, BlockOf(base, p)) then NotABlock
    else if !Used(m, BlockOf(base, p)) then DoubleFree
    else Okay
  }

  lemma BasePositive(s: Heap)
    requires Good(s)
    ensures s.base > 0 && s.base % UNIT == 0
  {
  }

  /** A live block found its place between prev and cur, both of which lie in the arena. */
  lemma PlaceFound(s: Heap, i: nat, g: nat, prev: nat, cur: nat)
    requires Good(s) && i <= |s.fl| && g < |s.m| && Used(s.m, g)
    requires cur == Entry(s.base, s.fl, i) && prev == if i == 0 then 0 else Addr(s.base, s.fl[i - 1])
    requires (i > 0 ==> s.fl[i - 1] < g) && (i < |s.fl| ==> g <= s.fl[i])
    ensures g in s.heads ==> CanInsert(s, i, g)
    ensures cur != 0 ==> s.base <= cur && (cur - s.base) / UNIT + 1 < |s.m|
    ensures prev != 0 ==> s.base <= prev && (prev - s.base) / UNIT + 1 < |s.m|
  {
    hide MagicOk, Sized, UsedBit, Closed, Ordered, Ascending, Linked, Cells;
    if i < |s.fl| { ListPlace(s, i); }
    if i > 0 { ListPlace(s, i - 1); }
  }

  lemma PlaceAfter(s: Heap, i: nat, g: nat, prev: nat, cur: nat)
    requires Good(s) && CanInsert(s, i, g)
    requires cur == Entry(s.base, s.fl, i) && prev == if i == 0 then 0 else Addr(s.base, s.fl[i - 1])
    ensures var s' := Insert(s, i, g);
      && |s'.fl| == |s.fl| + 1 && s'.base == s.base
      && cur == Entry(s.base, s'.fl, i + 1) && prev == if i == 0 then 0 else Addr(s.base, s'.fl[i - 1])
  {
    hide MagicOk, Sized, UsedBit, Closed, Ordered, Ascending, Linked, Cells, Insert, Listed, Tiled;
    InsertCells(s, i, g);
  }

  lemma ForwardBefore(s: Heap, i: nat, prev: nat)
    requires Good(s) && i < |s.fl| && prev == if i == 0 then 0 else Addr(s.base, s.fl[i - 1])
    ensures var s' := Forward(s, i);
      i < |s'.fl| && s'.base == s.base && prev == if i == 0 then 0 else Addr(s.base, s'.fl[i - 1])
  {
    hide Merge, Listed, Tiled;
    if CanMerge(s, i) { MergeCells(s, i); }
  }

  /** The byte where a free block ends, compared with the next one's address. */
  lemma EndsAt(s: Heap, i: nat)
    requires Good(s) && i < |s.fl|
    ensures s.fl[i] < |s.m| && s.base > 0
    ensures CanMerge(s, i) <==>
            && Entry(s.base, s.fl, i + 1) != 0
            && Addr(s.base, s.fl[i]) + UNIT + s.m[s.fl[i]].lo == Entry(s.base, s.fl, i + 1)
    ensures i + 1 < |s.fl| ==> (Entry(s.base, s.fl, i + 1) - s.base) / UNIT == s.fl[i + 1]
    ensures (Addr(s.base, s.fl[i]) - s.base) / UNIT == s.fl[i]
  {
    hide MagicOk, UsedBit, Closed, Ordered, Ascending, Linked;
    BasePositive(s);
    assert s.m[s.fl[i]].lo == UNIT * Cells(s.m[s.fl[i]].lo);
  }

  lemma ChosenFits(s: Heap, fit: Fit, need: nat, i: nat)
    requires Chosen(s, fit, need, i, |s.fl|)
    ensures Fits(s, i, need)
  {
  }

  /** Where the i-th free block and its predecessor lie. */
  lemma ListPlace(s: Heap, i: nat)
    requires Good(s) && i < |s.fl|
    ensures s.base > 0 && s.fl[i] in s.heads && s.fl[i] + 1 < |s.m|
    ensures (Addr(s.base, s.fl[i]) - s.base) / UNIT == s.fl[i]
    ensures i > 0 ==> s.fl[i - 1] + 1 < |s.m| && (Addr(s.base, s.fl[i - 1]) - s.base) / UNIT == s.fl[i - 1]
  {
    hide MagicOk, UsedBit, Closed, Ordered, Ascending, Linked, Cells;
    LinkCell(s.m, s.heads, s.fl[i]);
    if i > 0 { LinkCell(s.m, s.heads, s.fl[i - 1]); }
  }

  lemma BlockAligned(base: nat, g: nat, p: nat)
    requires base % UNIT == 0 && p == Addr(base, g) + UNIT
    ensures p % UNIT == 0 && p == Addr(base, g + 1)
  {
  }
}
