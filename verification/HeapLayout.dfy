/** The allocator's arena: headers that tile it, and the address-ordered free list kept inside the free blocks. */
module HeapLayout {
  const UNIT: nat := 16                       // header size, alignment and smallest payload, in bytes
  const MAGIC: nat := 0x4d594d30_00000000
  const HIGH: nat := 0x1_0000_0000

  /**
   Sixteen bytes of the arena as two words. A header is (size, flags); a free block's payload starts with its
   link.
   */
  datatype Cell = Cell(lo: nat, hi: nat)
  type Arena = seq<Cell>

  predicate MagicOk(flags: nat) { flags / HIGH == MAGIC / HIGH }
  predicate UsedBit(flags: nat) { flags % 2 == 1 }
  predicate Sized(size: nat) { size != 0 && size % UNIT == 0 }

  /** A size in cells. */
  function Cells(size: nat): (k: nat)
    ensures Sized(size) ==> k >= 1 && size == UNIT * k
  {
    size / UNIT
  }

  lemma FlagFacts()
    ensures MagicOk(MAGIC) && MagicOk(MAGIC + 1) && UsedBit(MAGIC + 1) && !UsedBit(MAGIC)
  {
  }

  predicate Used(m: Arena, g: nat) requires g < |m| { UsedBit(m[g].hi) }

  /** What every header must satisfy. */
  predicate Header(m: Arena, g: nat) {
    g < |m| && MagicOk(m[g].hi) && Sized(m[g].lo) && g + 1 + Cells(m[g].lo) <= |m|
  }

  /** The cell after a block. */
  function Next(m: Arena, g: nat): nat requires g < |m| { g + 1 + Cells(m[g].lo) }

  /** Blocks begin at `heads` and leave no gap. */
  ghost predicate Tiled(m: Arena, heads: set<nat>) {
    && |m| > 0 && 0 in heads
    && (forall h: nat | h in heads :: h < |m| && Header(m, h))
    && Closed(m, heads) && Ordered(m, heads)
  }

  ghost predicate Closed(m: Arena, heads: set<nat>)
    requires forall h: nat | h in heads :: h < |m| && Header(m, h)
  {
    forall h: nat {:trigger Next(m, h)} | h in heads :: Next(m, h) == |m| || Next(m, h) in heads
  }

  ghost predicate Ordered(m: Arena, heads: set<nat>)
    requires forall h: nat | h in heads :: h < |m| && Header(m, h)
  {
    forall h: nat, k: nat {:trigger h in heads, k in heads} | h in heads && k in heads && h < k :: Next(m, h) <= k
  }

  /** The arena at address `base`, the first free block's address or 0, and what they stand for. */
  datatype Heap = Heap(m: Arena, base: nat, head: nat, heads: set<nat>, fl: seq<nat>)

  function Addr(base: nat, g: nat): nat { base + UNIT * g }

  /** The address of the i-th free block, 0 past the end. */
  function Entry(base: nat, fl: seq<nat>, i: nat): nat { if i < |fl| then Addr(base, fl[i]) else 0 }

  predicate Ascending(fl: seq<nat>) { forall i, j | 0 <= i < j < |fl| :: fl[i] < fl[j] }

  /** The i-th free block's link is the address of the next one. */
  predicate Linked(s: Heap, i: nat) {
    i < |s.fl| && s.fl[i] + 1 < |s.m| && s.m[s.fl[i] + 1].lo == Entry(s.base, s.fl, i + 1)
  }

  /** The list holds exactly the free blocks, in address order. */
  ghost predicate Listed(s: Heap)
    requires Tiled(s.m, s.heads)
  {
    && Ascending(s.fl) && s.base > 0 && s.base % UNIT == 0 && s.head == Entry(s.base, s.fl, 0)
    && (forall i | 0 <= i < |s.fl| :: s.fl[i] in s.heads && !Used(s.m, s.fl[i]))
    && (forall i {:trigger Linked(s, i)} | 0 <= i < |s.fl| :: Linked(s, i))
    && (forall h | h in s.heads && !Used(s.m, h) :: h in s.fl)
  }

  ghost predicate Good(s: Heap) { Tiled(s.m, s.heads) && Listed(s) }

  /** Two free blocks that touch. */
  predicate Touching(s: Heap, a: nat) {
    && a < |s.m| && a in s.heads && !Used(s.m, a)
    && Next(s.m, a) < |s.m| && Next(s.m, a) in s.heads && !Used(s.m, Next(s.m, a))
  }

  ghost predicate Coalesced(s: Heap) { forall a: nat | a in s.heads :: !Touching(s, a) }

  /** A live block keeps its header and payload. */
  ghost predicate Kept(s: Heap, s': Heap, h: nat) {
    && h in s'.heads && h < |s.m| == |s'.m| && Next(s.m, h) <= |s.m|
    && forall g | h <= g < Next(s.m, h) :: s'.m[g] == s.m[g]
  }

  ghost predicate AllKept(s: Heap, s': Heap, except: nat) {
    forall h: nat | h in s.heads && h < |s.m| && Used(s.m, h) && h != except :: Kept(s, s', h)
  }

  // ---- single stores ---------------------------------------------------------

  function SetLink(m: Arena, g: nat, a: nat): Arena requires g + 1 < |m| { m[g + 1 := m[g + 1].(lo := a)] }
  function SetSize(m: Arena, g: nat, n: nat): Arena requires g < |m| { m[g := m[g].(lo := n)] }
  function SetFlags(m: Arena, g: nat, f: nat): Arena requires g < |m| { m[g := m[g].(hi := f)] }

  /** Make x the successor of the (i-1)-th free block, or the head of the list. */
  function Relink(s: Heap, i: nat, x: nat): Heap
    requires Good(s) && i <= |s.fl|
  {
    if i == 0 then s.(head := x) else s.(m := SetLink(s.m, s.fl[i - 1], x))
  }

  lemma Apart(m: Arena, heads: set<nat>, a: nat, b: nat)
    requires Tiled(m, heads) && a in heads && b in heads && a != b
    ensures a + 2 <= Next(m, a) <= |m| && b + 2 <= Next(m, b) <= |m|
    ensures Next(m, a) <= b || Next(m, b) <= a
  {
  }

  /** A block is taken off the list without a split. */
  function Removed(s: Heap, i: nat): Heap
    requires Good(s) && i < |s.fl|
  {
    var b := s.fl[i];
    var r := Relink(s, i, s.m[b + 1].lo);
    r.(m := SetFlags(r.m, b, MAGIC + 1), fl := Drop(s.fl, i))
  }

  /** Headers with the same sizes tile the arena the same way. */
  lemma TiledSame(m: Arena, m': Arena, heads: set<nat>)
    requires Tiled(m, heads) && |m'| == |m|
    requires forall h | h in heads :: m'[h].lo == m[h].lo && MagicOk(m'[h].hi)
    ensures Tiled(m', heads)
  {
    hide MagicOk, Sized, Cells;
  }

  /** The cell after a header is never a header. */
  lemma LinkCell(m: Arena, heads: set<nat>, a: nat)
    requires Tiled(m, heads) && a in heads
    ensures a + 1 < |m| && a + 1 !in heads && a + 2 <= Next(m, a)
    ensures forall h | h in heads && h != a :: !(h <= a + 1 < Next(m, h))
  {
    forall h: nat | h in heads && h != a ensures !(h <= a + 1 < Next(m, h)) { Apart(m, heads, a, h); }
  }

  lemma RemovedCells(s: Heap, i: nat)
    requires Good(s) && i < |s.fl|
    ensures var s', b := Removed(s, i), s.fl[i];
      && |s'.m| == |s.m| && b + 1 < |s.m| && s'.heads == s.heads && s'.base == s.base
      && s'.fl == Drop(s.fl, i)
      && (i > 0 ==> s.fl[i - 1] + 1 != b && s.fl[i - 1] + 1 !in s.heads && s.fl[i - 1] + 1 < |s.m|)
      && s'.head == (if i == 0 then s.m[b + 1].lo else s.head)
      && forall g | 0 <= g < |s.m| ::
           s'.m[g] == if g == b then s.m[g].(hi := MAGIC + 1)
                      else if i > 0 && g == s.fl[i - 1] + 1 then s.m[g].(lo := s.m[b + 1].lo) else s.m[g]
  {
    hide MagicOk, Sized, Cells, UsedBit, Closed, Ordered;
    if i > 0 { LinkCell(s.m, s.heads, s.fl[i - 1]); }
    LinkCell(s.m, s.heads, s.fl[i]);
  }

  lemma RemovedGood(s: Heap, i: nat)
    requires Good(s) && i < |s.fl|
    ensures Good(Removed(s, i)) && AllKept(s, Removed(s, i), s.fl[i])
  {
    hide Removed, MagicOk, Sized, Cells, UsedBit, Closed, Ordered;
    FlagFacts();
    var s', b := Removed(s, i), s.fl[i];
    RemovedCells(s, i);
    TiledSame(s.m, s'.m, s.heads);
    RemovedListed(s, i);
    forall h: nat | h in s.heads && Used(s.m, h) ensures Kept(s, s', h) {
      Apart(s.m, s.heads, h, b);
      if i > 0 { LinkCell(s.m, s.heads, s.fl[i - 1]); }
    }
  }

  function Drop(fl: seq<nat>, i: nat): (r: seq<nat>)
    requires i < |fl|
    ensures |r| == |fl| - 1
  {
    fl[..i] + fl[i + 1..]
  }

  lemma Dropped(fl: seq<nat>, i: nat)
    requires Ascending(fl) && i < |fl|
    ensures Ascending(Drop(fl, i)) && forall h | h in fl && h != fl[i] :: h in Drop(fl, i)
  {
    forall h | h in fl && h != fl[i] ensures h in Drop(fl, i) {
      var j: nat :| j < |fl| && fl[j] == h;
      assert Drop(fl, i)[if j < i then j else j - 1] == h;
    }
  }

  lemma DropEntry(base: nat, fl: seq<nat>, i: nat, j: nat)
    requires i < |fl| && j < |fl| - 1
    ensures Drop(fl, i)[j] == fl[if j < i then j else j + 1]
    ensures Entry(base, Drop(fl, i), j + 1) == Entry(base, fl, if j + 1 < i then j + 1 else j + 2)
  {
  }

  lemma RemovedListed(s: Heap, i: nat)
    requires Good(s) && i < |s.fl| && Tiled(Removed(s, i).m, s.heads)
    ensures Removed(s, i).heads == s.heads && Listed(Removed(s, i))
  {
    hide Removed, MagicOk, Sized, Cells, UsedBit, Closed, Ordered, Ascending, Drop, Header;
    FlagFacts();
    RemovedCells(s, i);
    Dropped(s.fl, i);
    var s' := Removed(s, i);
    forall j: nat | j < |s'.fl|
      ensures s'.fl[j] in s.heads && s'.fl[j] < |s'.m| && !Used(s'.m, s'.fl[j]) && Linked(s', j)
    {
      RemovedLink(s, i, j);
    }
    RemovedHead(s, i);
    forall h: nat | h in s.heads && h < |s.m| && !Used(s'.m, h) ensures h in s'.fl { }
  }

  lemma RemovedHead(s: Heap, i: nat)
    requires Good(s) && i < |s.fl|
    ensures Removed(s, i).head == Entry(s.base, Removed(s, i).fl, 0)
  {
    hide Removed, MagicOk, Sized, Cells, UsedBit, Closed, Ordered, Ascending;
    RemovedCells(s, i);
    assert Linked(s, i);
  }

  lemma RemovedLink(s: Heap, i: nat, j: nat)
    requires Good(s) && i < |s.fl| && j < |s.fl| - 1
    ensures var s' := Removed(s, i);
      |s'.fl| == |s.fl| - 1 && s'.fl[j] in s'.heads && s'.fl[j] < |s'.m| && !Used(s'.m, s'.fl[j]) && Linked(s', j)
  {
    hide Removed, MagicOk, Sized, Cells, UsedBit, Closed, Ordered, Header, Drop, Entry;
    RemovedCells(s, i);
    DropEntry(s.base, s.fl, i, j);
    var was := if j < i then j else j + 1;
    assert Linked(s, was) && Linked(s, i);
    LinkCell(s.m, s.heads, s.fl[was]);
  }

  // ---- splitting ----------------------------------------------------------------------------

  lemma SplitSizes(size: nat, need: nat)
    requires Sized(size) && Sized(need) && size >= need + 2 * UNIT
    ensures Sized(size - need - UNIT) && Cells(need) + 1 + Cells(size - need - UNIT) == Cells(size)
  {
    var a, b := size / UNIT, need / UNIT;
    assert size == UNIT * a && need == UNIT * b;
    assert size - need - UNIT == UNIT * (a - b - 1);
  }

  predicate CanSplit(s: Heap, i: nat, need: nat) {
    i < |s.fl| && s.fl[i] < |s.m| && s.m[s.fl[i]].lo >= need + 2 * UNIT && Sized(need)
  }

  function Tail(s: Heap, i: nat, need: nat): nat requires i < |s.fl| { s.fl[i] + 1 + Cells(need) }

  lemma TailInside(s: Heap, i: nat, need: nat)
    requires Good(s) && CanSplit(s, i, need)
    ensures var b, rem := s.fl[i], Tail(s, i, need);
      b + 2 <= rem && rem + 2 <= Next(s.m, b) <= |s.m|
  {
    hide MagicOk, UsedBit, Closed, Ordered, Ascending, Linked;
    SplitSizes(s.m[s.fl[i]].lo, need);
  }

  /** The tail at rem gets its header and block b's link; block b gets its new size. */
  function CutCells(m: Arena, b: nat, rem: nat, need: nat): (r: Arena)
    requires b + 1 < rem && rem + 1 < |m| && m[b].lo >= need + UNIT
    ensures |r| == |m|
  {
    var r := SetFlags(SetSize(m, rem, m[b].lo - need - UNIT), rem, MAGIC);
    SetSize(SetLink(r, rem, r[b + 1].lo), b, need)
  }

  /** A block is taken off the list, its tail left there as a smaller block. */
  function Split(s: Heap, i: nat, need: nat): Heap
    requires Good(s) && CanSplit(s, i, need)
  {
    TailInside(s, i, need);
    var b, rem := s.fl[i], Tail(s, i, need);
    var m1 := CutCells(s.m, b, rem, need);
    var m2 := if i == 0 then m1 else SetLink(m1, s.fl[i - 1], Addr(s.base, rem));
    var head := if i == 0 then Addr(s.base, rem) else s.head;
    Heap(SetFlags(m2, b, MAGIC + 1), s.base, head, s.heads + {rem}, s.fl[i := rem])
  }

  lemma SplitCells(s: Heap, i: nat, need: nat)
    requires Good(s) && CanSplit(s, i, need)
    ensures var s', b, rem := Split(s, i, need), s.fl[i], Tail(s, i, need);
      && |s'.m| == |s.m| && b + 2 <= rem && rem + 2 <= Next(s.m, b) <= |s.m| && s'.base == s.base
      && s'.heads == s.heads + {rem} && rem !in s.heads && rem + 1 !in s.heads && s'.fl == s.fl[i := rem]
      && (i > 0 ==> s.fl[i - 1] + 1 < b && s.fl[i - 1] + 1 !in s.heads)
      && s'.head == (if i == 0 then Addr(s.base, rem) else s.head)
      && forall g | 0 <= g < |s.m| ::
           s'.m[g] == if g == b then Cell(need, MAGIC + 1)
                      else if g == rem then Cell(s.m[b].lo - need - UNIT, MAGIC)
                      else if g == rem + 1 then s.m[g].(lo := s.m[b + 1].lo)
                      else if i > 0 && g == s.fl[i - 1] + 1 then s.m[g].(lo := Addr(s.base, rem))
                      else s.m[g]
  {
    hide MagicOk, Sized, Cells, UsedBit, Closed, Ordered;
    TailInside(s, i, need);
    if i > 0 { LinkCell(s.m, s.heads, s.fl[i - 1]); }
    Inside(s.m, s.heads, s.fl[i], Tail(s, i, need));
    Inside(s.m, s.heads, s.fl[i], Tail(s, i, need) + 1);
  }

  /** No block begins inside another. */
  lemma Inside(m: Arena, heads: set<nat>, b: nat, g: nat)
    requires Tiled(m, heads) && b in heads && b < g < Next(m, b)
    ensures g !in heads
    ensures forall h | h in heads && h != b :: !(h <= g < Next(m, h))
  {
    forall h: nat | h in heads && h != b ensures !(h <= g < Next(m, h)) && h != g { Apart(m, heads, b, h); }
  }

  lemma SplitHead(s: Heap, i: nat, need: nat, h: nat)
    requires Good(s) && CanSplit(s, i, need) && h in Split(s, i, need).heads
    ensures var s', b, rem := Split(s, i, need), s.fl[i], Tail(s, i, need);
      && h < |s.m| == |s'.m| && Header(s'.m, h)
      && Next(s'.m, h) == if h == b then rem else if h == rem then Next(s.m, b) else Next(s.m, h)
  {
    hide MagicOk, Sized, Cells, UsedBit, Split, Closed, Ordered, Ascending;
    FlagFacts();
    SplitCells(s, i, need);
    SplitSizes(s.m[s.fl[i]].lo, need);
  }

  /** What cutting block b at rem does to where blocks end. */
  ghost predicate CutAt(m: Arena, m': Arena, heads: set<nat>, b: nat, rem: nat) {
    && |m'| == |m| && b in heads && b < |m| && b < rem < Next(m, b) <= |m|
    && forall h: nat | h in heads + {rem} ::
         && h < |m| && Header(m', h)
         && Next(m', h) == if h == b then rem else if h == rem then Next(m, b) else Next(m, h)
  }

  lemma CutOrdered(m: Arena, m': Arena, heads: set<nat>, b: nat, rem: nat, h: nat, k: nat)
    requires Tiled(m, heads) && CutAt(m, m', heads, b, rem) && h in heads + {rem} && k in heads + {rem} && h < k
    ensures Next(m', h) <= k
  {
    hide Header, Closed, Ordered, Cells;
    if h in heads && h != b { Apart(m, heads, h, b); }
    if k in heads && k != b { Apart(m, heads, k, b); }
    if h in heads && k in heads && h != k { Apart(m, heads, h, k); }
  }

  lemma CutClosed(m: Arena, m': Arena, heads: set<nat>, b: nat, rem: nat, h: nat)
    requires Tiled(m, heads) && CutAt(m, m', heads, b, rem) && h in heads + {rem}
    ensures Next(m', h) == |m| || Next(m', h) in heads + {rem}
  {
    hide Header, Closed, Ordered, Cells;
    NextHead(m, heads, b);
    if h in heads { NextHead(m, heads, h); }
  }

  /** One block becomes two that fill its place. */
  lemma TiledCut(m: Arena, m': Arena, heads: set<nat>, b: nat, rem: nat)
    requires Tiled(m, heads) && CutAt(m, m', heads, b, rem)
    ensures Tiled(m', heads + {rem})
  {
    hide Header, Cells;
    var heads' := heads + {rem};
    forall h: nat | h in heads'
      ensures Next(m', h) == |m| || Next(m', h) in heads'
    {
      CutClosed(m, m', heads, b, rem, h);
    }
    forall h: nat, k: nat | h in heads' && k in heads' && h < k ensures Next(m', h) <= k {
      CutOrdered(m, m', heads, b, rem, h, k);
    }
  }

  lemma SplitTiled(s: Heap, i: nat, need: nat)
    requires Good(s) && CanSplit(s, i, need)
    ensures Tiled(Split(s, i, need).m, Split(s, i, need).heads)
  {
    hide MagicOk, Sized, Cells, UsedBit, Split, Closed, Ordered, Ascending, Header, Next;
    SplitCells(s, i, need);
    forall h: nat | h in Split(s, i, need).heads { SplitHead(s, i, need, h); }
    assert s.fl[i] in s.heads;
    TiledCut(s.m, Split(s, i, need).m, s.heads, s.fl[i], Tail(s, i, need));
  }

  lemma ReplaceEntry(base: nat, fl: seq<nat>, i: nat, x: nat, j: nat)
    requires i < |fl| && j < |fl|
    ensures Entry(base, fl[i := x], j + 1) == if j + 1 == i then Addr(base, x) else Entry(base, fl, j + 1)
  {
  }

  lemma SplitLink(s: Heap, i: nat, need: nat, j: nat)
    requires Good(s) && CanSplit(s, i, need) && j < |s.fl|
    ensures var s' := Split(s, i, need);
      |s'.fl| == |s.fl| && s'.fl[j] in s'.heads && s'.fl[j] < |s'.m| && !Used(s'.m, s'.fl[j]) && Linked(s', j)
  {
    hide Split, MagicOk, Sized, Cells, UsedBit, Closed, Ordered, Header, Entry, Addr, Tail;
    FlagFacts();
    SplitCells(s, i, need);
    ReplaceEntry(s.base, s.fl, i, Tail(s, i, need), j);
    assert Linked(s, j) && Linked(s, i);
    Inside(s.m, s.heads, s.fl[i], Tail(s, i, need));
    if j != i { LinkCell(s.m, s.heads, s.fl[j]); }
  }

  lemma SplitAscending(s: Heap, i: nat, need: nat)
    requires Good(s) && CanSplit(s, i, need)
    ensures Ascending(Split(s, i, need).fl)
  {
    hide Split, MagicOk, Sized, Cells, UsedBit, Closed, Ordered;
    SplitCells(s, i, need);
    forall j: nat | i < j < |s.fl| ensures Tail(s, i, need) < s.fl[j] { Apart(s.m, s.heads, s.fl[i], s.fl[j]); }
  }

  lemma SplitKept(s: Heap, i: nat, need: nat)
    requires Good(s) && CanSplit(s, i, need)
    ensures AllKept(s, Split(s, i, need), s.fl[i])
  {
    hide Split, MagicOk, Sized, Cells, UsedBit, Closed, Ordered, Ascending;
    SplitCells(s, i, need);
    forall h: nat | h in s.heads && h < |s.m| && Used(s.m, h) ensures Kept(s, Split(s, i, need), h) {
      Apart(s.m, s.heads, h, s.fl[i]);
      if i > 0 { LinkCell(s.m, s.heads, s.fl[i - 1]); }
    }
  }

  lemma SplitGood(s: Heap, i: nat, need: nat)
    requires Good(s) && CanSplit(s, i, need)
    ensures Good(Split(s, i, need))
  {
    hide Split, MagicOk, Sized, Cells, UsedBit, Closed, Ordered, Ascending, Linked, Header;
    FlagFacts();
    SplitCells(s, i, need);
    SplitTiled(s, i, need);
    SplitAscending(s, i, need);
    var s', rem := Split(s, i, need), Tail(s, i, need);
    forall j: nat | j < |s'.fl|
      ensures s'.fl[j] in s'.heads && s'.fl[j] < |s'.m| && !Used(s'.m, s'.fl[j]) && Linked(s', j)
    {
      SplitLink(s, i, need, j);
    }
    forall h: nat | h in s'.heads && h < |s.m| && !Used(s'.m, h) ensures h in s'.fl {
      if h == rem { assert s'.fl[i] == rem; } else { Elsewhere(s.fl, i, rem, h); }
    }
  }

  lemma Elsewhere(fl: seq<nat>, i: nat, x: nat, h: nat)
    requires i < |fl|
    ensures h in fl && h != fl[i] ==> h in fl[i := x]
  {
    if h in fl && h != fl[i] {
      var j: nat :| j < |fl| && fl[j] == h;
      assert fl[i := x][j] == h;
    }
  }

  // ---- freeing ------------------------------------------------------------------------------

  ghost predicate CanInsert(s: Heap, i: nat, h: nat) {
    && i <= |s.fl| && h in s.heads && h < |s.m| && Used(s.m, h)
    && (i > 0 ==> s.fl[i - 1] < h) && (i < |s.fl| ==> h < s.fl[i])
  }

  /** A live block joins the list before the i-th free block. */
  function Insert(s: Heap, i: nat, h: nat): Heap
    requires Good(s) && CanInsert(s, i, h)
  {
    var m1 := SetLink(SetFlags(s.m, h, MAGIC), h, Entry(s.base, s.fl, i));
    var m2 := if i == 0 then m1 else SetLink(m1, s.fl[i - 1], Addr(s.base, h));
    Heap(m2, s.base, if i == 0 then Addr(s.base, h) else s.head, s.heads, Add(s.fl, i, h))
  }

  lemma InsertCells(s: Heap, i: nat, h: nat)
    requires Good(s) && CanInsert(s, i, h)
    ensures var s' := Insert(s, i, h);
      && |s'.m| == |s.m| && h + 1 < |s.m| && h + 1 !in s.heads && s'.base == s.base && s'.heads == s.heads
      && s'.fl == Add(s.fl, i, h)
      && (i > 0 ==> s.fl[i - 1] + 1 < h && s.fl[i - 1] + 1 !in s.heads)
      && s'.head == (if i == 0 then Addr(s.base, h) else s.head)
      && forall g | 0 <= g < |s.m| ::
           s'.m[g] == if g == h then s.m[g].(hi := MAGIC)
                      else if g == h + 1 then s.m[g].(lo := Entry(s.base, s.fl, i))
                      else if i > 0 && g == s.fl[i - 1] + 1 then s.m[g].(lo := Addr(s.base, h))
                      else s.m[g]
  {
    hide MagicOk, Sized, Cells, UsedBit, Closed, Ordered, Entry;
    LinkCell(s.m, s.heads, h);
    if i > 0 { LinkCell(s.m, s.heads, s.fl[i - 1]); }
  }

  lemma AddEntry(base: nat, fl: seq<nat>, i: nat, h: nat, j: nat)
    requires i <= |fl| && j <= |fl|
    ensures Add(fl, i, h)[j] == if j == i then h else fl[if j < i then j else j - 1]
    ensures Entry(base, Add(fl, i, h), j + 1) ==
            if j + 1 == i then Addr(base, h) else Entry(base, fl, if j + 1 < i then j + 1 else j)
  {
  }

  lemma InsertLink(s: Heap, i: nat, h: nat, j: nat)
    requires Good(s) && CanInsert(s, i, h) && j <= |s.fl|
    ensures var s' := Insert(s, i, h);
      |s'.fl| == |s.fl| + 1 && s'.fl[j] in s'.heads && s'.fl[j] < |s'.m| && !Used(s'.m, s'.fl[j]) && Linked(s', j)
  {
    hide Insert, MagicOk, Sized, Cells, UsedBit, Closed, Ordered, Header, Add, Entry, Addr;
    FlagFacts();
    InsertCells(s, i, h);
    AddEntry(s.base, s.fl, i, h, j);
    if j != i {
      var was := if j < i then j else j - 1;
      assert Linked(s, was);
      LinkCell(s.m, s.heads, s.fl[was]);
    }
  }

  function Add(fl: seq<nat>, i: nat, h: nat): (r: seq<nat>)
    requires i <= |fl|
    ensures |r| == |fl| + 1
  {
    fl[..i] + [h] + fl[i..]
  }

  lemma Added(fl: seq<nat>, i: nat, h: nat)
    requires Ascending(fl) && i <= |fl| && (i > 0 ==> fl[i - 1] < h) && (i < |fl| ==> h < fl[i])
    ensures Ascending(Add(fl, i, h)) && h in Add(fl, i, h) && forall k | k in fl :: k in Add(fl, i, h)
  {
    var r := Add(fl, i, h);
    assert r[i] == h && (forall j: nat | j < i :: r[j] == fl[j]) && forall j: nat | i < j < |r| :: r[j] == fl[j - 1];
    forall k | k in fl ensures k in r {
      var j: nat :| j < |fl| && fl[j] == k;
      assert r[if j < i then j else j + 1] == k;
    }
    hide Add;
    assert Ascending(r);
  }

  lemma InsertFirst(s: Heap, i: nat, h: nat)
    requires Good(s) && CanInsert(s, i, h)
    ensures Insert(s, i, h).head == Entry(s.base, Insert(s, i, h).fl, 0)
  {
    hide Insert, MagicOk, Sized, Cells, UsedBit, Closed, Ordered, Ascending;
    InsertCells(s, i, h);
  }

  lemma InsertKept(s: Heap, i: nat, h: nat)
    requires Good(s) && CanInsert(s, i, h)
    ensures AllKept(s, Insert(s, i, h), h)
  {
    hide Insert, MagicOk, Sized, Cells, UsedBit, Closed, Ordered, Ascending, Add;
    InsertCells(s, i, h);
    forall k: nat | k in s.heads && k < |s.m| && Used(s.m, k) && k != h ensures Kept(s, Insert(s, i, h), k) {
      Apart(s.m, s.heads, k, h);
      if i > 0 { LinkCell(s.m, s.heads, s.fl[i - 1]); }
    }
  }

  lemma InsertGood(s: Heap, i: nat, h: nat)
    requires Good(s) && CanInsert(s, i, h)
    ensures Good(Insert(s, i, h))
  {
    hide Insert, MagicOk, Sized, Cells, UsedBit, Closed, Ordered, Ascending, Add, Linked;
    FlagFacts();
    InsertCells(s, i, h);
    var s' := Insert(s, i, h);
    TiledSame(s.m, s'.m, s.heads);
    Added(s.fl, i, h);
    InsertFirst(s, i, h);
    forall j: nat | j < |s'.fl|
      ensures s'.fl[j] in s'.heads && s'.fl[j] < |s'.m| && !Used(s'.m, s'.fl[j]) && Linked(s', j)
    {
      InsertLink(s, i, h, j);
    }
  }

  // ---- merging ------------------------------------------------------------------------------

  predicate CanMerge(s: Heap, i: nat) {
    i + 1 < |s.fl| && s.fl[i] < |s.m| && Next(s.m, s.fl[i]) == s.fl[i + 1]
  }

  /** The i-th free block absorbs the next one, which begins where it ends. */
  function Merge(s: Heap, i: nat): Heap
    requires Good(s) && CanMerge(s, i)
  {
    var a, c := s.fl[i], s.fl[i + 1];
    var m1 := SetSize(s.m, a, s.m[a].lo + UNIT + s.m[c].lo);
    s.(m := SetLink(m1, a, m1[c + 1].lo), heads := s.heads - {c}, fl := Drop(s.fl, i + 1))
  }

  lemma MergeSizes(x: nat, y: nat)
    requires Sized(x) && Sized(y)
    ensures Sized(x + UNIT + y) && Cells(x + UNIT + y) == Cells(x) + 1 + Cells(y)
  {
    assert x + UNIT + y == UNIT * (x / UNIT + 1 + y / UNIT);
  }

  lemma MergeCells(s: Heap, i: nat)
    requires Good(s) && CanMerge(s, i)
    ensures var s', a, c := Merge(s, i), s.fl[i], s.fl[i + 1];
      && |s'.m| == |s.m| && a + 1 < c && c + 1 < |s.m| && a + 1 !in s.heads
      && s'.heads == s.heads - {c} && s'.base == s.base && s'.head == s.head && s'.fl == Drop(s.fl, i + 1)
      && forall g | 0 <= g < |s.m| ::
           s'.m[g] == if g == a then s.m[g].(lo := s.m[a].lo + UNIT + s.m[c].lo)
                      else if g == a + 1 then s.m[g].(lo := s.m[c + 1].lo)
                      else s.m[g]
  {
    hide MagicOk, Sized, Cells, UsedBit, Closed, Ordered, Drop;
    LinkCell(s.m, s.heads, s.fl[i]);
    LinkCell(s.m, s.heads, s.fl[i + 1]);
  }

  lemma MergeHead(s: Heap, i: nat, h: nat)
    requires Good(s) && CanMerge(s, i) && h in Merge(s, i).heads
    ensures var s', a, c := Merge(s, i), s.fl[i], s.fl[i + 1];
      && h < |s.m| == |s'.m| && Header(s'.m, h) && s'.m[h].hi == s.m[h].hi
      && Next(s'.m, h) == if h == a then Next(s.m, c) else Next(s.m, h)
  {
    hide MagicOk, Sized, Cells, UsedBit, Merge, Closed, Ordered, Ascending, Drop;
    MergeCells(s, i);
    MergeSizes(s.m[s.fl[i]].lo, s.m[s.fl[i + 1]].lo);
  }

  /** Two adjacent blocks become one that fills their place. */
  lemma TiledJoin(m: Arena, m': Arena, heads: set<nat>, a: nat, c: nat)
    requires Tiled(m, heads) && a in heads && c in heads && |m'| == |m| && Next(m, a) == c
    requires forall h: nat | h in heads - {c} ::
               h < |m| && Header(m', h) && Next(m', h) == if h == a then Next(m, c) else Next(m, h)
    ensures Tiled(m', heads - {c})
  {
    hide Header;
    Apart(m, heads, a, c);
    forall h: nat | h in heads && h != c ensures Next(m, h) <= c || Next(m, c) <= h { Apart(m, heads, h, c); }
    var heads' := heads - {c};
    forall h: nat | h in heads' ensures Next(m', h) == |m| || Next(m', h) in heads' {
      if Next(m, h) == c && h != a { Apart(m, heads, a, h); }
    }
    forall h: nat, k: nat | h in heads' && k in heads' && h < k ensures Next(m', h) <= k {
      assert Next(m, h) <= k;
    }
  }

  lemma MergeTiled(s: Heap, i: nat)
    requires Good(s) && CanMerge(s, i)
    ensures Tiled(Merge(s, i).m, Merge(s, i).heads)
  {
    hide MagicOk, Sized, Cells, UsedBit, Merge, Closed, Ordered, Ascending, Header, Next, Drop;
    MergeCells(s, i);
    forall h: nat | h in Merge(s, i).heads { MergeHead(s, i, h); }
    assert s.fl[i] in s.heads && s.fl[i + 1] in s.heads;
    TiledJoin(s.m, Merge(s, i).m, s.heads, s.fl[i], s.fl[i + 1]);
  }

  lemma MergeLink(s: Heap, i: nat, j: nat)
    requires Good(s) && CanMerge(s, i) && j < |s.fl| - 1
    ensures var s' := Merge(s, i);
      |s'.fl| == |s.fl| - 1 && s'.fl[j] in s'.heads && s'.fl[j] < |s'.m| && !Used(s'.m, s'.fl[j]) && Linked(s', j)
  {
    hide Merge, MagicOk, Sized, Cells, UsedBit, Closed, Ordered, Header, Drop, Entry;
    MergeCells(s, i);
    DropEntry(s.base, s.fl, i + 1, j);
    var was := if j <= i then j else j + 1;
    assert Linked(s, was) && Linked(s, i + 1);
    LinkCell(s.m, s.heads, s.fl[was]);
  }

  lemma MergeKept(s: Heap, i: nat)
    requires Good(s) && CanMerge(s, i)
    ensures forall k: nat | k in s.heads && k < |s.m| && Used(s.m, k) :: Kept(s, Merge(s, i), k)
  {
    hide Merge, MagicOk, Sized, Cells, UsedBit, Closed, Ordered, Ascending, Drop;
    MergeCells(s, i);
    forall k: nat | k in s.heads && k < |s.m| && Used(s.m, k) ensures Kept(s, Merge(s, i), k) {
      Apart(s.m, s.heads, k, s.fl[i]);
      LinkCell(s.m, s.heads, s.fl[i]);
    }
  }

  lemma MergeGood(s: Heap, i: nat)
    requires Good(s) && CanMerge(s, i)
    ensures Good(Merge(s, i))
  {
    hide Merge, MagicOk, Sized, Cells, UsedBit, Closed, Ordered, Ascending, Drop, Linked;
    MergeCells(s, i);
    MergeTiled(s, i);
    Dropped(s.fl, i + 1);
    MergeFirst(s, i);
    var s' := Merge(s, i);
    forall j: nat | j < |s'.fl|
      ensures s'.fl[j] in s'.heads && s'.fl[j] < |s'.m| && !Used(s'.m, s'.fl[j]) && Linked(s', j)
    {
      MergeLink(s, i, j);
    }
    forall k: nat | k in s'.heads ensures k in s.heads && s'.m[k].hi == s.m[k].hi { MergeHead(s, i, k); }
  }

  lemma MergeFirst(s: Heap, i: nat)
    requires Good(s) && CanMerge(s, i)
    ensures Merge(s, i).head == Entry(s.base, Merge(s, i).fl, 0)
  {
    hide Merge, MagicOk, Sized, Cells, UsedBit, Closed, Ordered, Ascending;
    MergeCells(s, i);
  }

  // ---- coalescing ---------------------------------------------------------------------------

  lemma RemovedCoalesced(s: Heap, i: nat)
    requires Good(s) && i < |s.fl| && Coalesced(s)
    ensures Coalesced(Removed(s, i))
  {
    hide Removed, MagicOk, Sized, Cells, UsedBit, Closed, Ordered, Ascending, Drop, Linked;
    FlagFacts();
    RemovedCells(s, i);
    var s' := Removed(s, i);
    forall a: nat | a in s'.heads ensures !Touching(s', a) { assert Touching(s', a) ==> Touching(s, a); }
  }

  lemma SplitCoalesced(s: Heap, i: nat, need: nat)
    requires Good(s) && CanSplit(s, i, need) && Coalesced(s)
    ensures Coalesced(Split(s, i, need))
  {
    hide Split, MagicOk, Sized, Cells, UsedBit, Closed, Ordered, Ascending, Linked, Header, Tail;
    FlagFacts();
    SplitCells(s, i, need);
    var s', b, rem := Split(s, i, need), s.fl[i], Tail(s, i, need);
    forall a: nat | a in s'.heads ensures !Touching(s', a) {
      SplitHead(s, i, need, a);
      if a == rem {
        assert Touching(s', a) ==> Touching(s, b);
      } else if a != b {
        NextHead(s.m, s.heads, a);
        assert Touching(s', a) ==> Touching(s, a);
      }
    }
  }

  lemma NextHead(m: Arena, heads: set<nat>, a: nat)
    requires Tiled(m, heads) && a in heads
    ensures a < Next(m, a) <= |m| && (Next(m, a) < |m| ==> Next(m, a) in heads)
  {
  }

  /** Only the freed block can touch a free one. */
  ghost predicate TouchesOnly(s: Heap, h: nat) {
    forall a: nat | a in s.heads && Touching(s, a) :: a == h || Next(s.m, a) == h
  }

  ghost predicate TouchesBefore(s: Heap, h: nat) {
    forall a: nat | a in s.heads && Touching(s, a) :: Next(s.m, a) == h
  }

  lemma InsertTouches(s: Heap, i: nat, h: nat)
    requires Good(s) && CanInsert(s, i, h) && Coalesced(s)
    ensures TouchesOnly(Insert(s, i, h), h)
  {
    hide Insert, MagicOk, Sized, Cells, UsedBit, Closed, Ordered, Ascending, Linked, Add;
    FlagFacts();
    InsertCells(s, i, h);
    var s' := Insert(s, i, h);
    forall a: nat | a in s'.heads && Touching(s', a) ensures a == h || Next(s'.m, a) == h {
      assert !Touching(s, a);
    }
  }

  /** A free block that touches another is followed by it on the list. */
  lemma TouchingNext(s: Heap, i: nat)
    requires Good(s) && i < |s.fl|
    ensures Touching(s, s.fl[i]) <==> CanMerge(s, i)
  {
    hide MagicOk, Sized, Cells, UsedBit, Closed, Ordered, Linked;
    var a := s.fl[i];
    if Touching(s, a) {
      var j: nat :| j < |s.fl| && s.fl[j] == Next(s.m, a);
      NextHead(s.m, s.heads, a);
      if i + 1 < j { Apart(s.m, s.heads, a, s.fl[i + 1]); }
    }
  }

  lemma MergeTouching(s: Heap, i: nat, a: nat)
    requires Good(s) && CanMerge(s, i) && a in Merge(s, i).heads && Touching(Merge(s, i), a)
    ensures a in s.heads && a < |s.m|
    ensures if a == s.fl[i] then Touching(s, s.fl[i + 1])
            else Touching(s, a) && Next(s.m, a) == Next(Merge(s, i).m, a)
  {
    hide Merge, MagicOk, Sized, Cells, UsedBit, Closed, Ordered, Ascending, Linked, Drop, Header;
    MergeCells(s, i);
    MergeHead(s, i, a);
    MergeHead(s, i, Next(Merge(s, i).m, a));
  }

  /** The i-th free block absorbs the next one if they touch. */
  function Forward(s: Heap, i: nat): (s': Heap)
    requires Good(s)
    ensures Good(s')
  {
    if CanMerge(s, i) then MergeGood(s, i); Merge(s, i) else s
  }

  /** The i-th free block is absorbed by the one before if they touch. */
  function Backward(s: Heap, i: nat): (s': Heap)
    requires Good(s)
    ensures Good(s')
  {
    if i > 0 then Forward(s, i - 1) else s
  }

  /** Merging forwards leaves only contacts with the block before. */
  lemma ForwardTouches(s: Heap, i: nat)
    requires Good(s) && i < |s.fl| && TouchesOnly(s, s.fl[i])
    ensures TouchesBefore(Forward(s, i), s.fl[i])
  {
    hide Merge, MagicOk, Sized, Cells, UsedBit, Closed, Ordered, Ascending, Linked, Header;
    TouchingNext(s, i);
    if CanMerge(s, i) {
      var s' := Merge(s, i);
      forall a: nat | a in s'.heads && Touching(s', a) ensures Next(s'.m, a) == s.fl[i] {
        MergeTouching(s, i, a);
        NextHead(s.m, s.heads, s.fl[i + 1]);
        NextHead(s.m, s.heads, s.fl[i]);
      }
    }
  }

  /** And merging backwards leaves none. */
  lemma BackwardCoalesced(s: Heap, i: nat)
    requires Good(s) && i < |s.fl| && TouchesBefore(s, s.fl[i])
    ensures Coalesced(Backward(s, i))
  {
    hide Merge, MagicOk, Sized, Cells, UsedBit, Closed, Ordered, Linked, Header;
    if i > 0 && CanMerge(s, i - 1) {
      var s' := Merge(s, i - 1);
      forall a: nat | a in s'.heads ensures !Touching(s', a) {
        if Touching(s', a) {
          MergeTouching(s, i - 1, a);
          NextHead(s.m, s.heads, s.fl[i]);
          if a != s.fl[i - 1] { Apart(s.m, s.heads, a, s.fl[i - 1]); }
        }
      }
    } else {
      forall a: nat | a in s.heads ensures !Touching(s, a) {
        if Touching(s, a) {
          var j: nat :| j < |s.fl| && s.fl[j] == a;
          TouchingNext(s, j);
        }
      }
    }
  }

  // ---- the program's own stores ---------------------------------------------------------

  /** What a program does to its memory: cell g, in the payload of a live block, gets new bytes. */
  function Stored(s: Heap, g: nat, c: Cell): Heap
    requires g < |s.m|
  {
    s.(m := s.m[g := c])
  }

  /** Whatever a program stores in a live payload, the heap stays good and the other live blocks keep their bytes. */
  lemma StoredGood(s: Heap, h: nat, g: nat, c: Cell)
    requires Good(s) && h in s.heads && h < |s.m| && Used(s.m, h) && h < g < Next(s.m, h)
    ensures g < |s.m| && Good(Stored(s, g, c)) && AllKept(s, Stored(s, g, c), h)
    ensures Coalesced(s) ==> Coalesced(Stored(s, g, c))
  {
    hide MagicOk, Sized, Cells, UsedBit, Closed, Ordered, Ascending;
    NextHead(s.m, s.heads, h);
    Inside(s.m, s.heads, h, g);
    var s' := Stored(s, g, c);
    TiledSame(s.m, s'.m, s.heads);
    forall k: nat | k in s.heads && k < |s.m| && k != h ensures Kept(s, s', k) { NextHead(s.m, s.heads, k); }
    forall i: nat | i < |s.fl| ensures Linked(s', i) {
      assert Linked(s, i);
      LinkCell(s.m, s.heads, s.fl[i]);
    }
    StoredCoalesced(s, g, c);
  }

  lemma StoredCoalesced(s: Heap, g: nat, c: Cell)
    requires Good(s) && g < |s.m| && g !in s.heads
    ensures Coalesced(s) ==> Coalesced(Stored(s, g, c))
  {
    hide MagicOk, Sized, Cells, UsedBit, Closed, Ordered, Ascending, Listed, Header;
    var s' := Stored(s, g, c);
    forall a: nat | a in s.heads ensures Touching(s', a) ==> Touching(s, a) { }
  }

  // ---- whole operations ---------------------------------------------------------------------

  /** A live block's content survives two steps if it survives each. */
  lemma AllKeptTrans(s: Heap, s1: Heap, s2: Heap, except: nat)
    requires AllKept(s, s1, except) && |s1.m| == |s.m|
    requires forall k: nat | k in s1.heads && k < |s1.m| && Used(s1.m, k) :: Kept(s1, s2, k)
    ensures AllKept(s, s2, except)
  {
    hide UsedBit, Cells;
    forall h: nat | h in s.heads && h < |s.m| && Used(s.m, h) && h != except ensures Kept(s, s2, h) {
      assert Kept(s, s1, h) && s1.m[h] == s.m[h];
      assert Kept(s1, s2, h);
    }
  }

  /** What taking the i-th free block for `need` bytes does: split if the rest can be a block of its own. */
  function Taken(s: Heap, i: nat, need: nat): Heap
    requires Good(s) && i < |s.fl| && s.fl[i] < |s.m| && Sized(need) && s.m[s.fl[i]].lo >= need
  {
    if CanSplit(s, i, need) then Split(s, i, need) else Removed(s, i)
  }

  lemma TakenGood(s: Heap, i: nat, need: nat)
    requires Good(s) && i < |s.fl| && s.fl[i] < |s.m| && Sized(need) && s.m[s.fl[i]].lo >= need
    ensures var s', b := Taken(s, i, need), s.fl[i];
      && Good(s') && AllKept(s, s', b) && (Coalesced(s) ==> Coalesced(s'))
      && b in s'.heads && b < |s'.m| == |s.m| && Used(s'.m, b) && need <= s'.m[b].lo < need + 2 * UNIT
      && s'.base == s.base
      && Next(s'.m, b) <= Next(s.m, b)
  {
    hide Split, Removed, MagicOk, Sized, Cells, UsedBit, Closed, Ordered, Ascending, Linked, Header, Coalesced,
         Drop, Tail;
    FlagFacts();
    if CanSplit(s, i, need) {
      SplitGood(s, i, need);
      SplitKept(s, i, need);
      SplitCells(s, i, need);
      SplitHead(s, i, need, s.fl[i]);
      if Coalesced(s) { SplitCoalesced(s, i, need); }
    } else {
      RemovedGood(s, i);
      RemovedCells(s, i);
      if Coalesced(s) { RemovedCoalesced(s, i); }
    }
  }

  /** What freeing live block h does, with its place i on the list. */
  function Released(s: Heap, i: nat, h: nat, merge: bool): Heap
    requires Good(s) && CanInsert(s, i, h)
  {
    InsertGood(s, i, h);
    var s1 := Insert(s, i, h);
    if !merge then s1 else Backward(Forward(s1, i), i)
  }

  lemma ReleasedGood(s: Heap, i: nat, h: nat, merge: bool)
    requires Good(s) && CanInsert(s, i, h)
    ensures Good(Released(s, i, h, merge)) && AllKept(s, Released(s, i, h, merge), h)
    ensures merge && Coalesced(s) ==> Coalesced(Released(s, i, h, merge))
  {
    hide Insert, Merge, MagicOk, Sized, Cells, UsedBit, Closed, Ordered, Ascending, Linked, Header, Coalesced, Add,
         Kept, AllKept, Listed, CanMerge, TouchesOnly, TouchesBefore, Drop;
    InsertGood(s, i, h);
    InsertKept(s, i, h);
    InsertPlace(s, i, h);
    if merge {
      var s1 := Insert(s, i, h);
      ForwardPlace(s1, i);
      var s2 := Forward(s1, i);
      if CanMerge(s1, i) { MergeKept(s1, i); AllKeptTrans(s, s1, s2, h); }
      if i > 0 && CanMerge(s2, i - 1) { MergeKept(s2, i - 1); AllKeptTrans(s, s2, Backward(s2, i), h); }
      if Coalesced(s) {
        InsertTouches(s, i, h);
        ForwardTouches(s1, i);
        BackwardCoalesced(s2, i);
      }
    }
  }

  lemma InsertPlace(s: Heap, i: nat, h: nat)
    requires Good(s) && CanInsert(s, i, h)
    ensures var s' := Insert(s, i, h); i < |s'.fl| && s'.fl[i] == h && |s'.m| == |s.m|
  {
    hide Insert, Listed, Tiled;
    InsertCells(s, i, h);
  }

  lemma ForwardPlace(s: Heap, i: nat)
    requires Good(s) && i < |s.fl|
    ensures var s' := Forward(s, i); i < |s'.fl| && s'.fl[i] == s.fl[i] && |s'.m| == |s.m|
  {
    hide Merge, Listed, Tiled;
    if CanMerge(s, i) { MergeCells(s, i); }
  }

  /** With merging off every block keeps its place and size; the freed one is just no longer in use. */
  lemma ReleasedApart(s: Heap, i: nat, h: nat)
    requires Good(s) && CanInsert(s, i, h)
    ensures var s' := Released(s, i, h, false);
      && s'.heads == s.heads && |s'.m| == |s.m|
      && forall k: nat | k in s.heads && k < |s.m| ::
           s'.m[k].lo == s.m[k].lo && (Used(s'.m, k) <==> Used(s.m, k) && k != h)
  {
    hide Insert, MagicOk, Sized, Cells, UsedBit, Closed, Ordered, Ascending, Linked, Add, Entry;
    FlagFacts();
    InsertCells(s, i, h);
    if i > 0 { LinkCell(s.m, s.heads, s.fl[i - 1]); }
  }

  /** With merging on, a heap without live blocks is one free block. */
  lemma EverythingFree(s: Heap)
    requires Good(s) && Coalesced(s) && forall h: nat | h in s.heads && h < |s.m| :: !Used(s.m, h)
    ensures s.heads == {0} && s.fl == [0] && Next(s.m, 0) == |s.m|
  {
    hide Cells, Sized, MagicOk, UsedBit, Closed, Ordered, Linked;
    if |s.fl| > 1 { assert s.fl[0] < s.fl[1]; }
    NextHead(s.m, s.heads, 0);
    assert !Touching(s, 0);
    forall h | h in s.heads ensures h == 0 { if h != 0 { Apart(s.m, s.heads, 0, h); } }
    assert 0 in s.fl && forall i: nat | i < |s.fl| :: s.fl[i] == 0;
  }
}
