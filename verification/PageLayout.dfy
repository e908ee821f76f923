/** Sv39 page tables in physical memory: page-table entries, the three-level walk, and who owns a page. */
module PageLayout {
  const ENTRIES: nat := 512
  const MAXPAGE: nat := 0x400_0000    // MAXVA in pages

  /** One 64-bit word of a page, read as a page-table entry: physical page number and ten flag bits. */
  datatype Word = Word(ppn: nat, flags: nat)

  const ZERO: Word := Word(0, 0)

  type Page = p: seq<Word> | |p| == ENTRIES witness seq(ENTRIES, _ => ZERO)

  function Filled(w: Word): Page { seq(ENTRIES, _ => w) }

  predicate Valid(w: Word) { w.flags % 2 == 1 }
  predicate LeafBits(w: Word) { w.flags / 2 % 8 != 0 }

  /** The word as it is stored, and the shifts the kernel applies to it. */
  function Encode(w: Word): nat { w.ppn * 1024 + w.flags }

  lemma PteRoundTrip(w: Word, pa: nat)
    requires w.flags < 1024 && pa == w.ppn * 4096
    ensures Encode(w) == pa / 4096 * 1024 + w.flags
    ensures Encode(w) / 1024 * 4096 == pa && Encode(w) % 1024 == w.flags
    ensures Encode(w) % 2 == 1 <==> Valid(w)
  {
    assert pa / 4096 == w.ppn && Encode(w) / 1024 == w.ppn;
  }

  /**
   Why a page is in use: pointed to from entry `index` of level `level` of the table rooted at `root`
   (level 3 is the root itself, level 0 a user page), or held by someone else in the kernel.
   */
  datatype Role = At(root: nat, level: nat, index: nat) | Other
  type Roles = map<nat, Role>

  datatype Mem = Mem(pages: seq<Page>, free: seq<nat>, role: Roles)

  /** How many entries each level has, over all its tables. */
  function Span(level: nat): nat {
    if level == 0 then 0x800_0000 else if level == 1 then 0x4_0000 else if level == 2 then 512 else 1
  }

  predicate IsRoot(role: Roles, r: nat) { r in role && role[r] == At(r, 3, 0) }

  predicate Position(role: Roles, r: nat, level: nat, index: nat) {
    IsRoot(role, r) && level <= 3 && index < Span(level)
  }

  /** Entry `index` of level `level`, found by walking down from the root; zero where the walk stops. */
  function Entry(m: seq<Page>, r: nat, level: nat, index: nat): Word
    decreases 3 - level
  {
    if level >= 3 then Word(r, 1)
    else
      var up := Entry(m, r, level + 1, index / ENTRIES);
      if Valid(up) && up.ppn < |m| then m[up.ppn][index % ENTRIES] else ZERO
  }

  /** The flat map a page table stands for: the leaf entry of a virtual page, zero if unmapped. */
  function Flat(m: seq<Page>, r: nat, v: nat): Word {
    var e := Entry(m, r, 0, v);
    if Valid(e) then e else ZERO
  }

  /** The managed pages from lo up are split between the free list, without repetition, and the pages in use. */
  ghost predicate Accounted(s: Mem, lo: nat) {
    && (forall i, j | 0 <= i < j < |s.free| :: s.free[i] != s.free[j])
    && (forall i | 0 <= i < |s.free| :: lo <= s.free[i] < |s.pages| && s.free[i] !in s.role)
    && (forall p | p in s.role :: lo <= p < |s.pages|)
    && (forall p | lo <= p < |s.pages| && p !in s.role :: p in s.free)
  }

  /** A page in use is where its role says. */
  ghost predicate Placed(s: Mem) {
    forall p | p in s.role && s.role[p].At? ::
      var a := s.role[p];
      Position(s.role, a.root, a.level, a.index)
      && Valid(Entry(s.pages, a.root, a.level, a.index)) && Entry(s.pages, a.root, a.level, a.index).ppn == p
  }

  /** Entries above the leaves point at table pages, each with its own place. */
  ghost predicate Linked(s: Mem) {
    forall r: nat, l: nat, i: nat | Position(s.role, r, l, i) && 1 <= l && Valid(Entry(s.pages, r, l, i)) ::
      var e := Entry(s.pages, r, l, i);
      (l < 3 ==> !LeafBits(e)) && e.ppn in s.role && s.role[e.ppn] == At(r, l, i)
  }

  ghost predicate Good(s: Mem, lo: nat) {
    Accounted(s, lo) && Placed(s) && Linked(s)
  }

  predicate IsTable(role: Roles, p: nat, level: nat) {
    p in role && role[p].At? && role[p].level >= level
  }

  /** An entry of level l depends on table pages of higher places only. */
  lemma {:induction false} EntryFrame(s: Mem, m: seq<Page>, lo: nat, r: nat, l: nat, i: nat)
    requires Good(s, lo) && Position(s.role, r, l, i) && |m| == |s.pages|
    requires forall p: nat | IsTable(s.role, p, l + 1) :: m[p] == s.pages[p]
    ensures Entry(m, r, l, i) == Entry(s.pages, r, l, i)
    decreases 3 - l
  {
    if l < 3 {
      EntryFrame(s, m, lo, r, l + 1, i / ENTRIES);
      var up := Entry(s.pages, r, l + 1, i / ENTRIES);
      if Valid(up) {
        assert IsTable(s.role, up.ppn, l + 1);
      }
    }
  }

  /** The page holding a given entry. */
  lemma Holder(s: Mem, lo: nat, p: nat, k: nat)
    requires Good(s, lo) && IsTable(s.role, p, 1) && k < ENTRIES
    ensures p < |s.pages|
    ensures var a := s.role[p];
      && Position(s.role, a.root, a.level, a.index) && Entry(s.pages, a.root, a.level, a.index).ppn == p
      && Valid(Entry(s.pages, a.root, a.level, a.index))
      && Position(s.role, a.root, a.level - 1, a.index * ENTRIES + k)
      && Entry(s.pages, a.root, a.level - 1, a.index * ENTRIES + k) == s.pages[p][k]
  {
    var a := s.role[p];
    assert (a.index * ENTRIES + k) / ENTRIES == a.index && (a.index * ENTRIES + k) % ENTRIES == k;
    assert a.level - 1 + 1 == a.level;
  }

  /** One level of the walk: the entry is where it should be, and points at the next table if valid. */
  lemma Descend(s: Mem, lo: nat, r: nat, level: nat, index: nat, p: nat)
    requires Good(s, lo) && Position(s.role, r, level, index) && level < 3
    requires p in s.role && s.role[p] == At(r, level + 1, index / ENTRIES)
    ensures p < |s.pages| && Entry(s.pages, r, level, index) == s.pages[p][index % ENTRIES]
    ensures var e := s.pages[p][index % ENTRIES];
      level > 0 && Valid(e) ==> !LeafBits(e) && e.ppn in s.role && s.role[e.ppn] == At(r, level, index)
  {
    Holder(s, lo, p, index % ENTRIES);
    assert index / ENTRIES * ENTRIES + index % ENTRIES == index;
    hide Entry;
    assert Position(s.role, r, level, index);
  }

  /** Where the walk for page v passes at each level. */
  function PathIndex(v: nat, level: nat): (i: nat)
    ensures level < 3 && v < MAXPAGE ==> i < Span(level)
  {
    if level == 0 then v else if level == 1 then v / ENTRIES else if level == 2 then v / ENTRIES / ENTRIES else 0
  }

  lemma PathUp(v: nat, level: nat)
    requires v < MAXPAGE && level < 3
    ensures PathIndex(v, level) / ENTRIES == PathIndex(v, level + 1)
  {
  }

  /** Storing a leaf entry changes that one entry of that one table. */
  lemma LeafWrite(s: Mem, lo: nat, p: nat, k: nat, w: Word, r: nat, l: nat, i: nat)
    requires Good(s, lo) && p in s.role && s.role[p].At? && s.role[p].level == 1 && k < ENTRIES
    requires Position(s.role, r, l, i)
    ensures p < |s.pages|
    ensures Entry(s.pages[p := s.pages[p][k := w]], r, l, i) ==
            if r == s.role[p].root && l == 0 && i == s.role[p].index * ENTRIES + k then w else Entry(s.pages, r, l, i)
  {
    var m := s.pages[p := s.pages[p][k := w]];
    if l > 0 {
      EntryFrame(s, m, lo, r, l, i);
    } else {
      EntryFrame(s, m, lo, r, 1, i / ENTRIES);
      var up := Entry(s.pages, r, 1, i / ENTRIES);
      Holder(s, lo, p, k);
    }
  }

  // ---- the primitive changes, each keeping the invariant ---------------------------------

  const TAKEN: Word := Word(0x1_4141_4141_4141, 0x105)    // kalloc fills a page with 5s
  const DROPPED: Word := Word(0x4040_4040_4040, 0x101)      // kfree fills it with 1s

  /** kalloc: the head of the free list, filled with junk. */
  function Taken(s: Mem): Mem
    requires s.free != [] && s.free[0] < |s.pages|
  {
    Mem(s.pages[s.free[0] := Filled(TAKEN)], s.free[1..], s.role[s.free[0] := Other])
  }

  /** kfree: filled with junk and put at the head of the free list. */
  function Freed(s: Mem, p: nat): Mem
    requires p < |s.pages|
  {
    Mem(s.pages[p := Filled(DROPPED)], [p] + s.free, s.role - {p})
  }

  function Stored(s: Mem, p: nat, k: nat, w: Word): Mem
    requires p < |s.pages| && k < ENTRIES
  {
    s.(pages := s.pages[p := s.pages[p][k := w]])
  }

  function Fill(s: Mem, p: nat, page: Page): Mem
    requires p < |s.pages|
  {
    s.(pages := s.pages[p := page])
  }

  /** Every entry of every table reads the same in both memories. */
  ghost predicate SameEntries(s: Mem, s': Mem) {
    forall r: nat, l: nat, i: nat | Position(s.role, r, l, i) :: Entry(s'.pages, r, l, i) == Entry(s.pages, r, l, i)
  }

  lemma AwayFromTables(s: Mem, s': Mem, lo: nat)
    requires Good(s, lo) && |s'.pages| == |s.pages|
    requires forall p: nat | IsTable(s.role, p, 1) :: s'.pages[p] == s.pages[p]
    ensures SameEntries(s, s')
  {
    forall r: nat, l: nat, i: nat | Position(s.role, r, l, i)
      ensures Entry(s'.pages, r, l, i) == Entry(s.pages, r, l, i)
    {
      EntryFrame(s, s'.pages, lo, r, l, i);
    }
  }

  lemma TakenGood(s: Mem, lo: nat)
    requires Good(s, lo) && s.free != []
    ensures s.free[0] < |s.pages| && Good(Taken(s), lo) && SameEntries(s, Taken(s))
  {
    AwayFromTables(s, Taken(s), lo);
    TakenAccounted(s, lo);
    hide Entry;
  }

  lemma TakenAccounted(s: Mem, lo: nat)
    requires Accounted(s, lo) && s.free != []
    ensures s.free[0] < |s.pages| && Accounted(Taken(s), lo)
  {
    var s' := Taken(s);
    forall p: nat | lo <= p < |s.pages| && p !in s'.role ensures p in s'.free {
      var j: nat :| j < |s.free| && s.free[j] == p;
      assert s'.free[j - 1] == p;
    }
  }

  /** Freeing needs a page in use, so no page gets on the list twice. */
  lemma FreedAccounted(s: Mem, lo: nat, p: nat)
    requires Accounted(s, lo) && p in s.role
    ensures Accounted(Freed(s, p), lo)
  {
    var s' := Freed(s, p);
    forall i, j | 0 <= i < j < |s'.free| ensures s'.free[i] != s'.free[j] {
      assert s'.free[j] == s.free[j - 1];
    }
    forall q: nat | lo <= q < |s.pages| && q !in s'.role ensures q in s'.free {
      if q == p { assert s'.free[0] == p; }
    }
  }

  lemma FreedGood(s: Mem, lo: nat, p: nat)
    requires Good(s, lo) && p in s.role && !IsTable(s.role, p, 1)
    ensures Good(Freed(s, p), lo) && SameEntries(s, Freed(s, p))
  {
    AwayFromTables(s, Freed(s, p), lo);
    FreedAccounted(s, lo, p);
    hide Entry, Accounted;
  }

  lemma FillGood(s: Mem, lo: nat, p: nat, page: Page)
    requires Good(s, lo) && p in s.role && !IsTable(s.role, p, 1)
    ensures Good(Fill(s, p, page), lo) && SameEntries(s, Fill(s, p, page))
  {
    AwayFromTables(s, Fill(s, p, page), lo);
    hide Entry;
  }

  /** A content page may change hands, to a leaf that points at it or away from one. */
  lemma RelabelGood(s: Mem, lo: nat, p: nat, role: Role)
    requires Good(s, lo) && p in s.role && !IsTable(s.role, p, 1)
    requires role.At? ==> role.level == 0 && Position(s.role, role.root, 0, role.index)
                          && Valid(Entry(s.pages, role.root, 0, role.index))
                          && Entry(s.pages, role.root, 0, role.index).ppn == p
    ensures Good(s.(role := s.role[p := role]), lo)
  {
    hide Entry;
  }

  predicate Unowned(role: Roles, r: nat, v: nat) { forall p | p in role :: role[p] != At(r, 0, v) }

  lemma StoredGood(s: Mem, lo: nat, p: nat, k: nat, w: Word)
    requires Good(s, lo) && p in s.role && s.role[p].At? && s.role[p].level == 1 && k < ENTRIES
    requires Unowned(s.role, s.role[p].root, s.role[p].index * ENTRIES + k)
    ensures p < |s.pages| && Good(Stored(s, p, k, w), lo)
    ensures var s', a := Stored(s, p, k, w), s.role[p];
      forall r: nat, l: nat, i: nat | Position(s.role, r, l, i) ::
        Entry(s'.pages, r, l, i) == if r == a.root && l == 0 && i == a.index * ENTRIES + k then w
          else Entry(s.pages, r, l, i)
  {
    var s', a := Stored(s, p, k, w), s.role[p];
    forall r: nat, l: nat, i: nat | Position(s.role, r, l, i)
      ensures Entry(s'.pages, r, l, i) ==
              if r == a.root && l == 0 && i == a.index * ENTRIES + k then w else Entry(s.pages, r, l, i)
    {
      LeafWrite(s, lo, p, k, w, r, l, i);
    }
    hide Entry;
  }

  /** walk's extension: a zeroed page becomes the table below an empty entry. */
  function Grown(s: Mem, p: nat, k: nat, q: nat): Mem
    requires p in s.role && s.role[p].At? && s.role[p].level > 0 && p < |s.pages| && q < |s.pages| && k < ENTRIES
  {
    var a := s.role[p];
    Mem(s.pages[q := Filled(ZERO)][p := s.pages[p][k := Word(q, 1)]], s.free,
        s.role[q := At(a.root, a.level - 1, a.index * ENTRIES + k)])
  }

  lemma EntryBelow(m: seq<Page>, r: nat, l: nat, i: nat)
    requires l < 3
    ensures var up := Entry(m, r, l + 1, i / ENTRIES);
      Entry(m, r, l, i) == if Valid(up) && up.ppn < |m| then m[up.ppn][i % ENTRIES] else ZERO
  {
  }

  /** What Grown should do to entry i of level l. */
  ghost predicate GrownAt(s: Mem, p: nat, k: nat, q: nat, r: nat, l: nat, i: nat)
    requires p in s.role && s.role[p].At? && s.role[p].level > 0 && p < |s.pages| && q < |s.pages| && k < ENTRIES
  {
    var a := s.role[p];
    Entry(Grown(s, p, k, q).pages, r, l, i) ==
    if r == a.root && l == a.level - 1 && i == a.index * ENTRIES + k then Word(q, 1) else Entry(s.pages, r, l, i)
  }

  lemma GrownStep(s: Mem, lo: nat, p: nat, k: nat, q: nat, r: nat, l: nat, i: nat)
    requires Good(s, lo) && IsTable(s.role, p, 2) && k < ENTRIES
    requires q in s.role && s.role[q] == Other && !Valid(s.pages[p][k])
    requires l < 3 && Position(s.role, r, l, i) && GrownAt(s, p, k, q, r, l + 1, i / ENTRIES)
    ensures GrownAt(s, p, k, q, r, l, i)
  {
    hide Entry, Placed;
    Holder(s, lo, p, k);
    EntryBelow(s.pages, r, l, i);
    EntryBelow(Grown(s, p, k, q).pages, r, l, i);
    assert Position(s.role, r, l + 1, i / ENTRIES);
  }

  lemma {:induction false} GrownEntry(s: Mem, lo: nat, p: nat, k: nat, q: nat, r: nat, l: nat, i: nat)
    requires Good(s, lo) && IsTable(s.role, p, 2) && k < ENTRIES
    requires q in s.role && s.role[q] == Other && !Valid(s.pages[p][k])
    requires Position(s.role, r, l, i)
    ensures GrownAt(s, p, k, q, r, l, i)
    decreases 3 - l
  {
    hide Placed, Linked;
    if l < 3 {
      assert Position(s.role, r, l + 1, i / ENTRIES);
      GrownEntry(s, lo, p, k, q, r, l + 1, i / ENTRIES);
      GrownStep(s, lo, p, k, q, r, l, i);
    } else {
      Holder(s, lo, p, k);
    }
  }

  lemma GrownGood(s: Mem, lo: nat, p: nat, k: nat, q: nat)
    requires Good(s, lo) && IsTable(s.role, p, 2) && k < ENTRIES
    requires q in s.role && s.role[q] == Other && !Valid(s.pages[p][k])
    ensures Good(Grown(s, p, k, q), lo)
    ensures var s', a := Grown(s, p, k, q), s.role[p];
      forall r: nat, l: nat, i: nat | Position(s.role, r, l, i) ::
        Entry(s'.pages, r, l, i) ==
        if r == a.root && l == a.level - 1 && i == a.index * ENTRIES + k then Word(q, 1) else Entry(s.pages, r, l, i)
  {
    hide Entry, Linked, Placed;
    var s', a := Grown(s, p, k, q), s.role[p];
    Holder(s, lo, p, k);
    forall r: nat, l: nat, i: nat | Position(s.role, r, l, i)
      ensures Entry(s'.pages, r, l, i) ==
              if r == a.root && l == a.level - 1 && i == a.index * ENTRIES + k then Word(q, 1)
                else Entry(s.pages, r, l, i)
    {
      GrownEntry(s, lo, p, k, q, r, l, i);
    }
    LinkAdded(s, s', lo, a.root, a.level - 1, a.index * ENTRIES + k, q);
  }

  /** One empty entry now points at a page in use that nothing pointed at. */
  lemma LinkAdded(s: Mem, s': Mem, lo: nat, t: nat, level: nat, index: nat, q: nat)
    requires Good(s, lo) && Position(s.role, t, level, index) && 1 <= level <= 2
             && !Valid(Entry(s.pages, t, level, index))
    requires q in s.role && s.role[q] == Other && s'.role == s.role[q := At(t, level, index)]
    requires |s'.pages| == |s.pages| && s'.free == s.free
    requires forall r: nat, l: nat, i: nat | Position(s.role, r, l, i) ::
               Entry(s'.pages, r, l, i) == if r == t && l == level && i == index then Word(q, 1)
                 else Entry(s.pages, r, l, i)
    ensures Good(s', lo)
  {
    hide Entry;
    assert forall r: nat | IsRoot(s'.role, r) :: IsRoot(s.role, r);
    assert Accounted(s', lo);
    hide Accounted;
    assert Placed(s');
    assert Linked(s');
  }

  // ---- what a table operation may change ---------------------------------------------------

  predicate InRange(role: Roles, p: nat, r: nat, from: nat, to: nat) {
    p in role && role[p].At? && role[p].root == r && role[p].level == 0 && from <= role[p].index < to
  }

  /**
   From s0 to s table r may have gained tables and pages for [from, to), and only there may its map differ;
   every page in use before keeps its role and, tables aside, its content. Other tables are untouched.
   */
  ghost predicate Changed(s0: Mem, s: Mem, r: nat, from: nat, to: nat) {
    && Gained(s0, s, r, from, to)
    && (forall t: nat, v: nat | IsRoot(s0.role, t) && v < Span(0) && !(t == r && from <= v < to) ::
          Flat(s.pages, t, v) == Flat(s0.pages, t, v))
  }

  /** The same on the side of the pages. */
  ghost predicate Gained(s0: Mem, s: Mem, r: nat, from: nat, to: nat) {
    && |s.pages| == |s0.pages|
    && (forall p: nat | p in s0.role :: p in s.role && s.role[p] == s0.role[p])
    && (forall p: nat | p in s.role && p !in s0.role ::
          s.role[p].At? && s.role[p].root == r && s.role[p].level < 3
            && (s.role[p].level == 0 ==> InRange(s.role, p, r, from, to)))
    && (forall p: nat | p in s0.role && !IsTable(s0.role, p, 1) :: p < |s.pages| && s.pages[p] == s0.pages[p])
  }

  /** Only tables were gained: every map is as before. */
  ghost predicate Same(s0: Mem, s: Mem, r: nat) { Changed(s0, s, r, 0, 0) }

  /** Pages [from, to) of table r are gone from the map; if `free`, their own pages are back on the free list. */
  ghost predicate Unmapped(s0: Mem, s: Mem, r: nat, from: nat, to: nat, free: bool) {
    && Dropped(s0, s, r, from, to, free)
    && (forall t: nat, v: nat | IsRoot(s0.role, t) && v < Span(0) ::
          Flat(s.pages, t, v) == if t == r && from <= v < to then ZERO else Flat(s0.pages, t, v))
  }

  /** The same on the side of the pages: nothing else is let go, and no content changes. */
  ghost predicate Dropped(s0: Mem, s: Mem, r: nat, from: nat, to: nat, free: bool) {
    && |s.pages| == |s0.pages|
    && (forall p: nat | p in s0.role ::
          if !InRange(s0.role, p, r, from, to) then p in s.role && s.role[p] == s0.role[p]
          else if free then p !in s.role else p in s.role && s.role[p] == Other)
    && (forall p: nat | p in s.role :: p in s0.role)
    && (forall p: nat | p in s.role && !IsTable(s.role, p, 1) :: p < |s0.pages| && s.pages[p] == s0.pages[p])
  }

  /** Virtual page v is mapped with the given flags to a page of its own, taken since s0 and holding `page`. */
  ghost predicate Fresh(s0: Mem, s: Mem, r: nat, v: nat, flags: nat, page: Page) {
    var e := Flat(s.pages, r, v);
    && Valid(e) && e.flags == flags
    && e.ppn in s.role && e.ppn !in s0.role && s.role[e.ppn] == At(r, 0, v)
    && e.ppn < |s.pages| && s.pages[e.ppn] == page
  }

  lemma ChangedTrans(s0: Mem, s: Mem, s': Mem, r: nat, from: nat, mid: nat, to: nat)
    requires Changed(s0, s, r, from, mid) && Changed(s, s', r, mid, to) && from <= mid <= to
    requires IsRoot(s0.role, r)
    ensures Changed(s0, s', r, from, to)
  {
    hide Flat;
  }

  lemma SameTrans(s0: Mem, s: Mem, s': Mem, r: nat, from: nat, to: nat)
    requires Changed(s0, s, r, from, to) && Same(s, s', r)
    ensures Changed(s0, s', r, from, to)
  {
    hide Flat;
  }

  lemma UserMapped(s: Mem, lo: nat, p: nat)
    requires Good(s, lo) && p in s.role && s.role[p].At? && s.role[p].level == 0
    ensures s.role[p].index < Span(0) && Flat(s.pages, s.role[p].root, s.role[p].index) != ZERO
  {
  }

  /** Unmapping what was added to an empty range undoes it: the maps and every page in use before are back. */
  lemma Undone(s0: Mem, s: Mem, s': Mem, lo: nat, r: nat, from: nat, to: nat)
    requires Good(s0, lo) && IsRoot(s0.role, r) && to <= Span(0)
    requires forall v | from <= v < to :: Flat(s0.pages, r, v) == ZERO
    requires Changed(s0, s, r, from, to) && Unmapped(s, s', r, from, to, true)
    ensures Same(s0, s', r)
  {
    hide Flat, Entry, Placed, Linked, Gained, Dropped;
    forall p: nat | p in s0.role ensures !InRange(s0.role, p, r, from, to) {
      if s0.role[p].At? && s0.role[p].level == 0 {
        UserMapped(s0, lo, p);
      }
    }
    UndoneGained(s0, s, s', r, from, to);
    RootKept(s0, s, r, from, to);
    UndoneMaps(s0, s, s', r, from, to);
  }

  lemma UndoneMaps(s0: Mem, s: Mem, s': Mem, r: nat, from: nat, to: nat)
    requires forall v | from <= v < to :: Flat(s0.pages, r, v) == ZERO
    requires Changed(s0, s, r, from, to) && Unmapped(s, s', r, from, to, true)
    requires forall t: nat | IsRoot(s0.role, t) :: IsRoot(s.role, t)
    ensures forall t: nat, v: nat | IsRoot(s0.role, t) && v < Span(0) :: Flat(s'.pages, t, v) == Flat(s0.pages, t, v)
  {
    hide Flat, Gained, Dropped, IsRoot;
  }

  lemma UndoneGained(s0: Mem, s: Mem, s': Mem, r: nat, from: nat, to: nat)
    requires forall p: nat | p in s0.role :: !InRange(s0.role, p, r, from, to)
    requires Gained(s0, s, r, from, to) && Dropped(s, s', r, from, to, true)
    ensures Gained(s0, s', r, 0, 0)
  {
  }

  /** An extension by a page fresh from the free list shows in no map. */
  lemma ExtendSame(s0: Mem, lo: nat, p: nat, k: nat)
    requires Good(s0, lo) && s0.free != [] && IsTable(s0.role, p, 2) && k < ENTRIES
    requires !Valid(s0.pages[p][k])
    ensures p < |s0.pages| && s0.free[0] < |s0.pages|
    ensures var s, r := Grown(Taken(s0), p, k, s0.free[0]), s0.role[p].root;
      IsRoot(s0.role, r) && Good(s, lo) && Same(s0, s, r)
  {
    hide Entry, Placed, Linked, Flat, SameEntries;
    TakenGood(s0, lo);
    Holder(s0, lo, p, k);
    GrownFlat(Taken(s0), lo, p, k, s0.free[0]);
    FlatSame(s0, Taken(s0));
    assert forall t: nat | IsRoot(s0.role, t) :: IsRoot(Taken(s0).role, t);
  }

  lemma GrownFlat(s: Mem, lo: nat, p: nat, k: nat, q: nat)
    requires Good(s, lo) && IsTable(s.role, p, 2) && k < ENTRIES
    requires q in s.role && s.role[q] == Other && !Valid(s.pages[p][k])
    ensures Good(Grown(s, p, k, q), lo)
    ensures forall t: nat, v: nat | IsRoot(s.role, t) && v < Span(0) ::
              Flat(Grown(s, p, k, q).pages, t, v) == Flat(s.pages, t, v)
  {
    hide Entry, Grown, Placed, Linked;
    GrownGood(s, lo, p, k, q);
    assert forall t: nat, v: nat | IsRoot(s.role, t) && v < Span(0) :: Position(s.role, t, 0, v);
  }

  lemma SameRefl(s: Mem, lo: nat, r: nat)
    requires Good(s, lo)
    ensures Same(s, s, r)
  {
  }

  // ---- mapping -----------------------------------------------------------------------------

  /** The first n pages from v are mapped to consecutive pages from ppn; besides that only tables were gained. */
  ghost predicate Painted(s0: Mem, s: Mem, r: nat, v: nat, n: nat, ppn: nat, flags: nat) {
    && Changed(s0, s, r, v, v + n)
    && (forall p: nat | p in s.role && p !in s0.role :: IsTable(s.role, p, 1))
    && (forall x: nat | v <= x < v + n :: Flat(s.pages, r, x) == Word(ppn + (x - v), flags))
  }

  lemma PaintNone(s: Mem, lo: nat, r: nat, v: nat, ppn: nat, flags: nat)
    requires Good(s, lo)
    ensures Painted(s, s, r, v, 0, ppn, flags)
  {
  }

  lemma PaintSame(s0: Mem, s: Mem, s': Mem, r: nat, v: nat, n: nat, ppn: nat, flags: nat)
    requires Painted(s0, s, r, v, n, ppn, flags) && Same(s, s', r) && IsRoot(s0.role, r) && v + n <= Span(0)
    ensures Painted(s0, s', r, v, n, ppn, flags)
  {
    hide Flat;
  }

  lemma PaintNext(s0: Mem, s: Mem, s': Mem, r: nat, v: nat, n: nat, ppn: nat, flags: nat)
    requires Painted(s0, s, r, v, n, ppn, flags) && Changed(s, s', r, v + n, v + n + 1) && s'.role == s.role
    requires IsRoot(s0.role, r) && v + n < Span(0) && Flat(s'.pages, r, v + n) == Word(ppn + n, flags)
    ensures Painted(s0, s', r, v, n + 1, ppn, flags)
  {
    hide Flat;
  }

  /** Storing a valid entry in an empty leaf slot maps that page and changes no other. */
  lemma StoreLeaf(s: Mem, lo: nat, r: nat, v: nat, p: nat, w: Word)
    requires Good(s, lo) && IsRoot(s.role, r) && v < MAXPAGE && p in s.role && s.role[p] == At(r, 1, v / ENTRIES)
    requires Flat(s.pages, r, v) == ZERO && Valid(w)
    ensures p < |s.pages| && !Valid(s.pages[p][v % ENTRIES])
    ensures var s' := Stored(s, p, v % ENTRIES, w);
      Good(s', lo) && Changed(s, s', r, v, v + 1) && Flat(s'.pages, r, v) == w
  {
    Descend(s, lo, r, 0, v, p);
    Unclaimed(s, lo, r, v);
    StoredGood(s, lo, p, v % ENTRIES, w);
    StoredFlat(s, lo, r, v, p, w);
    hide Entry, Placed, Linked, Flat;
  }

  /** The same on the level of the maps. */
  lemma StoredFlat(s: Mem, lo: nat, r: nat, v: nat, p: nat, w: Word)
    requires Good(s, lo) && IsRoot(s.role, r) && v < MAXPAGE && p in s.role && s.role[p] == At(r, 1, v / ENTRIES)
    requires Unowned(s.role, r, v)
    ensures p < |s.pages|
    ensures forall t: nat, x: nat | IsRoot(s.role, t) && x < Span(0) ::
              Flat(Stored(s, p, v % ENTRIES, w).pages, t, x) ==
              if t == r && x == v then (if Valid(w) then w else ZERO) else Flat(s.pages, t, x)
  {
    assert v / ENTRIES * ENTRIES + v % ENTRIES == v;
    StoredGood(s, lo, p, v % ENTRIES, w);
    forall t: nat, x: nat | IsRoot(s.role, t) && x < Span(0)
      ensures Flat(Stored(s, p, v % ENTRIES, w).pages, t, x) ==
              if t == r && x == v then (if Valid(w) then w else ZERO) else Flat(s.pages, t, x)
    {
      assert Position(s.role, t, 0, x);
      hide Entry, Good;
    }
  }

  /** No page claims an unmapped slot. */
  lemma Unclaimed(s: Mem, lo: nat, r: nat, v: nat)
    requires Good(s, lo) && !Valid(Entry(s.pages, r, 0, v))
    ensures Unowned(s.role, r, v)
  {
    hide Entry;
  }

  // ---- unmapping ---------------------------------------------------------------------------

  /** The page mapped at v, if any, is in use for v alone. */
  predicate Owned(s: Mem, r: nat, v: nat) {
    var e := Flat(s.pages, r, v);
    e != ZERO ==> e.ppn in s.role && s.role[e.ppn] == At(r, 0, v)
  }

  ghost predicate AllOwned(s: Mem, r: nat, from: nat, to: nat) {
    forall x: nat | from <= x < to :: Owned(s, r, x)
  }

  /** The two steps of one unmapping: the page is freed or let go, then its entry is zeroed. */
  function LetGo(s: Mem, r: nat, v: nat, q: nat, free: bool): Mem
    requires q < |s.pages| || !free
  {
    if free then Freed(s, q)
    else if q in s.role && s.role[q] == At(r, 0, v) then s.(role := s.role[q := Other]) else s
  }

  lemma LetGoGood(s: Mem, lo: nat, r: nat, v: nat, q: nat, free: bool)
    requires Good(s, lo) && v < MAXPAGE && IsRoot(s.role, r) && Entry(s.pages, r, 0, v).ppn == q
    requires free ==> q in s.role && s.role[q] == At(r, 0, v)
    ensures q < |s.pages| || !free
    ensures var s' := LetGo(s, r, v, q, free);
      Good(s', lo) && SameEntries(s, s') && Unowned(s'.role, r, v)
  {
    OneOwner(s, lo, r, v, q);
    if free {
      FreedGood(s, lo, q);
    } else if q in s.role && s.role[q] == At(r, 0, v) {
      RelabelGood(s, lo, q, Other);
    }
    hide Entry, Good;
  }

  lemma OneOwner(s: Mem, lo: nat, r: nat, v: nat, q: nat)
    requires Good(s, lo) && Entry(s.pages, r, 0, v).ppn == q
    ensures forall p | p in s.role && s.role[p] == At(r, 0, v) :: p == q
  {
    hide Entry;
  }

  lemma UnmapOne(s: Mem, lo: nat, r: nat, v: nat, p: nat, free: bool)
    requires Good(s, lo) && IsRoot(s.role, r) && v < MAXPAGE && p in s.role && s.role[p] == At(r, 1, v / ENTRIES)
    requires p < |s.pages| && Valid(s.pages[p][v % ENTRIES])
    requires free ==> Owned(s, r, v)
    ensures var q := s.pages[p][v % ENTRIES].ppn;
      && (free ==> q in s.role && q < |s.pages|)
      && var s' := Stored(LetGo(s, r, v, q, free), p, v % ENTRIES, ZERO);
         Good(s', lo) && Unmapped(s, s', r, v, v + 1, free)
  {
    hide Entry, SameEntries, Dropped, Stored, Linked, Placed, Accounted;
    Descend(s, lo, r, 0, v, p);
    var q := s.pages[p][v % ENTRIES].ppn;
    LetGoGood(s, lo, r, v, q, free);
    OneOwner(s, lo, r, v, q);
    var s1 := LetGo(s, r, v, q, free);
    assert v / ENTRIES * ENTRIES + v % ENTRIES == v;
    StoredGood(s1, lo, p, v % ENTRIES, ZERO);
    StoredFlat(s1, lo, r, v, p, ZERO);
    FlatSame(s, s1);
    LetGoDropped(s, lo, r, v, q, p, free);
  }

  lemma LetGoDropped(s: Mem, lo: nat, r: nat, v: nat, q: nat, p: nat, free: bool)
    requires Accounted(s, lo) && p in s.role && IsTable(s.role, p, 1)
    requires free ==> q in s.role && s.role[q] == At(r, 0, v)
    requires forall p | p in s.role && s.role[p] == At(r, 0, v) :: p == q
    ensures q < |s.pages| || !free
    ensures p < |s.pages| && Dropped(s, Stored(LetGo(s, r, v, q, free), p, v % ENTRIES, ZERO), r, v, v + 1, free)
  {
  }

  lemma FlatSame(s: Mem, s': Mem)
    requires SameEntries(s, s')
    ensures forall t: nat, x: nat | IsRoot(s.role, t) && x < Span(0) :: Flat(s'.pages, t, x) == Flat(s.pages, t, x)
  {
    forall t: nat, x: nat | IsRoot(s.role, t) && x < Span(0) ensures Flat(s'.pages, t, x) == Flat(s.pages, t, x) {
      assert Position(s.role, t, 0, x);
      hide Entry;
    }
  }

  /** An empty slot is already unmapped. */
  lemma UnmapNothing(s: Mem, lo: nat, r: nat, v: nat, free: bool)
    requires Good(s, lo) && Flat(s.pages, r, v) == ZERO
    ensures Unmapped(s, s, r, v, v + 1, free)
  {
    Unclaimed(s, lo, r, v);
    hide Flat;
  }

  lemma UnmappedTrans(s0: Mem, s: Mem, s': Mem, r: nat, from: nat, mid: nat, to: nat, free: bool)
    requires Unmapped(s0, s, r, from, mid, free) && Unmapped(s, s', r, mid, to, free) && from <= mid <= to
    ensures Unmapped(s0, s', r, from, to, free)
  {
    hide Flat;
  }

  // ---- a user page: taken, filled, mapped --------------------------------------------------

  /** The head of the free list, taken and filled with the given content. */
  function Prepared(s: Mem, page: Page): Mem
    requires s.free != [] && s.free[0] < |s.pages|
  {
    Fill(Taken(s), s.free[0], page)
  }

  lemma PreparedGood(s: Mem, lo: nat, page: Page)
    requires Good(s, lo) && s.free != []
    ensures s.free[0] < |s.pages| && s.free[0] !in s.role && Good(Prepared(s, page), lo)
    ensures forall t: nat | IsRoot(s.role, t) :: IsRoot(Prepared(s, page).role, t)
    ensures forall t: nat, x: nat | IsRoot(s.role, t) && x < Span(0) ::
              Flat(Prepared(s, page).pages, t, x) == Flat(s.pages, t, x)
  {
    hide Flat, Entry, Placed, Linked, SameEntries;
    TakenGood(s, lo);
    FillGood(Taken(s), lo, s.free[0], page);
    FlatSame(s, Taken(s));
    FlatSame(Taken(s), Prepared(s, page));
    assert forall t: nat | IsRoot(s.role, t) :: IsRoot(Taken(s).role, t);
  }

  /** Once mapped, the page belongs to its virtual address. */
  lemma MappedFresh(s0: Mem, s: Mem, lo: nat, r: nat, v: nat, flags: nat, page: Page)
    requires Good(s0, lo) && s0.free != [] && IsRoot(s0.role, r) && v < MAXPAGE && flags % 2 == 1
    requires Good(s, lo) && Painted(Prepared(s0, page), s, r, v, 1, s0.free[0], flags)
    ensures s0.free[0] < |s0.pages|
    ensures var q := s0.free[0]; var s' := s.(role := s.role[q := At(r, 0, v)]);
      q in s.role && Good(s', lo) && Changed(s0, s', r, v, v + 1) && Fresh(s0, s', r, v, flags, page)
  {
    hide Entry, Flat, Good, Gained, Prepared;
    PreparedGood(s0, lo, page);
    var q := s0.free[0];
    GainedOne(s0, s, r, v, q, page);
    assert Flat(s.pages, r, v) == Word(q + (v - v), flags);
    GivenTo(s, lo, r, v, q);
  }

  lemma GivenTo(s: Mem, lo: nat, r: nat, v: nat, q: nat)
    requires Good(s, lo) && IsRoot(s.role, r) && v < MAXPAGE && q in s.role && s.role[q] == Other
    requires Flat(s.pages, r, v) != ZERO && Flat(s.pages, r, v).ppn == q
    ensures Good(s.(role := s.role[q := At(r, 0, v)]), lo)
  {
    LeafEntry(s, r, v);
    hide Entry, Flat, Good;
    RelabelGood(s, lo, q, At(r, 0, v));
  }

  lemma LeafEntry(s: Mem, r: nat, v: nat)
    requires Flat(s.pages, r, v) != ZERO
    ensures Entry(s.pages, r, 0, v) == Flat(s.pages, r, v) && Valid(Entry(s.pages, r, 0, v))
  {
  }

  lemma GainedOne(s0: Mem, s: Mem, r: nat, v: nat, q: nat, page: Page)
    requires s0.free != [] && q == s0.free[0] < |s0.pages| && q !in s0.role
    requires Gained(Prepared(s0, page), s, r, v, v + 1)
    requires forall p: nat | p in s.role && p !in Prepared(s0, page).role :: IsTable(s.role, p, 1)
    ensures q in s.role && s.role[q] == Other && q < |s.pages| && s.pages[q] == page
    ensures forall t: nat | IsRoot(s0.role, t) :: IsRoot(s.role, t)
    ensures Gained(s0, s.(role := s.role[q := At(r, 0, v)]), r, v, v + 1)
  {
    assert q in Prepared(s0, page).role && !IsTable(Prepared(s0, page).role, q, 1);
  }

  /** If it could not be mapped, giving it back leaves at most new tables. */
  lemma UnmappedFresh(s0: Mem, s: Mem, lo: nat, r: nat, v: nat, ppn: nat, flags: nat, page: Page)
    requires Good(s0, lo) && s0.free != [] && IsRoot(s0.role, r) && v < MAXPAGE
    requires Good(s, lo) && Painted(Prepared(s0, page), s, r, v, 0, ppn, flags)
    ensures s0.free[0] < |s0.pages|
    ensures var q := s0.free[0];
      q in s.role && q < |s.pages| && Good(Freed(s, q), lo) && Same(s0, Freed(s, q), r)
  {
    hide Entry, Flat, Good, SameEntries, Gained, Freed, Prepared;
    PreparedGood(s0, lo, page);
    var q := s0.free[0];
    GivenBack(s0, s, r, v, q, page);
    FreedGood(s, lo, q);
    FlatSame(s, Freed(s, q));
  }

  lemma GivenBack(s0: Mem, s: Mem, r: nat, v: nat, q: nat, page: Page)
    requires s0.free != [] && q == s0.free[0] < |s0.pages| && q !in s0.role
    requires Gained(Prepared(s0, page), s, r, v, v)
    ensures q in s.role && s.role[q] == Other && q < |s.pages|
    ensures Gained(s0, Freed(s, q), r, 0, 0)
    ensures forall t: nat | IsRoot(s0.role, t) :: IsRoot(s.role, t)
  {
    assert q in Prepared(s0, page).role;
  }

  // ---- a run of pages built one after another ------------------------------------------------

  /** What a virtual page should come to hold. */
  datatype Want = Nothing | Want(flags: nat, page: Page)

  ghost predicate Realised(s0: Mem, s: Mem, r: nat, v: nat, w: Want) {
    if w.Nothing? then Flat(s.pages, r, v) == ZERO else Fresh(s0, s, r, v, w.flags, w.page)
  }

  /** The first k pages of a plan from `from` are there; nothing else shows in any map. */
  ghost predicate Built(s0: Mem, s: Mem, r: nat, from: nat, plan: seq<Want>, k: nat) {
    && k <= |plan| && Changed(s0, s, r, from, from + k)
    && forall j: nat | j < k :: Realised(s0, s, r, from + j, plan[j])
  }

  lemma BuiltNone(s: Mem, lo: nat, r: nat, from: nat, plan: seq<Want>)
    requires Good(s, lo)
    ensures Built(s, s, r, from, plan, 0)
  {
    hide Flat;
  }

  lemma BuiltSkip(s0: Mem, s: Mem, r: nat, from: nat, plan: seq<Want>, k: nat)
    requires Built(s0, s, r, from, plan, k) && k < |plan| && plan[k] == Nothing
    requires IsRoot(s0.role, r) && from + k < Span(0) && Flat(s0.pages, r, from + k) == ZERO
    ensures Built(s0, s, r, from, plan, k + 1)
  {
    hide Flat;
  }

  lemma BuiltAdd(s0: Mem, s: Mem, s': Mem, r: nat, from: nat, plan: seq<Want>, k: nat)
    requires Built(s0, s, r, from, plan, k) && k < |plan| && plan[k].Want?
    requires Changed(s, s', r, from + k, from + k + 1) && Fresh(s, s', r, from + k, plan[k].flags, plan[k].page)
    requires IsRoot(s0.role, r) && from + k < Span(0)
    ensures Built(s0, s', r, from, plan, k + 1)
  {
    hide Flat, Changed, Fresh;
    ChangedTrans(s0, s, s', r, from, from + k, from + k + 1);
    FreshSince(s0, s, s', r, from, from + k, from + k, plan[k]);
    RootKept(s0, s, r, from, from + k);
    forall j: nat | j < k ensures Realised(s0, s', r, from + j, plan[j]) {
      RealisedKept(s0, s, s', r, from + k, from + k + 1, from + j, plan[j]);
    }
  }

  lemma RootKept(s0: Mem, s: Mem, r: nat, from: nat, to: nat)
    requires Changed(s0, s, r, from, to)
    ensures forall t: nat | IsRoot(s0.role, t) :: IsRoot(s.role, t)
  {
    hide Flat;
  }

  lemma FreshSince(s0: Mem, s: Mem, s': Mem, r: nat, from: nat, to: nat, v: nat, w: Want)
    requires Changed(s0, s, r, from, to) && w.Want? && Fresh(s, s', r, v, w.flags, w.page)
    ensures Fresh(s0, s', r, v, w.flags, w.page)
  {
    hide Flat;
  }

  lemma RealisedKept(s0: Mem, s: Mem, s': Mem, r: nat, from: nat, to: nat, v: nat, w: Want)
    requires Realised(s0, s, r, v, w) && Changed(s, s', r, from, to) && !(from <= v < to) && IsRoot(s.role, r)
             && v < Span(0)
    ensures Realised(s0, s', r, v, w)
  {
    hide Flat;
  }

  lemma BuiltSame(s0: Mem, s: Mem, s': Mem, r: nat, from: nat, plan: seq<Want>, k: nat)
    requires Built(s0, s, r, from, plan, k) && Same(s, s', r) && IsRoot(s0.role, r) && from + k <= Span(0)
    ensures Built(s0, s', r, from, plan, k)
  {
    hide Flat, Changed;
    SameTrans(s0, s, s', r, from, from + k);
    RootKept(s0, s, r, from, from + k);
    forall j: nat | j < k ensures Realised(s0, s', r, from + j, plan[j]) {
      RealisedKept(s0, s, s', r, 0, 0, from + j, plan[j]);
    }
  }

  lemma BuiltOwned(s0: Mem, s: Mem, r: nat, from: nat, plan: seq<Want>, k: nat)
    requires Built(s0, s, r, from, plan, k)
    ensures AllOwned(s, r, from, from + k)
  {
    hide Flat, Changed;
    forall v: nat | from <= v < from + k ensures Owned(s, r, v) {
      var j := v - from;
      assert Realised(s0, s, r, from + j, plan[j]);
    }
  }

  /** Pages not reached yet are as at the start. */
  lemma BuiltAhead(s0: Mem, s: Mem, r: nat, from: nat, plan: seq<Want>, k: nat, t: nat, v: nat)
    requires Built(s0, s, r, from, plan, k) && IsRoot(s0.role, t) && v < Span(0) && (t != r || from + k <= v)
    ensures IsRoot(s.role, t) && Flat(s.pages, t, v) == Flat(s0.pages, t, v)
    ensures Owned(s0, t, v) && Flat(s0.pages, t, v) != ZERO ==>
              var q := Flat(s0.pages, t, v).ppn; q < |s.pages| == |s0.pages| && s.pages[q] == s0.pages[q]
  {
    hide Flat, Realised;
  }

  /** A fresh zeroed page becomes a new empty table. */
  lemma RootAdded(s: Mem, lo: nat)
    requires Good(s, lo) && s.free != []
    ensures s.free[0] < |s.pages| && s.free[0] !in s.role
    ensures var q, s1 := s.free[0], Prepared(s, Filled(ZERO)); var s' := s1.(role := s1.role[q := At(q, 3, 0)]);
      && Good(s', lo)
      && (forall v: nat | v < Span(0) :: Flat(s'.pages, q, v) == ZERO)
      && (forall t: nat, v: nat | IsRoot(s.role, t) && v < Span(0) :: Flat(s'.pages, t, v) == Flat(s.pages, t, v))
  {
    hide Flat, Entry, Placed, Linked;
    PreparedGood(s, lo, Filled(ZERO));
    var q, s1 := s.free[0], Prepared(s, Filled(ZERO));
    forall l: nat, i: nat | l < 3 ensures Entry(s1.pages, q, l, i) == ZERO { EmptyBelow(s1.pages, q, l, i); }
    RootGood(s1, lo, q);
    forall v: nat | v < Span(0) ensures Flat(s1.pages, q, v) == ZERO { EmptyFlat(s1.pages, q, v); }
  }

  lemma EmptyFlat(m: seq<Page>, q: nat, v: nat)
    requires Entry(m, q, 0, v) == ZERO
    ensures Flat(m, q, v) == ZERO
  {
  }

  lemma {:induction false} EmptyBelow(m: seq<Page>, q: nat, l: nat, i: nat)
    requires q < |m| && m[q] == Filled(ZERO) && l < 3
    ensures Entry(m, q, l, i) == ZERO
    decreases 3 - l
  {
    if l < 2 { EmptyBelow(m, q, l + 1, i / ENTRIES); }
  }

  lemma RootGood(s: Mem, lo: nat, q: nat)
    requires Good(s, lo) && q in s.role && s.role[q] == Other
    requires forall l: nat, i: nat | l < 3 :: Entry(s.pages, q, l, i) == ZERO
    ensures Good(s.(role := s.role[q := At(q, 3, 0)]), lo)
  {
    hide Entry, Position;
    var s' := s.(role := s.role[q := At(q, 3, 0)]);
    RootPositions(s.role, q);
    RootEntry(s.pages, q);
    assert Accounted(s', lo);
  }

  lemma RootEntry(m: seq<Page>, q: nat)
    ensures Entry(m, q, 3, 0) == Word(q, 1)
  {
  }

  lemma RootPositions(role: Roles, q: nat)
    requires q in role && role[q] == Other
    ensures var role' := role[q := At(q, 3, 0)];
      && (forall t: nat, l: nat, i: nat | Position(role', t, l, i) :: Position(role, t, l, i) || t == q)
      && (forall t: nat, l: nat, i: nat | Position(role, t, l, i) :: Position(role', t, l, i))
      && (forall l: nat, i: nat | Position(role', q, l, i) && l >= 3 :: l == 3 && i == 0)
      && Position(role', q, 3, 0)
  {
    var role' := role[q := At(q, 3, 0)];
    forall t: nat, l: nat, i: nat | Position(role', t, l, i) ensures Position(role, t, l, i) || t == q {
      if t != q { assert IsRoot(role, t); }
    }
  }

  /** What an operation that failed may still hold on to: tables of r, nothing else. */
  lemma OnlyTablesKept(s0: Mem, s: Mem, lo: nat, r: nat, p: nat)
    requires Good(s0, lo) && Good(s, lo) && Same(s0, s, r)
    ensures p in s.free ==> p in s0.free
    ensures p in s0.free ==> p in s.free || (IsTable(s.role, p, 1) && s.role[p].root == r)
  {
    hide Placed, Linked, Flat;
  }
}
