/** The kernel's page allocator and user page tables: walk, map, unmap, grow, shrink, copy and free. */
module PageTable {
  import opened PageLayout
  import opened PageTree

  const PGSIZE: nat := 4096

  /** PGROUNDUP, in pages. */
  function PagesUp(size: nat): nat { (size + PGSIZE - 1) / PGSIZE }

  function WithValid(flags: nat): nat { if flags % 2 == 1 then flags else flags + 1 }

  /** Pages from a up to n, all in the kernel's hands. */
  ghost function Held(a: nat, n: nat): (role: Roles)
    ensures forall p :: p in role <==> a <= p < n
    ensures forall p | p in role :: role[p] == Other
    decreases n - a
  {
    if a >= n then map[] else Held(a + 1, n)[a := Other]
  }

  /** n - 1, n - 2, ..., a. */
  function Downwards(a: nat, n: nat): seq<nat> {
    if n <= a then [] else [n - 1] + Downwards(a, n - 1)
  }

  lemma AllHeld(s: Mem, lo: nat)
    requires s.free == [] && lo <= |s.pages| && s.role == Held(lo, |s.pages|)
    ensures Accounted(s, lo)
  {
  }

  lemma NoTables(s: Mem, lo: nat)
    requires Accounted(s, lo) && s.role == map[]
    ensures Good(s, lo)
  {
    hide Accounted, Entry;
  }

  class Kernel {
    const lo: nat                // first page after the kernel image
    var pages: seq<Page>
    var freelist: seq<nat>
    ghost var role: Roles

    ghost function State(): Mem
      reads this
    {
      Mem(pages, freelist, role)
    }

    ghost predicate Ok()
      reads this
    {
      Good(State(), lo)
    }

    /** kinit: every page of memory from `first` on is freed, in order, so the last one heads the list. */
    constructor (first: nat, ram: seq<Page>)
      requires first <= |ram|
      ensures Ok() && lo == first && role == map[] && |pages| == |ram| && pages[..first] == ram[..first]
      ensures freelist == Downwards(first, |ram|)
    {
      lo := first;
      pages := ram;
      freelist := [];
      role := Held(first, |ram|);
      new;
      FreeRange(first);
    }

    /** Give every page from `first` on to the free list. */
    method FreeRange(first: nat)
      requires first == lo <= |pages| && role == Held(first, |pages|) && freelist == []
      modifies this
      ensures Ok() && role == map[] && |pages| == |old(pages)| && pages[..first] == old(pages)[..first]
      ensures freelist == Downwards(first, |pages|)
    {
      hide Accounted;
      var p := first;
      assert Accounted(State(), lo) by { AllHeld(State(), lo); }
      while p < |pages|
        invariant first <= p <= |pages| == |old(pages)| && pages[..first] == old(pages)[..first]
        invariant freelist == Downwards(first, p)
        invariant role == Held(p, |pages|) && Accounted(State(), lo)
      {
        FreedAccounted(State(), lo, p);
        Kfree(p);
        p := p + 1;
      }
      assert role == map[];
      NoTables(State(), lo);
    }

    /** One page from the head of the free list, or none when it is empty. */
    method Kalloc() returns (ok: bool, p: nat)
      requires Accounted(State(), lo)
      modifies this
      ensures ok == (old(freelist) != [])
      ensures ok ==> p == old(freelist)[0] && p < |old(pages)| && State() == Taken(old(State()))
      ensures !ok ==> State() == old(State())
    {
      if freelist == [] {
        return false, 0;
      }
      p := freelist[0];
      freelist := freelist[1..];
      pages := pages[p := Filled(TAKEN)];
      role := role[p := Other];
      ok := true;
    }

    /** Give back a page in use; the range check cannot fail for one. */
    method Kfree(p: nat)
      requires Accounted(State(), lo) && p in role
      modifies this
      ensures lo <= p < |old(pages)| && State() == Freed(old(State()), p)
    {
      pages := pages[p := Filled(DROPPED)];
      freelist := [p] + freelist;
      role := role - {p};
    }

    /** The leaf table holding the entry of virtual page v and the slot in it, growing the table if asked to. */
    method Walk(r: nat, v: nat, alloc: bool) returns (ok: bool, p: nat, k: nat)
      requires Ok() && IsRoot(role, r) && v < MAXPAGE
      modifies this
      ensures Ok() && Same(old(State()), State(), r)
      ensures !alloc ==> State() == old(State())
      ensures ok ==> p in role && role[p] == At(r, 1, v / ENTRIES) && k == v % ENTRIES
      ensures !ok ==> if alloc then freelist == [] else Entry(pages, r, 0, v) == ZERO
    {
      hide Good, Changed, Entry;
      var level := 2;
      p, k := r, v / ENTRIES / ENTRIES % ENTRIES;
      ghost var s0 := State();
      PathUp(v, 2);
      SameRefl(s0, lo, r);
      while level > 0
        invariant 0 <= level <= 2 && Ok() && Same(s0, State(), r) && IsRoot(role, r)
        invariant !alloc ==> State() == s0
        invariant p in role && role[p] == At(r, level + 1, PathIndex(v, level + 1))
                  && k == PathIndex(v, level) % ENTRIES
      {
        PathUp(v, level);
        Descend(State(), lo, r, level, PathIndex(v, level), p);
        var e := pages[p][k];
        if Valid(e) {
          p := e.ppn;
        } else {
          if !alloc {
            Unreached(State(), lo, r, v, level);
            return false, 0, 0;
          }
          ghost var s := State();
          var got, q := Extend(r, p, k);
          if !got { return false, 0, 0; }
          RootStays(s, State(), r);
          SameTrans(s0, s, State(), r, 0, 0);
          p := q;
        }
        level := level - 1;
        k := (if level == 1 then v / ENTRIES else v) % ENTRIES;
      }
      ok := true;
    }

    /** Hang a fresh zeroed table below an empty entry. */
    method Extend(r: nat, p: nat, k: nat) returns (ok: bool, q: nat)
      requires Ok() && IsTable(role, p, 2) && role[p].root == r && k < ENTRIES && p < |pages| && !Valid(pages[p][k])
      modifies this
      ensures Ok() && Same(old(State()), State(), r)
      ensures !ok ==> State() == old(State()) && freelist == []
      ensures ok ==> q in role && role[q] == At(r, old(role)[p].level - 1, old(role)[p].index * ENTRIES + k)
    {
      ghost var s0 := State();
      hide Entry, Placed, Linked, Changed;
      ok, q := Kalloc();
      hide Good, Accounted;
      if ok {
        ExtendSame(s0, lo, p, k);
        pages := pages[q := Filled(ZERO)];
        pages := pages[p := pages[p][k := Word(q, 1)]];
        role := role[q := At(r, role[p].level - 1, role[p].index * ENTRIES + k)];
        assert State() == Grown(Taken(s0), p, k, q);
      } else {
        SameRefl(s0, lo, r);
      }
    }

    /**
     Map n pages from v to consecutive pages from ppn. On failure the first `done` of them stay mapped.
     The range must be unmapped: xv6 panics on a remap.
     */
    method Mappages(r: nat, v: nat, n: nat, ppn: nat, perm: nat) returns (ok: bool, ghost done: nat)
      requires Ok() && IsRoot(role, r) && 0 < n && v + n <= MAXPAGE
      requires forall x | v <= x < v + n :: Flat(pages, r, x) == ZERO
      modifies this
      ensures Ok() && done <= n && Painted(old(State()), State(), r, v, done, ppn, WithValid(perm))
      ensures ok <==> done == n
      ensures !ok ==> freelist == []
    {
      hide Good, Flat, Painted, WithValid, IsRoot;
      ghost var s0, flags := State(), WithValid(perm);
      var a, pa, last := v, ppn, v + n - 1;
      done := 0;
      PaintNone(s0, lo, r, v, ppn, flags);
      while true
        invariant v <= a <= last && a == v + done && pa == ppn + done
        invariant Ok() && Painted(s0, State(), r, v, done, ppn, flags)
        decreases last - a
      {
        ghost var s := State();
        PaintAhead(s0, s, r, v, done, ppn, flags);
        ok := MapPage(r, a, pa, perm, s0, v, ppn, done);
        if !ok { return; }
        done := done + 1;
        if a == last { return; }
        a, pa := a + 1, pa + 1;
      }
    }

    /** One turn of the mapping loop: page a of a range that began at v with physical page ppn. */
    method MapPage(r: nat, a: nat, pa: nat, perm: nat, ghost s0: Mem, ghost v: nat, ghost ppn: nat,
                   ghost n: nat)
      returns (ok: bool)
      requires Ok() && IsRoot(s0.role, r) && IsRoot(role, r) && a < MAXPAGE && Flat(pages, r, a) == ZERO
      requires a == v + n && pa == ppn + n && Painted(s0, State(), r, v, n, ppn, WithValid(perm))
      modifies this
      ensures Ok() && Painted(s0, State(), r, v, if ok then n + 1 else n, ppn, WithValid(perm))
      ensures !ok ==> freelist == []
    {
      hide Good, Flat, Painted, Changed;
      ghost var s, flags := State(), WithValid(perm);
      var p, k;
      ok, p, k := Walk(r, a, true);
      PaintSame(s0, s, State(), r, v, n, ppn, flags);
      if ok {
        ghost var s1 := State();
        SameAt(s, s1, r, a);
        StoreLeaf(s1, lo, r, a, p, Word(pa, flags));
        pages := pages[p := pages[p][k := Word(pa, WithValid(perm))]];
        assert State() == Stored(s1, p, k, Word(pa, flags));
        PaintNext(s0, s1, State(), r, v, n, ppn, flags);
      }
    }

    /** Remove n pages of mappings from v; missing ones are skipped. With `free`, their pages must be their own. */
    method Uvmunmap(r: nat, v: nat, n: nat, free: bool)
      requires Ok() && IsRoot(role, r) && v + n <= MAXPAGE
      requires free ==> AllOwned(State(), r, v, v + n)
      modifies this
      ensures Ok() && Unmapped(old(State()), State(), r, v, v + n, free)
    {
      hide Good, Unmapped, AllOwned;
      ghost var s0 := State();
      var a := v;
      UnmappedNone(s0, lo, r, v, free);
      while a < v + n
        invariant v <= a <= v + n && Ok() && Unmapped(s0, State(), r, v, a, free)
        decreases v + n - a
      {
        UnmapNext(r, a, free, s0, v, v + n);
        a := a + 1;
      }
    }

    /** One turn of the unmapping loop: page a of a range that began at v. */
    method UnmapNext(r: nat, a: nat, free: bool, ghost s0: Mem, ghost v: nat, ghost to: nat)
      requires Ok() && IsRoot(s0.role, r) && v <= a < to <= MAXPAGE && Unmapped(s0, State(), r, v, a, free)
      requires free ==> AllOwned(s0, r, v, to)
      modifies this
      ensures Ok() && Unmapped(s0, State(), r, v, a + 1, free)
    {
      hide Good, Unmapped, AllOwned, Owned, IsRoot;
      ghost var s := State();
      UnmapAhead(s0, s, r, v, a, to, free);
      UnmapPage(r, a, free);
      UnmappedTrans(s0, s, State(), r, v, a, a + 1, free);
    }

    /** Let go of the page at a, if there is one, and zero its entry. */
    method UnmapPage(r: nat, a: nat, free: bool)
      requires Ok() && IsRoot(role, r) && a < MAXPAGE && (free ==> Owned(State(), r, a))
      modifies this
      ensures Ok() && Unmapped(old(State()), State(), r, a, a + 1, free)
    {
      hide Unmapped, Changed, Owned, Placed, Linked, Entry;
      ghost var s0 := State();
      var found, p, k := Walk(r, a, false);
      if !found {
        UnmapNothing(s0, lo, r, a, free);
        return;
      }
      Descend(s0, lo, r, 0, a, p);
      if !Valid(pages[p][k]) {
        UnmapNothing(s0, lo, r, a, free);
        return;
      }
      UnmapOne(s0, lo, r, a, p, free);
      var q := pages[p][k].ppn;
      if free {
        Kfree(q);
      } else if q in role && role[q] == At(r, 0, a) {
        role := role[q := Other];
      }
      assert State() == LetGo(s0, r, a, q, free);
      pages := pages[p := pages[p][k := ZERO]];
      assert State() == Stored(LetGo(s0, r, a, q, free), p, k, ZERO);
    }

    /** A page with the given content, mapped at v; on failure nothing but tables has been taken. */
    method MapFresh(r: nat, v: nat, page: Page, perm: nat) returns (ok: bool)
      requires Ok() && IsRoot(role, r) && v < MAXPAGE && Flat(pages, r, v) == ZERO
      modifies this
      ensures Ok()
      ensures !ok ==> Same(old(State()), State(), r)
      ensures ok ==>
                && Changed(old(State()), State(), r, v, v + 1)
                && Fresh(old(State()), State(), r, v, WithValid(perm), page)
    {
      ghost var s0 := State();
      var mem;
      ok, mem := Prepare(page);
      if ok {
        hide Good, Flat, Changed, Fresh, Painted, Prepared;
        ok := MapPrepared(r, v, mem, perm, s0, page);
      } else {
        SameRefl(s0, lo, r);
      }
    }

    method Prepare(page: Page) returns (ok: bool, mem: nat)
      requires Ok()
      modifies this
      ensures Ok() && ok == (old(freelist) != [])
      ensures ok ==> mem == old(freelist)[0] < |old(pages)| && State() == Prepared(old(State()), page)
      ensures !ok ==> State() == old(State())
      ensures forall t: nat, x: nat | IsRoot(old(role), t) && x < Span(0) ::
                IsRoot(role, t) && Flat(pages, t, x) == Flat(old(pages), t, x)
    {
      ghost var s0 := State();
      ok, mem := Kalloc();
      if ok {
        PreparedGood(s0, lo, page);
        pages := pages[mem := page];
        assert State() == Prepared(s0, page);
      }
      hide Flat, Good;
    }

    /** Map the prepared page, or give it back. */
    method MapPrepared(r: nat, v: nat, mem: nat, perm: nat, ghost s0: Mem, ghost page: Page) returns (ok: bool)
      requires Good(s0, lo) && s0.free != [] && IsRoot(s0.role, r) && mem == s0.free[0] < |s0.pages|
      requires Ok() && State() == Prepared(s0, page) && IsRoot(role, r) && v < MAXPAGE && Flat(pages, r, v) == ZERO
      modifies this
      ensures Ok()
      ensures !ok ==> Same(s0, State(), r)
      ensures ok ==> Changed(s0, State(), r, v, v + 1) && Fresh(s0, State(), r, v, WithValid(perm), page)
    {
      hide Placed, Linked, Accounted, Flat, Changed, Fresh, Painted, Prepared;
      ghost var done;
      ok, done := Mappages(r, v, 1, mem, perm);
      ghost var s := State();
      if ok {
        MappedFresh(s0, s, lo, r, v, WithValid(perm), page);
        role := role[mem := At(r, 0, v)];
      } else {
        UnmappedFresh(s0, s, lo, r, v, mem, WithValid(perm), page);
        Kfree(mem);
      }
    }

    /** One page of a plan: mapped if it asks for one. */
    method BuildNext(r: nat, v: nat, page: Page, perm: nat, ghost s0: Mem, ghost from: nat, ghost plan: seq<Want>,
                     ghost k: nat)
      returns (ok: bool)
      requires Ok() && IsRoot(s0.role, r) && v == from + k < MAXPAGE && Built(s0, State(), r, from, plan, k)
      requires k < |plan| && plan[k] == Want(WithValid(perm), page) && Flat(s0.pages, r, v) == ZERO
      modifies this
      ensures Ok() && Built(s0, State(), r, from, plan, if ok then k + 1 else k)
    {
      hide Good, Flat, Changed, Built, Fresh, IsRoot;
      ghost var s := State();
      BuiltAhead(s0, s, r, from, plan, k, r, v);
      ok := MapFresh(r, v, page, perm);
      if ok {
        BuiltAdd(s0, s, State(), r, from, plan, k);
      } else {
        BuiltSame(s0, s, State(), r, from, plan, k);
      }
    }

    /** Shrink: the pages beyond the new size are unmapped and freed. */
    method Uvmdealloc(r: nat, oldsz: nat, newsz: nat) returns (size: nat)
      requires Ok() && IsRoot(role, r) && oldsz <= MAXPAGE * PGSIZE
      requires newsz < oldsz ==> AllOwned(State(), r, PagesUp(newsz), PagesUp(oldsz))
      modifies this
      ensures Ok() && size == if newsz < oldsz then newsz else oldsz
      ensures var end := PagesUp(if newsz < oldsz then oldsz else newsz);
        Unmapped(old(State()), State(), r, PagesUp(newsz), end, true)
    {
      hide Good, Unmapped, AllOwned;
      UnmappedNone(State(), lo, r, PagesUp(newsz), true);
      if newsz >= oldsz {
        return oldsz;
      }
      if PagesUp(newsz) < PagesUp(oldsz) {
        Uvmunmap(r, PagesUp(newsz), PagesUp(oldsz) - PagesUp(newsz), true);
      }
      return newsz;
    }

    /**
     Grow to newsz: fresh zeroed pages, one for every page between the sizes. Without memory for all of them
     the answer is 0 and every page taken is back: the maps and the user pages are as before.
     */
    method Uvmalloc(r: nat, oldsz: nat, newsz: nat, xperm: nat) returns (size: nat)
      requires Ok() && IsRoot(role, r) && newsz <= MAXPAGE * PGSIZE && xperm % 4 == 0
      requires forall v | PagesUp(oldsz) <= v < PagesUp(newsz) :: Flat(pages, r, v) == ZERO
      modifies this
      ensures Ok()
      ensures newsz < oldsz ==> size == oldsz && State() == old(State())
      ensures newsz >= oldsz ==>
                || (size == 0 && Same(old(State()), State(), r))
                || (size == newsz
                    && Built(old(State()), State(), r, PagesUp(oldsz), NewPages(oldsz, newsz, xperm),
                       PagesBetween(oldsz, newsz)))
    {
      hide Good, Flat, Changed, Built, AllOwned, IsRoot, Unmapped;
      if newsz < oldsz {
        return oldsz;
      }
      ghost var s0, plan := State(), NewPages(oldsz, newsz, xperm);
      var from, k := PagesUp(oldsz), 0;
      BuiltNone(s0, lo, r, from, plan);
      while (from + k) * PGSIZE < newsz
        invariant k <= PagesBetween(oldsz, newsz) && Ok() && Built(s0, State(), r, from, plan, k)
        decreases newsz - (from + k) * PGSIZE
      {
        var ok := BuildNext(r, from + k, Filled(ZERO), UserPerm(xperm), s0, from, plan, k);
        if !ok {
          ShrinkBack(r, from, k, s0, plan);
          return 0;
        }
        k := k + 1;
      }
      return newsz;
    }

    /** The failure path of growing. */
    method ShrinkBack(r: nat, from: nat, n: nat, ghost s0: Mem, ghost plan: seq<Want>)
      requires Good(s0, lo) && Ok() && IsRoot(s0.role, r) && from + n <= MAXPAGE
      requires Built(s0, State(), r, from, plan, n) && forall v | from <= v < from + n :: Flat(s0.pages, r, v) == ZERO
      modifies this
      ensures Ok() && Same(s0, State(), r)
    {
      hide Good, Flat, Changed, Realised, Unmapped, AllOwned;
      ghost var s := State();
      BuiltOwned(s0, s, r, from, plan, n);
      RootKept(s0, s, r, from, from + n);
      var size := Uvmdealloc(r, (from + n) * PGSIZE, from * PGSIZE);
      Undone(s0, s, State(), lo, r, from, from + n);
    }

    /**
     Copy the pages below sz of table o into table n: same flags and content, every page its own.
     On failure every page taken for n is back. Table o does not change either way.
     */
    method Uvmcopy(o: nat, n: nat, sz: nat) returns (ok: bool)
      requires Ok() && IsRoot(role, o) && IsRoot(role, n) && o != n && sz <= MAXPAGE * PGSIZE
      requires AllOwned(State(), o, 0, PagesUp(sz))
      requires forall v | 0 <= v < PagesUp(sz) :: Flat(pages, n, v) == ZERO
      modifies this
      ensures Ok()
      ensures ok ==> Built(old(State()), State(), n, 0, CopyOf(old(State()), o, PagesUp(sz)), PagesUp(sz))
      ensures !ok ==> Same(old(State()), State(), n)
    {
      hide Good, Flat, Changed, Built, AllOwned, IsRoot, CopyOf;
      ghost var s0 := State();
      ghost var plan := CopyOf(s0, o, PagesUp(sz));
      var i := 0;
      BuiltNone(s0, lo, n, 0, plan);
      while i * PGSIZE < sz
        invariant 0 <= i <= PagesUp(sz) && Ok() && Built(s0, State(), n, 0, plan, i)
        decreases sz - i * PGSIZE
      {
        ok := CopyNext(o, n, i, PagesUp(sz), s0);
        if !ok {
          CopyBack(n, i, s0, plan);
          return false;
        }
        i := i + 1;
      }
      ok := true;
    }

    /** The failure path of copying. */
    method CopyBack(n: nat, i: nat, ghost s0: Mem, ghost plan: seq<Want>)
      requires Good(s0, lo) && Ok() && IsRoot(s0.role, n) && i <= MAXPAGE
      requires Built(s0, State(), n, 0, plan, i) && forall v | 0 <= v < i :: Flat(s0.pages, n, v) == ZERO
      modifies this
      ensures Ok() && Same(s0, State(), n)
    {
      hide Good, Flat, Changed, Realised, Unmapped, AllOwned;
      ghost var s := State();
      BuiltOwned(s0, s, n, 0, plan, i);
      RootKept(s0, s, n, 0, i);
      Uvmunmap(n, 0, i, true);
      Undone(s0, s, State(), lo, n, 0, i);
    }

    /** One turn of the copying loop: page i, if table o maps it. */
    method CopyNext(o: nat, n: nat, i: nat, ghost to: nat, ghost s0: Mem) returns (ok: bool)
      requires Ok() && IsRoot(s0.role, o) && IsRoot(s0.role, n) && o != n && i < to <= MAXPAGE
      requires AllOwned(s0, o, 0, to) && Flat(s0.pages, n, i) == ZERO && Good(s0, lo)
      requires Built(s0, State(), n, 0, CopyOf(s0, o, to), i)
      modifies this
      ensures Ok() && Built(s0, State(), n, 0, CopyOf(s0, o, to), if ok then i + 1 else i)
    {
      hide Good, Flat, Changed, Built, AllOwned, IsRoot, CopyOf, Owned;
      ghost var plan := CopyOf(s0, o, to);
      Source(s0, State(), lo, o, n, i, to);
      var found, p, k := Walk(o, i, false);
      ghost var s := State();
      if found { LeafRead(s, lo, o, i, p); } else { NotReached(s, o, i); }
      if !found || !Valid(pages[p][k]) {
        BuiltSkip(s0, s, n, 0, plan, i);
        return true;
      }
      var e := pages[p][k];
      ok := BuildNext(n, i, pages[e.ppn], e.flags, s0, 0, plan, i);
    }

    /** An empty user page table, or none without memory. */
    method Uvmcreate() returns (ok: bool, r: nat)
      requires Ok()
      modifies this
      ensures Ok() && ok == (old(freelist) != [])
      ensures !ok ==> State() == old(State())
      ensures ok ==>
                && r !in old(role) && role == old(role)[r := At(r, 3, 0)]
                && (forall v: nat | v < Span(0) :: Flat(pages, r, v) == ZERO)
                && (forall t: nat, v: nat | IsRoot(old(role), t) && v < Span(0) ::
                   Flat(pages, t, v) == Flat(old(pages), t, v))
    {
      hide Placed, Linked, Flat;
      ghost var s0 := State();
      ok, r := Kalloc();
      if ok {
        RootAdded(s0, lo);
        pages := pages[r := Filled(ZERO)];
        assert State() == Prepared(s0, Filled(ZERO));
        role := role[r := At(r, 3, 0)];
      }
    }

    /** Free the tables at and below page p, each exactly once; the panic on a leaf cannot happen. */
    method Freewalk(p: nat, ghost r: nat, ghost l: nat, ghost index: nat)
      requires Accounted(State(), lo) && Tree(State(), r, p, l, index)
      modifies this
      ensures Accounted(State(), lo) && Pruned(old(State()), State(), r, l, index)
      decreases l
    {
      hide Tree, Pruned, Pruning, Accounted;
      ghost var s0 := State();
      TreeTop(s0, lo, r, p, l, index);
      var k := 0;
      while k < ENTRIES
        invariant k <= ENTRIES && Accounted(State(), lo) && Pruning(s0, State(), r, p, l, index, k)
      {
        FreeBranch(p, k, r, l, index, s0);
        k := k + 1;
      }
      ghost var s := State();
      PruneAll(s0, s, lo, r, p, l, index);
      PruningHere(s0, s, r, p, l, index, k);
      FreedAccounted(s, lo, p);
      Kfree(p);
    }

    /** One turn of the loop: the subtree at entry k, if there is one. */
    method FreeBranch(p: nat, k: nat, ghost r: nat, ghost l: nat, ghost index: nat, ghost s0: Mem)
      requires Accounted(State(), lo) && Tree(s0, r, p, l, index) && k < ENTRIES
               && Pruning(s0, State(), r, p, l, index, k)
      modifies this
      ensures Accounted(State(), lo) && Pruning(s0, State(), r, p, l, index, k + 1)
      decreases l, 0
    {
      hide Tree, Pruned, Pruning, Accounted;
      ghost var s := State();
      PruningHere(s0, s, r, p, l, index, k);
      var pte := pages[p][k];
      if Valid(pte) {
        NextWhole(s0, s, r, p, l, index, k);
        Freewalk(pte.ppn, r, l - 1, index * ENTRIES + k);
        ghost var s1 := State();
        PruneChild(s0, s, s1, r, p, l, index, k);
        SameAccounted(s1, lo, p, k);
        pages := pages[p := pages[p][k := ZERO]];
        assert State() == Stored(s1, p, k, ZERO);
      } else {
        PruneSkip(s0, s, r, p, l, index, k);
      }
    }

    /** Free the user pages below sz, then every table of r. Other tables keep their maps and pages. */
    method Uvmfree(r: nat, sz: nat)
      requires Ok() && IsRoot(role, r) && sz <= MAXPAGE * PGSIZE && AllOwned(State(), r, 0, PagesUp(sz))
      requires forall v: nat | PagesUp(sz) <= v < Span(0) :: Flat(pages, r, v) == ZERO
      modifies this
      ensures Ok()
      ensures forall q: nat | q in old(role) :: q in role <==> !(old(role)[q].At? && old(role)[q].root == r)
      ensures forall q: nat | q in role :: q in old(role) && role[q] == old(role)[q]
      ensures forall t: nat, v: nat | IsRoot(old(role), t) && t != r && v < Span(0) ::
              Flat(pages, t, v) == Flat(old(pages), t, v)
    {
      hide Placed, Linked, Flat, Unmapped, AllOwned, Tree, Pruned, Owned;
      ghost var s0 := State();
      UnmappedNone(s0, lo, r, 0, true);
      if sz > 0 {
        Uvmunmap(r, 0, PagesUp(sz), true);
      }
      ghost var s := State();
      Emptied(s0, s, r, PagesUp(sz));
      TreeOf(s, lo, r, r, 3, 0);
      Freewalk(r, r, 3, 0);
      PrunedGood(s, State(), lo, r);
      AllGone(s0, s, State(), lo, r, PagesUp(sz));
    }
  }

  lemma TreeTop(s: Mem, lo: nat, r: nat, p: nat, l: nat, index: nat)
    requires Tree(s, r, p, l, index) && Accounted(s, lo)
    ensures Pruning(s, s, r, p, l, index, 0)
  {
    PruneNone(s, r, p, l, index);
  }

  lemma PruningHere(s0: Mem, s: Mem, r: nat, p: nat, l: nat, index: nat, k: nat)
    requires Pruning(s0, s, r, p, l, index, k) && Tree(s0, r, p, l, index)
    ensures p in s.role && p < |s.pages| && 1 <= l && s0.role[p] == At(r, l, index)
  {
    hide Branch;
  }

  lemma SameAccounted(s: Mem, lo: nat, p: nat, k: nat)
    requires Accounted(s, lo) && p < |s.pages| && k < ENTRIES
    ensures Accounted(Stored(s, p, k, ZERO), lo)
  {
  }

  lemma Emptied(s0: Mem, s: Mem, r: nat, n: nat)
    requires Unmapped(s0, s, r, 0, n, true) && IsRoot(s0.role, r)
    requires forall v: nat | n <= v < Span(0) :: Flat(s0.pages, r, v) == ZERO
    ensures IsRoot(s.role, r) && forall v: nat | v < Span(0) :: Flat(s.pages, r, v) == ZERO
  {
    hide Flat;
  }

  /** Unmapped pages and freed tables together are all that belonged to r. */
  lemma AllGone(s0: Mem, s: Mem, s': Mem, lo: nat, r: nat, n: nat)
    requires Good(s0, lo) && IsRoot(s0.role, r) && n <= Span(0)
    requires Unmapped(s0, s, r, 0, n, true) && (forall v: nat | n <= v < Span(0) :: Flat(s0.pages, r, v) == ZERO)
    requires Pruned(s, s', r, 3, 0)
    requires forall q: nat | q in s.role :: q in s'.role <==> !(s.role[q].At? && s.role[q].root == r)
    requires forall t: nat, v: nat | IsRoot(s.role, t) && t != r && v < Span(0) ::
             Flat(s'.pages, t, v) == Flat(s.pages, t, v)
    ensures forall q: nat | q in s0.role :: q in s'.role <==> !(s0.role[q].At? && s0.role[q].root == r)
    ensures forall q: nat | q in s'.role :: q in s0.role && s'.role[q] == s0.role[q]
    ensures forall t: nat, v: nat | IsRoot(s0.role, t) && t != r && v < Span(0) ::
            Flat(s'.pages, t, v) == Flat(s0.pages, t, v)
  {
    hide Flat, Under, Entry;
    forall t: nat | IsRoot(s0.role, t) ensures IsRoot(s.role, t) { }
  }

  /** PTE_R | PTE_U and the extra bits, which are write and execute. */
  function UserPerm(xperm: nat): nat { 18 + xperm }

  function PagesBetween(oldsz: nat, newsz: nat): nat {
    if PagesUp(newsz) > PagesUp(oldsz) then PagesUp(newsz) - PagesUp(oldsz) else 0
  }

  /** What growing should give: a zeroed page at every place. */
  function NewPages(oldsz: nat, newsz: nat, xperm: nat): (plan: seq<Want>)
    ensures |plan| == PagesBetween(oldsz, newsz)
  {
    seq(PagesBetween(oldsz, newsz), _ => Want(WithValid(UserPerm(xperm)), Filled(ZERO)))
  }

  /** What copying should give: the flags and content of the pages o maps, nothing where it maps none. */
  function CopyOf(s: Mem, o: nat, n: nat): (plan: seq<Want>)
    ensures |plan| == n
  {
    seq(n, v requires 0 <= v < n =>
      var e := Flat(s.pages, o, v);
      if e == ZERO || e.ppn >= |s.pages| then Nothing else Want(e.flags, s.pages[e.ppn]))
  }

  lemma Source(s0: Mem, s: Mem, lo: nat, o: nat, n: nat, i: nat, to: nat)
    requires IsRoot(s0.role, o) && o != n && i < to <= MAXPAGE && AllOwned(s0, o, 0, to) && Good(s0, lo)
    requires Built(s0, s, n, 0, CopyOf(s0, o, to), i)
    ensures IsRoot(s.role, o) && Flat(s.pages, o, i) == Flat(s0.pages, o, i)
    ensures var e := Flat(s.pages, o, i);
      if e == ZERO then CopyOf(s0, o, to)[i] == Nothing
      else Valid(e) && e.ppn < |s.pages| && CopyOf(s0, o, to)[i] == Want(WithValid(e.flags), s.pages[e.ppn])
  {
    hide Entry, Built, Placed, Linked;
    assert Owned(s0, o, i);
    BuiltAhead(s0, s, n, 0, CopyOf(s0, o, to), i, o, i);
  }

  lemma LeafRead(s: Mem, lo: nat, r: nat, v: nat, p: nat)
    requires Good(s, lo) && IsRoot(s.role, r) && v < MAXPAGE && p in s.role && s.role[p] == At(r, 1, v / ENTRIES)
    ensures p < |s.pages|
    ensures var e := s.pages[p][v % ENTRIES]; Flat(s.pages, r, v) == if Valid(e) then e else ZERO
  {
    hide Good, Entry;
    Descend(s, lo, r, 0, v, p);
  }

  lemma NotReached(s: Mem, r: nat, v: nat)
    requires Entry(s.pages, r, 0, v) == ZERO
    ensures Flat(s.pages, r, v) == ZERO
  {
  }

  lemma UnmappedNone(s: Mem, lo: nat, r: nat, v: nat, free: bool)
    requires Good(s, lo)
    ensures Unmapped(s, s, r, v, v, free)
  {
  }

  /** Pages still to be unmapped are as at the start. */
  lemma UnmapAhead(s0: Mem, s: Mem, r: nat, v: nat, a: nat, to: nat, free: bool)
    requires Unmapped(s0, s, r, v, a, free) && IsRoot(s0.role, r) && v <= a < to <= MAXPAGE
    ensures IsRoot(s.role, r) && (AllOwned(s0, r, v, to) ==> Owned(s, r, a))
  {
    assert AllOwned(s0, r, v, to) ==> Owned(s0, r, a);
    hide Flat;
  }

  lemma SameAt(s0: Mem, s: Mem, r: nat, v: nat)
    requires Same(s0, s, r) && IsRoot(s0.role, r) && v < MAXPAGE
    ensures IsRoot(s.role, r) && Flat(s.pages, r, v) == Flat(s0.pages, r, v)
  {
  }

  lemma PaintAhead(s0: Mem, s: Mem, r: nat, v: nat, n: nat, ppn: nat, flags: nat)
    requires Painted(s0, s, r, v, n, ppn, flags) && IsRoot(s0.role, r) && v + n < MAXPAGE
    ensures IsRoot(s.role, r) && Flat(s.pages, r, v + n) == Flat(s0.pages, r, v + n)
  {
  }

  lemma RootStays(s0: Mem, s: Mem, r: nat)
    requires Same(s0, s, r) && IsRoot(s0.role, r)
    ensures IsRoot(s.role, r)
  {
  }

  /** When the walk stops early the leaf entry reads zero. */
  lemma {:induction false} Unreached(s: Mem, lo: nat, r: nat, v: nat, level: nat)
    requires v < MAXPAGE && 0 < level < 3 && !Valid(Entry(s.pages, r, level, PathIndex(v, level)))
    ensures Entry(s.pages, r, 0, v) == ZERO
  {
    PathUp(v, level - 1);
    if level > 1 { Unreached(s, lo, r, v, level - 1); }
  }
}
