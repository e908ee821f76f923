/** The offline checker's block passes: which images they call clean. */
module Xfsck {
  import opened Bytes

  const NDIRECT: nat := 11
  const NINDIRECT: nat := BSIZE / 4

  /** An inode with direct, singly indirect and doubly indirect addresses; kind 0 is free. */
  datatype Inode = Inode(kind: nat, addrs: seq<u32>)

  /** An image as its reader gives it: every block as words, the bitmap, the inodes. */
  datatype Image = Image(size: nat, firstdata: nat, words: seq<seq<u32>>, used: seq<bool>, inodes: seq<Inode>)

  /** Long enough for its superblock. */
  predicate ImageOk(m: Image) {
    && m.size <= |m.words| && m.size <= |m.used| && 1 <= m.firstdata
    && (forall b | 0 <= b < |m.words| :: |m.words[b]| == NINDIRECT)
    && (forall i | 0 <= i < |m.inodes| :: |m.inodes[i].addrs| == NDIRECT + 2)
  }

  predicate Region(m: Image, b: nat) { m.firstdata <= b < m.size }

  /** Where an inode keeps an address. */
  datatype Pos =
    | Direct(i: nat)
    | Single                      // the singly indirect block itself
    | SingleEntry(i: nat)
    | Double                      // the top of the doubly indirect tree
    | DoubleIndex(i: nat)
    | DoubleEntry(i: nat, j: nat)

  predicate PosOk(p: Pos) {
    match p
    case Direct(i) => i < NDIRECT
    case SingleEntry(i) => i < NINDIRECT
    case DoubleIndex(i) => i < NINDIRECT
    case DoubleEntry(i, j) => i < NINDIRECT && j < NINDIRECT
    case _ => true
  }

  predicate Allocated(m: Image, inum: nat) { 1 <= inum < |m.inodes| && m.inodes[inum].kind != 0 }

  /** Entry i of index block b; 0 if there is no such block in the image. */
  function EntryOf(m: Image, b: nat, i: nat): u32
    requires ImageOk(m) && i < NINDIRECT
  {
    if b == 0 || b >= |m.words| then 0 else m.words[b][i]
  }

  /** The address an allocated inode has at a position, 0 for none. */
  function AddrAt(m: Image, inum: nat, p: Pos): u32
    requires ImageOk(m) && Allocated(m, inum) && PosOk(p)
  {
    var a := m.inodes[inum].addrs;
    match p
    case Direct(i) => a[i]
    case Single => a[NDIRECT]
    case SingleEntry(i) => EntryOf(m, a[NDIRECT], i)
    case Double => a[NDIRECT + 1]
    case DoubleIndex(i) => EntryOf(m, a[NDIRECT + 1], i)
    case DoubleEntry(i, j) => EntryOf(m, EntryOf(m, a[NDIRECT + 1], i), j)
  }

  predicate Slot(m: Image, inum: nat, p: Pos) { Allocated(m, inum) && PosOk(p) }

  ghost predicate InRegion(m: Image)
    requires ImageOk(m)
  {
    forall i: nat, p | Slot(m, i, p) && AddrAt(m, i, p) != 0 :: Region(m, AddrAt(m, i, p))
  }

  ghost predicate NoSharing(m: Image)
    requires ImageOk(m)
  {
    forall i: nat, p, k: nat, q | Slot(m, i, p) && Slot(m, k, q) && AddrAt(m, i, p) != 0
      && AddrAt(m, i, p) == AddrAt(m, k, q) ::
      i == k && p == q
  }

  /** What the block passes stand for: every address in the data region, no block twice, the bitmap exactly those. */
  ghost predicate Consistent(m: Image)
    requires ImageOk(m)
  {
    InRegion(m) && NoSharing(m) && forall b: nat | Region(m, b) :: m.used[b] <==> Referenced(m, b)
  }

  ghost predicate Referenced(m: Image, b: nat)
    requires ImageOk(m)
  {
    exists i: nat, p :: Slot(m, i, p) && AddrAt(m, i, p) == b
  }

  /** The walk's order; each entry of the doubly indirect top takes 1 + 256 places. */
  function Rank(p: Pos): nat {
    match p
    case Direct(i) => i
    case Single => NDIRECT
    case SingleEntry(i) => NDIRECT + 1 + i
    case Double => NDIRECT + 1 + NINDIRECT
    case DoubleIndex(i) => NDIRECT + 2 + NINDIRECT + i * 257
    case DoubleEntry(i, j) => NDIRECT + 2 + NINDIRECT + i * 257 + 1 + j
  }

  const RANKS: nat := NDIRECT + 2 + NINDIRECT + NINDIRECT * 257

  lemma RankOnce(p: Pos, q: Pos)
    requires PosOk(p) && PosOk(q) && Rank(p) == Rank(q)
    ensures p == q
  {
  }

  /** The walk goes below an index block only if that block is in the data region. */
  predicate Due(m: Image, inum: nat, p: Pos)
    requires ImageOk(m) && Slot(m, inum, p)
  {
    var a := m.inodes[inum].addrs;
    match p
    case SingleEntry(_) => Region(m, a[NDIRECT])
    case DoubleIndex(_) => Region(m, a[NDIRECT + 1])
    case DoubleEntry(i, _) => Region(m, a[NDIRECT + 1]) && Region(m, EntryOf(m, a[NDIRECT + 1], i))
    case _ => true
  }

  datatype Claim = Claim(inum: nat, pos: Pos, addr: nat)

  /** Claims are made in increasing order of inode and rank. */
  predicate Before(inum: nat, r: nat, c: Claim) { c.inum < inum || (c.inum == inum && Rank(c.pos) < r) }

  ghost predicate LogOk(m: Image, log: seq<Claim>)
    requires ImageOk(m)
  {
    && (forall k | 0 <= k < |log| ::
          Slot(m, log[k].inum, log[k].pos) && log[k].addr == AddrAt(m, log[k].inum, log[k].pos))
    && (forall j, k | 0 <= j < k < |log| :: Before(log[k].inum, Rank(log[k].pos), log[j]))
  }

  ghost predicate Logged(log: seq<Claim>, inum: nat, p: Pos) {
    exists k :: 0 <= k < |log| && log[k].inum == inum && log[k].pos == p
  }

  /** Everything due below (inum, r) is in the log, and nothing else. */
  ghost predicate Covered(m: Image, log: seq<Claim>, inum: nat, r: nat)
    requires ImageOk(m)
  {
    && (forall k | 0 <= k < |log| :: Before(inum, r, log[k]))
    && (forall i: nat, p | Slot(m, i, p) && (i < inum || (i == inum && Rank(p) < r)) && Due(m, i, p) ::
          Logged(log, i, p))
  }

  ghost predicate Clean(m: Image, log: seq<Claim>) {
    && (forall k | 0 <= k < |log| && log[k].addr != 0 :: Region(m, log[k].addr))
    && (forall j, k | 0 <= j < k < |log| && log[j].addr != 0 :: log[j].addr != log[k].addr)
  }

  ghost predicate Claimed(log: seq<Claim>, b: nat) { exists k :: 0 <= k < |log| && log[k].addr == b }

  /** The owner table and the count of problems, as the claims so far determine them. */
  ghost predicate OwnersOk(m: Image, log: seq<Claim>, owner: seq<nat>, nviol: nat) {
    && |owner| == m.size
    && (forall b: nat | Region(m, b) :: owner[b] != 0 <==> Claimed(log, b))
    && (nviol == 0 <==> Clean(m, log))
  }

  class Checker {
    const m: Image
    var owner: array<nat>
    var nviol: nat
    ghost var log: seq<Claim>

    ghost predicate Ok()
      reads this, owner
    {
      owner.Length == m.size && ImageOk(m) && LogOk(m, log) && OwnersOk(m, log, owner[..], nviol)
    }

    constructor (image: Image)
      requires ImageOk(image)
      ensures Ok() && m == image && log == [] && fresh(owner)
    {
      m := image;
      owner := new nat[image.size](_ => 0);
      nviol, log := 0, [];
    }

    /** Record a reference, or report it. */
    method ClaimBlock(bno: u32, inum: nat, ghost p: Pos)
      requires Ok() && Slot(m, inum, p) && bno == AddrAt(m, inum, p)
      requires forall k | 0 <= k < |log| :: Before(inum, Rank(p), log[k])
      modifies owner, this`nviol, this`log
      ensures Ok() && log == old(log) + [Claim(inum, p, bno)]
    {
      ghost var log0, owner0, nviol0 := log, owner[..], nviol;
      log := log + [Claim(inum, p, bno)];
      if bno != 0 {
        if !(m.firstdata <= bno < m.size) {
          nviol := nviol + 1;
        } else if owner[bno] != 0 {
          nviol := nviol + 1;
        } else {
          owner[bno] := inum;
        }
      }
      ClaimKeeps(m, log0, Claim(inum, p, bno), owner0, nviol0, owner[..], nviol);
    }

    /** Claim every block an inode reaches: direct blocks, then the two index trees, block by block. */
    method WalkInode(inum: nat)
      requires Ok() && Allocated(m, inum) && Covered(m, log, inum, 0)
      modifies owner, this`nviol, this`log
      ensures Ok() && Covered(m, log, inum, RANKS)
    {
      hide LogOk, OwnersOk, Due, Covered;
      var a := m.inodes[inum].addrs;
      var i := 0;
      while i < NDIRECT
        invariant 0 <= i <= NDIRECT && Ok() && Covered(m, log, inum, i)
      {
        ClaimAt(a[i], inum, Direct(i));
        i := i + 1;
      }
      ClaimAt(a[NDIRECT], inum, Single);
      WalkSingle(inum, a[NDIRECT]);
      ClaimAt(a[NDIRECT + 1], inum, Double);
      WalkDouble(inum, a[NDIRECT + 1]);
    }

    /** The claim of one position, whose turn it is. */
    method ClaimAt(bno: u32, inum: nat, ghost p: Pos)
      requires Ok() && Slot(m, inum, p) && bno == AddrAt(m, inum, p) && Covered(m, log, inum, Rank(p))
      modifies owner, this`nviol, this`log
      ensures Ok() && Covered(m, log, inum, Rank(p) + 1)
    {
      hide LogOk, OwnersOk, AddrAt, Due, Logged;
      CoveredStep(m, log, inum, p);
      ClaimBlock(bno, inum, p);
    }

    method WalkSingle(inum: nat, ib: u32)
      requires Ok() && Allocated(m, inum) && ib == m.inodes[inum].addrs[NDIRECT] && Covered(m, log, inum, NDIRECT + 1)
      modifies owner, this`nviol, this`log
      ensures Ok() && Covered(m, log, inum, NDIRECT + 1 + NINDIRECT)
    {
      hide LogOk, OwnersOk, Covered;
      if m.firstdata <= ib < m.size {
        var a := m.words[ib];
        var i := 0;
        while i < NINDIRECT
          invariant 0 <= i <= NINDIRECT && Ok() && Covered(m, log, inum, NDIRECT + 1 + i)
        {
          ClaimAt(a[i], inum, SingleEntry(i));
          i := i + 1;
        }
      } else {
        CoveredSkip(m, log, inum, NDIRECT + 1, NDIRECT + 1 + NINDIRECT);
      }
    }

    method WalkDouble(inum: nat, db: u32)
      requires Ok() && Allocated(m, inum) && db == m.inodes[inum].addrs[NDIRECT + 1]
      requires Covered(m, log, inum, NDIRECT + 2 + NINDIRECT)
      modifies owner, this`nviol, this`log
      ensures Ok() && Covered(m, log, inum, RANKS)
    {
      hide LogOk, OwnersOk, Covered;
      if m.firstdata <= db < m.size {
        var a := m.words[db];
        var i := 0;
        while i < NINDIRECT
          invariant 0 <= i <= NINDIRECT && Ok() && Covered(m, log, inum, NDIRECT + 2 + NINDIRECT + i * 257)
        {
          ClaimAt(a[i], inum, DoubleIndex(i));
          WalkLeaf(inum, db, a[i], i);
          i := i + 1;
        }
      } else {
        CoveredSkip(m, log, inum, NDIRECT + 2 + NINDIRECT, RANKS);
      }
    }

    /** The data blocks that entry i of the doubly indirect top leads to. */
    method WalkLeaf(inum: nat, db: u32, l1: u32, i: nat)
      requires Ok() && Allocated(m, inum) && db == m.inodes[inum].addrs[NDIRECT + 1] && Region(m, db)
      requires i < NINDIRECT && l1 == m.words[db][i] && Covered(m, log, inum, Rank(DoubleIndex(i)) + 1)
      modifies owner, this`nviol, this`log
      ensures Ok() && Covered(m, log, inum, Rank(DoubleIndex(i)) + 1 + NINDIRECT)
    {
      hide LogOk, OwnersOk, Covered;
      if m.firstdata <= l1 < m.size {
        var a2 := m.words[l1];
        var j := 0;
        while j < NINDIRECT
          invariant 0 <= j <= NINDIRECT && Ok() && Covered(m, log, inum, Rank(DoubleIndex(i)) + 1 + j)
        {
          ClaimAt(a2[j], inum, DoubleEntry(i, j));
          j := j + 1;
        }
      } else {
        LeavesSkipped(m, inum, i);
        CoveredSkip(m, log, inum, Rank(DoubleIndex(i)) + 1, Rank(DoubleIndex(i)) + 1 + NINDIRECT);
      }
    }

    /** Pass 1 and the bitmap comparison: no problem is reported exactly for the consistent images. */
    method Check() returns (problems: nat)
      requires Ok() && log == []
      modifies owner, this`nviol, this`log
      ensures problems == 0 <==> Consistent(m)
    {
      hide LogOk, AddrAt, Due, Covered, OwnersOk, Consistent;
      var inum := 1;
      assert Covered(m, log, 1, 0) by { CoveredNone(m); }
      while inum < |m.inodes|
        invariant 1 <= inum && Ok() && Covered(m, log, inum, 0)
      {
        if m.inodes[inum].kind != 0 {
          WalkInode(inum);
        }
        NextInode(m, log, inum);
        inum := inum + 1;
      }
      var wrong := 0;
      var b := m.firstdata;
      while b < m.size
        invariant m.firstdata <= b && owner.Length == m.size && Ok() && Covered(m, log, inum, 0)
        invariant wrong == 0 <==> forall c: nat | m.firstdata <= c < b && c < m.size :: m.used[c] <==> owner[c] != 0
      {
        if m.used[b] && owner[b] == 0 {
          wrong := wrong + 1;
        } else if !m.used[b] && owner[b] != 0 {
          wrong := wrong + 1;
        }
        b := b + 1;
      }
      problems := nviol + wrong;
      Verdict(m, log, owner[..], nviol, inum, wrong);
    }
  }

  lemma ClaimKeeps(m: Image, log: seq<Claim>, c: Claim, owner: seq<nat>, nviol: nat, owner': seq<nat>, nviol': nat)
    requires ImageOk(m) && OwnersOk(m, log, owner, nviol) && c.inum >= 1
    requires if c.addr == 0 then owner' == owner && nviol' == nviol
             else if !Region(m, c.addr) || owner[c.addr] != 0 then owner' == owner && nviol' == nviol + 1
             else owner' == owner[c.addr := c.inum] && nviol' == nviol
    ensures OwnersOk(m, log + [c], owner', nviol')
  {
    CleanStep(m, log, c);
    forall b: nat ensures Claimed(log + [c], b) <==> Claimed(log, b) || b == c.addr { ClaimedStep(log, c, b); }
    assert Region(m, c.addr) ==> (owner[c.addr] != 0 <==> Claimed(log, c.addr));
    hide Clean, Claimed;
  }

  lemma ClaimedStep(log: seq<Claim>, c: Claim, b: nat)
    ensures Claimed(log + [c], b) <==> Claimed(log, b) || b == c.addr
  {
    var log' := log + [c];
    assert log'[|log|] == c;
    if Claimed(log, b) {
      var k :| 0 <= k < |log| && log[k].addr == b;
      assert log'[k].addr == b;
    }
  }

  lemma CleanStep(m: Image, log: seq<Claim>, c: Claim)
    ensures Clean(m, log + [c]) <==> Clean(m, log) && (c.addr == 0 || (Region(m, c.addr) && !Claimed(log, c.addr)))
  {
    var log' := log + [c];
    assert log'[|log|] == c && forall k | 0 <= k < |log| :: log'[k] == log[k];
    if Clean(m, log') {
      forall k | 0 <= k < |log| && log[k].addr != 0 ensures Region(m, log[k].addr) { assert log'[k] == log[k]; }
      forall j, k | 0 <= j < k < |log| && log[j].addr != 0 ensures log[j].addr != log[k].addr {
        assert log'[j] == log[j] && log'[k] == log[k];
      }
    }
  }

  // ---- the walk -------------------------------------------------------------------------------

  lemma LoggedNow(log: seq<Claim>, c: Claim)
    ensures Logged(log + [c], c.inum, c.pos)
    ensures forall i: nat, p | Logged(log, i, p) :: Logged(log + [c], i, p)
  {
    var log' := log + [c];
    assert log'[|log|] == c;
    forall i: nat, p | Logged(log, i, p) ensures Logged(log', i, p) {
      var k :| 0 <= k < |log| && log[k].inum == i && log[k].pos == p;
      assert log'[k].inum == i;
    }
  }

  /** One more claim, in its place. */
  lemma CoveredStep(m: Image, log: seq<Claim>, inum: nat, p: Pos)
    requires ImageOk(m) && Slot(m, inum, p) && Covered(m, log, inum, Rank(p))
    ensures Covered(m, log + [Claim(inum, p, AddrAt(m, inum, p))], inum, Rank(p) + 1)
  {
    hide AddrAt, Due, Logged;
    var c := Claim(inum, p, AddrAt(m, inum, p));
    LoggedNow(log, c);
    forall i: nat, q | Slot(m, i, q) && (i < inum || (i == inum && Rank(q) < Rank(p) + 1)) && Due(m, i, q)
      ensures Logged(log + [c], i, q)
    {
      if i == inum && Rank(q) == Rank(p) { RankOnce(p, q); }
    }
  }

  /** Positions that are not due can be passed over. */
  lemma CoveredSkip(m: Image, log: seq<Claim>, inum: nat, r: nat, r': nat)
    requires ImageOk(m) && Covered(m, log, inum, r) && r <= r'
    requires forall p | Slot(m, inum, p) && r <= Rank(p) < r' :: !Due(m, inum, p)
    ensures Covered(m, log, inum, r')
  {
    hide AddrAt, Due, Logged;
  }

  lemma RankOfLeaf(p: Pos, i: nat)
    requires PosOk(p) && i < NINDIRECT
    requires Rank(DoubleIndex(i)) + 1 <= Rank(p) < Rank(DoubleIndex(i)) + 1 + NINDIRECT
    ensures p.DoubleEntry? && p.i == i
  {
  }

  lemma LeavesSkipped(m: Image, inum: nat, i: nat)
    requires ImageOk(m) && Allocated(m, inum) && i < NINDIRECT
    requires !Region(m, EntryOf(m, m.inodes[inum].addrs[NDIRECT + 1], i))
    ensures forall p | Slot(m, inum, p) && Rank(DoubleIndex(i)) + 1 <= Rank(p) < Rank(DoubleIndex(i)) + 1 + NINDIRECT ::
              !Due(m, inum, p)
  {
    hide Rank;
    forall p | Slot(m, inum, p) && Rank(DoubleIndex(i)) + 1 <= Rank(p) < Rank(DoubleIndex(i)) + 1 + NINDIRECT
      ensures !Due(m, inum, p)
    {
      RankOfLeaf(p, i);
    }
  }

  lemma RankBound(p: Pos)
    requires PosOk(p)
    ensures Rank(p) < RANKS
  {
  }

  lemma CoveredNone(m: Image)
    requires ImageOk(m)
    ensures Covered(m, [], 1, 0)
  {
  }

  lemma NextInode(m: Image, log: seq<Claim>, inum: nat)
    requires ImageOk(m) && inum >= 1
    requires if Allocated(m, inum) then Covered(m, log, inum, RANKS) else Covered(m, log, inum, 0)
    ensures Covered(m, log, inum + 1, 0)
  {
    hide AddrAt, Due, Logged, Rank, PosOk;
    forall p | PosOk(p) ensures Rank(p) < RANKS { RankBound(p); }
  }

  // ---- what the verdict means ----------------------------------------------------------------

  /** Nothing is reached except through blocks the walk goes down, if all those are in the data region. */
  lemma ReachedIsDue(m: Image, inum: nat, p: Pos)
    requires ImageOk(m) && Slot(m, inum, p) && AddrAt(m, inum, p) != 0
    requires forall q | Slot(m, inum, q) && Due(m, inum, q) && AddrAt(m, inum, q) != 0 :: Region(m, AddrAt(m, inum, q))
    ensures Due(m, inum, p)
  {
    match p
    case SingleEntry(i) => assert Slot(m, inum, Single) && Due(m, inum, Single);
    case DoubleIndex(i) => assert Slot(m, inum, Double) && Due(m, inum, Double);
    case DoubleEntry(i, j) =>
      assert Slot(m, inum, Double) && Due(m, inum, Double);
      assert Slot(m, inum, DoubleIndex(i)) && Due(m, inum, DoubleIndex(i));
    case _ =>
  }

  /** The entry of a slot that was due. */
  lemma EntryFor(m: Image, log: seq<Claim>, inum: nat, end: nat, p: Pos) returns (k: nat)
    requires ImageOk(m) && LogOk(m, log) && Covered(m, log, end, 0) && inum < end && Slot(m, inum, p) && Due(m, inum, p)
    ensures k < |log| && log[k] == Claim(inum, p, AddrAt(m, inum, p))
  {
    hide AddrAt, Due;
    assert Logged(log, inum, p);
    k :| 0 <= k < |log| && log[k].inum == inum && log[k].pos == p;
  }

  lemma CleanReaches(m: Image, log: seq<Claim>, end: nat, inum: nat, p: Pos) returns (k: nat)
    requires ImageOk(m) && LogOk(m, log) && Covered(m, log, end, 0) && inum < end && Slot(m, inum, p)
             && AddrAt(m, inum, p) != 0
    requires Clean(m, log) || InRegion(m)
    ensures k < |log| && log[k] == Claim(inum, p, AddrAt(m, inum, p))
  {
    hide AddrAt, Due, Covered, LogOk;
    forall q | Slot(m, inum, q) && Due(m, inum, q) && AddrAt(m, inum, q) != 0 ensures Region(m, AddrAt(m, inum, q)) {
      var j := EntryFor(m, log, inum, end, q);
    }
    ReachedIsDue(m, inum, p);
    k := EntryFor(m, log, inum, end, p);
  }

  lemma CleanIff(m: Image, log: seq<Claim>, end: nat)
    requires ImageOk(m) && LogOk(m, log) && Covered(m, log, end, 0) && end >= |m.inodes|
    ensures Clean(m, log) <==> InRegion(m) && NoSharing(m)
  {
    hide AddrAt, Due, Covered, PosOk, Rank;
    if Clean(m, log) {
      forall i: nat, p | Slot(m, i, p) && AddrAt(m, i, p) != 0 ensures Region(m, AddrAt(m, i, p)) {
        var k := CleanReaches(m, log, end, i, p);
      }
      forall i: nat, p, j: nat, q | Slot(m, i, p) && Slot(m, j, q) && AddrAt(m, i, p) != 0
        && AddrAt(m, i, p) == AddrAt(m, j, q)
        ensures i == j && p == q
      {
        var k := CleanReaches(m, log, end, i, p);
        var l := CleanReaches(m, log, end, j, q);
        assert k == l;
      }
    }
    if InRegion(m) && NoSharing(m) {
      forall j, k | 0 <= j < k < |log| && log[j].addr != 0 ensures log[j].addr != log[k].addr {
        assert Before(log[k].inum, Rank(log[k].pos), log[j]);
      }
    }
  }

  lemma ClaimedIff(m: Image, log: seq<Claim>, end: nat, b: nat)
    requires ImageOk(m) && LogOk(m, log) && Covered(m, log, end, 0) && end >= |m.inodes| && InRegion(m) && Region(m, b)
    ensures Claimed(log, b) <==> Referenced(m, b)
  {
    hide AddrAt, Due, Covered, PosOk, Rank;
    if Claimed(log, b) {
      var k :| 0 <= k < |log| && log[k].addr == b;
      assert Slot(m, log[k].inum, log[k].pos) && AddrAt(m, log[k].inum, log[k].pos) == b;
    }
    if Referenced(m, b) {
      var i: nat, p :| Slot(m, i, p) && AddrAt(m, i, p) == b;
      var k := CleanReaches(m, log, end, i, p);
    }
  }

  lemma Verdict(m: Image, log: seq<Claim>, owner: seq<nat>, nviol: nat, end: nat, wrong: nat)
    requires ImageOk(m) && LogOk(m, log) && OwnersOk(m, log, owner, nviol) && Covered(m, log, end, 0)
             && end >= |m.inodes|
    requires wrong == 0 <==> forall c: nat | m.firstdata <= c && c < m.size :: m.used[c] <==> owner[c] != 0
    ensures nviol + wrong == 0 <==> Consistent(m)
  {
    hide AddrAt, Due, Slot, LogOk, Covered, InRegion, NoSharing, Referenced, Claimed, Clean;
    CleanIff(m, log, end);
    if InRegion(m) {
      forall b: nat | Region(m, b) ensures Claimed(log, b) <==> Referenced(m, b) { ClaimedIff(m, log, end, b); }
    }
  }
}
