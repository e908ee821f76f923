/** The buffer cache: a doubly linked ring in order of use, reference counts, and coherence with the disk. */
module BufferCache {
  import opened Bytes
  import opened Counting

  const NBUF: nat := 30
  const HEAD: nat := NBUF      // the list head's place beside the buffers

  datatype Buf = Buf(dev: nat, blockno: nat, valid: bool, refcnt: nat, locked: bool, data: Block)

  // ---- the ring -------------------------------------------------------------------------------

  /** The i-th place of the ring: the head, then the buffers from most to least recently used, then the head again. */
  function At(r: seq<nat>, i: nat): nat { if 1 <= i <= |r| then r[i - 1] else HEAD }

  /** The i-th place and the one after it point at each other. */
  predicate Link(next: seq<nat>, prev: seq<nat>, r: seq<nat>, i: nat) {
    && At(r, i) < |next| && At(r, i + 1) < |prev|
    && next[At(r, i)] == At(r, i + 1) && prev[At(r, i + 1)] == At(r, i)
  }

  predicate Buffers(r: seq<nat>) { NoRepeat(r) && forall i | 0 <= i < |r| :: r[i] < NBUF }

  /** Both link fields describe the ring r. */
  ghost predicate Ring(next: seq<nat>, prev: seq<nat>, r: seq<nat>) {
    |next| == |prev| == NBUF + 1 && Buffers(r) && forall i: nat | i <= |r| :: Link(next, prev, r, i)
  }

  function Without(r: seq<nat>, k: nat): (r': seq<nat>)
    requires k < |r|
    ensures |r'| == |r| - 1
  {
    r[..k] + r[k + 1..]
  }

  lemma WithoutAt(r: seq<nat>, k: nat, i: nat)
    requires k < |r| && i <= |r|
    ensures At(Without(r, k), i) == At(r, if i <= k then i else i + 1)
  {
  }

  lemma WithoutBuffers(r: seq<nat>, k: nat)
    requires k < |r| && Buffers(r)
    ensures Buffers(Without(r, k)) && r[k] !in Without(r, k)
  {
  }

  /** Two places of the ring are the same only if they are the head or equal. */
  lemma Distinct(r: seq<nat>, i: nat, j: nat)
    requires Buffers(r) && i <= |r| + 1 && j <= |r| + 1
    ensures At(r, i) <= NBUF
    ensures At(r, i) == At(r, j) <==> i == j || ((i == 0 || i == |r| + 1) && (j == 0 || j == |r| + 1))
  {
  }

  /** b->next->prev = b->prev; b->prev->next = b->next. */
  lemma Unlinked(next: seq<nat>, prev: seq<nat>, r: seq<nat>, k: nat)
    requires Ring(next, prev, r) && k < |r|
    ensures next[r[k]] <= NBUF && prev[r[k]] <= NBUF
    ensures Ring(next[prev[r[k]] := next[r[k]]], prev[next[r[k]] := prev[r[k]]], Without(r, k))
  {
    hide At, Buffers, Without;
    PlaceOf(r, k);
    assert Link(next, prev, r, k) && Link(next, prev, r, k + 1);
    Distinct(r, k, k);
    Distinct(r, k + 2, k + 2);
    WithoutBuffers(r, k);
    var r' := Without(r, k);
    var next', prev' := next[At(r, k) := At(r, k + 2)], prev[At(r, k + 2) := At(r, k)];
    forall i: nat | i <= |r'| ensures Link(next', prev', r', i) {
      var was, follow := if i <= k then i else i + 1, if i + 1 <= k then i + 1 else i + 2;
      WithoutAt(r, k, i);
      WithoutAt(r, k, i + 1);
      assert Link(next, prev, r, was) && Link(next, prev, r, follow - 1);
      Distinct(r, was, k);
      Distinct(r, follow, k + 2);
    }
  }

  lemma PlaceOf(r: seq<nat>, k: nat)
    requires k < |r|
    ensures At(r, k + 1) == r[k] && At(r, 0) == HEAD && At(r, |r| + 1) == HEAD
  {
  }

  /** b goes between the head and what followed it. */
  lemma PushedFront(next: seq<nat>, prev: seq<nat>, r: seq<nat>, b: nat)
    requires Ring(next, prev, r) && b < NBUF && b !in r
    ensures next[HEAD] <= NBUF
    ensures Ring(next[b := next[HEAD]][HEAD := b], prev[b := HEAD][next[HEAD] := b], [b] + r)
  {
    hide At, Buffers;
    var r' := [b] + r;
    PushedBuffers(r, b);
    assert Link(next, prev, r, 0);
    PushedAt(r, b, 0);
    PushedAt(r, b, 1);
    PushedAt(r, b, 2);
    Distinct(r', 1, 2);
    Distinct(r, 1, 1);
    var next', prev' := next[b := next[HEAD]][HEAD := b], prev[b := HEAD][next[HEAD] := b];
    forall i: nat | i <= |r'| ensures Link(next', prev', r', i) {
      PushedAt(r, b, i);
      PushedAt(r, b, i + 1);
      if i > 0 {
        assert Link(next, prev, r, i - 1);
        Distinct(r', i, 1);
        Distinct(r', i, 0);
        Distinct(r', i + 1, 2);
        Distinct(r', i + 1, 1);
      }
    }
  }

  lemma PushedAt(r: seq<nat>, b: nat, i: nat)
    requires i <= |r| + 2
    ensures At([b] + r, i) == if i == 0 then HEAD else if i == 1 then b else At(r, i - 1)
    ensures At(r, 0) == HEAD
  {
  }

  lemma PushedBuffers(r: seq<nat>, b: nat)
    requires Buffers(r) && b < NBUF && b !in r
    ensures Buffers([b] + r)
  {
  }

  // ---- coherence ------------------------------------------------------------------------------

  type Disk = map<(nat, nat), Block>

  function OnDisk(disk: Disk, dev: nat, blockno: nat): Block {
    if (dev, blockno) in disk then disk[(dev, blockno)] else ZeroBlock()
  }

  predicate Keyed(bufs: seq<Buf>, i: nat, dev: nat, blockno: nat) {
    i < |bufs| && bufs[i].dev == dev && bufs[i].blockno == blockno
  }

  /** No block of a real device is in two buffers. */
  predicate Unique(bufs: seq<Buf>) {
    forall i, j | 0 <= i < j < |bufs| && bufs[i].dev != 0 ::
      bufs[i].dev != bufs[j].dev || bufs[i].blockno != bufs[j].blockno
  }

  /** A buffer nobody refers to can be recycled: it holds nothing the disk does not, and is not locked. */
  predicate Spare(b: Buf, disk: Disk) {
    b.refcnt == 0 ==> !b.locked && (b.valid ==> b.data == OnDisk(disk, b.dev, b.blockno))
  }

  predicate Sound(bufs: seq<Buf>, disk: Disk) {
    |bufs| == NBUF && Unique(bufs) && forall i | 0 <= i < |bufs| :: Spare(bufs[i], disk)
  }

  predicate Holds(bufs: seq<Buf>, i: nat, dev: nat, blockno: nat) { Keyed(bufs, i, dev, blockno) && bufs[i].valid }

  /** The current content of a block, whether cached or not: what a read must give. */
  ghost function Content(bufs: seq<Buf>, disk: Disk, dev: nat, blockno: nat): Block {
    if exists i: nat :: Holds(bufs, i, dev, blockno) then
      var i: nat :| Holds(bufs, i, dev, blockno); bufs[i].data
    else OnDisk(disk, dev, blockno)
  }

  lemma ContentAt(bufs: seq<Buf>, disk: Disk, i: nat)
    requires Unique(bufs) && i < |bufs| && bufs[i].dev != 0
    ensures Content(bufs, disk, bufs[i].dev, bufs[i].blockno) ==
            if bufs[i].valid then bufs[i].data else OnDisk(disk, bufs[i].dev, bufs[i].blockno)
  {
    if bufs[i].valid { assert Holds(bufs, i, bufs[i].dev, bufs[i].blockno); }
  }

  /** Every block of a real device reads the same before and after. */
  ghost predicate SameContent(bufs: seq<Buf>, disk: Disk, bufs': seq<Buf>, disk': Disk) {
    forall dev: nat, blockno: nat | dev != 0 :: Content(bufs', disk', dev, blockno) == Content(bufs, disk, dev, blockno)
  }

  /**
   One buffer changes and no other; if it stood for no block before or after, or for the same content, nothing
   reads differently.
   */
  lemma OneChange(bufs: seq<Buf>, disk: Disk, i: nat, b: Buf, disk': Disk, dev: nat, blockno: nat)
    requires i < |bufs| && Unique(bufs) && Unique(bufs[i := b]) && dev != 0
    requires forall d: nat, n: nat | d != 0 && (d, n) != (b.dev, b.blockno) :: OnDisk(disk', d, n) == OnDisk(disk, d, n)
    ensures (dev, blockno) != (b.dev, b.blockno) && (dev, blockno) != (bufs[i].dev, bufs[i].blockno) ==>
              Content(bufs[i := b], disk', dev, blockno) == Content(bufs, disk, dev, blockno)
  {
    var bufs' := bufs[i := b];
    if (dev, blockno) != (b.dev, b.blockno) && (dev, blockno) != (bufs[i].dev, bufs[i].blockno) {
      forall j: nat ensures Holds(bufs', j, dev, blockno) <==> Holds(bufs, j, dev, blockno) { }
      if exists j: nat :: Holds(bufs, j, dev, blockno) {
        var j: nat :| Holds(bufs, j, dev, blockno);
        ContentAt(bufs, disk, j);
        ContentAt(bufs', disk', j);
      } else {
        assert forall j: nat :: !Holds(bufs', j, dev, blockno);
      }
    }
  }

  /** Changing what does not matter to readers: counts, locks, or filling in what was on disk anyway. */
  lemma Touched(bufs: seq<Buf>, disk: Disk, i: nat, b: Buf, disk': Disk)
    requires Sound(bufs, disk) && i < |bufs| && b.dev == bufs[i].dev && b.blockno == bufs[i].blockno
    requires forall d: nat, n: nat | d != 0 && (d, n) != (b.dev, b.blockno) :: OnDisk(disk', d, n) == OnDisk(disk, d, n)
    requires b.dev != 0 ==>
               (if b.valid then b.data else OnDisk(disk', b.dev, b.blockno)) == Content(bufs, disk, b.dev, b.blockno)
    ensures Unique(bufs[i := b]) && SameContent(bufs, disk, bufs[i := b], disk')
  {
    var bufs' := bufs[i := b];
    assert Unique(bufs');
    forall dev: nat, blockno: nat | dev != 0
      ensures Content(bufs', disk', dev, blockno) == Content(bufs, disk, dev, blockno)
    {
      if (dev, blockno) == (b.dev, b.blockno) {
        ContentAt(bufs', disk', i);
      } else {
        OneChange(bufs, disk, i, b, disk', dev, blockno);
      }
    }
  }

  /** Recycling a spare buffer for a block in no buffer: the old block is on disk, the new one is read from there. */
  lemma Recycled(bufs: seq<Buf>, disk: Disk, i: nat, dev: nat, blockno: nat)
    requires Sound(bufs, disk) && i < |bufs| && bufs[i].refcnt == 0
    requires forall j: nat | j < |bufs| :: !Keyed(bufs, j, dev, blockno)
    ensures var bufs' := bufs[i := bufs[i].(dev := dev, blockno := blockno, valid := false, refcnt := 1)];
      Sound(bufs', disk) && SameContent(bufs, disk, bufs', disk)
  {
    var b := bufs[i].(dev := dev, blockno := blockno, valid := false, refcnt := 1);
    var bufs' := bufs[i := b];
    assert forall j: nat | j < |bufs| && j != i :: bufs'[j] == bufs[j] && !Keyed(bufs, j, dev, blockno);
    assert Unique(bufs');
    forall d: nat, n: nat | d != 0 ensures Content(bufs', disk, d, n) == Content(bufs, disk, d, n) {
      if (d, n) == (dev, blockno) {
        ContentAt(bufs', disk, i);
        assert forall j: nat :: !Holds(bufs, j, d, n);
      } else if (d, n) == (bufs[i].dev, bufs[i].blockno) {
        ContentAt(bufs, disk, i);
        assert forall j: nat :: !Holds(bufs', j, d, n);
      } else {
        OneChange(bufs, disk, i, b, disk, d, n);
      }
    }
  }

  /** A block can be had: it has a buffer, or some buffer can be recycled. */
  ghost predicate Available(bufs: seq<Buf>, dev: nat, blockno: nat) {
    (exists i: nat :: Keyed(bufs, i, dev, blockno)) || exists i :: 0 <= i < |bufs| && bufs[i].refcnt == 0
  }

  /** Buffer b as its new holder has it. */
  function Opened(b: Buf, dev: nat, blockno: nat, data: Block): Buf {
    Buf(dev, blockno, true, b.refcnt + 1, true, data)
  }

  // ---- the cache ------------------------------------------------------------------------------

  class Cache {
    var next: array<nat>
    var prev: array<nat>
    var buf: array<Buf>
    var disk: Disk
    ghost var ring: seq<nat>     // most recently used first
    ghost var trace: seq<Disk>   // the disk after every write so far

    ghost predicate Ok()
      reads this, next, prev, buf
    {
      && next != prev && next.Length == NBUF + 1 && prev.Length == NBUF + 1 && buf.Length == NBUF
      && Ring(next[..], prev[..], ring) && |ring| == NBUF && Sound(buf[..], disk)
    }

    /** binit: an empty ring, then every buffer pushed to its front. */
    constructor (contents: Disk)
      ensures Ok() && fresh(next) && fresh(prev) && fresh(buf) && disk == contents
      ensures forall i | 0 <= i < NBUF :: buf[i] == Buf(0, 0, false, 0, false, ZeroBlock())
    {
      next := new nat[NBUF + 1](_ => HEAD);
      prev := new nat[NBUF + 1](_ => HEAD);
      buf := new Buf[NBUF](_ => Buf(0, 0, false, 0, false, ZeroBlock()));
      disk, ring, trace := contents, [], [];
      new;
      assert Ring(next[..], prev[..], []) by { assert Link(next[..], prev[..], [], 0); }
      var b := 0;
      while b < NBUF
        modifies next, prev, this`ring
        invariant 0 <= b <= NBUF && Ring(next[..], prev[..], ring)
        invariant |ring| == b && forall i | 0 <= i < |ring| :: ring[i] < b
      {
        Push(b);
        b := b + 1;
      }
    }

    /** Link b in behind the head. */
    method Push(b: nat)
      requires next != prev && next.Length == NBUF + 1 && prev.Length == NBUF + 1 && Ring(next[..], prev[..], ring)
      requires b < NBUF && b !in ring
      modifies next, prev, this`ring
      ensures ring == [b] + old(ring) && Ring(next[..], prev[..], ring)
    {
      hide Ring;
      PushedFront(next[..], prev[..], ring, b);
      ghost var n: seq<nat>, p: seq<nat> := next[..], prev[..];
      ghost var n1: seq<nat>, p1: seq<nat> := n[b := n[HEAD]], p[b := HEAD];
      next[b] := next[HEAD];
      prev[b] := HEAD;
      prev[next[HEAD]] := b;
      next[HEAD] := b;
      assert next[..] == n1[HEAD := b] && prev[..] == p1[n[HEAD] := b];
      ring := [b] + ring;
    }

    /** Take b out of the ring. */
    method Unlink(b: nat, ghost k: nat)
      requires next != prev && next.Length == NBUF + 1 && prev.Length == NBUF + 1 && Ring(next[..], prev[..], ring)
      requires k < |ring| && ring[k] == b < NBUF
      modifies next, prev, this`ring
      ensures ring == Without(old(ring), k) && Ring(next[..], prev[..], ring)
    {
      hide Ring;
      Unlinked(next[..], prev[..], ring, k);
      ghost var n: seq<nat>, p: seq<nat> := next[..], prev[..];
      prev[next[b]] := prev[b];
      next[prev[b]] := next[b];
      assert prev[..] == p[n[b] := p[b]];
      ring := Without(ring, k);
    }

    /** The buffer of a block, if it has one: the first along the ring. */
    method Lookup(dev: nat, blockno: nat) returns (b: nat)
      requires Ok()
      ensures if b == HEAD then forall i: nat | i < NBUF :: !Keyed(buf[..], i, dev, blockno)
              else Keyed(buf[..], b, dev, blockno)
    {
      hide At, Sound;
      ghost var k := 0;
      AtHead(ring);
      assert Link(next[..], prev[..], ring, 0);
      b := next[HEAD];
      Distinct(ring, 1, 0);
      while b != HEAD && !(buf[b].dev == dev && buf[b].blockno == blockno)
        invariant k <= NBUF && b == At(ring, k + 1) && (b != HEAD ==> b < NBUF) && (b == HEAD <==> k == NBUF)
        invariant forall j: nat | j < k :: !Keyed(buf[..], ring[j], dev, blockno)
        decreases NBUF - k
      {
        PlaceOf(ring, k);
        assert Link(next[..], prev[..], ring, k + 1);
        Distinct(ring, k + 2, k + 2);
        Distinct(ring, k + 2, 0);
        AtHead(ring);
        b := next[b];
        k := k + 1;
      }
      if b == HEAD {
        Everywhere(ring);
        forall i: nat | i < NBUF ensures !Keyed(buf[..], i, dev, blockno) {
          assert i in ring;
          var j: nat :| j < NBUF && ring[j] == i;
        }
      }
    }

    /** The least recently used buffer nobody refers to. */
    method Victim() returns (b: nat, ghost k: nat)
      requires Ok()
      ensures if b == HEAD then forall i: nat | i < NBUF :: buf[i].refcnt > 0
              else k < NBUF && ring[k] == b < NBUF && buf[b].refcnt == 0
                   && forall j | k < j < NBUF :: buf[ring[j]].refcnt > 0
    {
      hide At, Sound;
      k := NBUF;
      AtHead(ring);
      assert Link(next[..], prev[..], ring, NBUF);
      b := prev[HEAD];
      Distinct(ring, NBUF, 0);
      while b != HEAD && buf[b].refcnt != 0
        invariant 0 <= k <= NBUF && b == At(ring, k) && (b != HEAD ==> b < NBUF) && (b == HEAD <==> k == 0)
        invariant forall j: nat | k <= j < NBUF :: buf[ring[j]].refcnt > 0
        decreases k
      {
        PlaceOf(ring, k - 1);
        assert Link(next[..], prev[..], ring, k - 1);
        Distinct(ring, k - 1, 0);
        AtHead(ring);
        b := prev[b];
        k := k - 1;
      }
      if b == HEAD {
        Everywhere(ring);
        forall i: nat | i < NBUF ensures buf[i].refcnt > 0 {
          assert i in ring;
          var j: nat :| j < NBUF && ring[j] == i;
        }
      } else {
        PlaceOf(ring, k - 1);
        k := k - 1;
      }
    }

    /**
     A buffer for a block: the one it has, referred to once more, or the least recently used spare one.
     None (xv6 panics) exactly when every buffer is referred to and none holds the block.
     No referred-to buffer is recycled, and every block reads as before.
     */
    method Bget(dev: nat, blockno: nat) returns (ok: bool, b: nat)
      requires Ok()
      modifies buf
      ensures Ok() && SameContent(old(buf[..]), disk, buf[..], disk)
      ensures ok <==> Available(old(buf[..]), dev, blockno)
      ensures ok ==> Keyed(buf[..], b, dev, blockno) && buf[b].refcnt > 0
      ensures forall i | 0 <= i < NBUF && (!ok || i != b) :: buf[i] == old(buf[i])
      ensures ok && Keyed(old(buf[..]), b, dev, blockno) ==> buf[b] == old(buf[b]).(refcnt := old(buf[b]).refcnt + 1)
      ensures ok && !Keyed(old(buf[..]), b, dev, blockno) ==>
                && old(buf[b]).refcnt == 0 && (forall i: nat | i < NBUF :: !Keyed(old(buf[..]), i, dev, blockno))
                && buf[b] == old(buf[b]).(dev := dev, blockno := blockno, valid := false, refcnt := 1)
                && exists k :: 0 <= k < NBUF && ring[k] == b && forall j | k < j < NBUF :: old(buf[ring[j]]).refcnt > 0
    {
      hide Ring, Content, SameContent, Unique;
      ghost var bufs := buf[..];
      b := Lookup(dev, blockno);
      if b != HEAD {
        CountOnly(bufs, disk, b, buf[b].refcnt + 1, buf[b].locked);
        buf[b] := buf[b].(refcnt := buf[b].refcnt + 1);
        assert buf[..] == bufs[b := buf[b]];
        return true, b;
      }
      ghost var k;
      b, k := Victim();
      if b == HEAD {
        Unchanged(bufs, disk);
        return false, HEAD;
      }
      Recycled(bufs, disk, b, dev, blockno);
      buf[b] := buf[b].(dev := dev, blockno := blockno, valid := false, refcnt := 1);
      assert buf[..] == bufs[b := buf[b]];
      ok := true;
    }

    /** acquiresleep on a buffer one refers to. */
    method Lock(b: nat)
      requires Ok() && b < NBUF && buf[b].refcnt > 0 && !buf[b].locked
      modifies buf
      ensures Ok() && SameContent(old(buf[..]), disk, buf[..], disk)
      ensures buf[..] == old(buf[..])[b := old(buf[b]).(locked := true)]
    {
      hide Ring, Content, SameContent, Unique;
      ghost var bufs := buf[..];
      CountOnly(bufs, disk, b, buf[b].refcnt, true);
      buf[b] := buf[b].(locked := true);
      assert buf[..] == bufs[b := buf[b]];
    }

    /**
     The rest of bread: read the block in if the buffer does not hold it yet. What it gives is the current
     content.
     */
    method Fill(b: nat) returns (data: Block)
      requires Ok() && b < NBUF && buf[b].locked && buf[b].refcnt > 0
      modifies buf
      ensures Ok() && SameContent(old(buf[..]), disk, buf[..], disk)
      ensures buf[b].valid && data == buf[b].data
              && buf[..] == old(buf[..])[b := old(buf[b]).(valid := true, data := data)]
      ensures old(buf[b]).valid ==> data == old(buf[b]).data
      ensures buf[b].dev != 0 ==> data == Content(buf[..], disk, buf[b].dev, buf[b].blockno)
    {
      hide Ring, Content, SameContent, Unique;
      ghost var bufs := buf[..];
      if !buf[b].valid {
        Filled(bufs, disk, b);
        buf[b] := buf[b].(valid := true, data := OnDisk(disk, buf[b].dev, buf[b].blockno));
        assert buf[..] == bufs[b := buf[b]];
      } else {
        Unchanged(bufs, disk);
        assert buf[..] == bufs[b := buf[b]];
      }
      data := buf[b].data;
      if buf[b].dev != 0 { ContentAt(buf[..], disk, b); }
    }

    /**
     bread: the current content of the block, in a locked buffer. If another process has the buffer locked,
     bread sleeps with its reference taken (`waits`), and goes on with Lock and Fill when woken.
     */
    method Bread(dev: nat, blockno: nat) returns (ok: bool, waits: bool, b: nat, data: Block)
      requires Ok()
      modifies buf
      ensures Ok() && SameContent(old(buf[..]), disk, buf[..], disk)
      ensures ok <==> Available(old(buf[..]), dev, blockno)
      ensures !ok ==> !waits && buf[..] == old(buf[..])
      ensures ok ==> b < NBUF && (waits <==> Keyed(old(buf[..]), b, dev, blockno) && old(buf[b]).locked)
      ensures ok && waits ==> buf[..] == old(buf[..])[b := old(buf[b]).(refcnt := old(buf[b]).refcnt + 1)]
      ensures ok && !waits ==>
                && (if Keyed(old(buf[..]), b, dev, blockno) then (old(buf[b]).valid ==> data == old(buf[b]).data)
                    else old(buf[b]).refcnt == 0 && forall i: nat | i < NBUF :: !Keyed(old(buf[..]), i, dev, blockno))
                && buf[..] == old(buf[..])[b := Opened(old(buf[b]), dev, blockno, data)]
      ensures ok && !waits && dev != 0 ==> data == Content(old(buf[..]), disk, dev, blockno)
    {
      hide Ring, Content, SameContent, Unique;
      data := ZeroBlock();
      ghost var bufs := buf[..];
      ok, b := Bget(dev, blockno);
      waits := ok && buf[b].locked;
      ghost var got := buf[..];
      if !ok {
        assert buf[..] == bufs;
      } else {
        assert got == bufs[b := buf[b]];
        assert Spare(bufs[b], disk);
      }
      if ok && !waits {
        Lock(b);
        ghost var held := buf[..];
        data := Fill(b);
        ContentTrans(bufs, got, held, disk);
        ContentTrans(bufs, held, buf[..], disk);
      }
    }

    /** The holder changes the block: it, and nothing else, reads differently. */
    method Modify(b: nat, data: Block)
      requires Ok() && b < NBUF && buf[b].locked && buf[b].valid && buf[b].refcnt > 0
      modifies buf
      ensures Ok() && buf[..] == old(buf[..])[b := old(buf[b]).(data := data)]
      ensures forall dev: nat, blockno: nat | dev != 0 ::
                Content(buf[..], disk, dev, blockno) ==
                if (dev, blockno) == (buf[b].dev, buf[b].blockno) then data
                else Content(old(buf[..]), disk, dev, blockno)
    {
      hide Ring, Content;
      ghost var bufs := buf[..];
      buf[b] := buf[b].(data := data);
      assert buf[..] == bufs[b := buf[b]];
      assert Unique(buf[..]);
      forall dev: nat, blockno: nat | dev != 0
        ensures Content(buf[..], disk, dev, blockno) ==
                if (dev, blockno) == (buf[b].dev, buf[b].blockno) then data else Content(bufs, disk, dev, blockno)
      {
        if (dev, blockno) == (buf[b].dev, buf[b].blockno) {
          ContentAt(buf[..], disk, b);
        } else {
          OneChange(bufs, disk, b, buf[b], disk, dev, blockno);
        }
      }
    }

    /**
     Write the buffer through: the disk now has the current content of its block. Device 0, the key of buffers
     never used, may be in several buffers, and for it nothing more is promised.
     */
    method Bwrite(b: nat)
      requires Ok() && b < NBUF && buf[b].locked && buf[b].valid && buf[b].refcnt > 0
      modifies this`disk, this`trace
      ensures trace == old(trace) + [disk]
      ensures buf[b].dev != 0 ==> Ok() && SameContent(buf[..], old(disk), buf[..], disk)
      ensures disk == old(disk)[(buf[b].dev, buf[b].blockno) := buf[b].data]
    {
      hide Ring, Content, SameContent;
      ghost var disk0 := disk;
      disk := disk[(buf[b].dev, buf[b].blockno) := buf[b].data];
      trace := trace + [disk];
      if buf[b].dev != 0 {
        ContentAt(buf[..], disk0, b);
        assert buf[..] == buf[..][b := buf[b]];
        Touched(buf[..], disk0, b, buf[b], disk);
        assert forall i | 0 <= i < NBUF && i != b :: (buf[i].dev, buf[i].blockno) != (buf[b].dev, buf[b].blockno);
      }
    }

    /**
     Let a buffer go. The last reference may be dropped only when the disk has the content; the buffer then
     becomes the most recently used.
     */
    method Brelse(b: nat)
      requires Ok() && b < NBUF && buf[b].locked && buf[b].refcnt > 0
      requires buf[b].refcnt == 1 && buf[b].valid ==> buf[b].data == OnDisk(disk, buf[b].dev, buf[b].blockno)
      modifies this`ring, next, prev, buf
      ensures Ok() && SameContent(old(buf[..]), disk, buf[..], disk)
      ensures buf[..] == old(buf[..])[b := old(buf[b]).(refcnt := old(buf[b]).refcnt - 1, locked := false)]
      ensures if buf[b].refcnt > 0 then ring == old(ring)
              else exists k :: 0 <= k < NBUF && old(ring)[k] == b && ring == [b] + Without(old(ring), k)
    {
      hide Content, SameContent, Unique, Buffers, Without;
      ghost var bufs := buf[..];
      CountOnly(bufs, disk, b, buf[b].refcnt - 1, false);
      buf[b] := buf[b].(refcnt := buf[b].refcnt - 1, locked := false);
      assert buf[..] == bufs[b := buf[b]];
      if buf[b].refcnt == 0 {
        Everywhere(ring);
        assert b in ring;
        ghost var k: nat :| k < NBUF && ring[k] == b;
        WithoutBuffers(ring, k);
        Unlink(b, k);
        Push(b);
      }
    }

    /** Keep a buffer from being recycled. */
    method Bpin(b: nat)
      requires Ok() && b < NBUF && buf[b].refcnt > 0
      modifies buf
      ensures Ok() && SameContent(old(buf[..]), disk, buf[..], disk)
      ensures buf[..] == old(buf[..])[b := old(buf[b]).(refcnt := old(buf[b]).refcnt + 1)]
    {
      hide Ring, Content, SameContent, Unique;
      ghost var bufs := buf[..];
      CountOnly(bufs, disk, b, buf[b].refcnt + 1, buf[b].locked);
      buf[b] := buf[b].(refcnt := buf[b].refcnt + 1);
      assert buf[..] == bufs[b := buf[b]];
    }

    /** Undo a pin; the last reference only once the disk has the content. */
    method Bunpin(b: nat)
      requires Ok() && b < NBUF && buf[b].refcnt > 0
      requires buf[b].refcnt == 1 ==>
               !buf[b].locked && (buf[b].valid ==> buf[b].data == OnDisk(disk, buf[b].dev, buf[b].blockno))
      modifies buf
      ensures Ok() && SameContent(old(buf[..]), disk, buf[..], disk)
      ensures buf[..] == old(buf[..])[b := old(buf[b]).(refcnt := old(buf[b]).refcnt - 1)]
    {
      hide Ring, Content, SameContent, Unique;
      ghost var bufs := buf[..];
      CountOnly(bufs, disk, b, buf[b].refcnt - 1, buf[b].locked);
      buf[b] := buf[b].(refcnt := buf[b].refcnt - 1);
      assert buf[..] == bufs[b := buf[b]];
    }
  }

  /** Reference counts and locks are no part of the content. */
  lemma CountOnly(bufs: seq<Buf>, disk: Disk, i: nat, refcnt: nat, locked: bool)
    requires Sound(bufs, disk) && i < |bufs|
    ensures var bufs' := bufs[i := bufs[i].(refcnt := refcnt, locked := locked)];
      && SameContent(bufs, disk, bufs', disk) && (Spare(bufs'[i], disk) ==> Sound(bufs', disk))
  {
    hide Content, SameContent;
    if bufs[i].dev != 0 { ContentAt(bufs, disk, i); }
    Touched(bufs, disk, i, bufs[i].(refcnt := refcnt, locked := locked), disk);
  }

  lemma Filled(bufs: seq<Buf>, disk: Disk, i: nat)
    requires Sound(bufs, disk) && i < |bufs| && !bufs[i].valid
    ensures var bufs' := bufs[i := bufs[i].(valid := true, data := OnDisk(disk, bufs[i].dev, bufs[i].blockno))];
      SameContent(bufs, disk, bufs', disk) && Sound(bufs', disk)
  {
    hide Content, SameContent;
    if bufs[i].dev != 0 { ContentAt(bufs, disk, i); }
    Touched(bufs, disk, i, bufs[i].(valid := true, data := OnDisk(disk, bufs[i].dev, bufs[i].blockno)), disk);
  }

  lemma ContentTrans(a: seq<Buf>, b: seq<Buf>, c: seq<Buf>, disk: Disk)
    requires SameContent(a, disk, b, disk) && SameContent(b, disk, c, disk)
    ensures SameContent(a, disk, c, disk)
  {
  }

  lemma Unchanged(bufs: seq<Buf>, disk: Disk)
    ensures SameContent(bufs, disk, bufs, disk)
  {
  }

  lemma AtHead(r: seq<nat>)
    ensures At(r, 0) == HEAD && At(r, |r| + 1) == HEAD
  {
  }

  /** A full ring holds every buffer. */
  lemma Everywhere(r: seq<nat>)
    requires Buffers(r) && |r| == NBUF
    ensures forall i: nat | i < NBUF :: i in r
  {
    Pigeons(r, NBUF);
  }
}
