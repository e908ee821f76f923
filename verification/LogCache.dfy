/** The log over the buffer cache: pinned buffers, and a commit that has to find buffers for the log's own blocks. */
module LogCache {
  import opened Bytes
  import opened Counting
  import opened BufferCache
  import GroupCommit

  const LOGBLOCKS: nat := GroupCommit.LOGBLOCKS

  // ---- references -----------------------------------------------------------------------------

  predicate DistinctBlocks(pins: seq<u32>) { forall i, j | 0 <= i < j < |pins| :: pins[i] != pins[j] }

  /** A buffer is referred to by its n holders, and once more by the log if its block is pinned. */
  predicate Referred(b: Buf, dev: nat, pins: seq<u32>, n: nat) {
    b.refcnt == n + (if b.dev == dev && b.blockno in pins then 1 else 0) && (b.locked ==> n > 0)
  }

  ghost predicate Backed(bufs: seq<Buf>, dev: nat, blockno: nat) { exists i: nat :: Holds(bufs, i, dev, blockno) }

  /** Every pinned block is in a buffer, and `held` counts the other references to each buffer. */
  ghost predicate Pinned(bufs: seq<Buf>, dev: nat, pins: seq<u32>, held: seq<nat>) {
    && |bufs| == NBUF == |held| && dev != 0 && DistinctBlocks(pins)
    && (forall i | 0 <= i < NBUF :: Referred(bufs[i], dev, pins, held[i]))
    && (forall k | 0 <= k < |pins| :: Backed(bufs, dev, pins[k]))
  }

  function Nobody(): (held: seq<nat>)
    ensures |held| == NBUF && forall i | 0 <= i < NBUF :: held[i] == 0
  {
    seq(NBUF, _ => 0)
  }

  lemma OpenPins(bufs: seq<Buf>, dev: nat, pins: seq<u32>, held: seq<nat>, b: nat, n: nat, data: Block)
    requires Pinned(bufs, dev, pins, held) && b < NBUF
    requires Keyed(bufs, b, dev, n) || (bufs[b].refcnt == 0 && forall i: nat | i < NBUF :: !Keyed(bufs, i, dev, n))
    ensures Pinned(bufs[b := Opened(bufs[b], dev, n, data)], dev, pins, held[b := held[b] + 1])
  {
    var bufs' := bufs[b := Opened(bufs[b], dev, n, data)];
    assert n in pins ==> Keyed(bufs, b, dev, n) by {
      if k :| 0 <= k < |pins| && pins[k] == n { assert Backed(bufs, dev, pins[k]); }
    }
    forall k | 0 <= k < |pins| ensures Backed(bufs', dev, pins[k]) {
      assert Backed(bufs, dev, pins[k]);
      var i: nat :| Holds(bufs, i, dev, pins[k]);
      assert Referred(bufs[i], dev, pins, held[i]);
      assert Holds(bufs', i, dev, pins[k]);
    }
    forall i | 0 <= i < NBUF ensures Referred(bufs'[i], dev, pins, held[b := held[b] + 1][i]) {
      assert Referred(bufs[i], dev, pins, held[i]);
    }
  }

  /** A change to one buffer that leaves its key and validity alone. */
  lemma SamePins(bufs: seq<Buf>, dev: nat, pins: seq<u32>, held: seq<nat>, b: nat, c: Buf, n: nat)
    requires Pinned(bufs, dev, pins, held) && b < NBUF
    requires c.dev == bufs[b].dev && c.blockno == bufs[b].blockno && c.valid == bufs[b].valid
    requires c.refcnt + held[b] == bufs[b].refcnt + n && (c.locked ==> n > 0)
    ensures Pinned(bufs[b := c], dev, pins, held[b := n])
  {
    forall k | 0 <= k < |pins| ensures Backed(bufs[b := c], dev, pins[k]) {
      assert Backed(bufs, dev, pins[k]);
      var i: nat :| Holds(bufs, i, dev, pins[k]);
      assert Holds(bufs[b := c], i, dev, pins[k]);
    }
    assert Referred(bufs[b], dev, pins, held[b]);
  }

  /** bpin on a block not pinned yet. */
  lemma PinPins(bufs: seq<Buf>, dev: nat, pins: seq<u32>, held: seq<nat>, b: nat, n: u32)
    requires Pinned(bufs, dev, pins, held) && Unique(bufs) && Holds(bufs, b, dev, n) && n !in pins
    ensures Pinned(bufs[b := bufs[b].(refcnt := bufs[b].refcnt + 1)], dev, pins + [n], held)
  {
    var bufs' := bufs[b := bufs[b].(refcnt := bufs[b].refcnt + 1)];
    forall k | 0 <= k < |pins + [n]| ensures Backed(bufs', dev, (pins + [n])[k]) {
      if k < |pins| {
        assert Backed(bufs, dev, pins[k]);
        var i: nat :| Holds(bufs, i, dev, pins[k]);
        assert Holds(bufs', i, dev, pins[k]);
      } else {
        assert Holds(bufs', b, dev, n);
      }
    }
    forall i | 0 <= i < NBUF ensures Referred(bufs'[i], dev, pins + [n], held[i]) {
      assert Referred(bufs[i], dev, pins, held[i]);
    }
  }

  /** bunpin of the first pinned block. */
  lemma UnpinPins(bufs: seq<Buf>, dev: nat, pins: seq<u32>, held: seq<nat>, b: nat)
    requires Pinned(bufs, dev, pins, held) && Unique(bufs) && pins != [] && Keyed(bufs, b, dev, pins[0])
    ensures bufs[b].refcnt > 0
    ensures Pinned(bufs[b := bufs[b].(refcnt := bufs[b].refcnt - 1)], dev, pins[1..], held)
  {
    assert Referred(bufs[b], dev, pins, held[b]);
    var bufs' := bufs[b := bufs[b].(refcnt := bufs[b].refcnt - 1)];
    forall k | 0 <= k < |pins[1..]| ensures Backed(bufs', dev, pins[1..][k]) {
      assert Backed(bufs, dev, pins[k + 1]);
      var i: nat :| Holds(bufs, i, dev, pins[k + 1]);
      assert Holds(bufs', i, dev, pins[1..][k]);
    }
    forall i | 0 <= i < NBUF ensures Referred(bufs'[i], dev, pins[1..], held[i]) {
      assert Referred(bufs[i], dev, pins, held[i]);
      assert bufs[i].blockno in pins[1..] ==> bufs[i].blockno in pins;
    }
  }

  // ---- room for the log's own blocks ----------------------------------------------------------

  /** A buffer for each of the first n pinned blocks. */
  lemma {:induction false} HolderOf(bufs: seq<Buf>, dev: nat, pins: seq<u32>, held: seq<nat>, n: nat)
      returns (at: seq<nat>)
    requires Pinned(bufs, dev, pins, held) && n <= |pins|
    ensures |at| == n && forall k | 0 <= k < n :: Holds(bufs, at[k], dev, pins[k])
  {
    if n == 0 {
      at := [];
    } else {
      at := HolderOf(bufs, dev, pins, held, n - 1);
      assert Backed(bufs, dev, pins[n - 1]);
      var i: nat :| Holds(bufs, i, dev, pins[n - 1]);
      at := at + [i];
    }
  }

  /**
   With no other references a block that is not pinned can be had exactly when fewer blocks are pinned than
   there are buffers.
   */
  lemma RoomIff(bufs: seq<Buf>, dev: nat, pins: seq<u32>, n: nat)
    requires Pinned(bufs, dev, pins, Nobody()) && Unique(bufs) && n !in pins
    ensures |pins| <= NBUF
    ensures Available(bufs, dev, n) <==> |pins| < NBUF
  {
    var at := HolderOf(bufs, dev, pins, Nobody(), |pins|);
    assert NoRepeat(at);
    Pigeons(at, NBUF);
    if |pins| < NBUF {
      var x: nat :| x < NBUF && x !in at;
      SpareIfUnpinned(bufs, dev, pins, at, x);
    } else {
      forall i: nat | i < NBUF ensures bufs[i].refcnt > 0 && !Keyed(bufs, i, dev, n) {
        assert i in at;
        var k: nat :| k < |at| && at[k] == i;
        assert Holds(bufs, at[k], dev, pins[k]) && Referred(bufs[i], dev, pins, 0);
      }
    }
  }

  lemma SpareIfUnpinned(bufs: seq<Buf>, dev: nat, pins: seq<u32>, at: seq<nat>, x: nat)
    requires Pinned(bufs, dev, pins, Nobody()) && Unique(bufs) && x < NBUF && x !in at
    requires |at| == |pins| && forall k | 0 <= k < |at| :: Holds(bufs, at[k], dev, pins[k])
    ensures bufs[x].refcnt == 0
  {
    assert Referred(bufs[x], dev, pins, Nobody()[x]);
    forall k | 0 <= k < |pins| ensures !Keyed(bufs, x, dev, pins[k]) {
      assert Holds(bufs, at[k], dev, pins[k]);
    }
  }

  /** A block whose buffers nobody refers to reads as it is on disk. */
  lemma CleanContent(bufs: seq<Buf>, disk: Disk, dev: nat, n: nat)
    requires Sound(bufs, disk) && dev != 0 && forall i: nat | Keyed(bufs, i, dev, n) :: bufs[i].refcnt == 0
    ensures Content(bufs, disk, dev, n) == OnDisk(disk, dev, n)
  {
    if i: nat :| Holds(bufs, i, dev, n) {
      assert Keyed(bufs, i, dev, n);
      ContentAt(bufs, disk, i);
    }
  }

  // ---- the log --------------------------------------------------------------------------------

  /** One block now reads as `data`, every other as before. */
  ghost predicate Becomes(bufs: seq<Buf>, disk: Disk, bufs': seq<Buf>, disk': Disk, dev: nat, n: nat, data: Block) {
    forall d: nat, m: nat | d != 0 ::
      Content(bufs', disk', d, m) == if (d, m) == (dev, n) then data else Content(bufs, disk, d, m)
  }

  predicate InLog(start: nat, n: nat) { start <= n <= start + LOGBLOCKS }

  /** Outside the log nothing reads differently. */
  ghost predicate SameOutside(dev: nat, start: nat, bufs: seq<Buf>, disk: Disk, bufs': seq<Buf>, disk': Disk) {
    forall d: nat, n: nat | d != 0 && (d != dev || !InLog(start, n)) ::
      Content(bufs', disk', d, n) == Content(bufs, disk, d, n)
  }

  /** The first k slots on disk' hold what the listed blocks read as; outside the log the disk is as it was. */
  ghost predicate Logged(bufs: seq<Buf>, disk: Disk, disk': Disk, dev: nat, start: nat, lh: seq<u32>, k: nat) {
    && k <= |lh|
    && (forall j: nat | j < k :: OnDisk(disk', dev, start + 1 + j) == Content(bufs, disk, dev, lh[j]))
    && forall d: nat, n: nat | d != dev || !InLog(start, n) :: OnDisk(disk', d, n) == OnDisk(disk, d, n)
  }

  /** The first k listed blocks are at home on disk' as they read; all other blocks on disk are as they were. */
  ghost predicate Home(bufs: seq<Buf>, disk: Disk, disk': Disk, dev: nat, lh: seq<u32>, k: nat) {
    && k <= |lh|
    && (forall j: nat | j < k :: OnDisk(disk', dev, lh[j]) == Content(bufs, disk, dev, lh[j]))
    && forall d: nat, n: nat | d != dev || n !in lh[..k] :: OnDisk(disk', d, n) == OnDisk(disk, d, n)
  }

  // ---- the disk during a commit -----------------------------------------------------------------

  /** Before the commit point: k slots written, the header and everything outside the log as it was. */
  ghost predicate Logging(bufs: seq<Buf>, disk: Disk, disk': Disk, dev: nat, start: nat, lh: seq<u32>, k: nat) {
    Logged(bufs, disk, disk', dev, start, lh, k) && OnDisk(disk', dev, start) == OnDisk(disk, dev, start)
  }

  predicate Names(head: Block, lh: seq<u32>)
    requires |lh| <= LOGBLOCKS
  {
    Word(head, 0) == |lh| && forall k | 0 <= k < |lh| :: Word(head, k + 1) == lh[k]
  }

  /**
   After it: the header names all the blocks and their slots hold what they read as; k of them are home, and every
   other block outside the log is as it was.
   */
  ghost predicate Installing(bufs: seq<Buf>, disk: Disk, disk': Disk, dev: nat, start: nat, lh: seq<u32>, k: nat)
    requires |lh| <= LOGBLOCKS
  {
    && k <= |lh| && Names(OnDisk(disk', dev, start), lh)
    && (forall j: nat | j < |lh| :: OnDisk(disk', dev, start + 1 + j) == Content(bufs, disk, dev, lh[j]))
    && (forall j: nat | j < k :: OnDisk(disk', dev, lh[j]) == Content(bufs, disk, dev, lh[j]))
    && forall d: nat, n: nat | d != dev || (!InLog(start, n) && n !in lh[..k]) ::
         OnDisk(disk', d, n) == OnDisk(disk, d, n)
  }

  /** The disk after the i-th write of a commit but the last: log, header, home. */
  ghost predicate CommitStage(bufs: seq<Buf>, disk: Disk, disk': Disk, dev: nat, start: nat, lh: seq<u32>, i: nat)
    requires |lh| <= LOGBLOCKS
  {
    if i < |lh| then Logging(bufs, disk, disk', dev, start, lh, i + 1)
    else Installing(bufs, disk, disk', dev, start, lh, i - |lh|)
  }

  class CachedLog {
    const c: Cache
    const dev: nat
    const start: nat              // the header's block; the slots follow it
    var lh: seq<u32>
    ghost var pins: seq<u32>      // the blocks log_write has pinned and install_trans not yet unpinned
    ghost var held: seq<nat>      // references to each buffer that are not the log's

    ghost predicate Ok()
      reads this, c, c.next, c.prev, c.buf
    {
      && c.Ok() && Pinned(c.buf[..], dev, pins, held)
      && start + LOGBLOCKS < 0x1_0000_0000 && |lh| <= LOGBLOCKS
      && (forall k | 0 <= k < |lh| :: !InLog(start, lh[k])) && forall k | 0 <= k < |pins| :: !InLog(start, pins[k])
    }

    constructor (c: Cache, dev: nat, start: nat)
      requires c.Ok() && dev != 0 && start + LOGBLOCKS < 0x1_0000_0000
      requires forall i | 0 <= i < NBUF :: c.buf[i].refcnt == 0
      ensures Ok() && this.c == c && this.dev == dev && this.start == start
      ensures lh == [] && pins == [] && held == Nobody()
    {
      this.c, this.dev, this.start, lh, pins, held := c, dev, start, [], [], Nobody();
    }

    /** bread of a block whose buffer nobody has locked. */
    method Open(n: nat) returns (ok: bool, b: nat, data: Block)
      requires Ok() && forall i: nat | Keyed(c.buf[..], i, dev, n) :: !c.buf[i].locked
      modifies this`held, c.buf
      ensures Ok() && SameContent(old(c.buf[..]), c.disk, c.buf[..], c.disk)
      ensures ok <==> Available(old(c.buf[..]), dev, n)
      ensures !ok ==> c.buf[..] == old(c.buf[..]) && held == old(held)
      ensures ok ==>
                && b < NBUF && held == old(held)[b := old(held)[b] + 1]
                && (Keyed(old(c.buf[..]), b, dev, n)
                    || (old(c.buf[b]).refcnt == 0 && forall i: nat | i < NBUF :: !Keyed(old(c.buf[..]), i, dev, n)))
                && c.buf[..] == old(c.buf[..])[b := Opened(old(c.buf[b]), dev, n, data)]
                && data == Content(old(c.buf[..]), c.disk, dev, n)
    {
      hide Ring, Sound, Content, SameContent, Pinned, Available, Unique;
      ghost var bufs := c.buf[..];
      var waits;
      PinnedShape(bufs, dev, pins, held);
      ok, waits, b, data := c.Bread(dev, n);
      if ok {
        assert !waits;
        OpenPins(bufs, dev, pins, held, b, n, data);
        held := held[b := held[b] + 1];
      }
    }

    /** brelse of a buffer one holds. */
    method Close(b: nat)
      requires Ok() && b < NBUF && c.buf[b].locked && held[b] > 0
      requires c.buf[b].refcnt == 1 && c.buf[b].valid ==>
               c.buf[b].data == OnDisk(c.disk, c.buf[b].dev, c.buf[b].blockno)
      modifies this`held, c`ring, c.next, c.prev, c.buf
      ensures Ok() && SameContent(old(c.buf[..]), c.disk, c.buf[..], c.disk) && c.disk == old(c.disk)
      ensures held == old(held)[b := old(held)[b] - 1] && c.buf[b].refcnt + 1 == old(c.buf[b]).refcnt
      ensures c.buf[..] == old(c.buf[..])[b := old(c.buf[b]).(refcnt := c.buf[b].refcnt, locked := false)]
    {
      hide Ring, Sound, Content, SameContent, Pinned, Unique;
      ghost var bufs := c.buf[..];
      HeldCount(bufs, dev, pins, held, b);
      c.Brelse(b);
      SamePins(bufs, dev, pins, held, b, bufs[b].(refcnt := bufs[b].refcnt - 1, locked := false), held[b] - 1);
      held := held[b := held[b] - 1];
    }

    /**
     log_write of a buffer one holds: pinned and listed, unless it is already. The limit is tested before looking
     for the block, so a full log refuses even a block it lists.
     */
    method LogWrite(b: nat) returns (ok: bool)
      requires Ok() && pins == lh && b < NBUF && c.buf[b].locked && c.buf[b].valid && c.buf[b].dev == dev
      requires c.buf[b].blockno < 0x1_0000_0000 && !InLog(start, c.buf[b].blockno)
      modifies this`lh, this`pins, c.buf
      ensures Ok() && pins == lh && SameContent(old(c.buf[..]), c.disk, c.buf[..], c.disk)
      ensures ok <==> |old(lh)| < LOGBLOCKS
      ensures !ok ==> lh == old(lh) && c.buf[..] == old(c.buf[..])
      ensures ok ==>
                var n := old(c.buf[b]).blockno;
                if n in old(lh) then lh == old(lh) && c.buf[..] == old(c.buf[..])
                else lh == old(lh) + [n]
                     && c.buf[..] == old(c.buf[..])[b := old(c.buf[b]).(refcnt := old(c.buf[b]).refcnt + 1)]
    {
      hide Ring, Sound, Content, SameContent, Pinned;
      ghost var bufs := c.buf[..];
      Unchanged(bufs, c.disk);
      if |lh| >= LOGBLOCKS {
        return false;
      }
      ok := true;
      var n: u32 := c.buf[b].blockno;
      if n !in lh {
        HeldCount(bufs, dev, pins, held, b);
        SoundUnique(bufs, c.disk);
        PinPins(bufs, dev, pins, held, b, n);
        c.Bpin(b);
        lh := lh + [n];
        pins := lh;
      }
    }

    /** The log block l and the pinned block h, both held: there is room exactly when not all buffers are pinned. */
    method OpenPair(l: nat, h: nat) returns (ok: bool, bl: nat, bh: nat)
      requires Ok() && held == Nobody() && l !in pins && h in pins
      modifies this`held, c.buf
      ensures Ok() && SameContent(old(c.buf[..]), c.disk, c.buf[..], c.disk)
      ensures ok <==> |pins| < NBUF
      ensures !ok ==> c.buf[..] == old(c.buf[..]) && held == old(held)
      ensures ok ==>
                && bl < NBUF && bh < NBUF && bl != bh && held == Nobody()[bl := 1][bh := 1]
                && c.buf[bl] == Buf(dev, l, true, 1, true, OnDisk(c.disk, dev, l))
                && c.buf[bh] == Buf(dev, h, true, 2, true, Content(old(c.buf[..]), c.disk, dev, h))
                && OnDisk(c.disk, dev, l) == Content(old(c.buf[..]), c.disk, dev, l)
    {
      hide Ring, Sound, Content, SameContent, Pinned, Available, Becomes, Nobody;
      ghost var bufs := c.buf[..];
      SoundUnique(bufs, c.disk);
      RoomIff(bufs, dev, pins, l);
      Idle(bufs, dev, pins);
      CleanContent(bufs, c.disk, dev, l);
      var data, copy;
      bh := 0;
      ok, bl, data := Open(l);
      if ok {
        ghost var mid := c.buf[..];
        PinnedAvailable(mid, dev, pins, held, h);
        ok, bh, copy := Open(h);
        ContentTrans(bufs, mid, c.buf[..], c.disk);
        SameAt(bufs, mid, c.disk, dev, h);
      }
    }

    /** write_log, one block: its current content goes to log slot k. */
    method WriteSlot(k: nat) returns (ok: bool)
      requires Ok() && held == Nobody() && pins == lh && k < |lh|
      modifies this`held, c`ring, c`disk, c`trace, c.next, c.prev, c.buf
      ensures Ok() && held == Nobody()
      ensures ok <==> |lh| < NBUF
      ensures !ok ==> c.disk == old(c.disk) && c.trace == old(c.trace)
      ensures ok ==> c.trace == old(c.trace) + [c.disk]
      ensures ok ==>
                var data := Content(old(c.buf[..]), old(c.disk), dev, lh[k]);
                && c.disk == old(c.disk)[(dev, start + 1 + k) := data]
                && Becomes(old(c.buf[..]), old(c.disk), c.buf[..], c.disk, dev, start + 1 + k, data)
    {
      hide Ring, Sound, Content, SameContent, Pinned, Available, Becomes, Nobody;
      ghost var bufs, disk := c.buf[..], c.disk;
      var bl, bh;
      ok, bl, bh := OpenPair(start + 1 + k, lh[k]);
      if ok {
        ghost var open := c.buf[..];
        ModifyHeld(bl, c.buf[bh].data);
        ghost var copied := c.buf[..];
        Close(bh);
        ghost var closed := c.buf[..];
        Close(bl);
        ContentTrans(copied, closed, c.buf[..], c.disk);
        BecomesTrans(bufs, open, disk, copied, c.buf[..], c.disk, dev, start + 1 + k, c.buf[bl].data);
        assert held == Nobody();
      }
    }

    /** install_trans, one block: log slot k goes home, and the block is no longer pinned. */
    method InstallOne(k: nat)
      requires Ok() && held == Nobody() && k < |lh| && pins == lh[k..] && |pins| < NBUF
      modifies this`held, this`pins, c`ring, c`disk, c`trace, c.next, c.prev, c.buf
      ensures Ok() && held == Nobody() && pins == lh[k + 1..] && c.trace == old(c.trace) + [c.disk]
      ensures var data := OnDisk(old(c.disk), dev, start + 1 + k);
        && c.disk == old(c.disk)[(dev, lh[k]) := data]
        && Becomes(old(c.buf[..]), old(c.disk), c.buf[..], c.disk, dev, lh[k], data)
    {
      hide Ring, Sound, Content, SameContent, Pinned, Available, Becomes, Nobody;
      ghost var bufs, disk := c.buf[..], c.disk;
      assert pins[0] == lh[k];
      var ok, bl, bh := OpenPair(start + 1 + k, lh[k]);
      ghost var open := c.buf[..];
      ModifyHeld(bh, c.buf[bl].data);
      ghost var copied := c.buf[..];
      SoundUnique(copied, c.disk);
      UnpinPins(copied, dev, pins, held, bh);
      c.Bunpin(bh);
      ghost var unpinned := c.buf[..];
      pins := pins[1..];
      Close(bl);
      ghost var closed := c.buf[..];
      Close(bh);
      ContentTrans(copied, unpinned, closed, c.disk);
      ContentTrans(copied, closed, c.buf[..], c.disk);
      BecomesTrans(bufs, open, disk, copied, c.buf[..], c.disk, dev, lh[k], c.buf[bh].data);
      assert held == Nobody();
    }

    /** write_head: the list of blocks goes to the header. */
    method WriteHead()
      requires Ok() && held == Nobody() && |pins| < NBUF
      modifies this`held, c`ring, c`disk, c`trace, c.next, c.prev, c.buf
      ensures Ok() && held == Nobody() && c.trace == old(c.trace) + [c.disk]
      ensures HeadWritten(old(c.buf[..]), old(c.disk), c.buf[..], c.disk, dev, start,
                          HeadBlock(Content(old(c.buf[..]), old(c.disk), dev, start), lh))
    {
      hide Ring, Sound, Content, SameContent, Pinned, Available, Becomes, Nobody, HeadBlock;
      ghost var bufs, disk := c.buf[..], c.disk;
      SoundUnique(bufs, disk);
      RoomIff(bufs, dev, pins, start);
      Idle(bufs, dev, pins);
      var ok, b, data := Open(start);
      ghost var open := c.buf[..];
      var hb := FillHead(data);
      ModifyHeld(b, hb);
      ghost var copied := c.buf[..];
      Close(b);
      BecomesTrans(bufs, open, disk, copied, c.buf[..], c.disk, dev, start, hb);
      assert held == Nobody();
    }

    method FillHead(data: Block) returns (hb: Block)
      requires |lh| <= LOGBLOCKS
      ensures hb == HeadBlock(data, lh)
    {
      hb := SetWord(data, 0, |lh|);
      for i := 0 to |lh|
        invariant hb == PutBlocks(SetWord(data, 0, |lh|), lh[..i])
      {
        assert lh[..i + 1][..i] == lh[..i];
        hb := SetWord(hb, i + 1, lh[i]);
      }
      assert lh[..|lh|] == lh;
    }

    /** Change a held buffer and write it. */
    method ModifyHeld(b: nat, data: Block)
      requires Ok() && b < NBUF && c.buf[b].dev == dev && c.buf[b].locked && c.buf[b].valid && c.buf[b].refcnt > 0
      modifies c.buf, c`disk, c`trace
      ensures Ok() && c.disk == old(c.disk)[(dev, old(c.buf[b]).blockno) := data]
      ensures c.buf[..] == old(c.buf[..])[b := old(c.buf[b]).(data := data)]
      ensures Becomes(old(c.buf[..]), old(c.disk), c.buf[..], c.disk, dev, c.buf[b].blockno, data)
      ensures c.trace == old(c.trace) + [c.disk]
    {
      hide Ring, Sound, Content, Pinned, Available;
      ghost var bufs, disk := c.buf[..], c.disk;
      PinnedShape(bufs, dev, pins, held);
      HeldCount(bufs, dev, pins, held, b);
      c.Modify(b, data);
      SamePins(bufs, dev, pins, held, b, c.buf[b], held[b]);
      assert held[b := held[b]] == held;
      c.Bwrite(b);
    }

    /**
     write_log: every listed block's current content to its slot; it stops short exactly when all buffers are
     pinned.
     */
    method WriteLog() returns (ok: bool, ghost steps: seq<Disk>)
      requires Ok() && held == Nobody() && pins == lh && lh != []
      modifies this`held, c`ring, c`disk, c`trace, c.next, c.prev, c.buf
      ensures Ok() && held == Nobody()
      ensures ok <==> |lh| < NBUF
      ensures !ok ==> c.disk == old(c.disk) && c.trace == old(c.trace)
      ensures ok ==>
                && c.trace == old(c.trace) + steps && |steps| == |lh|
                && (forall i: nat | i < |lh| ::
                      Logging(old(c.buf[..]), old(c.disk), steps[i], dev, start, lh, i + 1))
                && OnDisk(c.disk, dev, start) == OnDisk(old(c.disk), dev, start)
                && SameOutside(dev, start, old(c.buf[..]), old(c.disk), c.buf[..], c.disk)
                && Logged(old(c.buf[..]), old(c.disk), c.disk, dev, start, lh, |lh|)
    {
      hide Ring, Sound, Content, SameContent, Pinned, Available, Becomes, Nobody, OnDisk;
      ghost var bufs, disk := c.buf[..], c.disk;
      OutsideRefl(bufs, disk, dev, start);
      PinnedShape(bufs, dev, pins, held);
      var k := 0;
      ok, steps := true, [];
      while k < |lh|
        invariant k <= |lh| && Ok() && held == Nobody() && (k > 0 ==> |lh| < NBUF) && (k == 0 ==> c.disk == old(c.disk))
        invariant c.trace == old(c.trace) + steps && |steps| == k
        invariant forall i: nat | i < k :: Logging(bufs, disk, steps[i], dev, start, lh, i + 1)
        invariant OnDisk(c.disk, dev, start) == OnDisk(disk, dev, start)
        invariant SameOutside(dev, start, bufs, disk, c.buf[..], c.disk)
                  && Logged(bufs, disk, c.disk, dev, start, lh, k)
      {
        ghost var bufs1, disk1 := c.buf[..], c.disk;
        ok := WriteSlot(k);
        if !ok { return; }
        SlotStep(bufs, disk, bufs1, disk1, c.buf[..], c.disk, dev, start, lh, k);
        steps := steps + [c.disk];
        k := k + 1;
      }
    }

    /**
     install_trans: every slot goes home. Since the slots hold what the blocks read as, no block reads
     differently.
     */
    method InstallTrans() returns (ghost steps: seq<Disk>)
      requires Ok() && held == Nobody() && pins == lh && |lh| < NBUF
      requires Logged(c.buf[..], c.disk, c.disk, dev, start, lh, |lh|)
      modifies this`held, this`pins, c`ring, c`disk, c`trace, c.next, c.prev, c.buf
      ensures Ok() && held == Nobody() && pins == []
      ensures SameContent(old(c.buf[..]), old(c.disk), c.buf[..], c.disk)
      ensures Home(old(c.buf[..]), old(c.disk), c.disk, dev, lh, |lh|)
      ensures c.trace == old(c.trace) + steps && |steps| == |lh|
      ensures forall i: nat | i < |lh| :: Home(old(c.buf[..]), old(c.disk), steps[i], dev, lh, i + 1)
    {
      hide Ring, Sound, Content, SameContent, Pinned, Available, Becomes, Nobody, OnDisk;
      ghost var bufs, disk := c.buf[..], c.disk;
      Unchanged(bufs, disk);
      PinnedShape(bufs, dev, pins, held);
      assert lh[0..] == lh && lh[..0] == [];
      var k := 0;
      steps := [];
      while k < |lh|
        invariant c.trace == old(c.trace) + steps && |steps| == k
        invariant forall i: nat | i < k :: Home(bufs, disk, steps[i], dev, lh, i + 1)
        invariant k <= |lh| && Ok() && held == Nobody() && pins == lh[k..]
        invariant SameContent(bufs, disk, c.buf[..], c.disk) && Home(bufs, disk, c.disk, dev, lh, k)
      {
        ghost var bufs1, disk1 := c.buf[..], c.disk;
        InstallOne(k);
        HomeStep(bufs, disk, bufs1, disk1, c.buf[..], c.disk, dev, start, lh, k);
        steps := steps + [c.disk];
        k := k + 1;
      }
    }

    /**
     commit. It runs out of buffers, before it has written anything, exactly when every buffer is pinned. Otherwise
     every logged block is on disk at home as it reads, nothing is pinned, and outside the log nothing reads
     differently. It writes the n slots, the header, the n blocks and the empty header, in this order: no block
     moves before the header names them all and every slot holds its content, and none of that changes until all
     are home.
     */
    method Commit() returns (ok: bool, ghost steps: seq<Disk>)
      requires Ok() && held == Nobody() && pins == lh
      modifies this`lh, this`pins, this`held, c`ring, c`disk, c`trace, c.next, c.prev, c.buf
      ensures Ok() && held == Nobody()
      ensures ok <==> |old(lh)| < NBUF
      ensures !ok ==> c.disk == old(c.disk) && lh == old(lh) && c.trace == old(c.trace)
      ensures c.trace == old(c.trace) + steps
      ensures ok && old(lh) != [] ==>
                && |steps| == 2 * |old(lh)| + 2 && steps[|steps| - 1] == c.disk
                && forall i: nat | i < |steps| - 1 ::
                     CommitStage(old(c.buf[..]), old(c.disk), steps[i], dev, start, old(lh), i)
      ensures ok ==>
                && lh == [] && pins == [] && (old(lh) != [] ==> Word(OnDisk(c.disk, dev, start), 0) == 0)
                && SameOutside(dev, start, old(c.buf[..]), old(c.disk), c.buf[..], c.disk)
                && (forall k | 0 <= k < |old(lh)| ::
                      OnDisk(c.disk, dev, old(lh)[k]) == Content(old(c.buf[..]), old(c.disk), dev, old(lh)[k]))
                && forall d: nat, n: nat | d != dev || (!InLog(start, n) && n !in old(lh)) ::
                   OnDisk(c.disk, d, n) == OnDisk(old(c.disk), d, n)
    {
      hide Ring, Sound, Content, SameContent, Pinned, Available, Becomes, Nobody, OnDisk, HeadBlock, Word;
      ghost var bufs, disk := c.buf[..], c.disk;
      OutsideRefl(bufs, disk, dev, start);
      PinnedShape(bufs, dev, pins, held);
      if lh == [] {
        return true, [];
      }
      ghost var was: seq<u32> := lh;
      ghost var logs, homes;
      ok, logs := WriteLog();
      if !ok { return false, []; }
      ghost var bufs1, disk1 := c.buf[..], c.disk;
      WriteHead();
      ghost var bufs2, disk2 := c.buf[..], c.disk;
      HeadStep(bufs, disk, bufs1, disk1, bufs2, disk2, dev, start, lh);
      HeadNames(bufs1, disk1, bufs2, disk2, dev, start, Content(bufs1, disk1, dev, start), lh);
      homes := InstallTrans();
      Stages(bufs, disk, bufs2, disk2, logs, homes, dev, start, lh);
      lh := [];
      ghost var bufs3, disk3 := c.buf[..], c.disk;
      WriteHead();
      HeadErased(bufs3, disk3, c.buf[..], c.disk, dev, start, Content(bufs3, disk3, dev, start));
      AllHome(bufs, disk, bufs2, disk2, bufs3, disk3, c.buf[..], c.disk, dev, start, was);
      steps := logs + [disk2] + homes + [c.disk];
    }
  }

  lemma SoundUnique(bufs: seq<Buf>, disk: Disk)
    requires Sound(bufs, disk)
    ensures |bufs| == NBUF && Unique(bufs)
  {
  }

  lemma PinnedShape(bufs: seq<Buf>, dev: nat, pins: seq<u32>, held: seq<nat>)
    requires Pinned(bufs, dev, pins, held)
    ensures |bufs| == |held| == NBUF && dev != 0 && DistinctBlocks(pins)
  {
  }

  /** Someone who has a buffer locked is counted. */
  lemma HeldCount(bufs: seq<Buf>, dev: nat, pins: seq<u32>, held: seq<nat>, b: nat)
    requires Pinned(bufs, dev, pins, held) && b < NBUF
    ensures |bufs| == |held| == NBUF && bufs[b].refcnt >= held[b] && (bufs[b].locked ==> held[b] > 0)
  {
    assert Referred(bufs[b], dev, pins, held[b]);
  }

  /** With no holders no buffer is locked, and one that is not pinned is not referred to. */
  lemma Idle(bufs: seq<Buf>, dev: nat, pins: seq<u32>)
    requires Pinned(bufs, dev, pins, Nobody())
    ensures |bufs| == NBUF && dev != 0 && forall i | 0 <= i < NBUF :: !bufs[i].locked
    ensures forall i: nat | i < NBUF && !(bufs[i].dev == dev && bufs[i].blockno in pins) :: bufs[i].refcnt == 0
    ensures forall i: nat | i < NBUF && bufs[i].dev == dev && bufs[i].blockno in pins :: bufs[i].refcnt == 1
  {
    forall i: nat | i < NBUF ensures Referred(bufs[i], dev, pins, 0) { }
  }

  lemma SameAt(bufs: seq<Buf>, bufs': seq<Buf>, disk: Disk, dev: nat, n: nat)
    requires SameContent(bufs, disk, bufs', disk) && dev != 0
    ensures Content(bufs', disk, dev, n) == Content(bufs, disk, dev, n)
  {
  }

  lemma PinnedAvailable(bufs: seq<Buf>, dev: nat, pins: seq<u32>, held: seq<nat>, h: nat)
    requires Pinned(bufs, dev, pins, held) && h in pins
    ensures Available(bufs, dev, h) && Backed(bufs, dev, h)
  {
    var k :| 0 <= k < |pins| && pins[k] == h;
    assert Backed(bufs, dev, pins[k]);
    var i: nat :| Holds(bufs, i, dev, h);
    assert Keyed(bufs, i, dev, h);
  }

  lemma BecomesTrans(a: seq<Buf>, b: seq<Buf>, disk: Disk, b': seq<Buf>, a': seq<Buf>, disk': Disk, dev: nat,
                     n: nat, data: Block)
    requires SameContent(a, disk, b, disk) && Becomes(b, disk, b', disk', dev, n, data)
             && SameContent(b', disk', a', disk')
    ensures Becomes(a, disk, a', disk', dev, n, data)
  {
    hide Content;
  }

  lemma OutsideRefl(bufs: seq<Buf>, disk: Disk, dev: nat, start: nat)
    ensures SameOutside(dev, start, bufs, disk, bufs, disk)
  {
  }

  predicate Listed(lh: seq<u32>, start: nat) {
    |lh| <= LOGBLOCKS && DistinctBlocks(lh) && forall k | 0 <= k < |lh| :: !InLog(start, lh[k])
  }

  lemma SlotStep(bufs: seq<Buf>, disk: Disk, bufs1: seq<Buf>, disk1: Disk, bufs2: seq<Buf>, disk2: Disk,
                 dev: nat, start: nat, lh: seq<u32>, k: nat)
    requires dev != 0 && Listed(lh, start) && k < |lh|
    requires SameOutside(dev, start, bufs, disk, bufs1, disk1) && Logged(bufs, disk, disk1, dev, start, lh, k)
    requires disk2 == disk1[(dev, start + 1 + k) := Content(bufs1, disk1, dev, lh[k])]
    requires Becomes(bufs1, disk1, bufs2, disk2, dev, start + 1 + k, Content(bufs1, disk1, dev, lh[k]))
    ensures SameOutside(dev, start, bufs, disk, bufs2, disk2) && Logged(bufs, disk, disk2, dev, start, lh, k + 1)
    ensures OnDisk(disk2, dev, start) == OnDisk(disk1, dev, start)
  {
    hide Content;
  }

  lemma HomeStep(bufs: seq<Buf>, disk: Disk, bufs1: seq<Buf>, disk1: Disk, bufs2: seq<Buf>, disk2: Disk,
                 dev: nat, start: nat, lh: seq<u32>, k: nat)
    requires dev != 0 && Listed(lh, start) && k < |lh|
    requires Logged(bufs, disk, disk, dev, start, lh, |lh|)
    requires SameContent(bufs, disk, bufs1, disk1) && Home(bufs, disk, disk1, dev, lh, k)
    requires disk2 == disk1[(dev, lh[k]) := OnDisk(disk1, dev, start + 1 + k)]
    requires Becomes(bufs1, disk1, bufs2, disk2, dev, lh[k], OnDisk(disk1, dev, start + 1 + k))
    ensures SameContent(bufs, disk, bufs2, disk2) && Home(bufs, disk, disk2, dev, lh, k + 1)
  {
    hide Content;
    assert InLog(start, start + 1 + k);
    assert lh[..k + 1] == lh[..k] + [lh[k]];
  }

  lemma HeadStep(bufs: seq<Buf>, disk: Disk, bufs1: seq<Buf>, disk1: Disk, bufs2: seq<Buf>, disk2: Disk,
                 dev: nat, start: nat, lh: seq<u32>)
    requires dev != 0 && Listed(lh, start)
    requires SameOutside(dev, start, bufs, disk, bufs1, disk1) && Logged(bufs, disk, disk1, dev, start, lh, |lh|)
    requires exists data :: HeadWritten(bufs1, disk1, bufs2, disk2, dev, start, data)
    ensures SameOutside(dev, start, bufs, disk, bufs2, disk2)
    ensures Logged(bufs, disk, disk2, dev, start, lh, |lh|) && Logged(bufs2, disk2, disk2, dev, start, lh, |lh|)
  {
    hide Content;
    var data :| HeadWritten(bufs1, disk1, bufs2, disk2, dev, start, data);
  }

  ghost predicate HeadWritten(bufs: seq<Buf>, disk: Disk, bufs': seq<Buf>, disk': Disk, dev: nat, start: nat,
                              data: Block) {
    disk' == disk[(dev, start) := data] && Becomes(bufs, disk, bufs', disk', dev, start, data)
  }

  lemma HeadNames(bufs: seq<Buf>, disk: Disk, bufs': seq<Buf>, disk': Disk, dev: nat, start: nat, b: Block,
                  lh: seq<u32>)
    requires |lh| <= LOGBLOCKS && HeadWritten(bufs, disk, bufs', disk', dev, start, HeadBlock(b, lh))
    ensures Names(OnDisk(disk', dev, start), lh)
  {
    hide HeadBlock, Word, Content;
    HeadReads(b, lh);
  }

  /** Bringing home block after block changes nothing in the log. */
  lemma Committed(bufs: seq<Buf>, disk: Disk, bufs2: seq<Buf>, disk2: Disk, now: Disk, dev: nat, start: nat,
                  lh: seq<u32>, k: nat)
    requires dev != 0 && Listed(lh, start) && k <= |lh|
    requires SameOutside(dev, start, bufs, disk, bufs2, disk2) && Logged(bufs, disk, disk2, dev, start, lh, |lh|)
    requires Names(OnDisk(disk2, dev, start), lh) && Home(bufs2, disk2, now, dev, lh, k)
    ensures Installing(bufs, disk, now, dev, start, lh, k)
  {
    hide Names, Content;
    forall n: nat | InLog(start, n) ensures OnDisk(now, dev, n) == OnDisk(disk2, dev, n) { assert n !in lh; }
    assert InLog(start, start);
    forall j: nat | j < |lh| ensures OnDisk(now, dev, start + 1 + j) == Content(bufs, disk, dev, lh[j]) {
      assert InLog(start, start + 1 + j);
    }
  }

  lemma NoneHome(bufs: seq<Buf>, disk: Disk, dev: nat, lh: seq<u32>)
    ensures Home(bufs, disk, disk, dev, lh, 0)
  {
  }

  /** The disks of a whole commit: those of the log, the one with the header (2), and those of the installing. */
  lemma Stages(bufs: seq<Buf>, disk: Disk, bufs2: seq<Buf>, disk2: Disk, logs: seq<Disk>, homes: seq<Disk>,
               dev: nat, start: nat, lh: seq<u32>)
    requires dev != 0 && Listed(lh, start) && |logs| == |homes| == |lh|
    requires SameOutside(dev, start, bufs, disk, bufs2, disk2) && Logged(bufs, disk, disk2, dev, start, lh, |lh|)
    requires Names(OnDisk(disk2, dev, start), lh)
    requires forall i: nat | i < |lh| :: Logging(bufs, disk, logs[i], dev, start, lh, i + 1)
    requires forall i: nat | i < |lh| :: Home(bufs2, disk2, homes[i], dev, lh, i + 1)
    ensures var steps := logs + [disk2] + homes;
      forall i: nat | i < |steps| :: CommitStage(bufs, disk, steps[i], dev, start, lh, i)
  {
    hide Names, Content, Logging, Installing, Home, SameOutside, Logged;
    var steps := logs + [disk2] + homes;
    NoneHome(bufs2, disk2, dev, lh);
    forall i: nat | i < |steps| ensures CommitStage(bufs, disk, steps[i], dev, start, lh, i) {
      if i >= |lh| { Committed(bufs, disk, bufs2, disk2, steps[i], dev, start, lh, i - |lh|); }
    }
  }

  lemma HeadErased(bufs: seq<Buf>, disk: Disk, bufs': seq<Buf>, disk': Disk, dev: nat, start: nat, b: Block)
    requires HeadWritten(bufs, disk, bufs', disk', dev, start, HeadBlock(b, []))
    ensures Word(OnDisk(disk', dev, start), 0) == 0
  {
    HeadReads(b, []);
  }

  /** The whole of a commit: logged, listed in the header (2), brought home (3), the header erased (4). */
  lemma AllHome(bufs: seq<Buf>, disk: Disk, bufs2: seq<Buf>, disk2: Disk, bufs3: seq<Buf>, disk3: Disk,
                bufs4: seq<Buf>, disk4: Disk, dev: nat, start: nat, lh: seq<u32>)
    requires dev != 0 && Listed(lh, start)
    requires SameOutside(dev, start, bufs, disk, bufs2, disk2) && Logged(bufs, disk, disk2, dev, start, lh, |lh|)
    requires SameContent(bufs2, disk2, bufs3, disk3) && Home(bufs2, disk2, disk3, dev, lh, |lh|)
    requires exists data :: HeadWritten(bufs3, disk3, bufs4, disk4, dev, start, data)
    ensures SameOutside(dev, start, bufs, disk, bufs4, disk4)
    ensures forall k | 0 <= k < |lh| :: OnDisk(disk4, dev, lh[k]) == Content(bufs, disk, dev, lh[k])
    ensures forall d: nat, n: nat | d != dev || (!InLog(start, n) && n !in lh) ::
            OnDisk(disk4, d, n) == OnDisk(disk, d, n)
  {
    hide Content;
    assert lh[..|lh|] == lh;
    var data :| HeadWritten(bufs3, disk3, bufs4, disk4, dev, start, data);
  }

  // ---- the header -----------------------------------------------------------------------------

  /** The block numbers, one word each after the count. */
  function PutBlocks(b: Block, lh: seq<u32>): Block
    requires |lh| <= LOGBLOCKS
  {
    if lh == [] then b else SetWord(PutBlocks(b, lh[..|lh| - 1]), |lh|, lh[|lh| - 1])
  }

  function HeadBlock(b: Block, lh: seq<u32>): Block
    requires |lh| <= LOGBLOCKS
  {
    PutBlocks(SetWord(b, 0, |lh|), lh)
  }

  lemma {:induction false} PutBlocksAt(b: Block, lh: seq<u32>, k: nat)
    requires |lh| <= LOGBLOCKS && 4 * k + 4 <= BSIZE
    ensures Word(PutBlocks(b, lh), k) == if 1 <= k <= |lh| then lh[k - 1] else Word(b, k)
  {
    if lh != [] {
      var n := |lh| - 1;
      PutBlocksAt(b, lh[..n], k);
      SetWordAt(PutBlocks(b, lh[..n]), |lh|, lh[n], k);
    }
  }

  /** read_head gets back what write_head wrote. */
  lemma HeadReads(b: Block, lh: seq<u32>)
    requires |lh| <= LOGBLOCKS
    ensures Word(HeadBlock(b, lh), 0) == |lh| && forall k | 0 <= k < |lh| :: Word(HeadBlock(b, lh), k + 1) == lh[k]
  {
    hide SetWord, Word, PutBlocks;
    SetWordAt(b, 0, |lh|, 0);
    PutBlocksAt(SetWord(b, 0, |lh|), lh, 0);
    forall k | 0 <= k < |lh| ensures Word(HeadBlock(b, lh), k + 1) == lh[k] {
      PutBlocksAt(SetWord(b, 0, |lh|), lh, k + 1);
    }
  }
}
