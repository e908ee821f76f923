/** The journal over the crashable device: transactions, end_op and mount-time recovery. */
module Journaling {
  import opened Bytes
  import opened LogHeader
  import opened CrashDisk
  import opened WalProtocol
  import opened BlockDevice

  class Journal {
    const dev: BlockDev
    const ordered: bool        // mode = ordered
    const commitFirst: bool    // misorder = commit-first
    var seqno: nat
    var inOp: bool
    var buf: map<u32, Block>
    var order: seq<u32>
    var wroteDirect: bool

    ghost predicate Valid()
      reads this, dev
    {
      && dev.Valid() && HasLog(dev.base)
      && |order| <= LOGCAP && DistinctBlocks(order)
      && (forall b: u32 :: b in buf <==> b in order)
      && (!wroteDirect ==> dev.issued == [])
      && (wroteDirect ==> ordered)
    }

    /** What end_op is about to play out. */
    ghost function Current(): Txn
      requires seqno + 1 < 0x1_0000_0000
      reads this, dev
    {
      Txn(seqno + 1, order, buf, dev.issued)
    }

    constructor (dev: BlockDev, ordered: bool, commitFirst: bool)
      requires dev.Valid() && HasLog(dev.base) && dev.issued == []
      ensures Valid() && this.dev == dev && this.ordered == ordered && this.commitFirst == commitFirst
      ensures !inOp && order == []
      ensures var h := Parse(dev.base[LOGSTART]); seqno == if h.ok then h.seqno else 0
    {
      this.dev, this.ordered, this.commitFirst := dev, ordered, commitFirst;
      inOp, buf, order, wroteDirect := false, map[], [], false;
      seqno := 0;
      new;
      var raw := dev.Read(LOGSTART);
      var h := Parse(raw);
      if h.ok {
        seqno := h.seqno;
      }
    }

    /** Read-your-writes: the buffered block, else the device's. */
    method Read(bno: u32) returns (data: Block)
      requires Valid() && bno < |dev.base|
      ensures data == if bno in buf then buf[bno] else dev.Contents()[bno]
    {
      if bno in buf {
        return buf[bno];
      }
      data := dev.Read(bno);
    }

    method Write(bno: u32, data: Block)
      requires Valid() && inOp
      requires bno in buf || |order| < LOGCAP
      modifies this`buf, this`order
      ensures Valid()
      ensures buf == old(buf)[bno := data]
      ensures order == if bno in old(buf) then old(order) else old(order) + [bno]
    {
      if bno !in buf {
        order := order + [bno];
      }
      buf := buf[bno := data];
    }

    method WriteData(bno: u32, data: Block) returns (crashed: bool)
      requires Valid() && inOp
      requires if ordered then bno < |dev.base| else bno in buf || |order| < LOGCAP
      modifies this, dev
      ensures seqno == old(seqno) && inOp
      ensures crashed ==> ordered && MayCrash(old(dev.base), old(dev.issued), dev.platter)
      ensures !crashed ==> Valid() && dev.base == old(dev.base)
      ensures !crashed && ordered ==>
                && buf == old(buf) && order == old(order) && wroteDirect
                && dev.issued == old(dev.issued) + [CrashDisk.Write(bno, data)]
                && dev.installs + |dev.queue| == old(dev.installs + |dev.queue|)
                   + (if !dev.fifo && Touches(old(dev.issued), bno) then 0 else 1)
      ensures !ordered ==>
                && dev.issued == old(dev.issued) && wroteDirect == old(wroteDirect)
                && buf == old(buf)[bno := data]
                && order == (if bno in old(buf) then old(order) else old(order) + [bno])
      ensures dev.barriers == old(dev.barriers)
    {
      if ordered {
        crashed := dev.Write(bno, data);
        wroteDirect := true;
      } else {
        Write(bno, data);
        crashed := false;
      }
    }

    method BeginOp()
      requires Valid() && !inOp && dev.issued == []
      modifies this`inOp, this`buf, this`order, this`wroteDirect
      ensures Valid() && inOp && buf == map[] && order == [] && !wroteDirect
    {
      inOp, buf, order, wroteDirect := true, map[], [], false;
    }

    /**
     The write-ahead protocol. A crash leaves a crash state of one of its phases; a reverse
     drain leaves exactly a suffix of that phase. Without a crash every phase is durable, at
     a cost of 2n + 2 installs and 4 barriers, or 5 when data was written in place.
     */
    method EndOp() returns (crashed: bool, ghost phase: nat)
      requires Valid() && inOp && seqno + 1 < 0x1_0000_0000
      requires WellFormed(Current(), |dev.base|)
      modifies this, dev
      ensures seqno == old(seqno) + 1
      ensures var P := Phases(old(Current()), commitFirst);
        && (crashed ==> Cut(dev, old(dev.base), P, phase))
        && (!crashed ==>
              && Valid() && !inOp && order == [] && Clean(dev, old(dev.base), P, |P|)
              && dev.installs == old(dev.installs + |dev.queue|) + 2 * old(|order|) + 2
              && dev.barriers == old(dev.barriers) + |P| - 1 + (if old(wroteDirect) then 1 else 0))
    {
      ghost var t := Current();
      seqno := seqno + 1;
      crashed, phase := Play(dev, order, buf, seqno, ordered && wroteDirect, commitFirst, t);
      if crashed { return; }
      inOp, buf, order, wroteDirect := false, map[], [], false;
      assert |dev.base| == old(|dev.base|);
    }
  }

  /** The whole of end_op on the device. */
  method Play(dev: BlockDev, order: seq<u32>, buf: map<u32, Block>, seqno: u32, dataBarrier: bool, commitFirst: bool,
              ghost t: Txn)
      returns (crashed: bool, ghost phase: nat)
    requires dev.Valid() && WellFormed(t, |dev.base|) && t == Txn(seqno, order, buf, dev.issued)
    requires !dataBarrier ==> dev.issued == []
    modifies dev
    ensures var P := Phases(t, commitFirst);
      && (crashed ==> Cut(dev, old(dev.base), P, phase))
      && (!crashed ==>
            && Clean(dev, old(dev.base), P, |P|)
            && dev.installs == old(dev.installs + |dev.queue|) + 2 * |order| + 2
            && dev.barriers == old(dev.barriers) + |P| - 1 + (if dataBarrier then 1 else 0))
  {
    ghost var d := dev.base;
    ghost var P := Phases(t, commitFirst);
    PhasesInRange(t, commitFirst, |d|);
    NothingQueued(dev);
    assert Apply(d, []) == d;
    BeforeStep(d, P, 0);
    hide Slots, Homes, Pack, Parse, Before, Apply, MayCrash, DrainedSuffix, IssuedPrefix, CrashAt, InRange,
         AllInRange, Coalesced;
    phase := 0;
    if dataBarrier {
      crashed := Flush(dev, d, P, 0);
      if crashed { return; }
    }
    var commit := Pack(seqno, order);
    if commitFirst {
      crashed, phase := PlayCommitFirst(dev, order, buf, commit, d, t);
    } else {
      crashed, phase := PlayLog(dev, order, buf, commit, d, t);
    }
    if crashed { return; }
    crashed, phase := PlayCheckpoint(dev, order, buf, Pack(seqno, []), d, t, commitFirst);
  }

  /** Phase i was interrupted. */
  ghost predicate Cut(dev: BlockDev, d: Disk, P: seq<seq<CrashDisk.Write>>, i: nat)
    reads dev
  {
    && AllInRange(P, |d|)
    && CrashAt(d, P, i, dev.platter)
    && dev.crashAfter == After(dev.installs)
    && (!dev.fifo && i > 0 ==> DrainedSuffix(Before(d, P, i), P[i], dev.platter))
    && (dev.fifo ==> IssuedPrefix(Before(d, P, i), P[i], dev.platter))
  }

  /** On a fifo device a phase is cut between two of its writes. */
  lemma CutBetween(dev: BlockDev, d: Disk, P: seq<seq<CrashDisk.Write>>, i: nat)
    requires AllInRange(P, |d|) && i < |P| && dev.fifo && dev.crashAfter == After(dev.installs)
    requires IssuedPrefix(Before(d, P, i), P[i], dev.platter)
    ensures Cut(dev, d, P, i)
  {
    PrefixMayCrash(Before(d, P, i), P[i], dev.platter);
  }

  lemma NoneIssued(d: Disk, ws: seq<CrashDisk.Write>)
    requires InRange(ws, |d|)
    ensures IssuedPrefix(d, ws, d)
  {
    assert ws[..0] == [];
  }

  /** The first i phases are durable and nothing is pending. */
  ghost predicate Clean(dev: BlockDev, d: Disk, P: seq<seq<CrashDisk.Write>>, i: nat)
    reads dev
  {
    && AllInRange(P, |d|) && i <= |P|
    && dev.Valid() && dev.base == Before(d, P, i) && dev.issued == [] && dev.queue == []
  }

  lemma NothingQueued(dev: BlockDev)
    requires dev.Valid()
    ensures dev.issued == [] ==> dev.queue == [] && dev.platter == dev.base && dev.Contents() == dev.base
  {
    if dev.issued == [] {
      forall w ensures w !in dev.queue { }
    }
  }

  /** The barrier that ends phase i. */
  method Flush(dev: BlockDev, ghost d: Disk, ghost P: seq<seq<CrashDisk.Write>>, ghost i: nat) returns (crashed: bool)
    requires dev.Valid() && AllInRange(P, |d|) && i < |P|
    requires dev.base == Before(d, P, i) && dev.issued == P[i]
    requires !dev.fifo && i > 0 ==> dev.queue == P[i]
    modifies dev
    ensures crashed ==> Cut(dev, d, P, i)
    ensures !crashed ==>
              && Clean(dev, d, P, i + 1)
              && dev.installs == old(dev.installs + |dev.queue|) && dev.barriers == old(dev.barriers) + 1
  {
    BeforeStep(d, P, i);
    ghost var q := dev.queue;
    ghost var n := dev.installs;
    crashed := dev.Barrier();
    if crashed {
      assert !dev.fifo && i > 0 ==> P[i][|q| - (dev.installs - n)..] == q[|q| - (dev.installs - n)..];
    }
  }

  /** A phase that is one header write and its barrier. */
  method WriteHeader(dev: BlockDev, ghost d: Disk, ghost P: seq<seq<CrashDisk.Write>>, ghost i: nat, raw: Block)
      returns (crashed: bool)
    requires Clean(dev, d, P, i) && 0 < i < |P| && LOGSTART < |d|
    requires P[i] == [CrashDisk.Write(LOGSTART, raw)]
    modifies dev
    ensures crashed ==> Cut(dev, d, P, i)
    ensures !crashed ==>
              && Clean(dev, d, P, i + 1)
              && dev.installs == old(dev.installs) + 1 && dev.barriers == old(dev.barriers) + 1
  {
    ghost var b := dev.base;
    crashed := dev.Write(LOGSTART, raw);
    if !crashed {
      crashed := Flush(dev, d, P, i);
    } else {
      NoneIssued(b, P[i]);
      CutBetween(dev, d, P, i);
    }
  }

  /** Steps 1 to 4: the log, then the commit record, each with its barrier. */
  method PlayLog(dev: BlockDev, order: seq<u32>, buf: map<u32, Block>, commit: Block, ghost d: Disk, ghost t: Txn)
      returns (crashed: bool, ghost phase: nat)
    requires WellFormed(t, |d|) && t.order == order && t.buf == buf && commit == Pack(t.seqno, order)
    requires Clean(dev, d, Phases(t, false), 1)
    modifies dev
    ensures crashed ==> Cut(dev, d, Phases(t, false), phase)
    ensures !crashed ==>
              && Clean(dev, d, Phases(t, false), 3)
              && dev.installs == old(dev.installs) + |order| + 1
              && dev.barriers == old(dev.barriers) + 2
  {
    ghost var P := Phases(t, false);
    hide Slots, Homes, Pack, Before, Apply, DrainedSuffix, IssuedPrefix, MayCrash, InRange, Coalesced;
    phase := 1;
    crashed := IssueSlots(dev, order, buf, t, []);
    assert [] + Slots(t) == P[1];
    if crashed {
      CutBetween(dev, d, P, 1);
      return;
    }
    crashed := Flush(dev, d, P, 1);
    if crashed { return; }
    phase := 2;
    crashed := WriteHeader(dev, d, P, 2, commit);
  }

  /** The commit-first violation: the commit record, then the log, and one barrier for both. */
  method PlayCommitFirst(dev: BlockDev, order: seq<u32>, buf: map<u32, Block>, commit: Block,
                         ghost d: Disk, ghost t: Txn)
      returns (crashed: bool, ghost phase: nat)
    requires WellFormed(t, |d|) && t.order == order && t.buf == buf && commit == Pack(t.seqno, order)
    requires Clean(dev, d, Phases(t, true), 1)
    modifies dev
    ensures crashed ==> Cut(dev, d, Phases(t, true), phase)
    ensures !crashed ==>
              && Clean(dev, d, Phases(t, true), 2)
              && dev.installs == old(dev.installs) + |order| + 1
              && dev.barriers == old(dev.barriers) + 1
  {
    ghost var P := Phases(t, true);
    hide Slots, Homes, Pack, Before, Apply, DrainedSuffix, IssuedPrefix, MayCrash, InRange, Coalesced;
    phase := 1;
    ghost var b := dev.base;
    crashed := dev.Write(LOGSTART, commit);
    if crashed {
      NoneIssued(b, P[1]);
      CutBetween(dev, d, P, 1);
      return;
    }
    crashed := IssueSlots(dev, order, buf, t, [Commit(t)]);
    if crashed {
      CutBetween(dev, d, P, 1);
      return;
    }
    crashed := Flush(dev, d, P, 1);
  }

  /** Steps 5 to 8: every block to its home, then the empty header. */
  method PlayCheckpoint(dev: BlockDev, order: seq<u32>, buf: map<u32, Block>, clear: Block,
                        ghost d: Disk, ghost t: Txn, ghost commitFirst: bool)
      returns (crashed: bool, ghost phase: nat)
    requires WellFormed(t, |d|) && t.order == order && t.buf == buf && clear == Pack(t.seqno, [])
    requires Clean(dev, d, Phases(t, commitFirst), |Phases(t, commitFirst)| - 2)
    modifies dev
    ensures var P := Phases(t, commitFirst);
      && (crashed ==> Cut(dev, d, P, phase))
      && (!crashed ==>
            && Clean(dev, d, P, |P|)
            && dev.installs == old(dev.installs) + |order| + 1
            && dev.barriers == old(dev.barriers) + 2)
  {
    ghost var P := Phases(t, commitFirst);
    hide Slots, Homes, Pack, Before, Apply, IssuedPrefix, MayCrash;
    phase := |P| - 2;
    crashed := IssueHomes(dev, order, buf, t);
    if crashed {
      CutBetween(dev, d, P, phase);
      return;
    }
    crashed := Flush(dev, d, P, phase);
    if crashed { return; }
    phase := |P| - 1;
    crashed := WriteHeader(dev, d, P, phase, clear);
  }

  /** Write the journaled blocks to their log slots. */
  method IssueSlots(dev: BlockDev, order: seq<u32>, buf: map<u32, Block>, ghost t: Txn, ghost pre: seq<CrashDisk.Write>)
      returns (crashed: bool)
    requires dev.Valid() && HasLog(dev.base) && t.order == order && t.buf == buf && Buffered(t) && |order| <= LOGCAP
    requires dev.issued == pre && (!dev.fifo ==> dev.queue == pre)
    requires forall i | 0 <= i < |pre| :: pre[i].bno == LOGSTART
    modifies dev
    ensures dev.barriers == old(dev.barriers)
    ensures crashed ==>
              && dev.fifo && dev.crashAfter == After(dev.installs)
              && IssuedPrefix(old(dev.base), pre + Slots(t), dev.platter)
    ensures !crashed ==>
              && dev.Valid() && dev.base == old(dev.base) && dev.issued == pre + Slots(t)
              && (!dev.fifo ==> dev.queue == pre + Slots(t))
              && dev.installs + |dev.queue| == old(dev.installs + |dev.queue|) + |order|
  {
    hide Coalesced, MayCrash, Apply;
    ghost var ws := Slots(t);
    for k := 0 to |order|
      invariant dev.Valid() && dev.base == old(dev.base) && dev.barriers == old(dev.barriers)
      invariant dev.issued == pre + ws[..k] && (!dev.fifo ==> dev.queue == pre + ws[..k])
      invariant dev.installs + |dev.queue| == old(dev.installs + |dev.queue|) + k
    {
      assert ws[..k + 1] == ws[..k] + [ws[k]];
      assert forall i | 0 <= i < |dev.issued| :: dev.issued[i].bno < LOGSTART + 1 + k;
      ghost var sofar := dev.issued;
      crashed := dev.Write(LOGSTART + 1 + k, buf[order[k]]);
      if crashed {
        assert (pre + ws)[..|pre| + k] == sofar;
        return;
      }
    }
    assert ws[..|order|] == ws;
    crashed := false;
  }

  /** Write the journaled blocks to their home locations. */
  method IssueHomes(dev: BlockDev, order: seq<u32>, buf: map<u32, Block>, ghost t: Txn) returns (crashed: bool)
    requires dev.Valid() && t.order == order && t.buf == buf && WellFormed(t, |dev.base|)
    requires dev.issued == [] && dev.queue == []
    modifies dev
    ensures dev.barriers == old(dev.barriers)
    ensures crashed ==>
              && dev.fifo && dev.crashAfter == After(dev.installs)
              && IssuedPrefix(old(dev.base), Homes(t), dev.platter)
    ensures !crashed ==>
              && dev.Valid() && dev.base == old(dev.base) && dev.issued == Homes(t)
              && (!dev.fifo ==> dev.queue == Homes(t))
              && dev.installs + |dev.queue| == old(dev.installs) + |order|
  {
    hide Coalesced, MayCrash, Apply;
    ghost var ws := Homes(t);
    for k := 0 to |order|
      invariant dev.Valid() && dev.base == old(dev.base) && dev.barriers == old(dev.barriers)
      invariant dev.issued == ws[..k] && (!dev.fifo ==> dev.queue == ws[..k])
      invariant dev.installs + |dev.queue| == old(dev.installs) + k
    {
      assert ws[..k + 1] == ws[..k] + [ws[k]];
      assert forall i | 0 <= i < k :: dev.issued[i].bno == order[i] != order[k];
      crashed := dev.Write(order[k], buf[order[k]]);
      if crashed {
        return;
      }
    }
    assert ws[..|order|] == ws;
    crashed := false;
  }

  /**
   Mount-time recovery: copy every log slot to the block its header names, then clear the header. The header
   may name log blocks, and then a slot may be overwritten before it is read.
   */
  method Recover(dev: BlockDev) returns (crashed: bool, replayed: nat, seqno: u32)
    requires dev.Valid() && dev.issued == [] && OnDevice(dev.base)
    modifies dev
    ensures crashed ==> RecoverCrash(old(dev.base), dev.platter)
    ensures !crashed ==>
              && dev.Valid() && dev.issued == [] && dev.base == Recovered(old(dev.base))
              && replayed == |Parse(old(dev.base)[LOGSTART]).dests|
              && seqno == Parse(old(dev.base)[LOGSTART]).seqno
  {
    ghost var d := dev.base;
    ghost var P := RecoverPhases(d);
    NothingQueued(dev);
    var raw := dev.Read(LOGSTART);
    var h := Parse(raw);
    seqno := h.seqno;
    replayed := |h.dests|;
    if replayed == 0 {
      return false, 0, seqno;
    }
    hide Pack, Parse, Apply, Before, DrainedSuffix, Coalesced, Copies;
    crashed := IssueCopies(dev, h.dests);
    if crashed {
      assert CrashAt(d, P, 0, dev.platter);
      return;
    }
    crashed := Flush(dev, d, P, 0);
    if crashed { return; }
    crashed := WriteHeader(dev, d, P, 1, Pack(seqno, []));
  }

  /** Copy every log slot to its destination. */
  method IssueCopies(dev: BlockDev, dests: seq<u32>) returns (crashed: bool)
    requires dev.Valid() && dev.issued == [] && HasLog(dev.base) && |dests| <= LOGCAP
    requires forall k | 0 <= k < |dests| :: dests[k] < |dev.base|
    modifies dev
    ensures crashed ==> MayCrash(old(dev.base), Copies(old(dev.base), dests), dev.platter)
    ensures !crashed ==>
              dev.Valid() && dev.base == old(dev.base) && dev.issued == Copies(old(dev.base), dests)
  {
    hide Coalesced, MayCrash, Apply, Copies, InRange, Parse;
    ghost var d := dev.base;
    NoCopies(d);
    for k := 0 to |dests|
      invariant dev.Valid() && dev.base == d && dev.issued == Copies(d, dests[..k])
    {
      CopyOne(d, dests[..k + 1]);
      assert dests[..k + 1][..k] == dests[..k];
      var data := dev.Read(LOGSTART + 1 + k);
      crashed := dev.Write(dests[k], data);
      if crashed {
        CrashLater(d, dests, k, dev.platter);
        return;
      }
    }
    assert dests[..|dests|] == dests;
    crashed := false;
  }

  lemma NoCopies(d: Disk)
    requires HasLog(d)
    ensures Copies(d, []) == []
  {
  }

  /** A crash after some of the copies is a crash among all of them. */
  lemma {:induction false} CrashLater(d: Disk, dests: seq<u32>, k: nat, d': Disk)
    requires HasLog(d) && |dests| <= LOGCAP && k <= |dests| && forall j | 0 <= j < |dests| :: dests[j] < |d|
    requires MayCrash(d, Copies(d, dests[..k]), d')
    ensures MayCrash(d, Copies(d, dests), d')
  {
    hide Apply, MayCrash;
    var n := |dests| - 1;
    if k == n + 1 {
      assert dests[..k] == dests;
    } else {
      assert dests[..n][..k] == dests[..k];
      CrashLater(d, dests[..n], k, d');
      var ws := Copies(d, dests[..n]);
      MayCrashMore(d, ws, [CrashDisk.Write(dests[n], Apply(d, ws)[LOGSTART + 1 + n])], d');
    }
  }
}
