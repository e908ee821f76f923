/** The crashable simulated device: fifo, or queued with a reverse drain at each barrier. */
module BlockDevice {
  import opened Bytes
  import opened CrashDisk

  datatype Limit = Unlimited | After(n: nat)

  class BlockDev {
    const fifo: bool
    const crashAfter: Limit
    var platter: Disk
    var queue: seq<Write>
    var installs: nat
    var barriers: nat
    ghost var base: Disk            // the platter at the last barrier
    ghost var issued: seq<Write>    // the writes issued since then

    ghost predicate Valid()
      reads this
    {
      && |platter| == |base|
      && InRange(issued, |base|) && InRange(queue, |base|)
      && (fifo ==> queue == [] && platter == Apply(base, issued))
      && (!fifo ==> platter == base && Coalesced(base, issued, queue))
      && (crashAfter.After? ==> installs <= crashAfter.n)
    }

    /** The contents reads see. */
    ghost function Contents(): Disk
      requires Valid()
      reads this
    {
      Apply(base, issued)
    }

    constructor (fifo: bool, crashAfter: Limit, image: Disk)
      ensures Valid() && this.fifo == fifo && this.crashAfter == crashAfter
      ensures base == image && issued == [] && installs == 0 && barriers == 0
    {
      this.fifo, this.crashAfter := fifo, crashAfter;
      platter, queue, installs, barriers := image, [], 0, 0;
      base, issued := image, [];
    }

    /** One durable block write, or the crash. */
    method Install(bno: nat, data: Block) returns (crashed: bool)
      requires bno < |platter|
      requires crashAfter.After? ==> installs <= crashAfter.n
      modifies this`platter, this`installs
      ensures crashed == (crashAfter == After(old(installs)))
      ensures crashed ==> platter == old(platter) && installs == old(installs)
      ensures !crashed ==> platter == old(platter)[bno := data] && installs == old(installs) + 1
      ensures crashAfter.After? ==> installs <= crashAfter.n
    {
      if crashAfter.After? && installs >= crashAfter.n {
        return true;
      }
      platter := platter[bno := data];
      installs := installs + 1;
      return false;
    }

    method Read(bno: nat) returns (data: Block)
      requires Valid() && bno < |base|
      ensures data == Contents()[bno]
    {
      var i := |queue|;
      while i > 0
        invariant 0 <= i <= |queue|
        invariant forall j | i <= j < |queue| :: queue[j].bno != bno
      {
        i := i - 1;
        if queue[i].bno == bno {
          DistinctAt(base, queue, i);
          return queue[i].data;
        }
      }
      if !fifo {
        ApplyAt(base, queue, bno);
      }
      return platter[bno];
    }

    method Write(bno: nat, data: Block) returns (crashed: bool)
      requires Valid() && bno < |base|
      modifies this
      ensures barriers == old(barriers)
      ensures crashed ==>
                && fifo && crashAfter == After(old(installs)) && installs == old(installs)
                && platter == old(platter)
                && MayCrash(old(base), old(issued), platter)
      ensures !crashed ==>
                && Valid() && base == old(base)
                && issued == old(issued) + [CrashDisk.Write(bno, data)]
                && Contents() == old(Contents())[bno := data]
                && installs + |queue| ==
                   old(installs + |queue|) + (if !fifo && Touches(old(issued), bno) then 0 else 1)
                && (!fifo && !Touches(old(issued), bno) ==>
                      queue == old(queue) + [CrashDisk.Write(bno, data)])
    {
      var w := CrashDisk.Write(bno, data);
      ApplyOne(base, issued, w);
      if fifo {
        SelectionMayCrash(base, issued, issued);
        crashed := Install(bno, data);
        if !crashed {
          issued := issued + [w];
        }
        return;
      }
      var i := 0;
      while i < |queue|
        invariant 0 <= i <= |queue|
        invariant forall j | 0 <= j < i :: queue[j].bno != bno
      {
        if queue[i].bno == bno {
          Coalesce(base, issued, queue, i, data);
          issued := issued + [w];
          queue := queue[i := w];
          return false;
        }
        i := i + 1;
      }
      Enqueue(base, issued, queue, w);
      issued := issued + [w];
      queue := queue + [w];
      return false;
    }

    method Barrier() returns (crashed: bool)
      requires Valid()
      modifies this
      ensures barriers == old(barriers) + 1
      ensures crashed == (crashAfter.After? && old(installs + |queue|) > crashAfter.n)
      ensures crashed ==>
                && crashAfter == After(installs) && old(installs) <= installs
                && !fifo
                && MayCrash(old(base), old(issued), platter)
                && var k := installs - old(installs);
                   k < |old(queue)| && platter == Apply(old(platter), old(queue)[|old(queue)| - k..])
      ensures !crashed ==>
                && Valid() && base == old(Contents()) && issued == [] && queue == []
                && installs == old(installs + |queue|)
    {
      hide Apply, MayCrash, Coalesced;
      barriers := barriers + 1;
      var pending := queue;
      queue := [];
      var i := |pending|;
      NothingDrained(base, issued, pending);
      while i > 0
        invariant 0 <= i <= |pending|
        invariant base == old(base) && issued == old(issued) && queue == [] && barriers == old(barriers) + 1
        invariant if fifo then pending == [] && platter == old(platter) else platter == Apply(base, pending[i..])
        invariant installs == old(installs) + |pending| - i
        invariant crashAfter.After? ==> installs <= crashAfter.n
      {
        DrainNext(base, issued, pending, i - 1);
        crashed := Install(pending[i - 1].bno, pending[i - 1].data);
        if crashed {
          SuffixMayCrash(base, issued, pending, i);
          assert |pending| - (installs - old(installs)) == i;
          return;
        }
        i := i - 1;
      }
      assert platter == Apply(base, issued);
      base, issued := platter, [];
      AllDrained(base);
      return false;
    }

    /** Lose power with writes still queued. */
    method CrashNow()
      requires Valid()
      modifies this`queue
      ensures queue == [] && MayCrash(base, issued, platter)
    {
      queue := [];
      SelectionMayCrash(base, if fifo then issued else [], issued);
    }
  }

  /** The queue holds one write per block issued, with the same overall effect. */
  ghost predicate Coalesced(d: Disk, issued: seq<Write>, q: seq<Write>) {
    && InRange(issued, |d|) && InRange(q, |d|) && Distinct(q)
    && (forall i | 0 <= i < |q| :: q[i] in issued)
    && (forall b: nat :: Touches(issued, b) ==> Touches(q, b))
    && Apply(d, q) == Apply(d, issued)
  }

  lemma NothingDrained(d: Disk, issued: seq<Write>, q: seq<Write>)
    requires InRange(q, |d|)
    ensures Apply(d, q[|q|..]) == d
    ensures Coalesced(d, issued, q) ==> q[0..] == q && Apply(d, q[0..]) == Apply(d, issued)
  {
    assert q[0..] == q;
  }

  /** The next write of a reverse drain: no later entry of the queue is for its block. */
  lemma DrainNext(d: Disk, issued: seq<Write>, q: seq<Write>, i: nat)
    requires Coalesced(d, issued, q) && i < |q|
    ensures Apply(d, q[i..]) == Apply(d, q[i + 1..])[q[i].bno := q[i].data]
  {
    DrainOne(d, q[i], q[i + 1..]);
    assert q[i..] == [q[i]] + q[i + 1..];
  }

  lemma AllDrained(d: Disk)
    ensures Apply(d, []) == d && Coalesced(d, [], [])
  {
  }

  lemma Enqueue(d: Disk, issued: seq<Write>, q: seq<Write>, w: Write)
    requires Coalesced(d, issued, q) && w.bno < |d|
    requires forall j | 0 <= j < |q| :: q[j].bno != w.bno
    ensures Coalesced(d, issued + [w], q + [w]) && !Touches(issued, w.bno)
  {
    ApplyOne(d, q, w);
    ApplyOne(d, issued, w);
    forall b: nat | Touches(issued + [w], b) ensures Touches(q + [w], b) {
      if b == w.bno {
        assert (q + [w])[|q|] == w;
      } else {
        var i :| 0 <= i < |issued + [w]| && (issued + [w])[i].bno == b;
        assert issued[i].bno == b && Touches(issued, b);
        var j :| 0 <= j < |q| && q[j].bno == b;
        assert (q + [w])[j] == q[j];
      }
    }
  }

  lemma Coalesce(d: Disk, issued: seq<Write>, q: seq<Write>, i: nat, data: Block)
    requires Coalesced(d, issued, q) && i < |q|
    ensures var w := Write(q[i].bno, data);
            Coalesced(d, issued + [w], q[i := w]) && Touches(issued, w.bno)
  {
    var w := Write(q[i].bno, data);
    var q' := q[i := w];
    assert q[i] in issued;
    ApplyOne(d, issued, w);
    forall b: nat | Touches(issued + [w], b) ensures Touches(q', b) {
      if b == w.bno {
        assert q'[i] == w;
      } else {
        var k :| 0 <= k < |issued + [w]| && (issued + [w])[k].bno == b;
        assert issued[k].bno == b && Touches(issued, b);
        var j :| 0 <= j < |q| && q[j].bno == b;
        assert q'[j] == q[j];
      }
    }
    ReplaceAt(d, q, i, w);
  }

  lemma {:induction false} ReplaceAt(d: Disk, q: seq<Write>, i: nat, w: Write)
    requires InRange(q, |d|) && Distinct(q) && i < |q| && w.bno == q[i].bno
    ensures Apply(d, q[i := w]) == Apply(d, q)[w.bno := w.data]
  {
    var n := |q| - 1;
    if i == n {
      assert q[i := w][..n] == q[..n];
    } else {
      assert q[i := w][..n] == q[..n][i := w];
      ReplaceAt(d, q[..n], i, w);
    }
  }

  lemma SuffixMayCrash(d: Disk, issued: seq<Write>, q: seq<Write>, i: nat)
    requires Coalesced(d, issued, q) && i <= |q|
    ensures MayCrash(d, issued, Apply(d, q[i..]))
  {
    SelectionMayCrash(d, q[i..], issued);
  }
}
