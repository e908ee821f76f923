/**
 The abstract disk: between two barriers any subset of the issued writes may reach
 the platter before a crash, in any order. A barrier that returns has installed all.
 */
module CrashDisk {
  import opened Bytes

  datatype Write = Write(bno: nat, data: Block)
  type Disk = seq<Block>

  predicate InRange(ws: seq<Write>, size: nat) {
    forall i | 0 <= i < |ws| :: ws[i].bno < size
  }

  /** All of ws installed in issue order. */
  function Apply(d: Disk, ws: seq<Write>): (r: Disk)
    requires InRange(ws, |d|)
    ensures |r| == |d|
  {
    if ws == [] then d
    else var w := ws[|ws| - 1]; Apply(d, ws[..|ws| - 1])[w.bno := w.data]
  }

  /** What a crash may leave: block by block, the old content or one of the issued contents. */
  ghost predicate MayCrash(d: Disk, ws: seq<Write>, d': Disk) {
    |d'| == |d| && forall b | 0 <= b < |d| :: d'[b] == d[b] || Write(b, d'[b]) in ws
  }

  /** Installing any selection of the issued writes in any order is a possible crash. */
  lemma {:induction false} SelectionMayCrash(d: Disk, picks: seq<Write>, ws: seq<Write>)
    requires InRange(picks, |d|) && forall i | 0 <= i < |picks| :: picks[i] in ws
    ensures MayCrash(d, ws, Apply(d, picks))
  {
    if picks != [] {
      SelectionMayCrash(d, picks[..|picks| - 1], ws);
    }
  }

  /** And every possible crash is such a selection, so MayCrash is exactly the any-subset disk. */
  lemma {:induction false} MayCrashIsSelection(d: Disk, ws: seq<Write>, d': Disk) returns (picks: seq<Write>)
    requires MayCrash(d, ws, d')
    ensures InRange(picks, |d|) && (forall i | 0 <= i < |picks| :: picks[i] in ws) && Apply(d, picks) == d'
  {
    picks := [];
    var b := 0;
    while b < |d|
      invariant 0 <= b <= |d|
      invariant InRange(picks, |d|) && forall i | 0 <= i < |picks| :: picks[i] in ws
      invariant forall c | 0 <= c < |d| :: Apply(d, picks)[c] == if c < b then d'[c] else d[c]
    {
      if d'[b] != d[b] {
        var more := picks + [Write(b, d'[b])];
        assert more[..|more| - 1] == picks;
        picks := more;
      }
      b := b + 1;
    }
  }

  lemma MayCrashMore(d: Disk, ws: seq<Write>, more: seq<Write>, d': Disk)
    requires MayCrash(d, ws, d')
    ensures MayCrash(d, ws + more, d')
  {
  }

  lemma ApplyOne(d: Disk, ws: seq<Write>, w: Write)
    requires InRange(ws, |d|) && w.bno < |d|
    ensures InRange(ws + [w], |d|) && Apply(d, ws + [w]) == Apply(d, ws)[w.bno := w.data]
  {
    assert (ws + [w])[..|ws|] == ws;
  }

  lemma ApplySingle(d: Disk, w: Write)
    requires w.bno < |d|
    ensures Apply(d, [w]) == d[w.bno := w.data]
  {
    assert [w][..0] == [];
  }

  predicate Distinct(ws: seq<Write>) {
    forall i, j | 0 <= i < j < |ws| :: ws[i].bno != ws[j].bno
  }

  predicate Touches(ws: seq<Write>, b: nat) {
    exists i | 0 <= i < |ws| :: ws[i].bno == b
  }

  /** Block b of the result: its last write, or the old content. */
  lemma {:induction false} ApplyAt(d: Disk, ws: seq<Write>, b: nat)
    requires InRange(ws, |d|) && b < |d|
    ensures !Touches(ws, b) ==> Apply(d, ws)[b] == d[b]
    ensures Touches(ws, b) ==> Write(b, Apply(d, ws)[b]) in ws
  {
    if ws != [] {
      var init := ws[..|ws| - 1];
      ApplyAt(d, init, b);
      assert ws == init + [ws[|ws| - 1]];
    }
  }

  /** Blocks on which two disks agree still agree after the same writes. */
  lemma {:induction false} ApplyAgrees(d: Disk, e: Disk, ws: seq<Write>, b: nat)
    requires InRange(ws, |d|) && |e| == |d| && b < |d| && d[b] == e[b]
    ensures Apply(d, ws)[b] == Apply(e, ws)[b]
  {
    if ws != [] {
      ApplyAgrees(d, e, ws[..|ws| - 1], b);
    }
  }

  lemma DistinctAt(d: Disk, ws: seq<Write>, i: nat)
    requires InRange(ws, |d|) && Distinct(ws) && i < |ws|
    ensures Apply(d, ws)[ws[i].bno] == ws[i].data
  {
    ApplyAt(d, ws, ws[i].bno);
  }

  /** A write to a block the others leave alone may as well go last. */
  lemma {:induction false} DrainOne(d: Disk, w: Write, q: seq<Write>)
    requires w.bno < |d| && InRange(q, |d|) && forall j | 0 <= j < |q| :: q[j].bno != w.bno
    ensures Apply(d, [w] + q) == Apply(d, q)[w.bno := w.data]
  {
    var n := |q| - 1;
    if n < 0 {
      ApplyOne(d, [], w);
      assert [w] + q == q + [w];
    } else {
      DrainOne(d, w, q[..n]);
      assert ([w] + q)[..n + 1] == [w] + q[..n];
    }
  }
}
