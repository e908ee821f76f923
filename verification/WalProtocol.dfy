/**
 The write-ahead protocol as phases of writes separated by barriers, its crashes on the
 any-subset disk, and what recovery makes of them.
 */
module WalProtocol {
  import opened Bytes
  import opened LogHeader
  import opened CrashDisk

  /** One transaction: journaled blocks in first-write order, and the blocks written in place. */
  datatype Txn = Txn(seqno: u32, order: seq<u32>, buf: map<u32, Block>, direct: seq<Write>)

  predicate Home(bno: nat) { !InLog(bno) }

  predicate DistinctBlocks(order: seq<u32>) {
    forall i, j | 0 <= i < j < |order| :: order[i] != order[j]
  }

  predicate Buffered(t: Txn) {
    forall k | 0 <= k < |t.order| :: t.order[k] in t.buf
  }

  ghost predicate WellFormed(t: Txn, size: nat) {
    && LOGSTART + NLOG <= size
    && |t.order| <= LOGCAP && DistinctBlocks(t.order)
    && Buffered(t)
    && (forall k | 0 <= k < |t.order| :: t.order[k] < size && Home(t.order[k]))
    && (forall i | 0 <= i < |t.direct| ::
          t.direct[i].bno < size && Home(t.direct[i].bno) && t.direct[i].bno !in t.order)
  }

  function Slots(t: Txn): seq<Write>
    requires Buffered(t)
  {
    seq(|t.order|, k requires 0 <= k < |t.order| => Write(LOGSTART + 1 + k, t.buf[t.order[k]]))
  }

  function Homes(t: Txn): seq<Write>
    requires Buffered(t)
  {
    seq(|t.order|, k requires 0 <= k < |t.order| => Write(t.order[k], t.buf[t.order[k]]))
  }

  function Commit(t: Txn): Write
    requires |t.order| <= LOGCAP
  {
    Write(LOGSTART, Pack(t.seqno, t.order))
  }

  function Clear(t: Txn): Write {
    Write(LOGSTART, Pack(t.seqno, []))
  }

  /** The phases of one transaction. commitFirst issues the commit record before the log blocks. */
  function Phases(t: Txn, commitFirst: bool): seq<seq<Write>>
    requires |t.order| <= LOGCAP && Buffered(t)
  {
    if commitFirst
    then [t.direct, [Commit(t)] + Slots(t), Homes(t), [Clear(t)]]
    else [t.direct, Slots(t), [Commit(t)], Homes(t), [Clear(t)]]
  }

  predicate AllInRange(phases: seq<seq<Write>>, size: nat) {
    forall i | 0 <= i < |phases| :: InRange(phases[i], size)
  }

  /** The platter after the first i phases and their barriers. */
  function Before(d: Disk, phases: seq<seq<Write>>, i: nat): (r: Disk)
    requires i <= |phases| && AllInRange(phases, |d|)
    ensures |r| == |d|
  {
    if i == 0 then d else Apply(Before(d, phases, i - 1), phases[i - 1])
  }

  lemma BeforeStep(d: Disk, phases: seq<seq<Write>>, i: nat)
    requires i < |phases| && AllInRange(phases, |d|)
    ensures Before(d, phases, 0) == d
    ensures Before(d, phases, i + 1) == Apply(Before(d, phases, i), phases[i])
  {
  }

  ghost predicate CrashAt(d: Disk, phases: seq<seq<Write>>, i: nat, d': Disk)
    requires AllInRange(phases, |d|)
  {
    i < |phases| && MayCrash(Before(d, phases, i), phases[i], d')
  }

  /** What a reverse drain leaves when it is cut short: the tail of the queue, never its first entry. */
  ghost predicate DrainedSuffix(d: Disk, ws: seq<Write>, d': Disk) {
    InRange(ws, |d|) && exists j | 0 < j <= |ws| :: d' == Apply(d, ws[j..])
  }

  /** What a fifo device leaves when it stops partway: the writes issued so far. */
  ghost predicate IssuedPrefix(d: Disk, ws: seq<Write>, d': Disk) {
    InRange(ws, |d|) && exists j | 0 <= j <= |ws| :: d' == Apply(d, ws[..j])
  }

  lemma PrefixMayCrash(d: Disk, ws: seq<Write>, d': Disk)
    requires IssuedPrefix(d, ws, d')
    ensures MayCrash(d, ws, d')
  {
    var j :| 0 <= j <= |ws| && d' == Apply(d, ws[..j]);
    SelectionMayCrash(d, ws[..j], ws);
  }

  // ---- recovery ---------------------------------------------------------------

  ghost predicate HasLog(d: Disk) { LOGSTART + NLOG <= |d| }

  /** No committed transaction in the header. */
  ghost predicate Idle(d: Disk) {
    HasLog(d) && Parse(d[LOGSTART]).dests == []
  }

  /** Every destination the header names is a home block of the device. */
  ghost predicate SaneHeader(d: Disk) {
    HasLog(d) &&
    var dests := Parse(d[LOGSTART]).dests;
    forall k | 0 <= k < |dests| :: dests[k] < |d| && Home(dests[k])
  }

  /** Every destination the header names is on the device. */
  ghost predicate OnDevice(d: Disk) {
    HasLog(d) && forall k | 0 <= k < |Parse(d[LOGSTART]).dests| :: Parse(d[LOGSTART]).dests[k] < |d|
  }

  /** Slot after slot copied to its destination, each slot read after the copies before it. */
  function Copies(d: Disk, dests: seq<u32>): (ws: seq<Write>)
    requires LOGSTART + NLOG <= |d| && |dests| <= LOGCAP && forall k | 0 <= k < |dests| :: dests[k] < |d|
    ensures |ws| == |dests| && InRange(ws, |d|)
  {
    if dests == [] then []
    else
      var n := |dests| - 1;
      var ws := Copies(d, dests[..n]);
      ws + [Write(dests[n], Apply(d, ws)[LOGSTART + 1 + n])]
  }

  /** The same when no destination is a log block. */
  function Replays(d: Disk): seq<Write>
    requires LOGSTART + NLOG <= |d|
  {
    var dests := Parse(d[LOGSTART]).dests;
    seq(|dests|, k requires 0 <= k < |dests| => Write(dests[k], d[LOGSTART + 1 + k]))
  }

  function ClearOf(d: Disk): Write
    requires LOGSTART < |d|
  {
    Write(LOGSTART, Pack(Parse(d[LOGSTART]).seqno, []))
  }

  function RecoverPhases(d: Disk): seq<seq<Write>>
    requires OnDevice(d)
  {
    var dests := Parse(d[LOGSTART]).dests;
    if dests == [] then [] else [Copies(d, dests), [ClearOf(d)]]
  }

  ghost predicate RecoverCrash(d: Disk, d': Disk)
    requires OnDevice(d)
  {
    d' == d || exists i: nat :: CrashAt(d, RecoverPhases(d), i, d')
  }

  function Recovered(d: Disk): (r: Disk)
    requires OnDevice(d)
    ensures |r| == |d|
  {
    Before(d, RecoverPhases(d), |RecoverPhases(d)|)
  }

  /** The first n replays are the first n copies: no slot is overwritten before it is read. */
  lemma {:induction false} ReplaysAreCopies(d: Disk, n: nat)
    requires SaneHeader(d) && n <= |Parse(d[LOGSTART]).dests|
    ensures |Replays(d)| == |Parse(d[LOGSTART]).dests|
    ensures Replays(d)[..n] == Copies(d, Parse(d[LOGSTART]).dests[..n])
  {
    hide Parse, Apply, SaneHeader;
    ReplaysShape(d);
    if n > 0 {
      ReplaysAreCopies(d, n - 1);
      var dests, ws := Parse(d[LOGSTART]).dests, Replays(d);
      SlotUntouched(d, n - 1);
      CopyOne(d, dests[..n]);
      assert dests[..n][..n - 1] == dests[..n - 1];
      assert ws[..n] == ws[..n - 1] + [ws[n - 1]];
    }
  }

  lemma ReplaysShape(d: Disk)
    requires SaneHeader(d)
    ensures HasLog(d) && |Replays(d)| == |Parse(d[LOGSTART]).dests| && InRange(Replays(d), |d|) && OnDevice(d)
    ensures forall i | 0 <= i < |Replays(d)| ::
              Replays(d)[i] == Write(Parse(d[LOGSTART]).dests[i], d[LOGSTART + 1 + i]) && Home(Replays(d)[i].bno)
  {
  }

  /** Log slots are never destinations, so replaying leaves the later slots alone. */
  lemma SlotUntouched(d: Disk, k: nat)
    requires SaneHeader(d) && k < |Replays(d)|
    ensures InRange(Replays(d)[..k], |d|) && Apply(d, Replays(d)[..k])[LOGSTART + 1 + k] == d[LOGSTART + 1 + k]
  {
    hide Parse, SaneHeader, Replays;
    ReplaysShape(d);
    var ws := Replays(d);
    assert forall i | 0 <= i < k :: ws[..k][i].bno == ws[i].bno;
    ApplyAt(d, ws[..k], LOGSTART + 1 + k);
  }

  lemma CopyOne(d: Disk, dests: seq<u32>)
    requires HasLog(d) && 0 < |dests| <= LOGCAP && forall k | 0 <= k < |dests| :: dests[k] < |d|
    ensures var n := |dests| - 1; var ws := Copies(d, dests[..n]);
      Copies(d, dests) == ws + [Write(dests[n], Apply(d, ws)[LOGSTART + 1 + n])]
  {
  }

  lemma SaneReplays(d: Disk)
    requires SaneHeader(d)
    ensures Copies(d, Parse(d[LOGSTART]).dests) == Replays(d)
  {
    hide Parse;
    var dests := Parse(d[LOGSTART]).dests;
    ReplaysAreCopies(d, |dests|);
    assert dests[..|dests|] == dests && Replays(d)[..|dests|] == Replays(d);
  }

  /** A chain of recoveries each cut short by another crash; the disk it leaves is the last one. */
  ghost predicate Recoveries(d: Disk, tries: seq<Disk>)
    decreases |tries|
  {
    tries == [] ||
    (SaneHeader(d) && RecoverCrash(d, tries[0]) && Recoveries(tries[0], tries[1..]))
  }

  function Left(d: Disk, tries: seq<Disk>): Disk {
    if tries == [] then d else tries[|tries| - 1]
  }

  // ---- the invariant that survives crashes ------------------------------------

  ghost predicate SameHome(d: Disk, d': Disk) {
    |d| == |d'| && forall b | 0 <= b < |d| && Home(b) :: d[b] == d'[b]
  }

  /** The log alone determines the blocks of `order`; every other home block already agrees with `goal`. */
  ghost predicate Logged(d: Disk, order: seq<u32>, goal: Disk) {
    && HasLog(d) && |d| == |goal|
    && order != [] && |order| <= LOGCAP
    && Parse(d[LOGSTART]).dests == order
    && (forall k | 0 <= k < |order| :: order[k] < |d| && Home(order[k]) && d[LOGSTART + 1 + k] == goal[order[k]])
    && (forall b | 0 <= b < |d| && Home(b) && b !in order :: d[b] == goal[b])
  }

  ghost predicate Settled(d: Disk, goal: Disk) {
    Idle(d) && SameHome(d, goal)
  }

  ghost predicate Bound(d: Disk, goal: Disk) {
    Settled(d, goal) || exists order :: Logged(d, order, goal)
  }

  lemma LoggedIsSane(d: Disk, order: seq<u32>, goal: Disk)
    requires Logged(d, order, goal)
    ensures SaneHeader(d)
  {
  }

  /** Replay, partial or complete, keeps the log and leaves home blocks only moving towards the goal. */
  lemma ReplayStep(d: Disk, order: seq<u32>, goal: Disk, d': Disk)
    requires Logged(d, order, goal) && MayCrash(d, Replays(d), d')
    ensures Logged(d', order, goal)
    ensures SaneHeader(d)
  {
    assert forall w | w in Replays(d) :: Home(w.bno) && w.bno in order;
  }

  lemma ReplayDone(d: Disk, order: seq<u32>, goal: Disk)
    requires Logged(d, order, goal)
    ensures InRange(Replays(d), |d|)
    ensures Logged(Apply(d, Replays(d)), order, goal) && SameHome(Apply(d, Replays(d)), goal)
  {
    hide Parse, Pack;
    var ws := Replays(d);
    SelectionMayCrash(d, ws, ws);
    ReplayStep(d, order, goal, Apply(d, ws));
    forall b: nat | b < |d| && Home(b) ensures Apply(d, ws)[b] == goal[b] {
      ReplayDoneAt(d, order, goal, b);
    }
  }

  lemma ReplayDoneAt(d: Disk, order: seq<u32>, goal: Disk, b: nat)
    requires Logged(d, order, goal) && b < |d| && Home(b)
    ensures InRange(Replays(d), |d|) && Apply(d, Replays(d))[b] == goal[b]
  {
    hide Parse, Pack, Apply;
    var ws := Replays(d);
    ApplyAt(d, ws, b);
    if Touches(ws, b) {
      var k :| 0 <= k < |ws| && ws[k] == Write(b, Apply(d, ws)[b]);
      assert order[k] == b;
    } else {
      forall k | 0 <= k < |order| ensures order[k] != b { assert ws[k].bno == order[k]; }
    }
  }

  lemma ClearStep(d: Disk, order: seq<u32>, goal: Disk, seqno: u32, d': Disk)
    requires Logged(d, order, goal) && SameHome(d, goal)
    requires MayCrash(d, [Write(LOGSTART, Pack(seqno, []))], d')
    ensures Logged(d', order, goal) || Settled(d', goal)
    ensures d' == Apply(d, [Write(LOGSTART, Pack(seqno, []))]) ==> Settled(d', goal)
  {
    ParsePack(seqno, []);
    var w := Write(LOGSTART, Pack(seqno, []));
    ApplySingle(d, w);
    if d'[LOGSTART] == d[LOGSTART] {
      assert d' == d;
    }
  }

  /** The two phases of recovery, spelled out. */
  lemma RecoverCases(d: Disk, d': Disk)
    requires SaneHeader(d)
    ensures InRange(Replays(d), |d|)
    ensures !Idle(d) ==> Recovered(d) == Apply(Apply(d, Replays(d)), [ClearOf(d)])
    ensures Idle(d) ==> Recovered(d) == d
    ensures RecoverCrash(d, d') <==>
              d' == d ||
              (!Idle(d) && (MayCrash(d, Replays(d), d') || MayCrash(Apply(d, Replays(d)), [ClearOf(d)], d')))
  {
    hide Parse, Pack, Apply, MayCrash, Replays, Copies;
    SaneReplays(d);
    var P := RecoverPhases(d);
    if !Idle(d) {
      BeforeStep(d, P, 0);
      BeforeStep(d, P, 1);
      if MayCrash(d, Replays(d), d') { assert CrashAt(d, P, 0, d'); }
      if MayCrash(Apply(d, Replays(d)), [ClearOf(d)], d') { assert CrashAt(d, P, 1, d'); }
    }
  }

  lemma BoundStep(d: Disk, goal: Disk, d': Disk)
    requires Bound(d, goal) && SaneHeader(d) && RecoverCrash(d, d')
    ensures Bound(d', goal) && SaneHeader(d')
  {
    RecoverCases(d, d');
    hide RecoverCrash, Parse, Pack, Recovered;
    if d' != d {
      var order :| Logged(d, order, goal);
      if MayCrash(d, Replays(d), d') {
        ReplayStep(d, order, goal, d');
        LoggedIsSane(d', order, goal);
      } else {
        ReplayDone(d, order, goal);
        ClearStep(Apply(d, Replays(d)), order, goal, Parse(d[LOGSTART]).seqno, d');
        if Logged(d', order, goal) { LoggedIsSane(d', order, goal); }
      }
    }
  }

  lemma BoundRecovers(d: Disk, goal: Disk)
    requires Bound(d, goal) && SaneHeader(d)
    ensures Settled(Recovered(d), goal)
  {
    RecoverCases(d, d);
    hide RecoverCrash, Parse, Pack, Recovered;
    if !Settled(d, goal) {
      var order :| Logged(d, order, goal);
      ReplayDone(d, order, goal);
      var e := Apply(d, Replays(d));
      SelectionMayCrash(e, [ClearOf(d)], [ClearOf(d)]);
      ClearStep(e, order, goal, Parse(d[LOGSTART]).seqno, Apply(e, [ClearOf(d)]));
    }
  }

  /** However many recoveries crash, one complete recovery reaches the goal. */
  lemma {:induction false} RecoveriesConverge(d: Disk, goal: Disk, tries: seq<Disk>)
    requires Bound(d, goal) && SaneHeader(d) && Recoveries(d, tries)
    ensures SaneHeader(Left(d, tries)) && Settled(Recovered(Left(d, tries)), goal)
    decreases |tries|
  {
    hide Bound, SaneHeader, RecoverCrash, Recovered, Settled;
    if tries == [] {
      BoundRecovers(d, goal);
    } else {
      BoundStep(d, goal, tries[0]);
      RecoveriesConverge(tries[0], goal, tries[1..]);
      assert Left(tries[0], tries[1..]) == Left(d, tries);
    }
  }

  // ---- one transaction --------------------------------------------------------

  /** The disk a complete transaction is meant to produce, log region aside. */
  function Goal(d: Disk, t: Txn): (r: Disk)
    requires InRange(t.direct, |d|) && Buffered(t) && (forall k | 0 <= k < |t.order| :: t.order[k] < |d|)
    ensures |r| == |d|
  {
    Apply(Apply(d, t.direct), Homes(t))
  }

  lemma PhasesInRange(t: Txn, commitFirst: bool, size: nat)
    requires WellFormed(t, size)
    ensures AllInRange(Phases(t, commitFirst), size)
  {
  }

  /** Goal, block by block. */
  lemma GoalAt(d: Disk, t: Txn, b: nat)
    requires WellFormed(t, |d|) && b < |d|
    ensures InRange(t.direct, |d|)
    ensures Goal(d, t)[b] ==
            if b in t.order then t.buf[b] else Apply(d, t.direct)[b]
  {
    var e := Apply(d, t.direct);
    ApplyAt(e, Homes(t), b);
    if b in t.order {
      var k :| 0 <= k < |t.order| && t.order[k] == b;
      assert Homes(t)[k].bno == b;
    }
  }

  /** The disk once log blocks and commit record are durable, in either issue order. */
  function CommittedDisk(d: Disk, t: Txn): Disk
    requires WellFormed(t, |d|)
  {
    PhasesInRange(t, false, |d|);
    Before(d, Phases(t, false), 3)
  }

  lemma SlotsAt(d: Disk, t: Txn, e: Disk)
    requires WellFormed(t, |d|) && |e| == |d|
    ensures InRange(Slots(t), |e|)
    ensures var f := Apply(e, Slots(t));
      && (forall k | 0 <= k < |t.order| :: f[LOGSTART + 1 + k] == t.buf[t.order[k]])
      && (forall b | 0 <= b < |d| && Home(b) :: f[b] == e[b])
  {
    hide Apply;
    var ws := Slots(t);
    forall k | 0 <= k < |t.order| ensures Apply(e, ws)[LOGSTART + 1 + k] == t.buf[t.order[k]] {
      DistinctAt(e, ws, k);
    }
    forall b | 0 <= b < |d| && Home(b) ensures Apply(e, ws)[b] == e[b] {
      ApplyAt(e, ws, b);
    }
  }

  /** The platter at each barrier of the correct order. */
  lemma PhaseDisks(d: Disk, t: Txn)
    requires WellFormed(t, |d|)
    ensures AllInRange(Phases(t, false), |d|)
    ensures InRange(t.direct, |d|) && InRange(Slots(t), |d|) && InRange(Homes(t), |d|)
    ensures var e := Apply(d, t.direct); var f := Apply(e, Slots(t)); var c := CommittedDisk(d, t);
      var P := Phases(t, false);
      && Before(d, P, 1) == e && Before(d, P, 2) == f && Before(d, P, 3) == c
      && c == f[LOGSTART := Commit(t).data]
      && Before(d, P, 4) == Apply(c, Homes(t)) && Before(d, P, 5) == Apply(Apply(c, Homes(t)), [Clear(t)])
  {
    hide Pack;
    var P := Phases(t, false);
    PhasesInRange(t, false, |d|);
    assert InRange(P[0], |d|) && InRange(P[1], |d|) && InRange(P[3], |d|);
    var f := Apply(Apply(d, t.direct), Slots(t));
    ApplySingle(f, Commit(t));
    hide Slots, Homes, Apply, Clear, Before, AllInRange, WellFormed;
    assert P[0] == t.direct && P[1] == Slots(t) && P[2] == [Commit(t)];
    BeforeStep(d, P, 0);
    BeforeStep(d, P, 1);
    BeforeStep(d, P, 2);
    BeforeStep(d, P, 3);
    BeforeStep(d, P, 4);
  }

  lemma CommittedAt(d: Disk, t: Txn)
    requires WellFormed(t, |d|)
    ensures var c := CommittedDisk(d, t);
      && |c| == |d| && c[LOGSTART] == Commit(t).data
      && (forall k | 0 <= k < |t.order| :: c[LOGSTART + 1 + k] == t.buf[t.order[k]])
      && (forall b | 0 <= b < |d| && Home(b) :: InRange(t.direct, |d|) && c[b] == Apply(d, t.direct)[b])
  {
    PhaseDisks(d, t);
    SlotsAt(d, t, Apply(d, t.direct));
  }

  lemma CommittedIsLogged(d: Disk, t: Txn)
    requires WellFormed(t, |d|) && t.order != []
    ensures Logged(CommittedDisk(d, t), t.order, Goal(d, t))
    ensures Replays(CommittedDisk(d, t)) == Homes(t)
  {
    hide Parse, Pack, Apply, CommittedDisk, Goal;
    CommittedAt(d, t);
    ParsePack(t.seqno, t.order);
    forall b: nat | b < |d| ensures Goal(d, t)[b] ==
            if b in t.order then t.buf[b] else Apply(d, t.direct)[b] {
      GoalAt(d, t, b);
    }
  }
}
