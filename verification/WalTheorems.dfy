/** Crash atomicity of the journal, ordered data, serial runs, and what commit-first breaks. */
module WalTheorems {
  import opened Bytes
  import opened LogHeader
  import opened CrashDisk
  import opened WalProtocol

  /** The commit record reached the platter before the crash in phase i. */
  predicate CommitDurable(t: Txn, i: nat, d': Disk)
    requires |t.order| <= LOGCAP && LOGSTART < |d'|
  {
    i > 2 || (i == 2 && d'[LOGSTART] == Commit(t).data)
  }

  /** No journaled block has moved from d to r: only blocks written in place may have. */
  ghost predicate Unmoved(d: Disk, t: Txn, r: Disk) {
    |r| == |d| && forall b | 0 <= b < |d| && Home(b) :: r[b] == d[b] || Write(b, r[b]) in t.direct
  }

  /** A crash in phase i of the transaction. */
  ghost predicate TxnCrash(d: Disk, t: Txn, commitFirst: bool, i: nat, d': Disk) {
    && WellFormed(t, |d|)
    && (PhasesInRange(t, commitFirst, |d|);
        CrashAt(d, Phases(t, commitFirst), i, d'))
  }

  /** The five phases of the correct order, spelled out. */
  lemma CrashCases(d: Disk, t: Txn, i: nat, d': Disk)
    requires TxnCrash(d, t, false, i, d')
    ensures i <= 4 && InRange(t.direct, |d|) && InRange(Slots(t), |d|) && InRange(Homes(t), |d|)
    ensures var e := Apply(d, t.direct); var f := Apply(e, Slots(t)); var c := CommittedDisk(d, t);
      && c == f[LOGSTART := Commit(t).data]
      && (i == 0 ==> MayCrash(d, t.direct, d'))
      && (i == 1 ==> MayCrash(e, Slots(t), d'))
      && (i == 2 ==> MayCrash(f, [Commit(t)], d'))
      && (i == 3 ==> MayCrash(c, Homes(t), d'))
      && (i == 4 ==> MayCrash(Apply(c, Homes(t)), [Clear(t)], d'))
  {
    PhaseDisks(d, t);
  }

  /** Until the commit record is on the platter the log is idle and journaled blocks are untouched. */
  lemma BeforeCommit(d: Disk, t: Txn, i: nat, d': Disk)
    requires TxnCrash(d, t, false, i, d') && Idle(d) && !CommitDurable(t, i, d')
    ensures Idle(d')
    ensures Unmoved(d, t, d')
  {
    hide Pack;
    CrashCases(d, t, i, d');
    var e := Apply(d, t.direct);
    SelectionMayCrash(d, t.direct, t.direct);
    if i > 0 {
      assert forall w | w in Slots(t) :: !Home(w.bno) && w.bno != LOGSTART;
      SelectionMayCrash(e, Slots(t), Slots(t));
    }
  }

  lemma AfterCommit(d: Disk, t: Txn, i: nat, d': Disk)
    requires TxnCrash(d, t, false, i, d') && CommitDurable(t, i, d')
    ensures SaneHeader(d') && Bound(d', Goal(d, t))
  {
    CrashCases(d, t, i, d');
    var c := CommittedDisk(d, t);
    if i == 2 { assert d' == c; }
    HomesThenClear(d, t, c, i, d');
  }

  /** From the committed disk on, a crash anywhere leaves a disk bound for the goal. */
  lemma HomesThenClear(d: Disk, t: Txn, c: Disk, i: nat, d': Disk)
    requires WellFormed(t, |d|) && c == CommittedDisk(d, t) && 2 <= i <= 4
    requires InRange(Homes(t), |c|)
    requires i == 2 ==> d' == c
    requires i == 3 ==> MayCrash(c, Homes(t), d')
    requires i == 4 ==> MayCrash(Apply(c, Homes(t)), [Clear(t)], d')
    ensures SaneHeader(d') && Bound(d', Goal(d, t))
    ensures i == 4 && d' == Apply(Apply(c, Homes(t)), [Clear(t)]) ==> Settled(d', Goal(d, t))
  {
    if t.order == [] {
      NothingJournaled(d, t, c, i, d');
    } else {
      CommittedIsLogged(d, t);
      hide Parse, Pack, Before, CommittedDisk, Goal, Commit;
      if i == 3 {
        ReplayStep(c, t.order, Goal(d, t), d');
      } else if i == 4 {
        ReplayDone(c, t.order, Goal(d, t));
        ClearStep(Apply(c, Homes(t)), t.order, Goal(d, t), t.seqno, d');
      }
      if Logged(d', t.order, Goal(d, t)) { LoggedIsSane(d', t.order, Goal(d, t)); }
    }
  }

  /** An empty transaction writes two empty headers. */
  lemma NothingJournaled(d: Disk, t: Txn, c: Disk, i: nat, d': Disk)
    requires WellFormed(t, |d|) && c == CommittedDisk(d, t) && 2 <= i <= 4 && t.order == []
    requires i == 2 ==> d' == c
    requires i == 3 ==> MayCrash(c, Homes(t), d')
    requires i == 4 ==> MayCrash(c, [Clear(t)], d')
    ensures SaneHeader(d') && Settled(d', Goal(d, t))
  {
    CommittedAt(d, t);
    ParsePack(t.seqno, []);
    hide Pack, Parse, Before;
    forall b: nat | b < |d| ensures Goal(d, t)[b] == Apply(d, t.direct)[b] { GoalAt(d, t, b); }
  }

  /**
   Crash atomicity. A crash anywhere in the transaction, then any number of crashed
   recoveries, then one complete recovery: every home block is new exactly when the commit
   record had been installed, and otherwise no journaled block has moved.
   */
  lemma CrashAtomicity(d: Disk, t: Txn, i: nat, d': Disk, tries: seq<Disk>)
    requires Idle(d) && TxnCrash(d, t, false, i, d') && Recoveries(d', tries)
    ensures SaneHeader(Left(d', tries))
    ensures var r := Recovered(Left(d', tries));
      && |r| == |d| && Idle(r)
      && (CommitDurable(t, i, d') ==> SameHome(r, Goal(d, t)))
      && (!CommitDurable(t, i, d') ==> Unmoved(d, t, r))
  {
    if CommitDurable(t, i, d') {
      AfterCommit(d, t, i, d');
      RecoveriesConverge(d', Goal(d, t), tries);
    } else {
      BeforeCommit(d, t, i, d');
      assert Settled(d', d');
      RecoveriesConverge(d', d', tries);
    }
  }

  /** Goal, block by block. */
  lemma GoalIs(d: Disk, t: Txn)
    requires WellFormed(t, |d|)
    ensures InRange(t.direct, |d|)
    ensures forall k | 0 <= k < |t.order| :: Goal(d, t)[t.order[k]] == t.buf[t.order[k]]
    ensures forall b | 0 <= b < |d| && b !in t.order :: Goal(d, t)[b] == Apply(d, t.direct)[b]
  {
    forall b: nat | b < |d|
      ensures Goal(d, t)[b] == if b in t.order then t.buf[b] else Apply(d, t.direct)[b]
    {
      GoalAt(d, t, b);
    }
  }

  /** In data mode nothing is written in place, so the outcome is all-old or all-new. */
  lemma DataModeAllOrNothing(d: Disk, t: Txn, i: nat, d': Disk, tries: seq<Disk>)
    requires Idle(d) && TxnCrash(d, t, false, i, d') && Recoveries(d', tries) && t.direct == []
    ensures SaneHeader(Left(d', tries))
    ensures SameHome(Recovered(Left(d', tries)), if CommitDurable(t, i, d') then Goal(d, t) else d)
  {
    CrashAtomicity(d, t, i, d', tries);
  }

  lemma DirectInGoal(d: Disk, t: Txn, w: Write)
    requires WellFormed(t, |d|) && w in t.direct
    ensures InRange(t.direct, |d|) && Home(w.bno) && Goal(d, t)[w.bno] == Apply(d, t.direct)[w.bno]
  {
    GoalAt(d, t, w.bno);
  }

  /** Ordered mode: new metadata never points at old data. */
  lemma OrderedDataFirst(d: Disk, t: Txn, i: nat, d': Disk, tries: seq<Disk>, w: Write)
    requires Idle(d) && TxnCrash(d, t, false, i, d') && Recoveries(d', tries)
    requires CommitDurable(t, i, d') && w in t.direct
    ensures SaneHeader(Left(d', tries)) && w.bno < |d| && InRange(t.direct, |d|)
    ensures |Recovered(Left(d', tries))| == |d|
    ensures Recovered(Left(d', tries))[w.bno] == Apply(d, t.direct)[w.bno]
  {
    DirectInGoal(d, t, w);
    CrashAtomicity(d, t, i, d', tries);
    var r := Recovered(Left(d', tries));
    assert SameHome(r, Goal(d, t));
  }

  /** Without a crash the transaction reaches its goal and leaves the log idle. */
  lemma TxnCompletes(d: Disk, t: Txn)
    requires WellFormed(t, |d|)
    ensures AllInRange(Phases(t, false), |d|)
    ensures Settled(Before(d, Phases(t, false), 5), Goal(d, t))
  {
    PhaseDisks(d, t);
    var c := CommittedDisk(d, t);
    var e := Apply(c, Homes(t));
    SelectionMayCrash(e, [Clear(t)], [Clear(t)]);
    HomesThenClear(d, t, c, 4, Apply(e, [Clear(t)]));
  }

  // ---- whole runs -------------------------------------------------------------

  /** One transaction: it finishes, or it crashes and the machine recovers. */
  datatype Event =
    | Done(t: Txn)
    | Crashed(t: Txn, phase: nat, left: Disk, tries: seq<Disk>)

  ghost predicate Legal(d: Disk, e: Event) {
    && WellFormed(e.t, |d|)
    && (e.Crashed? ==> TxnCrash(d, e.t, false, e.phase, e.left) && Recoveries(e.left, e.tries))
  }

  ghost predicate Survived(e: Event) {
    e.Done? || (|e.t.order| <= LOGCAP && LOGSTART < |e.left| && CommitDurable(e.t, e.phase, e.left))
  }

  /** The disk an event leaves behind. */
  ghost predicate Outcome(d: Disk, e: Event, d': Disk)
    requires Legal(d, e)
  {
    match e
    case Done(t) => PhasesInRange(t, false, |d|); d' == Before(d, Phases(t, false), 5)
    case Crashed(_, _, left, tries) => SaneHeader(Left(left, tries)) && d' == Recovered(Left(left, tries))
  }

  /** disks[k + 1] is what the k-th event makes of disks[k]. */
  ghost predicate Run(disks: seq<Disk>, events: seq<Event>) {
    && |disks| == |events| + 1
    && forall k | 0 <= k < |events| :: Legal(disks[k], events[k]) && Outcome(disks[k], events[k], disks[k + 1])
  }

  lemma FirstEvent(disks: seq<Disk>, events: seq<Event>)
    requires Run(disks, events) && events != []
    ensures |disks| == |events| + 1
    ensures Legal(disks[0], events[0]) && Outcome(disks[0], events[0], disks[1])
    ensures WellFormed(events[0].t, |disks[0]|) && Run(disks[1..], events[1..])
  {
    hide Outcome, WellFormed;
  }

  /**
   The reference: apply, one after the other, exactly the transactions whose commit survived. A transaction
   that did not survive has at most left some of its in-place writes, hence nothing in data mode.
   */
  ghost predicate Serial(home: Disk, events: seq<Event>, home': Disk)
    decreases |events|
  {
    if events == [] then SameHome(home, home')
    else
      var e := events[0];
      if Survived(e)
      then WellFormed(e.t, |home|) && Serial(Goal(home, e.t), events[1..], home')
      else exists h :: Unmoved(home, e.t, h) && Serial(h, events[1..], home')
  }

  lemma GoalRespectsHome(d: Disk, d2: Disk, t: Txn)
    requires WellFormed(t, |d|) && SameHome(d2, d)
    ensures |d2| == |d| && InRange(t.direct, |d|) && SameHome(Goal(d2, t), Goal(d, t))
  {
    forall b: nat | b < |d| && Home(b) ensures Goal(d, t)[b] == Goal(d2, t)[b] {
      GoalAt(d, t, b);
      GoalAt(d2, t, b);
      ApplyAgrees(d, d2, t.direct, b);
    }
  }

  /** One event: the log is idle again, and the home blocks are the goal's or unmoved. */
  lemma EventOutcome(d: Disk, e: Event, d': Disk)
    requires Idle(d) && Legal(d, e) && Outcome(d, e, d')
    ensures Idle(d') && |d'| == |d|
    ensures if Survived(e) then WellFormed(e.t, |d|) && SameHome(Goal(d, e.t), d') else Unmoved(d, e.t, d')
  {
    if e.Done? {
      TxnCompletes(d, e.t);
    } else {
      CrashAtomicity(d, e.t, e.phase, e.left, e.tries);
    }
  }

  /** Every run, crashes and all, equals a serial application of whole transactions. */
  lemma {:induction false} RunsAreSerial(disks: seq<Disk>, events: seq<Event>, home: Disk)
    requires Run(disks, events) && Idle(disks[0]) && SameHome(home, disks[0])
    ensures |disks| == |events| + 1 && Serial(home, events, disks[|events|])
    decreases |events|
  {
    hide Run, Survived, Outcome, Legal, Idle, Goal, Serial, SameHome, Unmoved, WellFormed;
    if events == [] {
      NoEvents(disks, home);
    } else {
      FirstEvent(disks, events);
      var d, e, d' := disks[0], events[0], disks[1];
      EventOutcome(d, e, d');
      if Survived(e) {
        GoalRespectsHome(d, home, e.t);
        SameHomeTrans(Goal(home, e.t), Goal(d, e.t), d');
        RunsAreSerial(disks[1..], events[1..], Goal(home, e.t));
      } else {
        SameHomeRefl(d, home, e.t, d');
        RunsAreSerial(disks[1..], events[1..], d');
      }
      SerialStep(home, events, disks[|events|], d');
    }
  }

  lemma NoEvents(disks: seq<Disk>, home: Disk)
    requires Run(disks, []) && SameHome(home, disks[0])
    ensures |disks| == 1 && Serial(home, [], disks[0])
  {
  }

  lemma SameHomeTrans(a: Disk, b: Disk, c: Disk)
    requires SameHome(a, b) && SameHome(b, c)
    ensures SameHome(a, c)
  {
  }

  lemma SameHomeRefl(d: Disk, home: Disk, t: Txn, d': Disk)
    requires SameHome(home, d) && Unmoved(d, t, d')
    ensures Unmoved(home, t, d') && SameHome(d', d')
  {
  }

  /** The first event of a serial execution; h is the disk left by a transaction that did not survive. */
  lemma SerialStep(home: Disk, events: seq<Event>, home': Disk, h: Disk)
    requires events != []
    requires Survived(events[0]) ==>
             WellFormed(events[0].t, |home|) && Serial(Goal(home, events[0].t), events[1..], home')
    requires !Survived(events[0]) ==> Unmoved(home, events[0].t, h) && Serial(h, events[1..], home')
    ensures Serial(home, events, home')
  {
    hide Survived, Goal, Unmoved, WellFormed;
  }

  /** What the surviving transactions of a run last journaled to block b, x if none did. */
  ghost function LastJournaled(events: seq<Event>, b: nat, x: Block): Block
    decreases |events|
  {
    if events == [] then x
    else
      var e := events[0];
      LastJournaled(events[1..], b, if Survived(e) && b in e.t.order && b in e.t.buf then e.t.buf[b] else x)
  }

  predicate OnlyJournaled(e: Event, b: nat) { forall i | 0 <= i < |e.t.direct| :: e.t.direct[i].bno != b }

  /** Metadata: a block never written in place holds what the last surviving transaction made of it. */
  lemma {:induction false} MetadataSurvives(disks: seq<Disk>, events: seq<Event>, b: nat)
    requires Run(disks, events) && Idle(disks[0]) && b < |disks[0]| && Home(b)
    requires forall k | 0 <= k < |events| :: OnlyJournaled(events[k], b)
    ensures |disks| == |events| + 1 && |disks[|events|]| == |disks[0]|
    ensures disks[|events|][b] == LastJournaled(events, b, disks[0][b])
    decreases |events|
  {
    hide Run, Survived, Outcome, Legal, Idle, WellFormed, OnlyJournaled, LastJournaled;
    if events == [] {
      NothingJournaledYet(disks, b);
    } else {
      FirstEvent(disks, events);
      assert OnlyJournaled(events[0], b);
      EventBlock(disks[0], events[0], disks[1], b);
      LastJournaledStep(events, b, disks[0][b]);
      assert forall k | 0 <= k < |events[1..]| :: events[1..][k] == events[k + 1];
      MetadataSurvives(disks[1..], events[1..], b);
    }
  }

  lemma NothingJournaledYet(disks: seq<Disk>, b: nat)
    requires Run(disks, []) && b < |disks[0]|
    ensures |disks| == 1 && disks[0][b] == LastJournaled([], b, disks[0][b])
  {
  }

  lemma LastJournaledStep(events: seq<Event>, b: nat, x: Block)
    requires events != []
    ensures var e := events[0];
      LastJournaled(events, b, x) ==
      LastJournaled(events[1..], b, if Survived(e) && b in e.t.order && b in e.t.buf then e.t.buf[b] else x)
  {
  }

  /** One event as a block that is never written in place sees it. */
  lemma EventBlock(d: Disk, e: Event, d': Disk, b: nat)
    requires Idle(d) && Legal(d, e) && Outcome(d, e, d') && b < |d| && Home(b) && OnlyJournaled(e, b)
    ensures Idle(d') && |d'| == |d|
    ensures d'[b] == if Survived(e) && b in e.t.order && b in e.t.buf then e.t.buf[b] else d[b]
  {
    hide Survived, Outcome, Idle, Goal, Apply;
    EventOutcome(d, e, d');
    if Survived(e) {
      GoalAt(d, e.t, b);
      ApplyAt(d, e.t.direct, b);
    }
  }

  // ---- the sequence number --------------------------------------------------------

  /** The header's number, whatever blocks it names. */
  ghost predicate Numbered(d: Disk, n: u32) {
    HasLog(d) && Parse(d[LOGSTART]).ok && Parse(d[LOGSTART]).seqno == n
  }

  lemma HeaderUntouched(d: Disk, ws: seq<Write>, d': Disk)
    requires MayCrash(d, ws, d') && LOGSTART < |d| && forall w | w in ws :: w.bno != LOGSTART
    ensures d'[LOGSTART] == d[LOGSTART]
  {
  }

  /** A header write that may or may not have reached the platter. */
  lemma HeaderRewritten(d: Disk, n: u32, d': Disk)
    requires HasLog(d) && Numbered(d, n) && MayCrash(d, [Write(LOGSTART, Pack(n, []))], d')
    ensures Numbered(d', n)
  {
    ParsePack(n, []);
    hide Pack, Parse;
  }

  lemma HeaderCleared(d: Disk, n: u32)
    requires HasLog(d)
    ensures Parse(Apply(d, [Write(LOGSTART, Pack(n, []))])[LOGSTART]) == Header(true, n, [])
  {
    ParsePack(n, []);
    ApplySingle(d, Write(LOGSTART, Pack(n, [])));
    hide Pack, Parse, Apply;
  }

  lemma ReplaysKeepHeader(d: Disk)
    requires SaneHeader(d)
    ensures InRange(Replays(d), |d|) && Apply(d, Replays(d))[LOGSTART] == d[LOGSTART]
    ensures forall w | w in Replays(d) :: w.bno != LOGSTART
  {
    hide Parse, Apply, SaneHeader;
    ReplaysShape(d);
    SelectionMayCrash(d, Replays(d), Replays(d));
    HeaderUntouched(d, Replays(d), Apply(d, Replays(d)));
  }

  /** A recovery keeps the number, and a complete one leaves it in an empty header. */
  lemma RecoveryKeepsNumber(d: Disk, n: u32, d': Disk)
    requires SaneHeader(d) && Numbered(d, n)
    ensures RecoverCrash(d, d') ==> Numbered(d', n)
    ensures Parse(Recovered(d)[LOGSTART]) == Header(true, n, [])
  {
    hide Parse, Pack, Apply, Replays, Recovered, RecoverCrash;
    RecoverCases(d, d');
    ReplaysKeepHeader(d);
    var e := Apply(d, Replays(d));
    if Idle(d) {
      NoDests(d[LOGSTART]);
    } else {
      HeaderCleared(e, n);
      if MayCrash(d, Replays(d), d') { HeaderUntouched(d, Replays(d), d'); }
      if MayCrash(e, [ClearOf(d)], d') { HeaderRewritten(e, n, d'); }
    }
  }

  lemma NoDests(raw: Block)
    requires Parse(raw).ok && Parse(raw).dests == []
    ensures Parse(raw) == Header(true, Parse(raw).seqno, [])
  {
  }

  lemma {:induction false} RecoveriesKeepNumber(d: Disk, goal: Disk, n: u32, tries: seq<Disk>)
    requires Bound(d, goal) && SaneHeader(d) && Recoveries(d, tries) && Numbered(d, n)
    ensures SaneHeader(Left(d, tries)) && Parse(Recovered(Left(d, tries))[LOGSTART]) == Header(true, n, [])
    decreases |tries|
  {
    hide Bound, SaneHeader, RecoverCrash, Recovered, Numbered, Parse;
    if tries == [] {
      RecoveryKeepsNumber(d, n, d);
    } else {
      RecoveryKeepsNumber(d, n, tries[0]);
      BoundStep(d, goal, tries[0]);
      RecoveriesKeepNumber(tries[0], goal, n, tries[1..]);
      assert Left(tries[0], tries[1..]) == Left(d, tries);
    }
  }

  /** An idle log is left as it is by any number of recoveries. */
  lemma {:induction false} RecoveriesIdle(d: Disk, tries: seq<Disk>)
    requires Idle(d) && Recoveries(d, tries)
    ensures Left(d, tries) == d && SaneHeader(d) && Recovered(d) == d
    decreases |tries|
  {
    hide Recovered, Parse, RecoverCrash;
    RecoverCases(d, d);
    if tries != [] {
      RecoverCases(d, tries[0]);
      RecoveriesIdle(d, tries[1..]);
    }
  }

  /** With the commit record durable the header carries the transaction's number. */
  lemma DurableNumber(d: Disk, t: Txn, i: nat, d': Disk)
    requires TxnCrash(d, t, false, i, d') && CommitDurable(t, i, d')
    ensures Numbered(d', t.seqno)
  {
    CrashCases(d, t, i, d');
    CommittedAt(d, t);
    ParsePack(t.seqno, t.order);
    ParsePack(t.seqno, []);
    var c := CommittedDisk(d, t);
    hide Pack, Parse, Apply, CommittedDisk;
    HomesKeepHeader(d, t, c);
    if i == 3 {
      HeaderUntouched(c, Homes(t), d');
    } else if i == 4 {
      HeaderRewritten(Apply(c, Homes(t)), t.seqno, d');
    }
  }

  lemma HomesKeepHeader(d: Disk, t: Txn, c: Disk)
    requires WellFormed(t, |d|) && |c| == |d|
    ensures InRange(Homes(t), |c|) && Apply(c, Homes(t))[LOGSTART] == c[LOGSTART]
    ensures forall w | w in Homes(t) :: w.bno != LOGSTART
  {
    hide Apply;
    SelectionMayCrash(c, Homes(t), Homes(t));
    HeaderUntouched(c, Homes(t), Apply(c, Homes(t)));
  }

  /** Before that the header is the old one. */
  lemma EarlyHeader(d: Disk, t: Txn, i: nat, d': Disk)
    requires TxnCrash(d, t, false, i, d') && Idle(d) && !CommitDurable(t, i, d')
    ensures d'[LOGSTART] == d[LOGSTART]
  {
    hide Pack, Parse, Apply;
    CrashCases(d, t, i, d');
    SelectionMayCrash(d, t.direct, t.direct);
    HeaderUntouched(d, t.direct, Apply(d, t.direct));
    var e := Apply(d, t.direct);
    SelectionMayCrash(e, Slots(t), Slots(t));
    HeaderUntouched(e, Slots(t), Apply(e, Slots(t)));
  }

  /** What the header says after an event, in terms of what it said before. */
  function NextHeader(e: Event, survived: bool, h: Header): Header {
    if survived then Header(true, e.t.seqno, []) else h
  }

  /**
   The sequence number goes with the transaction: after a completed one, or any number of recoveries of one whose
   commit survived, the header holds its number and no entries; otherwise it is what it was.
   */
  lemma NumberSurvives(d: Disk, e: Event, d': Disk)
    requires Idle(d) && Legal(d, e) && Outcome(d, e, d')
    ensures HasLog(d') && Parse(d'[LOGSTART]) == NextHeader(e, Survived(e), Parse(d[LOGSTART]))
  {
    match e
    case Done(t) => DoneNumber(d, t);
    case Crashed(t, i, left, tries) => CrashedNumber(d, t, i, left, tries);
  }

  lemma DoneNumber(d: Disk, t: Txn)
    requires WellFormed(t, |d|)
    ensures AllInRange(Phases(t, false), |d|)
    ensures Parse(Before(d, Phases(t, false), 5)[LOGSTART]) == Header(true, t.seqno, [])
  {
    hide Pack, Parse, Apply;
    PhaseDisks(d, t);
    HeaderCleared(Apply(CommittedDisk(d, t), Homes(t)), t.seqno);
  }

  lemma CrashedNumber(d: Disk, t: Txn, i: nat, left: Disk, tries: seq<Disk>)
    requires Idle(d) && TxnCrash(d, t, false, i, left) && Recoveries(left, tries)
    ensures SaneHeader(Left(left, tries)) && LOGSTART < |left| && |t.order| <= LOGCAP
    ensures var r := Recovered(Left(left, tries));
      && HasLog(r)
      && (CommitDurable(t, i, left) ==> Parse(r[LOGSTART]) == Header(true, t.seqno, []))
      && (!CommitDurable(t, i, left) ==> r[LOGSTART] == d[LOGSTART])
  {
    hide Parse, Pack, Recovered, Apply, Before;
    CrashAtomicity(d, t, i, left, tries);
    if CommitDurable(t, i, left) {
      AfterCommit(d, t, i, left);
      DurableNumber(d, t, i, left);
      RecoveriesKeepNumber(left, Goal(d, t), t.seqno, tries);
    } else {
      BeforeCommit(d, t, i, left);
      EarlyHeader(d, t, i, left);
      RecoveriesIdle(left, tries);
    }
  }

  /** The number of the last surviving transaction of a run, as the header has it. */
  ghost function LastHeader(events: seq<Event>, h: Header): Header
    decreases |events|
  {
    if events == [] then h else LastHeader(events[1..], NextHeader(events[0], Survived(events[0]), h))
  }

  lemma {:induction false} NumberOfRun(disks: seq<Disk>, events: seq<Event>)
    requires Run(disks, events) && Idle(disks[0])
    ensures |disks| == |events| + 1 && HasLog(disks[|events|])
    ensures Parse(disks[|events|][LOGSTART]) == LastHeader(events, Parse(disks[0][LOGSTART]))
    decreases |events|
  {
    hide Survived, Outcome, Legal, Parse, WellFormed;
    if events != [] {
      FirstEvent(disks, events);
      NumberSurvives(disks[0], events[0], disks[1]);
      EventOutcome(disks[0], events[0], disks[1]);
      NumberOfRun(disks[1..], events[1..]);
    }
  }

  // ---- misorder = commit-first --------------------------------------------------

  ghost predicate AllOrNothing(d: Disk, t: Txn, d': Disk)
    requires WellFormed(t, |d|)
  {
    SaneHeader(d') && (Unmoved(d, t, Recovered(d')) || SameHome(Recovered(d'), Goal(d, t)))
  }

  function OldBlocks(d: Disk, t: Txn): seq<Block>
    requires WellFormed(t, |d|)
  {
    seq(|t.order|, k requires 0 <= k < |t.order| => d[t.order[k]])
  }

  function NewBlocks(t: Txn): seq<Block>
    requires Buffered(t)
  {
    seq(|t.order|, k requires 0 <= k < |t.order| => t.buf[t.order[k]])
  }

  function SlotBlocks(d: Disk, t: Txn): seq<Block>
    requires WellFormed(t, |d|)
  {
    seq(|t.order|, k requires 0 <= k < |t.order| => d[LOGSTART + 1 + k])
  }

  /** The stale log slots already hold the new blocks, or the old ones with at most one block changing. */
  predicate StaleSlotsHarmless(d: Disk, t: Txn)
    requires WellFormed(t, |d|)
  {
    Harmless(OldBlocks(d, t), NewBlocks(t), SlotBlocks(d, t))
  }

  predicate Harmless(old_: seq<Block>, new_: seq<Block>, stale: seq<Block>)
    requires |old_| == |new_|
  {
    stale == new_ ||
    (stale == old_ && forall i, j | 0 <= i < j < |old_| :: old_[i] == new_[i] || old_[j] == new_[j])
  }

  /** The disk once the in-place writes are durable: log and journaled blocks are as they were. */
  lemma DirectOnly(d: Disk, t: Txn)
    requires WellFormed(t, |d|)
    ensures InRange(t.direct, |d|)
    ensures var e := Apply(d, t.direct);
      && Unmoved(d, t, e) && OldBlocks(e, t) == OldBlocks(d, t) && SlotBlocks(e, t) == SlotBlocks(d, t)
      && e[LOGSTART] == d[LOGSTART]
  {
    hide Apply;
    SelectionMayCrash(d, t.direct, t.direct);
    var e := Apply(d, t.direct);
    forall k | 0 <= k < |t.order| ensures e[t.order[k]] == d[t.order[k]] && e[LOGSTART + 1 + k] == d[LOGSTART + 1 + k] {
      ApplyAt(d, t.direct, t.order[k]);
      ApplyAt(d, t.direct, LOGSTART + 1 + k);
    }
    ApplyAt(d, t.direct, LOGSTART);
  }

  /** r has the in-place writes and is otherwise changed on the journaled blocks only. */
  ghost predicate OrderOnly(d: Disk, t: Txn, r: Disk)
    requires InRange(t.direct, |d|)
  {
    |r| == |d| && forall b | 0 <= b < |d| && Home(b) && b !in t.order :: r[b] == Apply(d, t.direct)[b]
  }

  lemma UnmovedByOrder(d: Disk, t: Txn, r: Disk)
    requires WellFormed(t, |d|) && InRange(t.direct, |d|) && OrderOnly(d, t, r)
    ensures Unmoved(d, t, r) <==> OldBlocks(r, t) == OldBlocks(d, t)
  {
    hide Apply;
    DirectOnly(d, t);
    var e := Apply(d, t.direct);
    assert forall k | 0 <= k < |t.order| :: OldBlocks(r, t)[k] == r[t.order[k]] && OldBlocks(d, t)[k] == d[t.order[k]];
    if OldBlocks(r, t) == OldBlocks(d, t) {
      assert forall k | 0 <= k < |t.order| :: OldBlocks(e, t)[k] == e[t.order[k]];
      OrderAgrees(t.order, e, r);
    }
  }

  lemma GoalByOrder(d: Disk, t: Txn, r: Disk)
    requires WellFormed(t, |d|) && InRange(t.direct, |d|) && OrderOnly(d, t, r)
    ensures SameHome(r, Goal(d, t)) <==> OldBlocks(r, t) == NewBlocks(t)
  {
    hide Apply, Goal;
    GoalIs(d, t);
    var g := Goal(d, t);
    assert forall k | 0 <= k < |t.order| :: OldBlocks(r, t)[k] == r[t.order[k]] && NewBlocks(t)[k] == g[t.order[k]];
    if OldBlocks(r, t) == NewBlocks(t) { OrderAgrees(t.order, g, r); }
  }

  lemma OrderAgrees(order: seq<u32>, d: Disk, r: Disk)
    requires |d| == |r| && (forall k | 0 <= k < |order| :: order[k] < |d| && r[order[k]] == d[order[k]])
    requires forall b | 0 <= b < |d| && Home(b) && b !in order :: r[b] == d[b]
    ensures SameHome(r, d)
  {
    forall b: nat | b < |d| && Home(b) ensures r[b] == d[b] {
      if b in order {
        var k :| 0 <= k < |order| && order[k] == b;
      }
    }
  }

  lemma ReplayedAt(d: Disk)
    requires SaneHeader(d) && InRange(Replays(d), |d|) && DistinctBlocks(Parse(d[LOGSTART]).dests)
    ensures var dests := Parse(d[LOGSTART]).dests;
      && (forall k | 0 <= k < |dests| :: dests[k] < |d| && Apply(d, Replays(d))[dests[k]] == d[LOGSTART + 1 + k])
      && (forall b | 0 <= b < |d| && b !in dests :: Apply(d, Replays(d))[b] == d[b])
  {
    var dests, ws := Parse(d[LOGSTART]).dests, Replays(d);
    forall k | 0 <= k < |dests| ensures dests[k] < |d| && Apply(d, ws)[dests[k]] == d[LOGSTART + 1 + k] {
      DistinctAt(d, ws, k);
    }
    forall b: nat | b < |d| && b !in dests ensures Apply(d, ws)[b] == d[b] {
      ApplyAt(d, ws, b);
    }
  }

  lemma LoggedAsReplayed(order: seq<u32>, d: Disk)
    requires SaneHeader(d) && Parse(d[LOGSTART]).dests == order
    requires order != [] && |order| <= LOGCAP && DistinctBlocks(order)
    ensures InRange(Replays(d), |d|) && Logged(d, order, Apply(d, Replays(d)))
  {
    hide Parse, Apply, DistinctBlocks;
    ReplayedAt(d);
  }

  /** With the commit record durable, recovery replays whatever the slots hold. */
  lemma ReplaysSlots(d: Disk, t: Txn, d': Disk)
    requires WellFormed(t, |d|) && t.order != [] && InRange(t.direct, |d|)
    requires SameHome(Apply(d, t.direct), d') && d'[LOGSTART] == Commit(t).data
    ensures SaneHeader(d') && OldBlocks(Recovered(d'), t) == SlotBlocks(d', t)
    ensures AllOrNothing(d, t, d') <==>
            SlotBlocks(d', t) == OldBlocks(d, t) || SlotBlocks(d', t) == NewBlocks(t)
  {
    hide Recovered, Pack, Parse, Apply, Goal, OldBlocks, NewBlocks, SlotBlocks, WellFormed, Unmoved, Commit;
    RecoversToSlots(t, d');
    UnmovedByOrder(d, t, Recovered(d'));
    GoalByOrder(d, t, Recovered(d'));
  }

  lemma RecoversToSlots(t: Txn, d: Disk)
    requires WellFormed(t, |d|) && t.order != [] && d[LOGSTART] == Commit(t).data
    ensures SaneHeader(d) && OldBlocks(Recovered(d), t) == SlotBlocks(d, t)
    ensures forall b | 0 <= b < |d| && Home(b) && b !in t.order :: Recovered(d)[b] == d[b]
  {
    hide Pack, Parse, Recovered, Apply, Replays;
    ParsePack(t.seqno, t.order);
    LoggedAsReplayed(t.order, d);
    var goal := Apply(d, Replays(d));
    BoundRecovers(d, goal);
    forall k | 0 <= k < |t.order| ensures Recovered(d)[t.order[k]] == d[LOGSTART + 1 + k] {
      assert goal[t.order[k]] == d[LOGSTART + 1 + k];
    }
  }

  /** A disk without commit record and with nothing but in-place writes recovers to itself. */
  lemma IdleUnmoved(d: Disk, t: Txn, d': Disk)
    requires WellFormed(t, |d|) && Idle(d') && Unmoved(d, t, d')
    ensures AllOrNothing(d, t, d')
  {
    assert Settled(d', d');
    BoundRecovers(d', d');
    hide Recovered, Idle;
  }

  /** A crash among the in-place writes. */
  lemma DirectCrash(d: Disk, t: Txn, d': Disk)
    requires WellFormed(t, |d|) && Idle(d) && MayCrash(d, t.direct, d')
    ensures AllOrNothing(d, t, d')
  {
    IdleUnmoved(d, t, d');
  }

  /** The phase that commit-first has got wrong, crashed. */
  ghost predicate MisorderCrash(d: Disk, t: Txn, d': Disk) {
    && WellFormed(t, |d|) && InRange(t.direct, |d|)
    && MayCrash(Apply(d, t.direct), [Commit(t)] + Slots(t), d')
  }

  lemma CommitFirstSound(d: Disk, t: Txn, d': Disk)
    requires MisorderCrash(d, t, d') && Idle(d) && StaleSlotsHarmless(d, t)
    ensures AllOrNothing(d, t, d')
  {
    hide Parse, Pack, Apply, Recovered;
    DirectOnly(d, t);
    assert forall w | w in [Commit(t)] + Slots(t) :: InLog(w.bno);
    if d'[LOGSTART] == d[LOGSTART] {
      IdleUnmoved(d, t, d');
    } else if t.order == [] {
      ParsePack(t.seqno, []);
      IdleUnmoved(d, t, d');
    } else {
      ReplaysSlots(d, t, d');
      MixedSlots(d, t, d');
    }
  }

  /** Each slot holds its stale block or its new one. */
  lemma MixedSlots(d: Disk, t: Txn, d': Disk)
    requires MisorderCrash(d, t, d')
    ensures forall k | 0 <= k < |t.order| ::
              SlotBlocks(d', t)[k] == SlotBlocks(d, t)[k] || SlotBlocks(d', t)[k] == NewBlocks(t)[k]
  {
    hide Pack, Apply, Home;
    DirectOnly(d, t);
    var e := Apply(d, t.direct);
    forall k | 0 <= k < |t.order|
      ensures SlotBlocks(d', t)[k] == SlotBlocks(d, t)[k] || SlotBlocks(d', t)[k] == NewBlocks(t)[k]
    {
      var s := LOGSTART + 1 + k;
      assert SlotBlocks(e, t)[k] == e[s];
      if d'[s] != e[s] {
        var j :| 0 <= j < |Slots(t)| && Slots(t)[j] == Write(s, d'[s]);
      }
    }
  }

  /** The slots after a fifo device has stopped j writes past the commit record. */
  lemma PrefixSlots(d: Disk, t: Txn, j: nat)
    requires WellFormed(t, |d|) && t.order != [] && j <= |t.order| && InRange(t.direct, |d|)
    ensures InRange(([Commit(t)] + Slots(t))[..j + 1], |d|)
    ensures var d' := Apply(Apply(d, t.direct), ([Commit(t)] + Slots(t))[..j + 1]);
      && d'[LOGSTART] == Commit(t).data && SameHome(Apply(d, t.direct), d')
      && SlotBlocks(d', t) == NewBlocks(t)[..j] + SlotBlocks(d, t)[j..]
  {
    hide Pack, Apply;
    DirectOnly(d, t);
    var e, ws := Apply(d, t.direct), ([Commit(t)] + Slots(t))[..j + 1];
    assert forall i | 0 <= i < |ws| :: ws[i].bno == LOGSTART + i;
    DistinctAt(e, ws, 0);
    forall k | 0 <= k < j ensures Apply(e, ws)[LOGSTART + 1 + k] == t.buf[t.order[k]] { DistinctAt(e, ws, k + 1); }
    forall b: nat | b < |e| && (b < LOGSTART || b > LOGSTART + j) ensures Apply(e, ws)[b] == e[b] { ApplyAt(e, ws, b); }
    assert forall k | 0 <= k < |t.order| :: SlotBlocks(e, t)[k] == e[LOGSTART + 1 + k];
  }

  /** The disk left by a fifo device that stops in the phase commit-first has got wrong is all or nothing. */
  ghost predicate PrefixAtomic(d: Disk, t: Txn, d': Disk)
    requires WellFormed(t, |d|) && InRange(t.direct, |d|)
  {
    IssuedPrefix(Apply(d, t.direct), [Commit(t)] + Slots(t), d') ==> AllOrNothing(d, t, d')
  }

  /** Already the issue order of a fifo device needs harmless slots. */
  lemma CommitFirstNecessary(d: Disk, t: Txn)
    requires WellFormed(t, |d|) && InRange(t.direct, |d|)
    requires forall d' :: PrefixAtomic(d, t, d')
    ensures StaleSlotsHarmless(d, t)
  {
    if t.order != [] {
      hide Parse, Pack, Apply, Recovered, AllOrNothing, WellFormed, SlotBlocks, OldBlocks, NewBlocks;
      var next, stale, old_ := NewBlocks(t), SlotBlocks(d, t), OldBlocks(d, t);
      Lengths(d, t);
      forall j: nat | j <= |next| ensures next[..j] + stale[j..] == old_ || next[..j] + stale[j..] == next {
        PrefixOutcome(d, t, j);
      }
      assert next[..0] + stale[0..] == stale;
      HarmlessMixes(old_, next, stale);
    }
  }

  lemma Lengths(d: Disk, t: Txn)
    requires WellFormed(t, |d|)
    ensures |NewBlocks(t)| == |SlotBlocks(d, t)| == |OldBlocks(d, t)| == |t.order|
  {
  }

  lemma PrefixOutcome(d: Disk, t: Txn, j: nat)
    requires WellFormed(t, |d|) && InRange(t.direct, |d|) && t.order != [] && j <= |t.order|
    requires forall d' :: PrefixAtomic(d, t, d')
    ensures |NewBlocks(t)| == |SlotBlocks(d, t)| == |t.order|
    ensures NewBlocks(t)[..j] + SlotBlocks(d, t)[j..] == OldBlocks(d, t)
            || NewBlocks(t)[..j] + SlotBlocks(d, t)[j..] == NewBlocks(t)
  {
    hide Parse, Pack, Apply, Recovered, AllOrNothing;
    PrefixSlots(d, t, j);
    var d' := Apply(Apply(d, t.direct), ([Commit(t)] + Slots(t))[..j + 1]);
    assert PrefixAtomic(d, t, d');
    ReplaysSlots(d, t, d');
  }

  /** If every mix of new blocks up to j and stale ones beyond is old or new as a whole, the stale ones are harmless. */
  lemma HarmlessMixes(old_: seq<Block>, new_: seq<Block>, stale: seq<Block>)
    requires |old_| == |new_| == |stale|
    requires forall j: nat | j <= |new_| :: new_[..j] + stale[j..] == old_ || new_[..j] + stale[j..] == new_
    ensures Harmless(old_, new_, stale)
  {
    assert new_[..0] + stale[0..] == stale;
    if stale != new_ {
      forall i: nat, j: nat | i < j < |old_| ensures old_[i] == new_[i] || old_[j] == new_[j] {
        OneDiffers(old_, new_, i, j);
      }
    }
  }

  lemma OneDiffers(old_: seq<Block>, new_: seq<Block>, i: nat, j: nat)
    requires |old_| == |new_| && i < j < |old_|
    requires new_[..i + 1] + old_[i + 1..] == old_ || new_[..i + 1] + old_[i + 1..] == new_
    ensures old_[i] == new_[i] || old_[j] == new_[j]
  {
    var mix := new_[..i + 1] + old_[i + 1..];
    assert mix[i] == new_[i] && mix[j] == old_[j];
  }

  /** The phases of commit-first up to its one barrier for log and commit record. */
  lemma CommitFirstPhases(d: Disk, t: Txn)
    requires WellFormed(t, |d|)
    ensures AllInRange(Phases(t, true), |d|) && InRange(t.direct, |d|)
    ensures var P := Phases(t, true);
      && P[0] == t.direct && P[1] == [Commit(t)] + Slots(t)
      && Before(d, P, 0) == d && Before(d, P, 1) == Apply(d, t.direct)
  {
    PhasesInRange(t, true, |d|);
    assert InRange(Phases(t, true)[0], |d|);
  }

  /** Harmless slots make a commit-first transaction atomic wherever it crashes. */
  lemma HarmlessAtomic(d: Disk, t: Txn, i: nat, d': Disk)
    requires Idle(d) && TxnCrash(d, t, true, i, d') && StaleSlotsHarmless(d, t)
    ensures AllOrNothing(d, t, d')
  {
    CommitFirstPhases(d, t);
    hide AllOrNothing, StaleSlotsHarmless, Phases, Idle;
    if i == 0 {
      DirectCrash(d, t, d');
    } else if i == 1 {
      CommitFirstSound(d, t, d');
    } else {
      CommitFirstLater(d, t, i, d');
    }
  }

  /** Commit-first is crash-atomic on the any-subset disk exactly when the stale slots are harmless. */
  lemma CommitFirstAtomicIff(d: Disk, t: Txn)
    requires WellFormed(t, |d|) && Idle(d)
    ensures (forall i: nat, d' | TxnCrash(d, t, true, i, d') :: AllOrNothing(d, t, d'))
            <==> StaleSlotsHarmless(d, t)
  {
    CommitFirstPhases(d, t);
    hide AllOrNothing, StaleSlotsHarmless, Phases, Idle, Apply;
    if StaleSlotsHarmless(d, t) {
      forall i: nat, d' | TxnCrash(d, t, true, i, d') ensures AllOrNothing(d, t, d') { HarmlessAtomic(d, t, i, d'); }
    } else if forall i: nat, d' | TxnCrash(d, t, true, i, d') :: AllOrNothing(d, t, d') {
      forall d' ensures PrefixAtomic(d, t, d') {
        if IssuedPrefix(Apply(d, t.direct), [Commit(t)] + Slots(t), d') {
          PrefixMayCrash(Apply(d, t.direct), [Commit(t)] + Slots(t), d');
          assert TxnCrash(d, t, true, 1, d');
        }
      }
      CommitFirstNecessary(d, t);
    }
  }

  /** A crash of a fifo device in phase i: everything before it, and the phase's writes up to some point. */
  ghost predicate FifoCrash(d: Disk, t: Txn, i: nat, d': Disk) {
    && TxnCrash(d, t, true, i, d')
    && IssuedPrefix(Before(d, Phases(t, true), i), Phases(t, true)[i], d')
  }

  /** And the fifo device exposes every harm: its crashes alone are atomic under exactly the same condition. */
  lemma FifoExposesCommitFirst(d: Disk, t: Txn)
    requires WellFormed(t, |d|) && Idle(d)
    ensures (forall i: nat, d' | FifoCrash(d, t, i, d') :: AllOrNothing(d, t, d'))
            <==> StaleSlotsHarmless(d, t)
  {
    CommitFirstPhases(d, t);
    hide AllOrNothing, StaleSlotsHarmless, Phases, Idle, Apply;
    if StaleSlotsHarmless(d, t) {
      forall i: nat, d' | FifoCrash(d, t, i, d') ensures AllOrNothing(d, t, d') { HarmlessAtomic(d, t, i, d'); }
    } else if forall i: nat, d' | FifoCrash(d, t, i, d') :: AllOrNothing(d, t, d') {
      forall d' ensures PrefixAtomic(d, t, d') {
        if IssuedPrefix(Apply(d, t.direct), [Commit(t)] + Slots(t), d') {
          PrefixMayCrash(Apply(d, t.direct), [Commit(t)] + Slots(t), d');
          assert FifoCrash(d, t, 1, d');
        }
      }
      CommitFirstNecessary(d, t);
    }
  }

  /** Past its first barrier, commit-first is in the same state as the correct order. */
  lemma CommitFirstLater(d: Disk, t: Txn, i: nat, d': Disk)
    requires TxnCrash(d, t, true, i, d') && i >= 2
    ensures SaneHeader(d') && Bound(d', Goal(d, t)) && AllOrNothing(d, t, d')
  {
    PhasesInRange(t, true, |d|);
    PhasesInRange(t, false, |d|);
    var P, c := Phases(t, true), CommittedDisk(d, t);
    CommitFirstPhases(d, t);
    CommitFirstSame(d, t);
    assert Before(d, P, 2) == c;
    HomesThenClear(d, t, c, i + 1, d');
    BoundRecovers(d', Goal(d, t));
  }

  lemma CommitFirstSame(d: Disk, t: Txn)
    requires WellFormed(t, |d|)
    ensures InRange([Commit(t)] + Slots(t), |d|) && InRange(t.direct, |d|)
    ensures Apply(Apply(d, t.direct), [Commit(t)] + Slots(t)) == CommittedDisk(d, t)
  {
    PhaseDisks(d, t);
    DrainOne(Apply(d, t.direct), Commit(t), Slots(t));
  }

  /** The reverse drain installs the commit record last, so on that device commit-first is safe. */
  lemma ReverseDrainHidesCommitFirst(d: Disk, t: Txn, i: nat, d': Disk)
    requires TxnCrash(d, t, true, i, d') && Idle(d)
    requires AllInRange(Phases(t, true), |d|)
    requires i > 0 ==> DrainedSuffix(Before(d, Phases(t, true), i), Phases(t, true)[i], d')
    ensures AllOrNothing(d, t, d')
  {
    CommitFirstPhases(d, t);
    if i >= 2 {
      CommitFirstLater(d, t, i, d');
    } else if i == 0 {
      DirectCrash(d, t, d');
    } else {
      DrainedTail(d, t, d');
    }
  }

  lemma DrainedTail(d: Disk, t: Txn, d': Disk)
    requires WellFormed(t, |d|) && InRange(t.direct, |d|) && Idle(d)
    requires DrainedSuffix(Apply(d, t.direct), [Commit(t)] + Slots(t), d')
    ensures AllOrNothing(d, t, d')
  {
    hide Pack, Parse, Apply;
    DirectOnly(d, t);
    var e, ws := Apply(d, t.direct), [Commit(t)] + Slots(t);
    var j :| 0 < j <= |ws| && d' == Apply(e, ws[j..]);
    forall b: nat | b < |d| && (Home(b) || b == LOGSTART) ensures d'[b] == e[b] {
      ApplyAt(e, ws[j..], b);
    }
    IdleUnmoved(d, t, d');
  }
}
