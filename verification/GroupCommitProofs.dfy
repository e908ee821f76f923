/** What every step of the concurrent log keeps, and crash consistency over whole runs. */
module GroupCommitProofs {
  import opened Bytes
  import opened CrashDisk
  import opened GroupCommit
  import opened Sums

  // ---- the invariant ----------------------------------------------------------

  predicate DistinctNats(a: seq<nat>) {
    forall i, j | 0 <= i < j < |a| :: a[i] != a[j]
  }

  /** The platter alone determines the committed state: this is what a crash can rely on. */
  ghost predicate DiskOK(s: Log, d: Disk) {
    && |s.home| == |d| && GroupsInRange(s.groups, |d|)
    && |s.slots| == LOGBLOCKS && |s.head| <= LOGBLOCKS && DistinctNats(s.head)
    && (forall k | 0 <= k < |s.head| :: s.head[k] < |d| && s.slots[k] == Fold(d, s.groups)[s.head[k]])
    && (forall b: nat | b < |d| && b !in s.head :: s.home[b] == Fold(d, s.groups)[b])
  }

  /** The open group: the log names exactly the blocks it touches, and bread shows its result. */
  ghost predicate OpenGroup(s: Log, d: Disk)
    requires DiskOK(s, d)
  {
    && s.head == [] && InRange(Writes(s.pending), |d|)
    && (forall b: nat :: b in s.lh <==> Touches(Writes(s.pending), b))
    && (forall b: nat :: b in s.pinned <==> b in s.lh)
    && (forall b: nat | b < |d| :: View(s, b) == Apply(Fold(d, s.groups), Writes(s.pending))[b])
  }

  ghost predicate NoGroup(s: Log) {
    s.pending == [] && s.pinned == map[]
  }

  /** The buffers still pinned are those not yet installed. */
  ghost predicate PinnedFrom(s: Log, k: nat) {
    k <= |s.lh| && forall b: nat :: b in s.pinned <==> b in s.lh[k..]
  }

  /** The first k blocks of the header are home. */
  ghost predicate Installed(s: Log, d: Disk, k: nat)
    requires DiskOK(s, d)
  {
    && s.lh == s.head && k <= |s.lh|
    && forall j | 0 <= j < k :: s.home[s.lh[j]] == Fold(d, s.groups)[s.lh[j]]
  }

  ghost predicate MidInstall(s: Log, d: Disk, k: nat)
    requires DiskOK(s, d)
  {
    s.pending == [] && k < |s.lh| && Installed(s, d, k) && PinnedFrom(s, k) && PinsCommitted(s, d)
  }

  ghost predicate PinsCommitted(s: Log, d: Disk)
    requires GroupsInRange(s.groups, |d|)
  {
    forall b: nat | b in s.pinned :: b < |d| && s.pinned[b] == Fold(d, s.groups)[b]
  }

  ghost predicate MemOK(s: Log, d: Disk)
    requires DiskOK(s, d)
  {
    && DistinctNats(s.lh) && |s.lh| <= LOGBLOCKS
    && (forall k | 0 <= k < |s.lh| :: s.lh[k] < |d|)
    && match s.phase
       case Running => OpenGroup(s, d)
       case Logging(k) =>
         OpenGroup(s, d) && k < |s.lh| && forall j | 0 <= j < k :: s.slots[j] == View(s, s.lh[j])
       case Heading =>
         OpenGroup(s, d) && |s.lh| > 0 && forall j | 0 <= j < |s.lh| :: s.slots[j] == View(s, s.lh[j])
       case Installing(k) => MidInstall(s, d, k)
       case Erasing => NoGroup(s) && s.lh == [] && s.home == Fold(d, s.groups)
       case Finishing => NoGroup(s) && s.lh == [] && s.head == []
       case Recovering(k) => NoGroup(s) && Installed(s, d, k)
       case RecErasing => NoGroup(s) && s.lh == [] && s.home == Fold(d, s.groups)
  }

  function Active(p: Proc): nat { if p.In? then 1 else 0 }

  /** log_write calls process p may still make. */
  function Allowance(p: Proc): nat { if p.In? && p.calls <= MAXOPBLOCKS then MAXOPBLOCKS - p.calls else 0 }

  predicate Committing(ph: Phase) {
    ph.Logging? || ph.Heading? || ph.Installing? || ph.Erasing? || ph.Finishing?
  }

  ghost predicate ProcOK(s: Log) {
    && s.outstanding == Sum(s.procs, Active)
    && |s.lh| + Sum(s.procs, Allowance) <= LOGBLOCKS
    && (s.committing <==> Committing(s.phase))
    && (!s.phase.Running? ==> s.outstanding == 0)
    && (s.outstanding == 0 && s.phase.Running? ==> s.lh == [])
    && (forall p | 0 <= p < |s.procs| && s.procs[p].In? ::
          && s.procs[p].calls <= MAXOPBLOCKS && s.procs[p].op < s.nextOp
          && s.procs[p].op in s.ops && s.ops[s.procs[p].op].place.Pending?)
  }

  /** Operation op's writes, all of them, are in the one place its record names, and nowhere else. */
  ghost predicate OpOK(s: Log, op: nat) {
    var rec := if op in s.ops then s.ops[op] else OpRecord([], Lost);
    && (op in s.ops ==> op < s.nextOp)
    && Of(s.pending, op) == (if rec.place.Pending? then rec.writes else [])
    && (rec.place.InGroup? ==> rec.place.i < |s.groups|)
    && forall i | 0 <= i < |s.groups| ::
         Of(s.groups[i], op) == if rec.place == InGroup(i) then rec.writes else []
  }

  ghost predicate Inv(s: Log, d: Disk) {
    DiskOK(s, d) && MemOK(s, d) && ProcOK(s) && forall op: nat :: OpOK(s, op)
  }

  // ---- sums over processes ------------------------------------------------------

  lemma {:induction false} AllowanceBound(procs: seq<Proc>)
    ensures Sum(procs, Allowance) <= MAXOPBLOCKS * Sum(procs, Active)
  {
    if procs != [] {
      AllowanceBound(procs[1..]);
    }
  }

  lemma SumAllOut(procs: seq<Proc>)
    requires forall p | 0 <= p < |procs| :: procs[p].Out?
    ensures Sum(procs, Active) == 0 && Sum(procs, Allowance) == 0
  {
    SumZero(procs, Active);
    SumZero(procs, Allowance);
  }

  // ---- processes ------------------------------------------------------------------

  /** Reservation: an operation within its MAXOPBLOCKS calls never finds the log full. */
  lemma NeverPanics(s: Log, p: nat)
    requires ProcOK(s) && p < |s.procs| && s.procs[p].In?
    ensures s.procs[p].calls < MAXOPBLOCKS ==> !LogWritePanics(s)
    ensures !s.committing && s.outstanding > 0
  {
    SumAtLeast(s.procs, Allowance, p);
    SumAtLeast(s.procs, Active, p);
  }

  lemma ProcStep(s: Log, d: Disk, step: Step)
    requires DiskOK(s, d) && MemOK(s, d) && ProcOK(s) && Enabled(s, step)
    ensures ProcOK(Do(s, step))
  {
    if step.Commit? {
      SumZero(s.procs, Active);
    } else if step.Crash? {
      SumAllOut(Do(s, step).procs);
    } else {
      ProcCall(s, step);
    }
  }

  lemma ProcCall(s: Log, step: Step)
    requires ProcOK(s) && Enabled(s, step) && (step.Begin? || step.LogWrite? || step.End?)
    ensures ProcOK(Do(s, step))
  {
    var p, x := step.p, Do(s, step).procs[step.p];
    SumUpdate(s.procs, Active, p, x);
    SumUpdate(s.procs, Allowance, p, x);
    SumAtLeast(s.procs, Active, p);
    AllowanceBound(s.procs);
    hide Sum;
  }

  // ---- disk and buffers -------------------------------------------------------------

  lemma WritesMore(g: seq<Entry>, e: Entry)
    ensures Writes(g + [e]) == Writes(g) + [e.w]
  {
  }

  lemma TouchesMore(ws: seq<Write>, w: Write, b: nat)
    ensures Touches(ws + [w], b) <==> Touches(ws, b) || b == w.bno
  {
    if Touches(ws, b) {
      var i :| 0 <= i < |ws| && ws[i].bno == b;
      assert (ws + [w])[i].bno == b;
    }
    assert (ws + [w])[|ws|] == w;
  }

  lemma FirstTouched(ws: seq<Write>)
    requires ws != []
    ensures Touches(ws, ws[0].bno)
  {
  }

  /** log_write extends the open group by one write, absorbed or not. */
  lemma LogWriteKeeps(s: Log, d: Disk, p: nat, b: nat, data: Block)
    requires DiskOK(s, d) && MemOK(s, d) && ProcOK(s) && Enabled(s, LogWrite(p, b, data))
    ensures DiskOK(Do(s, LogWrite(p, b, data)), d) && MemOK(Do(s, LogWrite(p, b, data)), d)
  {
    SumAtLeast(s.procs, Active, p);
    var s' := Do(s, LogWrite(p, b, data));
    var w, ws := Write(b, data), Writes(s.pending);
    WritesMore(s.pending, Entry(s.procs[p].op, w));
    ApplyOne(Fold(d, s.groups), ws, w);
    forall c: nat ensures c in s'.lh <==> Touches(ws + [w], c) {
      TouchesMore(ws, w, c);
    }
  }

  lemma RunningInside(s: Log, p: nat)
    requires ProcOK(s) && p < |s.procs| && s.procs[p].In?
    ensures s.phase.Running?
  {
    SumAtLeast(s.procs, Active, p);
  }

  lemma EndKeeps(s: Log, d: Disk, p: nat)
    requires DiskOK(s, d) && MemOK(s, d) && Enabled(s, End(p)) && s.phase.Running?
    ensures DiskOK(Do(s, End(p)), d) && MemOK(Do(s, End(p)), d)
  {
    if s.lh == [] {
      if s.pending != [] { FirstTouched(Writes(s.pending)); }
      assert forall b: nat :: b !in s.pinned;
    }
    hide Fold, GroupsInRange, Apply, Touches, DistinctNats;
  }

  /** The commit point: one header write moves the open group into the durable history. */
  lemma HeadingKeeps(s: Log, d: Disk)
    requires DiskOK(s, d) && MemOK(s, d) && s.phase.Heading?
    ensures DiskOK(Do(s, Commit), d) && MemOK(Do(s, Commit), d)
  {
    var s' := Do(s, Commit);
    assert s'.groups[..|s.groups|] == s.groups;
    var old_, ws := Fold(d, s.groups), Writes(s.pending);
    assert Fold(d, s'.groups) == Apply(old_, ws);
    forall b: nat | b < |d| && b !in s.lh ensures Apply(old_, ws)[b] == old_[b] {
      ApplyAt(old_, ws, b);
    }
    assert s'.lh[0..] == s'.lh;
  }

  lemma LoggingKeeps(s: Log, d: Disk)
    requires DiskOK(s, d) && MemOK(s, d) && s.phase.Logging?
    ensures Enabled(s, Commit) && DiskOK(Do(s, Commit), d) && MemOK(Do(s, Commit), d)
  {
    hide Fold, Apply, Writes, Touches, DistinctNats;
  }

  lemma DropHead(lh: seq<nat>, k: nat, b: nat)
    requires DistinctNats(lh) && k < |lh|
    ensures b in lh[k + 1..] <==> b in lh[k..] && b != lh[k]
  {
    assert lh[k..] == [lh[k]] + lh[k + 1..];
    if b in lh[k + 1..] {
      var j :| k + 1 <= j < |lh| && lh[j] == b;
    }
  }

  /** Every header block home: the disk is the committed state. */
  lemma AllInstalled(s: Log, d: Disk, home: Disk)
    requires DiskOK(s, d) && s.lh == s.head && |home| == |s.home|
    requires forall j | 0 <= j < |s.lh| :: home[s.lh[j]] == Fold(d, s.groups)[s.lh[j]]
    requires forall b: nat | b < |home| && b !in s.lh :: home[b] == s.home[b]
    ensures home == Fold(d, s.groups)
  {
    forall b: nat | b < |d| ensures home[b] == Fold(d, s.groups)[b] {
      if b in s.lh {
        var j :| 0 <= j < |s.lh| && s.lh[j] == b;
      }
    }
  }

  /** Copying a logged block home keeps the platter recoverable. */
  lemma HomeStep(s: Log, d: Disk, k: nat)
    requires DiskOK(s, d) && s.lh == s.head && k < |s.lh|
    ensures var s' := s.(home := s.home[s.lh[k] := s.slots[k]]);
      DiskOK(s', d) && (Installed(s, d, k) ==> Installed(s', d, k + 1))
  {
    hide Fold, GroupsInRange;
  }

  /** Installing one block: the disk copy becomes the committed one, and the buffer is unpinned. */
  lemma InstallingKeeps(s: Log, d: Disk)
    requires DiskOK(s, d) && MemOK(s, d) && s.phase.Installing? && s.phase.k + 1 < |s.lh|
    ensures Enabled(s, Commit) && DiskOK(Do(s, Commit), d) && MemOK(Do(s, Commit), d)
  {
    hide Fold, GroupsInRange, DistinctNats, Installed, PinnedFrom;
    MidInstallStep(s, d, s.phase.k);
  }

  /** Pins and phase play no part in what is on disk. */
  lemma SameDisk(s: Log, s': Log, d: Disk, k: nat)
    requires DiskOK(s, d) && Installed(s, d, k)
    requires s'.home == s.home && s'.groups == s.groups && s'.slots == s.slots && s'.head == s.head && s'.lh == s.lh
    ensures DiskOK(s', d) && Installed(s', d, k) && GroupsInRange(s'.groups, |d|)
  {
  }

  lemma MidShape(s: Log, d: Disk, k: nat)
    requires DiskOK(s, d) && Installed(s, d, k)
    ensures DistinctNats(s.lh) && s.lh == s.head && k <= |s.lh| <= |s.slots| && GroupsInRange(s.groups, |d|)
    ensures forall j | 0 <= j < |s.lh| :: s.lh[j] < |s.home|
  {
  }

  lemma MidInstallStep(s: Log, d: Disk, k: nat)
    requires DiskOK(s, d) && MidInstall(s, d, k) && k + 1 < |s.lh|
    ensures var b := s.lh[k];
      var s' := s.(home := s.home[b := s.slots[k]], pinned := s.pinned - {b}, phase := Installing(k + 1));
      DiskOK(s', d) && MidInstall(s', d, k + 1)
  {
    hide DiskOK, Installed, Fold, GroupsInRange, DistinctNats, PinnedFrom, PinsCommitted;
    MidShape(s, d, k);
    HomeStep(s, d, k);
    var home := s.(home := s.home[s.lh[k] := s.slots[k]]);
    var s' := home.(pinned := s.pinned - {s.lh[k]}, phase := Installing(k + 1));
    SameDisk(home, s', d, k + 1);
    Unpinned(s, s', d, k);
  }

  lemma Unpinned(s: Log, s': Log, d: Disk, k: nat)
    requires GroupsInRange(s.groups, |d|) && s'.groups == s.groups && s'.lh == s.lh && DistinctNats(s.lh)
    requires k < |s.lh| && s'.pinned == s.pinned - {s.lh[k]} && PinnedFrom(s, k) && PinsCommitted(s, d)
    ensures PinnedFrom(s', k + 1) && PinsCommitted(s', d)
  {
    hide DistinctNats, GroupsInRange, Fold;
    forall b: nat ensures b in s'.pinned <==> b in s.lh[k + 1..] { DropHead(s.lh, k, b); }
  }

  lemma InstallingLast(s: Log, d: Disk)
    requires DiskOK(s, d) && MemOK(s, d) && s.phase.Installing? && s.phase.k + 1 == |s.lh|
    ensures Enabled(s, Commit) && DiskOK(Do(s, Commit), d) && MemOK(Do(s, Commit), d)
  {
    var s', k := Do(s, Commit), s.phase.k;
    assert DistinctNats(s.lh);
    hide Fold;
    forall b: nat ensures b !in s'.pinned {
      DropHead(s.lh, k, b);
      assert s.lh[k + 1..] == [];
    }
    assert s'.pinned == map[];
    AllInstalled(s, d, s'.home);
  }

  lemma RecoveringKeeps(s: Log, d: Disk)
    requires DiskOK(s, d) && MemOK(s, d) && s.phase.Recovering?
    ensures Enabled(s, Commit) && DiskOK(Do(s, Commit), d) && MemOK(Do(s, Commit), d)
  {
    if s.phase.k == |s.lh| {
      AllInstalled(s, d, s.home);
      hide Fold, GroupsInRange, DistinctNats;
    } else {
      HomeStep(s, d, s.phase.k);
      hide Fold, GroupsInRange, DistinctNats, Installed;
    }
  }

  lemma CrashKeeps(s: Log, d: Disk)
    requires DiskOK(s, d) && MemOK(s, d)
    ensures DiskOK(Do(s, Crash), d) && MemOK(Do(s, Crash), d)
  {
    hide Fold, DistinctNats;
  }

  lemma BeginKeeps(s: Log, d: Disk, p: nat)
    requires DiskOK(s, d) && MemOK(s, d) && Enabled(s, Begin(p))
    ensures DiskOK(Do(s, Begin(p)), d) && MemOK(Do(s, Begin(p)), d)
  {
    hide Fold, DistinctNats, Writes, Apply;
  }

  lemma ErasingKeeps(s: Log, d: Disk)
    requires DiskOK(s, d) && MemOK(s, d) && (s.phase.Erasing? || s.phase.Finishing? || s.phase.RecErasing?)
    ensures DiskOK(Do(s, Commit), d) && MemOK(Do(s, Commit), d)
  {
    assert Writes([]) == [];
    assert s.head == [] ==> s.home == Fold(d, s.groups);
    hide Fold, DistinctNats;
  }

  lemma StateStep(s: Log, d: Disk, step: Step)
    requires DiskOK(s, d) && MemOK(s, d) && ProcOK(s) && Enabled(s, step)
    ensures DiskOK(Do(s, step), d) && MemOK(Do(s, step), d)
  {
    hide DiskOK, MemOK, ProcOK;
    match step
    case Begin(p) => BeginKeeps(s, d, p);
    case LogWrite(p, b, data) => LogWriteKeeps(s, d, p, b, data);
    case End(p) => RunningInside(s, p); EndKeeps(s, d, p);
    case Crash => CrashKeeps(s, d);
    case Commit =>
      match s.phase
      case Logging(k) => LoggingKeeps(s, d);
      case Heading => HeadingKeeps(s, d);
      case Installing(k) => if k + 1 < |s.lh| { InstallingKeeps(s, d); } else { InstallingLast(s, d); }
      case Recovering(k) => RecoveringKeeps(s, d);
      case _ => ErasingKeeps(s, d);
  }

  // ---- whole operations -------------------------------------------------------------

  lemma OfMore(g: seq<Entry>, e: Entry, op: nat)
    ensures Of(g + [e], op) == Of(g, op) + if e.op == op then [e.w] else []
  {
    assert (g + [e])[..|g|] == g;
  }

  /** Commits move whole operations; crashes lose whole operations. */
  lemma OpStep(s: Log, step: Step, op: nat)
    requires OpOK(s, op) && ProcOK(s) && Enabled(s, step)
    requires !s.phase.Running? && !s.phase.Logging? && !s.phase.Heading? ==> s.pending == []
    ensures OpOK(Do(s, step), op)
  {
    match step
    case LogWrite(p, b, data) => OpLogWrite(s, p, b, data, op);
    case Commit => OpCommit(s, op);
    case _ =>
  }

  lemma OpCommit(s: Log, op: nat)
    requires OpOK(s, op) && Enabled(s, Commit)
    ensures OpOK(Do(s, Commit), op)
  {
    var s' := Do(s, Commit);
    if s.phase.Heading? {
      assert s'.groups[|s.groups|] == s.pending;
      assert forall i | 0 <= i < |s.groups| :: s'.groups[i] == s.groups[i];
    }
  }

  lemma OpLogWrite(s: Log, p: nat, b: nat, data: Block, op: nat)
    requires OpOK(s, op) && ProcOK(s) && Enabled(s, LogWrite(p, b, data))
    ensures OpOK(Do(s, LogWrite(p, b, data)), op)
  {
    OfMore(s.pending, Entry(s.procs[p].op, Write(b, data)), op);
    hide Of, Sum;
  }

  // ---- whole runs -------------------------------------------------------------------

  /** A machine as it boots on an image with an empty log. */
  function Boot(image: Disk, nproc: nat): Log {
    Log(0, false, [], map[], [], seq(LOGBLOCKS, _ => ZeroBlock()), image,
        seq(nproc, _ => Out), Running, [], [], map[], 0)
  }

  ghost predicate Run(image: Disk, nproc: nat, states: seq<Log>, steps: seq<Step>) {
    && |states| == |steps| + 1
    && states[0] == Boot(image, nproc)
    && forall i | 0 <= i < |steps| :: Enabled(states[i], steps[i]) && states[i + 1] == Do(states[i], steps[i])
  }

  lemma InvInit(image: Disk, nproc: nat)
    ensures Inv(Boot(image, nproc), image)
  {
    SumAllOut(Boot(image, nproc).procs);
    assert Writes([]) == [];
  }

  lemma InvStep(s: Log, d: Disk, step: Step)
    requires Inv(s, d) && Enabled(s, step)
    ensures Inv(Do(s, step), d)
  {
    StateStep(s, d, step);
    ProcStep(s, d, step);
    forall op: nat ensures OpOK(Do(s, step), op) {
      OpStep(s, step, op);
    }
  }

  lemma {:induction false} RunInv(image: Disk, nproc: nat, states: seq<Log>, steps: seq<Step>, i: nat)
    requires Run(image, nproc, states, steps) && i < |states|
    ensures Inv(states[i], image)
  {
    if i == 0 {
      InvInit(image, nproc);
    } else {
      RunInv(image, nproc, states, steps, i - 1);
      InvStep(states[i - 1], image, steps[i - 1]);
    }
  }

  lemma {:induction false} RecoveredAt(home: Disk, head: seq<nat>, slots: seq<Block>, goal: Disk)
    requires |head| <= |slots| && |goal| == |home|
    requires forall k | 0 <= k < |head| :: head[k] < |home| && slots[k] == goal[head[k]]
    ensures forall b: nat | b < |home| ::
              RecoveredDisk(home, head, slots)[b] == if b in head then goal[b] else home[b]
  {
    if head != [] {
      var n := |head| - 1;
      RecoveredAt(home, head[..n], slots, goal);
      assert head == head[..n] + [head[n]];
    }
  }

  /**
   Crash consistency. In every reachable state, whatever the interleaving and whatever crashes
   came before, the platter recovers to exactly the committed groups, applied in order.
   */
  lemma CrashConsistency(image: Disk, nproc: nat, states: seq<Log>, steps: seq<Step>, i: nat)
    requires Run(image, nproc, states, steps) && i < |states|
    ensures var s := states[i];
      && GroupsInRange(s.groups, |image|) && |s.head| <= |s.slots|
      && (forall k | 0 <= k < |s.head| :: s.head[k] < |s.home|)
      && RecoveredDisk(s.home, s.head, s.slots) == Fold(image, s.groups)
  {
    RunInv(image, nproc, states, steps, i);
    var s := states[i];
    RecoveredAt(s.home, s.head, s.slots, Fold(image, s.groups));
  }

  /** Each operation is wholly in one committed group, or in none of them. */
  lemma OperationsAtomic(image: Disk, nproc: nat, states: seq<Log>, steps: seq<Step>, i: nat, op: nat)
    requires Run(image, nproc, states, steps) && i < |states| && op in states[i].ops
    ensures var s := states[i]; var rec := s.ops[op];
      && (forall g | 0 <= g < |s.groups| :: Of(s.groups[g], op) == [] || Of(s.groups[g], op) == rec.writes)
      && (forall g, h | 0 <= g < h < |s.groups| :: Of(s.groups[g], op) == [] || Of(s.groups[h], op) == [])
      && (Of(s.pending, op) != [] ==> forall g | 0 <= g < |s.groups| :: Of(s.groups[g], op) == [])
  {
    RunInv(image, nproc, states, steps, i);
    assert OpOK(states[i], op);
  }

  /** An operation still inside begin_op/end_op has nothing committed. */
  lemma InFlightUncommitted(image: Disk, nproc: nat, states: seq<Log>, steps: seq<Step>, i: nat, p: nat)
    requires Run(image, nproc, states, steps) && i < |states|
    requires p < |states[i].procs| && states[i].procs[p].In?
    ensures forall g | 0 <= g < |states[i].groups| :: Of(states[i].groups[g], states[i].procs[p].op) == []
    ensures states[i].procs[p].calls < MAXOPBLOCKS ==> !LogWritePanics(states[i])
    ensures !states[i].committing
  {
    RunInv(image, nproc, states, steps, i);
    assert OpOK(states[i], states[i].procs[p].op);
    NeverPanics(states[i], p);
  }

  /** What has been committed stays committed. */
  lemma {:induction false} HistoryGrows(image: Disk, nproc: nat, states: seq<Log>, steps: seq<Step>, i: nat, j: nat)
    requires Run(image, nproc, states, steps) && i <= j < |states|
    ensures states[i].groups <= states[j].groups
  {
    if i < j {
      HistoryGrows(image, nproc, states, steps, i, j - 1);
    }
  }

  /** Once the last operation is out and the commit is done, nothing finished is left uncommitted. */
  lemma QuietMeansDurable(image: Disk, nproc: nat, states: seq<Log>, steps: seq<Step>, i: nat)
    requires Run(image, nproc, states, steps) && i < |states|
    requires states[i].phase.Running? && states[i].outstanding == 0
    ensures states[i].pending == [] && GroupsInRange(states[i].groups, |image|)
    ensures states[i].home == Fold(image, states[i].groups)
  {
    RunInv(image, nproc, states, steps, i);
    var s := states[i];
    if s.pending != [] { FirstTouched(Writes(s.pending)); }
  }

  // ---- a full log ---------------------------------------------------------------

  lemma RunMore(image: Disk, nproc: nat, states: seq<Log>, steps: seq<Step>, step: Step)
      returns (more: seq<Log>, done: seq<Step>)
    requires Run(image, nproc, states, steps) && Enabled(states[|steps|], step)
    ensures Run(image, nproc, more, done) && more[|done|] == Do(states[|steps|], step)
  {
    more, done := states + [Do(states[|steps|], step)], steps + [step];
  }

  function Count(n: nat): seq<nat> { seq(n, i requires 0 <= i < n => i) }

  /** A process c calls into its operation, or outside if c is negative. */
  predicate Calls(p: Proc, c: int) { if c < 0 then p.Out? else p.In? && p.calls == c }

  /** The open group has logged n blocks; processes 0 and 1 are where c and d say. */
  predicate Stage(s: Log, size: nat, n: nat, c: int, d: int) {
    && s.phase.Running? && !s.committing && |s.home| == size && s.lh == Count(n)
    && |s.procs| >= 2 && Calls(s.procs[0], c) && Calls(s.procs[1], d)
    && s.outstanding == (if c < 0 then 0 else 1) + if d < 0 then 0 else 1
  }

  /** Process 0, or process 1, logs k blocks not logged before. */
  lemma {:induction false} LogBlocks(image: Disk, nproc: nat, states: seq<Log>, steps: seq<Step>,
                                     n: nat, c: int, d: int, p: nat, k: nat)
      returns (more: seq<Log>, done: seq<Step>)
    requires Run(image, nproc, states, steps) && Stage(states[|steps|], |image|, n, c, d)
    requires p < 2 && (if p == 0 then c else d) == 0 && k <= MAXOPBLOCKS && n + k <= LOGBLOCKS <= |image|
    ensures Run(image, nproc, more, done)
    ensures Stage(more[|done|], |image|, n + k, if p == 0 then k else c, if p == 1 then k else d)
  {
    hide Run;
    if k == 0 {
      more, done := states, steps;
    } else {
      more, done := LogBlocks(image, nproc, states, steps, n, c, d, p, k - 1);
      var b := n + k - 1;
      more, done := RunMore(image, nproc, more, done, LogWrite(p, b, ZeroBlock()));
      assert Count(b + 1) == Count(b) + [b];
    }
  }

  /** A process enters, or leaves while another is inside. */
  lemma EnterOrLeave(image: Disk, nproc: nat, states: seq<Log>, steps: seq<Step>, n: nat, c: int, d: int, p: nat)
      returns (more: seq<Log>, done: seq<Step>)
    requires Run(image, nproc, states, steps) && Stage(states[|steps|], |image|, n, c, d) && p < 2
    requires var mine, other := if p == 0 then c else d, if p == 0 then d else c;
      if mine < 0 then n + (if other < 0 then 1 else 2) * MAXOPBLOCKS <= LOGBLOCKS else other >= 0
    ensures Run(image, nproc, more, done)
    ensures var mine := if p == 0 then c else d; var now := if mine < 0 then 0 else -1;
      Stage(more[|done|], |image|, n, if p == 0 then now else c, if p == 1 then now else d)
  {
    hide Run;
    var mine := if p == 0 then c else d;
    more, done := RunMore(image, nproc, states, steps, if mine < 0 then Begin(p) else End(p));
  }

  /**
   Two processes can fill the log before a commit: three operations of the largest size, each overlapping the
   next.
   */
  lemma FullLogReachable(image: Disk, nproc: nat) returns (states: seq<Log>, steps: seq<Step>)
    requires nproc >= 2 && |image| >= LOGBLOCKS
    ensures Run(image, nproc, states, steps)
    ensures states[|steps|].phase == Logging(0) && |states[|steps|].lh| == LOGBLOCKS
  {
    states, steps := [Boot(image, nproc)], [];
    assert Run(image, nproc, states, steps) && Stage(states[0], |image|, 0, -1, -1);
    hide Run, Stage, Boot;
    states, steps := EnterOrLeave(image, nproc, states, steps, 0, -1, -1, 0);
    states, steps := LogBlocks(image, nproc, states, steps, 0, 0, -1, 0, 10);
    states, steps := EnterOrLeave(image, nproc, states, steps, 10, 10, -1, 1);
    states, steps := EnterOrLeave(image, nproc, states, steps, 10, 10, 0, 0);
    states, steps := EnterOrLeave(image, nproc, states, steps, 10, -1, 0, 0);
    states, steps := LogBlocks(image, nproc, states, steps, 10, 0, 0, 0, 10);
    states, steps := LogBlocks(image, nproc, states, steps, 20, 10, 0, 1, 10);
    states, steps := EnterOrLeave(image, nproc, states, steps, 30, 10, 10, 0);
    states, steps := LastOut(image, nproc, states, steps);
  }

  lemma LastOut(image: Disk, nproc: nat, states: seq<Log>, steps: seq<Step>) returns (more: seq<Log>, done: seq<Step>)
    requires Run(image, nproc, states, steps) && Stage(states[|steps|], |image|, LOGBLOCKS, -1, MAXOPBLOCKS)
    ensures Run(image, nproc, more, done)
    ensures more[|done|].phase == Logging(0) && |more[|done|].lh| == LOGBLOCKS
  {
    hide Run;
    more, done := RunMore(image, nproc, states, steps, End(1));
  }
}
