/**
 Runs of the concurrent log against what its callers asked for: reads give the writes issued since the last crash laid
 over what survived it, finished operations are durable, and commits and recoveries end.
 */
module GroupCommitRuns {
  import opened Bytes
  import opened CrashDisk
  import opened GroupCommit
  import opened GroupCommitProofs
  import opened Sums

  // ---- what a step asks for -----------------------------------------------------

  /** The writes of the log_write calls among some steps, in order. */
  function Issued(steps: seq<Step>): seq<Write> {
    if steps == [] then []
    else
      var step := steps[|steps| - 1];
      Issued(steps[..|steps| - 1]) + if step.LogWrite? then [Write(step.b, step.data)] else []
  }

  predicate NoCrash(steps: seq<Step>) { forall i | 0 <= i < |steps| :: !steps[i].Crash? }

  /** A machine that has just booted, or rebooted after a crash. */
  predicate Fresh(states: seq<Log>, steps: seq<Step>, j: nat) { j == 0 || (j <= |steps| && steps[j - 1].Crash?) }

  predicate Quiet(s: Log) { s.phase.Running? && s.outstanding == 0 }

  // ---- reads --------------------------------------------------------------------

  lemma PendingInRange(s: Log, d: Disk)
    requires DiskOK(s, d) && MemOK(s, d)
    ensures GroupsInRange(s.groups, |d|) && InRange(Writes(s.pending), |d|) && |s.home| == |d|
  {
    hide Fold, Apply, Touches, DistinctNats;
  }

  /** The committed groups and then the open one. */
  function Target(s: Log, d: Disk): (r: Disk)
    requires GroupsInRange(s.groups, |d|) && InRange(Writes(s.pending), |d|)
    ensures |r| == |d|
  {
    Apply(Fold(d, s.groups), Writes(s.pending))
  }

  /** Only a log_write moves it, and a crash. */
  lemma TargetStep(s: Log, d: Disk, step: Step)
    requires Inv(s, d) && Enabled(s, step) && !step.Crash?
    ensures GroupsInRange(s.groups, |d|) && InRange(Writes(s.pending), |d|)
    ensures GroupsInRange(Do(s, step).groups, |d|) && InRange(Writes(Do(s, step).pending), |d|)
    ensures step.LogWrite? ==> step.b < |d| && Target(Do(s, step), d) == Target(s, d)[step.b := step.data]
    ensures !step.LogWrite? ==> Target(Do(s, step), d) == Target(s, d)
  {
    hide MemOK, ProcOK, DiskOK;
    var s' := Do(s, step);
    PendingInRange(s, d);
    StateStep(s, d, step);
    PendingInRange(s', d);
    if step.LogWrite? {
      WritesMore(s.pending, Entry(s.procs[step.p].op, Write(step.b, step.data)));
      ApplyOne(Fold(d, s.groups), Writes(s.pending), Write(step.b, step.data));
    } else if step.Commit? && s.phase.Heading? {
      assert s'.groups[..|s.groups|] == s.groups && s'.pending == [];
      assert Apply(Fold(d, s'.groups), []) == Fold(d, s'.groups);
    }
  }

  lemma {:induction false} TargetRuns(image: Disk, nproc: nat, states: seq<Log>, steps: seq<Step>, j: nat, i: nat)
    requires Run(image, nproc, states, steps) && j <= i < |states| && NoCrash(steps[j..i])
    ensures GroupsInRange(states[i].groups, |image|) && InRange(Writes(states[i].pending), |image|)
    ensures GroupsInRange(states[j].groups, |image|) && InRange(Writes(states[j].pending), |image|)
    ensures InRange(Issued(steps[j..i]), |image|)
    ensures Target(states[i], image) == Apply(Target(states[j], image), Issued(steps[j..i]))
    decreases i - j
  {
    hide Inv, Target, Fold, Writes, Do, Enabled, Issued, Apply, Run, GroupsInRange, InRange;
    RunShape(image, nproc, states, steps);
    RunInv(image, nproc, states, steps, i);
    InvPending(states[i], image);
    if j < i {
      RunStep(image, nproc, states, steps, i - 1);
      RunInv(image, nproc, states, steps, i - 1);
      LastStep(steps, j, i);
      TargetRuns(image, nproc, states, steps, j, i - 1);
      TargetStep(states[i - 1], image, steps[i - 1]);
      IssuedStep(Target(states[j], image), Issued(steps[j..i - 1]), steps[i - 1]);
    } else {
      NothingIssued(Target(states[j], image));
      assert steps[j..i] == [];
    }
  }

  lemma RunStep(image: Disk, nproc: nat, states: seq<Log>, steps: seq<Step>, i: nat)
    requires Run(image, nproc, states, steps) && i < |steps|
    ensures |states| == |steps| + 1 && Enabled(states[i], steps[i]) && states[i + 1] == Do(states[i], steps[i])
  {
  }

  lemma RunShape(image: Disk, nproc: nat, states: seq<Log>, steps: seq<Step>)
    requires Run(image, nproc, states, steps)
    ensures |states| == |steps| + 1
  {
  }

  lemma NothingIssued(d: Disk)
    ensures Issued([]) == [] && InRange([], |d|) && Apply(d, []) == d
  {
  }

  lemma LastStep(steps: seq<Step>, j: nat, i: nat)
    requires j < i <= |steps| && NoCrash(steps[j..i])
    ensures NoCrash(steps[j..i - 1]) && !steps[i - 1].Crash?
    ensures var step := steps[i - 1];
      Issued(steps[j..i]) == Issued(steps[j..i - 1]) + if step.LogWrite? then [Write(step.b, step.data)] else []
  {
    assert steps[j..i][..i - 1 - j] == steps[j..i - 1] && steps[j..i][i - 1 - j] == steps[i - 1];
    assert forall k | 0 <= k < i - 1 - j :: steps[j..i - 1][k] == steps[j..i][k];
  }

  lemma IssuedStep(d: Disk, ws: seq<Write>, step: Step)
    requires InRange(ws, |d|) && (step.LogWrite? ==> step.b < |d|)
    ensures var more := ws + if step.LogWrite? then [Write(step.b, step.data)] else [];
      && InRange(more, |d|)
      && Apply(d, more) == if step.LogWrite? then Apply(d, ws)[step.b := step.data] else Apply(d, ws)
  {
    if step.LogWrite? { ApplyOne(d, ws, Write(step.b, step.data)); } else { assert ws + [] == ws; }
  }

  lemma InvPending(s: Log, d: Disk)
    requires Inv(s, d)
    ensures GroupsInRange(s.groups, |d|) && InRange(Writes(s.pending), |d|) && |s.home| == |d|
  {
    PendingInRange(s, d);
  }

  /** Outside recovery, bread gives the target. */
  lemma ViewIsTarget(s: Log, d: Disk, b: nat)
    requires Inv(s, d) && !s.phase.Recovering? && !s.phase.RecErasing? && b < |d|
    ensures GroupsInRange(s.groups, |d|) && InRange(Writes(s.pending), |d|) && |s.home| == |d|
    ensures View(s, b) == Target(s, d)[b]
  {
    hide ProcOK, OpOK, DistinctNats;
    InvPending(s, d);
    assert s.pending == [] ==> Target(s, d) == Fold(d, s.groups);
    if s.phase.Installing? { MidView(s, d, s.phase.k, b); }
  }

  /** Halfway through installing, a block is either still pinned or already home. */
  lemma MidView(s: Log, d: Disk, k: nat, b: nat)
    requires DiskOK(s, d) && MidInstall(s, d, k) && b < |d|
    ensures View(s, b) == Fold(d, s.groups)[b]
  {
    hide Fold, GroupsInRange, DistinctNats;
    if b !in s.pinned && b in s.lh {
      var j :| 0 <= j < |s.lh| && s.lh[j] == b;
      forall i | k <= i < |s.lh| ensures s.lh[i] in s.pinned { assert s.lh[i] == s.lh[k..][i - k]; }
    }
  }

  /**
   Reads see writes. Let states[j] be fresh and no crash follow it. Then outside recovery every block reads as the
   disk that survived, with the writes issued since laid over it in order; and in a quiet state the disk itself is that.
   */
  lemma ReadsSeeWrites(image: Disk, nproc: nat, states: seq<Log>, steps: seq<Step>, j: nat, i: nat)
    requires Run(image, nproc, states, steps) && j <= i < |states| && Fresh(states, steps, j) && NoCrash(steps[j..i])
    requires !states[i].phase.Recovering? && !states[i].phase.RecErasing?
    ensures var s := states[j];
      && |s.home| == |image| == |states[i].home| && |s.head| <= |s.slots|
      && (forall k | 0 <= k < |s.head| :: s.head[k] < |s.home|) && InRange(Issued(steps[j..i]), |image|)
      && var now := Apply(RecoveredDisk(s.home, s.head, s.slots), Issued(steps[j..i]));
         && (forall b: nat | b < |image| :: View(states[i], b) == now[b])
         && (Quiet(states[i]) ==> states[i].home == now)
  {
    hide Inv, RecoveredDisk, Fold, Issued;
    FreshTarget(image, nproc, states, steps, j);
    TargetRuns(image, nproc, states, steps, j, i);
    RunInv(image, nproc, states, steps, i);
    InvPending(states[i], image);
    forall b: nat | b < |image| ensures View(states[i], b) == Target(states[i], image)[b] {
      ViewIsTarget(states[i], image, b);
    }
    if Quiet(states[i]) {
      QuietMeansDurable(image, nproc, states, steps, i);
      assert Target(states[i], image) == Fold(image, states[i].groups);
    }
  }

  /** Booted or rebooted, the target is what the platter recovers to; at boot that is the image. */
  lemma FreshTarget(image: Disk, nproc: nat, states: seq<Log>, steps: seq<Step>, j: nat)
    requires Run(image, nproc, states, steps) && j < |states| && Fresh(states, steps, j)
    ensures var s := states[j];
      && GroupsInRange(s.groups, |image|) && s.pending == [] && |s.home| == |image| && |s.head| <= |s.slots|
      && (forall k | 0 <= k < |s.head| :: s.head[k] < |s.home|)
      && Target(s, image) == RecoveredDisk(s.home, s.head, s.slots)
      && (j == 0 ==> RecoveredDisk(s.home, s.head, s.slots) == image)
  {
    CrashConsistency(image, nproc, states, steps, j);
    if j > 0 { assert states[j - 1 + 1] == Do(states[j - 1], steps[j - 1]); }
    assert Writes([]) == [];
    RunInv(image, nproc, states, steps, j);
    InvPending(states[j], image);
    hide Inv;
  }

  // ---- operations -----------------------------------------------------------------

  /** What a step writes on behalf of an operation. */
  function Mine(s: Log, step: Step, op: nat): seq<Write> {
    if step.LogWrite? && step.p < |s.procs| && s.procs[step.p].In? && s.procs[step.p].op == op
    then [Write(step.b, step.data)] else []
  }

  /** Everything the steps so far have written on behalf of an operation. */
  function IssuedBy(states: seq<Log>, steps: seq<Step>, op: nat, i: nat): seq<Write>
    requires i < |states| == |steps| + 1
  {
    if i == 0 then [] else IssuedBy(states, steps, op, i - 1) + Mine(states[i - 1], steps[i - 1], op)
  }

  /** Records are never dropped, gather exactly what is written for them, and only a crash loses one. */
  lemma RecordStep(s: Log, step: Step, op: nat)
    requires ProcOK(s) && OpOK(s, op) && Enabled(s, step)
    ensures var s' := Do(s, step);
      && s'.nextOp >= s.nextOp && (op in s.ops ==> op in s'.ops)
      && (op !in s'.ops ==> Mine(s, step, op) == [])
      && (op in s'.ops ==> s'.ops[op].writes == (if op in s.ops then s.ops[op].writes else []) + Mine(s, step, op))
      && (op in s.ops && !s.ops[op].place.Lost? && !step.Crash? ==> !s'.ops[op].place.Lost?)
      && (step.Begin? ==> s.nextOp in s'.ops && s'.ops[s.nextOp].place.Pending?)
  {
    hide Sum, Of;
  }

  lemma {:induction false} RecordIs(image: Disk, nproc: nat, states: seq<Log>, steps: seq<Step>, i: nat, op: nat)
    requires Run(image, nproc, states, steps) && i < |states|
    ensures op in states[i].ops ==> states[i].ops[op].writes == IssuedBy(states, steps, op, i)
    ensures op !in states[i].ops ==> IssuedBy(states, steps, op, i) == []
  {
    if i > 0 {
      RecordIs(image, nproc, states, steps, i - 1, op);
      RunInv(image, nproc, states, steps, i - 1);
      RunStep(image, nproc, states, steps, i - 1);
      hide Inv, Do, Enabled, Mine;
      InvProc(states[i - 1], image, op);
      RecordStep(states[i - 1], steps[i - 1], op);
    }
  }

  /** A step that is not a crash loses no operation. */
  lemma NothingLost(image: Disk, nproc: nat, states: seq<Log>, steps: seq<Step>, i: nat, op: nat)
    requires Run(image, nproc, states, steps) && i < |steps| && !steps[i].Crash?
    requires op in states[i].ops && !states[i].ops[op].place.Lost?
    ensures op in states[i + 1].ops && !states[i + 1].ops[op].place.Lost?
  {
    RunInv(image, nproc, states, steps, i);
    RunStep(image, nproc, states, steps, i);
    hide Inv, Do, Enabled;
    InvProc(states[i], image, op);
    RecordStep(states[i], steps[i], op);
  }

  lemma {:induction false} StillThere(image: Disk, nproc: nat, states: seq<Log>, steps: seq<Step>, j: nat, i: nat)
    requires Run(image, nproc, states, steps) && j < i < |states| && steps[j].Begin? && NoCrash(steps[j..i])
    ensures var op := states[j].nextOp; op in states[i].ops && !states[i].ops[op].place.Lost?
    decreases i
  {
    hide Do, Enabled, Inv;
    var op := states[j].nextOp;
    if i == j + 1 {
      RunInv(image, nproc, states, steps, j);
      RunStep(image, nproc, states, steps, j);
      InvProc(states[j], image, op);
      RecordStep(states[j], steps[j], op);
    } else {
      LastStep(steps, j, i);
      StillThere(image, nproc, states, steps, j, i - 1);
      NothingLost(image, nproc, states, steps, i - 1, op);
    }
  }

  lemma InvProc(s: Log, d: Disk, op: nat)
    requires Inv(s, d)
    ensures ProcOK(s) && OpOK(s, op)
  {
  }

  /**
   Finished means durable. In a quiet state every operation begun since the last crash has all it wrote, as the calls
   made it and in their order, in one committed group.
   */
  lemma FinishedIsCommitted(image: Disk, nproc: nat, states: seq<Log>, steps: seq<Step>, j: nat, i: nat)
    requires Run(image, nproc, states, steps) && j < i < |states| && steps[j].Begin? && NoCrash(steps[j..i])
    requires Quiet(states[i])
    ensures var s, op := states[i], states[j].nextOp;
      && op in s.ops && s.ops[op].writes == IssuedBy(states, steps, op, i)
      && (s.ops[op].writes != [] ==>
            && s.ops[op].place.InGroup? && s.ops[op].place.i < |s.groups|
            && Of(s.groups[s.ops[op].place.i], op) == s.ops[op].writes)
  {
    var op := states[j].nextOp;
    StillThere(image, nproc, states, steps, j, i);
    RecordIs(image, nproc, states, steps, i, op);
    QuietMeansDurable(image, nproc, states, steps, i);
    RunInv(image, nproc, states, steps, i);
    assert OpOK(states[i], op);
    hide DiskOK, MemOK, ProcOK, Run;
  }

  // ---- progress -------------------------------------------------------------------

  /** Steps a commit or a recovery still has ahead of it. */
  function Ahead(s: Log): nat {
    match s.phase
    case Running => 0
    case Logging(k) => 3 + |s.lh| + if k < |s.lh| then |s.lh| - k else 0
    case Heading => 3 + |s.lh|
    case Installing(k) => 2 + if k < |s.lh| then |s.lh| - k else 0
    case Erasing => 2
    case Finishing => 1
    case Recovering(k) => 2 + if k < |s.lh| then |s.lh| - k else 0
    case RecErasing => 1
  }

  /** Once begun, a commit or a recovery can always go on, and every step of it brings it closer to its end. */
  lemma CommitGoesOn(image: Disk, nproc: nat, states: seq<Log>, steps: seq<Step>, i: nat)
    requires Run(image, nproc, states, steps) && i < |states| && !states[i].phase.Running?
    ensures Enabled(states[i], Commit) && Ahead(Do(states[i], Commit)) < Ahead(states[i]) <= 2 * LOGBLOCKS + 3
  {
    hide Run, Inv;
    RunInv(image, nproc, states, steps, i);
    InvState(states[i], image);
    GoesOn(states[i], image);
  }

  lemma InvState(s: Log, d: Disk)
    requires Inv(s, d)
    ensures DiskOK(s, d) && MemOK(s, d)
  {
  }

  /** Where each phase stands in the list of blocks. */
  predicate InList(s: Log) {
    && |s.lh| <= LOGBLOCKS == |s.slots| && (forall k | 0 <= k < |s.lh| :: s.lh[k] < |s.home|)
    && (s.phase.Logging? || s.phase.Installing? ==> s.phase.k < |s.lh|)
    && (s.phase.Recovering? ==> s.phase.k <= |s.lh|)
  }

  lemma PhaseInList(s: Log, d: Disk)
    requires DiskOK(s, d) && MemOK(s, d)
    ensures InList(s)
  {
    hide Fold, OpenGroup, DistinctNats, GroupsInRange, PinnedFrom, PinsCommitted;
  }

  lemma GoesOn(s: Log, d: Disk)
    requires DiskOK(s, d) && MemOK(s, d) && !s.phase.Running?
    ensures Enabled(s, Commit) && Ahead(Do(s, Commit)) < Ahead(s) <= 2 * LOGBLOCKS + 3
  {
    hide DiskOK, MemOK, View, Moved;
    PhaseInList(s, d);
  }

  /** No one is ever stuck: an operation can end, and one that cannot begin waits for a commit or for another to end. */
  lemma NoDeadlock(image: Disk, nproc: nat, states: seq<Log>, steps: seq<Step>, i: nat, p: nat)
    requires Run(image, nproc, states, steps) && i < |states| && p < |states[i].procs|
    ensures states[i].procs[p].In? ==> Enabled(states[i], End(p))
    ensures states[i].procs[p].Out? ==>
              || Enabled(states[i], Begin(p)) || Enabled(states[i], Commit)
              || exists q :: 0 <= q < |states[i].procs| && Enabled(states[i], End(q))
  {
    RunInv(image, nproc, states, steps, i);
    var s := states[i];
    if s.procs[p].In? {
      NeverPanics(s, p);
    } else if !s.phase.Running? {
      CommitGoesOn(image, nproc, states, steps, i);
    } else {
      hide DiskOK, MemOK, OpOK, Run;
      SumZero(s.procs, Active);
      if q :| 0 <= q < |s.procs| && Active(s.procs[q]) > 0 {
        NeverPanics(s, q);
        assert Enabled(s, End(q));
      }
    }
  }
}
