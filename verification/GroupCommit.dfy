/**
 The kernel's concurrent log as a state machine: any number of processes begin, log and end
 operations; the last one out commits the group one disk write at a time; power may fail
 between any two steps and recovery itself may be cut short.
 */
module GroupCommit {
  import opened Bytes
  import opened CrashDisk

  const MAXOPBLOCKS: nat := 10
  const LOGBLOCKS: nat := 3 * MAXOPBLOCKS

  /** One process: outside, or inside operation `op` having called log_write `calls` times. */
  datatype Proc = Out | In(op: nat, calls: nat)

  /** What the committing (or recovering) thread does next. */
  datatype Phase =
    | Running
    | Logging(k: nat)      // write_log: copy block k to its log slot
    | Heading              // write_head with n > 0: the commit point
    | Installing(k: nat)   // install_trans: copy slot k home
    | Erasing              // write_head with n = 0
    | Finishing            // clear log.committing
    | Recovering(k: nat)   // install_trans(1) after a reboot
    | RecErasing           // the write_head that ends recovery

  datatype Entry = Entry(op: nat, w: Write)

  /** Where an operation's writes ended up. */
  datatype Place = Pending | InGroup(i: nat) | Lost
  datatype OpRecord = OpRecord(writes: seq<Write>, place: Place)

  datatype Log = Log(
    outstanding: nat, committing: bool, lh: seq<nat>,   // the in-memory log
    pinned: map<nat, Block>,                            // buffers pinned by log_write
    head: seq<nat>, slots: seq<Block>, home: Disk,      // the disk
    procs: seq<Proc>, phase: Phase,
    groups: seq<seq<Entry>>, pending: seq<Entry>, ops: map<nat, OpRecord>, nextOp: nat)  // history

  datatype Step =
    | Begin(p: nat)
    | LogWrite(p: nat, b: nat, data: Block)
    | End(p: nat)
    | Commit      // the next step of commit() or recover_from_log()
    | Crash       // power failure, reboot, read_head

  /** What bread returns: the pinned buffer, else the disk block. */
  function View(s: Log, b: nat): Block
    requires b < |s.home|
  {
    if b in s.pinned then s.pinned[b] else s.home[b]
  }

  predicate LogWritePanics(s: Log) {
    |s.lh| >= LOGBLOCKS || s.outstanding < 1
  }

  predicate Enabled(s: Log, step: Step) {
    match step
    case Begin(p) =>
      && p < |s.procs| && s.procs[p].Out? && s.phase.Running? && !s.committing
      && |s.lh| + (s.outstanding + 1) * MAXOPBLOCKS <= LOGBLOCKS
    case LogWrite(p, b, data) =>
      p < |s.procs| && s.procs[p].In? && s.procs[p].calls < MAXOPBLOCKS && b < |s.home| && !LogWritePanics(s)
    case End(p) => p < |s.procs| && s.procs[p].In? && s.outstanding > 0 && !s.committing
    case Commit =>
      (match s.phase
       case Running => false
       case Logging(k) => k < |s.lh| <= |s.slots| && s.lh[k] < |s.home|
       case Installing(k) => k < |s.lh| <= |s.slots| && s.lh[k] < |s.home|
       case Recovering(k) => k <= |s.lh| <= |s.slots| && (k < |s.lh| ==> s.lh[k] < |s.home|)
       case _ => true)
    case Crash => true
  }

  function Moved(ops: map<nat, OpRecord>, place: Place): map<nat, OpRecord> {
    map op | op in ops :: if ops[op].place.Pending? then ops[op].(place := place) else ops[op]
  }

  function Do(s: Log, step: Step): Log
    requires Enabled(s, step)
  {
    match step
    case Begin(p) =>
      s.(outstanding := s.outstanding + 1, procs := s.procs[p := In(s.nextOp, 0)],
         ops := s.ops[s.nextOp := OpRecord([], Pending)], nextOp := s.nextOp + 1)
    case LogWrite(p, b, data) =>
      var In(op, calls) := s.procs[p];
      var rec := if op in s.ops then s.ops[op] else OpRecord([], Pending);
      s.(lh := if b in s.lh then s.lh else s.lh + [b],
         pinned := s.pinned[b := data],
         procs := s.procs[p := In(op, calls + 1)],
         pending := s.pending + [Entry(op, Write(b, data))],
         ops := s.ops[op := rec.(writes := rec.writes + [Write(b, data)])])
    case End(p) =>
      var last := s.outstanding == 1;
      s.(outstanding := s.outstanding - 1, procs := s.procs[p := Out],
         committing := last,
         phase := if !last then s.phase else if |s.lh| > 0 then Logging(0) else Finishing)
    case Commit =>
      (match s.phase
       case Logging(k) =>
         s.(slots := s.slots[k := View(s, s.lh[k])],
            phase := if k + 1 < |s.lh| then Logging(k + 1) else Heading)
       case Heading =>
         s.(head := s.lh, phase := Installing(0),
            groups := s.groups + [s.pending], pending := [], ops := Moved(s.ops, InGroup(|s.groups|)))
       case Installing(k) =>
         var b := s.lh[k];
         if k + 1 < |s.lh|
         then s.(home := s.home[b := s.slots[k]], pinned := s.pinned - {b}, phase := Installing(k + 1))
         else s.(home := s.home[b := s.slots[k]], pinned := s.pinned - {b}, phase := Erasing, lh := [])
       case Erasing => s.(head := [], phase := Finishing)
       case Finishing => s.(committing := false, phase := Running)
       case Recovering(k) =>
         if k < |s.lh|
         then s.(home := s.home[s.lh[k] := s.slots[k]], phase := Recovering(k + 1))
         else s.(lh := [], phase := RecErasing)
       case RecErasing => s.(head := [], phase := Running)
       case Running => s)
    case Crash =>
      s.(outstanding := 0, committing := false, lh := s.head, pinned := map[],
         procs := seq(|s.procs|, _ => Out), phase := Recovering(0),
         pending := [], ops := Moved(s.ops, Lost))
  }

  // ---- reference meaning --------------------------------------------------------

  function Writes(g: seq<Entry>): (ws: seq<Write>)
    ensures |ws| == |g|
  {
    seq(|g|, i requires 0 <= i < |g| => g[i].w)
  }

  predicate GroupsInRange(groups: seq<seq<Entry>>, size: nat) {
    forall i | 0 <= i < |groups| :: InRange(Writes(groups[i]), size)
  }

  /** The disk after a whole number of groups. */
  function Fold(d: Disk, groups: seq<seq<Entry>>): (r: Disk)
    requires GroupsInRange(groups, |d|)
    ensures |r| == |d|
  {
    if groups == [] then d
    else Apply(Fold(d, groups[..|groups| - 1]), Writes(groups[|groups| - 1]))
  }

  /** The writes of one operation, in order. */
  function Of(g: seq<Entry>, op: nat): seq<Write> {
    if g == [] then []
    else
      var e := g[|g| - 1];
      Of(g[..|g| - 1], op) + if e.op == op then [e.w] else []
  }

  /** The disk a complete recovery would produce from what is on the platter now. */
  function RecoveredDisk(home: Disk, head: seq<nat>, slots: seq<Block>): (r: Disk)
    requires |head| <= |slots| && forall k | 0 <= k < |head| :: head[k] < |home|
    ensures |r| == |home|
  {
    if head == [] then home
    else
      var n := |head| - 1;
      RecoveredDisk(home, head[..n], slots)[head[n] := slots[n]]
  }
}
