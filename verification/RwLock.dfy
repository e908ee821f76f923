/**
 The reader-writer lock with a turnstile: any number of threads over three semaphores and a reader count.
 A step is one semaphore operation or one change of the count.
 */
module RwLock {
  import opened Sums

  /** The next thing a thread does. */
  datatype Pc =
    | Idle
    | ReadDoor     // wait turnstile
    | ReadPass     // post turnstile
    | ReadLock     // wait mutex
    | ReadIn       // ++readers, and is it 1
    | ReadFirst    // wait room_empty
    | ReadUnlock   // post mutex
    | Reading
    | DoneLock     // wait mutex
    | DoneOut      // --readers, and is it 0
    | DoneLast     // post room_empty
    | DoneUnlock   // post mutex
    | WriteDoor    // wait turnstile
    | WriteRoom    // wait room_empty
    | Writing
    | WriteOut     // turnstile posted: post room_empty

  datatype State = State(turnstile: nat, mutex: nat, room: nat, readers: nat, ts: seq<Pc>)

  /** An idle thread may start reading or writing; everyone else has one next step. */
  datatype Action = Go | StartRead | StartWrite

  predicate Enabled(s: State, t: nat, a: Action) {
    t < |s.ts| && (a.Go? <==> !s.ts[t].Idle?) &&
    match s.ts[t]
    case ReadDoor => s.turnstile > 0
    case WriteDoor => s.turnstile > 0
    case ReadLock => s.mutex > 0
    case DoneLock => s.mutex > 0
    case ReadFirst => s.room > 0
    case WriteRoom => s.room > 0
    case DoneOut => s.readers > 0
    case _ => true
  }

  function At(s: State, t: nat, pc: Pc): State
    requires t < |s.ts|
  {
    s.(ts := s.ts[t := pc])
  }

  function Do(s: State, t: nat, a: Action): State
    requires Enabled(s, t, a)
  {
    match s.ts[t]
    case Idle => At(s, t, if a.StartRead? then ReadDoor else WriteDoor)
    case ReadDoor => At(s, t, ReadPass).(turnstile := s.turnstile - 1)
    case ReadPass => At(s, t, ReadLock).(turnstile := s.turnstile + 1)
    case ReadLock => At(s, t, ReadIn).(mutex := s.mutex - 1)
    case ReadIn => At(s, t, if s.readers + 1 == 1 then ReadFirst else ReadUnlock).(readers := s.readers + 1)
    case ReadFirst => At(s, t, ReadUnlock).(room := s.room - 1)
    case ReadUnlock => At(s, t, Reading).(mutex := s.mutex + 1)
    case Reading => At(s, t, DoneLock)
    case DoneLock => At(s, t, DoneOut).(mutex := s.mutex - 1)
    case DoneOut => At(s, t, if s.readers - 1 == 0 then DoneLast else DoneUnlock).(readers := s.readers - 1)
    case DoneLast => At(s, t, DoneUnlock).(room := s.room + 1)
    case DoneUnlock => At(s, t, Idle).(mutex := s.mutex + 1)
    case WriteDoor => At(s, t, WriteRoom).(turnstile := s.turnstile - 1)
    case WriteRoom => At(s, t, Writing).(room := s.room - 1)
    case Writing => At(s, t, WriteOut).(turnstile := s.turnstile + 1)
    case WriteOut => At(s, t, Idle).(room := s.room + 1)
  }

  // ---- the invariant --------------------------------------------------------------------------

  predicate InMutex(pc: Pc) {
    pc.ReadIn? || pc.ReadFirst? || pc.ReadUnlock? || pc.DoneOut? || pc.DoneLast? || pc.DoneUnlock?
  }

  predicate Counted(pc: Pc) { pc.ReadFirst? || pc.ReadUnlock? || pc.Reading? || pc.DoneLock? || pc.DoneOut? }

  function DoorTerm(pc: Pc): nat { if pc.ReadPass? || pc.WriteRoom? || pc.Writing? then 1 else 0 }
  function MutexTerm(pc: Pc): nat { if InMutex(pc) then 1 else 0 }
  function ReaderTerm(pc: Pc): nat { if Counted(pc) then 1 else 0 }
  function WriterTerm(pc: Pc): nat { if pc.Writing? || pc.WriteOut? then 1 else 0 }

  ghost predicate SomeoneAt(s: State, pc: Pc) { exists t | 0 <= t < |s.ts| :: s.ts[t] == pc }

  /** The readers between them hold the room: some are in, or the last is just leaving. */
  ghost predicate ReadersHold(s: State) {
    SomeoneAt(s, DoneLast) || (s.readers > 0 && !SomeoneAt(s, ReadFirst))
  }

  ghost predicate Inv(s: State) {
    && s.turnstile + Sum(s.ts, DoorTerm) == 1
    && s.mutex + Sum(s.ts, MutexTerm) == 1
    && s.readers == Sum(s.ts, ReaderTerm)
    && s.room + Sum(s.ts, WriterTerm) + (if ReadersHold(s) then 1 else 0) == 1
    && (SomeoneAt(s, ReadFirst) ==> s.readers == 1)
    && (SomeoneAt(s, DoneLast) ==> s.readers == 0)
  }

  function Init(n: nat): State { State(1, 1, 1, 0, seq(n, _ => Idle)) }

  lemma InitInv(n: nat)
    ensures Inv(Init(n))
  {
    var ts := Init(n).ts;
    SumZero(ts, DoorTerm);
    SumZero(ts, MutexTerm);
    SumZero(ts, ReaderTerm);
    SumZero(ts, WriterTerm);
  }

  lemma OneInMutex(s: State, t: nat, u: nat)
    requires s.mutex + Sum(s.ts, MutexTerm) == 1 && t < |s.ts| && u < |s.ts| && t != u && InMutex(s.ts[t])
    ensures !InMutex(s.ts[u])
  {
    if t < u { SumAtLeastTwo(s.ts, MutexTerm, t, u); } else { SumAtLeastTwo(s.ts, MutexTerm, u, t); }
  }

  /** The thread holding the mutex is the only one that can be in first, or out last. */
  lemma AloneInMutex(s: State, t: nat)
    requires s.mutex + Sum(s.ts, MutexTerm) == 1 && t < |s.ts| && InMutex(s.ts[t])
    ensures forall u | 0 <= u < |s.ts| && u != t :: !InMutex(s.ts[u])
    ensures SomeoneAt(s, ReadFirst) <==> s.ts[t].ReadFirst?
    ensures SomeoneAt(s, DoneLast) <==> s.ts[t].DoneLast?
  {
    hide Sum;
    forall u: nat | u < |s.ts| && u != t ensures !InMutex(s.ts[u]) { OneInMutex(s, t, u); }
  }

  /** The four counts after one step. */
  lemma CountsStep(s: State, t: nat, a: Action)
    requires Inv(s) && Enabled(s, t, a)
    ensures var s' := Do(s, t, a);
      && s'.turnstile + Sum(s'.ts, DoorTerm) == 1 && s'.mutex + Sum(s'.ts, MutexTerm) == 1
      && s'.readers == Sum(s'.ts, ReaderTerm)
      && Sum(s'.ts, WriterTerm) + WriterTerm(s.ts[t]) == Sum(s.ts, WriterTerm) + WriterTerm(s'.ts[t])
  {
    hide Sum;
    var s' := Do(s, t, a);
    assert s'.ts == s.ts[t := s'.ts[t]];
    SumUpdate(s.ts, DoorTerm, t, s'.ts[t]);
    SumUpdate(s.ts, MutexTerm, t, s'.ts[t]);
    SumUpdate(s.ts, ReaderTerm, t, s'.ts[t]);
    SumUpdate(s.ts, WriterTerm, t, s'.ts[t]);
  }

  /** Whoever acts outside the mutex changes neither the count nor who is first in or last out. */
  lemma OutsideStep(s: State, t: nat, a: Action)
    requires Inv(s) && Enabled(s, t, a) && !InMutex(s.ts[t])
    ensures var s' := Do(s, t, a);
      && (SomeoneAt(s', ReadFirst) <==> SomeoneAt(s, ReadFirst))
      && (SomeoneAt(s', DoneLast) <==> SomeoneAt(s, DoneLast))
      && s'.readers == s.readers
  {
    hide Sum, Inv;
    var s' := Do(s, t, a);
    assert s'.ts == s.ts[t := s'.ts[t]];
    forall pc | pc == ReadFirst || pc == DoneLast ensures SomeoneAt(s', pc) <==> SomeoneAt(s, pc) {
      if SomeoneAt(s, pc) { var u :| 0 <= u < |s.ts| && s.ts[u] == pc; assert s'.ts[u] == pc; }
      if SomeoneAt(s', pc) { var u :| 0 <= u < |s'.ts| && s'.ts[u] == pc; assert s.ts[u] == pc; }
    }
  }

  lemma InvStep(s: State, t: nat, a: Action)
    requires Inv(s) && Enabled(s, t, a)
    ensures Inv(Do(s, t, a))
  {
    hide Sum;
    CountsStep(s, t, a);
    var s' := Do(s, t, a);
    if InMutex(s.ts[t]) {
      AloneInMutex(s, t);
      InsideStep(s, t, a);
    } else {
      OutsideStep(s, t, a);
    }
  }

  lemma InsideStep(s: State, t: nat, a: Action)
    requires Inv(s) && Enabled(s, t, a) && InMutex(s.ts[t])
    requires forall u | 0 <= u < |s.ts| && u != t :: !InMutex(s.ts[u])
    ensures var s' := Do(s, t, a);
      && (SomeoneAt(s', ReadFirst) <==> s'.ts[t].ReadFirst?) && (SomeoneAt(s', DoneLast) <==> s'.ts[t].DoneLast?)
  {
    hide Sum, Inv;
    var s' := Do(s, t, a);
    assert s'.ts == s.ts[t := s'.ts[t]];
  }

  ghost predicate Run(n: nat, states: seq<State>, who: seq<nat>, what: seq<Action>) {
    && |states| == |who| + 1 && |what| == |who| && states[0] == Init(n)
    && forall i | 0 <= i < |who| ::
         Enabled(states[i], who[i], what[i]) && states[i + 1] == Do(states[i], who[i], what[i])
  }

  lemma {:induction false} RunInv(n: nat, states: seq<State>, who: seq<nat>, what: seq<Action>, i: nat)
    requires Run(n, states, who, what) && i < |states|
    ensures Inv(states[i])
  {
    if i == 0 {
      InitInv(n);
    } else {
      RunInv(n, states, who, what, i - 1);
      hide Inv;
      InvStep(states[i - 1], who[i - 1], what[i - 1]);
      assert states[i - 1 + 1] == Do(states[i - 1], who[i - 1], what[i - 1]);
    }
  }

  /** A writer is alone: no other writer and no reader is inside with it. */
  lemma WriterAlone(n: nat, states: seq<State>, who: seq<nat>, what: seq<Action>, i: nat, t: nat, u: nat)
    requires Run(n, states, who, what) && i < |states| && t < |states[i].ts| && u < |states[i].ts| && t != u
    requires states[i].ts[t].Writing?
    ensures !states[i].ts[u].Writing? && !states[i].ts[u].Reading?
  {
    RunInv(n, states, who, what, i);
    var s := states[i];
    hide Sum, Run;
    if t < u { SumAtLeastTwo(s.ts, WriterTerm, t, u); } else { SumAtLeastTwo(s.ts, WriterTerm, u, t); }
    SumAtLeast(s.ts, WriterTerm, t);
    SumAtLeast(s.ts, ReaderTerm, u);
    if s.ts[u].Reading? && SomeoneAt(s, ReadFirst) {
      var v: nat :| v < |s.ts| && s.ts[v].ReadFirst?;
      if u < v { SumAtLeastTwo(s.ts, ReaderTerm, u, v); } else { SumAtLeastTwo(s.ts, ReaderTerm, v, u); }
    }
  }

  /** Past the door, or able to be inside without passing it again. */
  predicate PastDoor(pc: Pc) {
    !(pc.Idle? || pc.ReadDoor? || pc.WriteDoor?)
  }

  /**
   While a writer waits for the room, or works, nobody else gets past the door: it runs after at most
   the readers already past it.
   */
  lemma DoorShut(n: nat, states: seq<State>, who: seq<nat>, what: seq<Action>, i: nat, t: nat, u: nat)
    requires Run(n, states, who, what) && i + 1 < |states| && t < |states[i].ts| && u < |states[i].ts|
    requires states[i].ts[t].WriteRoom? || states[i].ts[t].Writing?
    ensures u < |states[i + 1].ts|
    ensures PastDoor(states[i + 1].ts[u]) ==> PastDoor(states[i].ts[u])
  {
    RunInv(n, states, who, what, i);
    hide Sum;
    SumAtLeast(states[i].ts, DoorTerm, t);
    assert states[i + 1] == Do(states[i], who[i], what[i]);
  }

  /** Someone can always move unless everyone is idle. */
  lemma NoDeadlock(n: nat, states: seq<State>, who: seq<nat>, what: seq<Action>, i: nat)
    requires Run(n, states, who, what) && i < |states|
    ensures (exists t: nat :: t < |states[i].ts| && !states[i].ts[t].Idle?) ==>
              exists t: nat :: Enabled(states[i], t, Go)
  {
    RunInv(n, states, who, what, i);
    hide Run;
    if t: nat :| t < |states[i].ts| && !states[i].ts[t].Idle? {
      SomeoneMoves(states[i], t);
    }
  }

  ghost predicate Moves(s: State) { exists t: nat :: Enabled(s, t, Go) }

  /** A thread kept out of the room waits for someone who can move. */
  lemma RoomMoves(s: State)
    requires Inv(s) && s.room == 0
    ensures Moves(s)
  {
    hide Sum;
    SumZero(s.ts, WriterTerm);
    if Sum(s.ts, WriterTerm) > 0 {
      var t: nat :| t < |s.ts| && WriterTerm(s.ts[t]) > 0;
      assert Enabled(s, t, Go);
    } else if SomeoneAt(s, DoneLast) {
      var t: nat :| t < |s.ts| && s.ts[t].DoneLast?;
      assert Enabled(s, t, Go);
    } else {
      SumZero(s.ts, ReaderTerm);
      var t: nat :| t < |s.ts| && ReaderTerm(s.ts[t]) > 0;
      if s.ts[t].DoneLock? && s.mutex == 0 { MutexMoves(s, false); } else { assert Enabled(s, t, Go); }
    }
  }

  /** The holder of the mutex can move, or waits for the room. */
  lemma MutexMoves(s: State, free: bool)
    requires Inv(s) && s.mutex == 0 && (free || !SomeoneAt(s, ReadFirst))
    requires free ==> s.room > 0
    ensures Moves(s)
  {
    hide Sum;
    SumZero(s.ts, MutexTerm);
    var t: nat :| t < |s.ts| && MutexTerm(s.ts[t]) > 0;
    SumAtLeast(s.ts, ReaderTerm, t);
    assert !s.ts[t].ReadFirst? || free;
    assert Enabled(s, t, Go);
  }

  lemma SomeoneMoves(s: State, t: nat)
    requires Inv(s) && t < |s.ts| && !s.ts[t].Idle?
    ensures Moves(s)
  {
    hide Sum;
    if s.room == 0 {
      RoomMoves(s);
    } else if s.mutex == 0 {
      MutexMoves(s, true);
    } else if s.turnstile == 0 {
      SumZero(s.ts, DoorTerm);
      var u: nat :| u < |s.ts| && DoorTerm(s.ts[u]) > 0;
      assert Enabled(s, u, Go);
    } else {
      SumAtLeast(s.ts, ReaderTerm, t);
      assert Enabled(s, t, Go);
    }
  }

  // ---- everyone gets in and out -----------------------------------------------------------------

  /** Own steps a thread still has ahead of it before it is idle again. */
  function Left(pc: Pc): nat {
    match pc
    case Idle => 0
    case ReadDoor => 11
    case ReadPass => 10
    case ReadLock => 9
    case ReadIn => 8
    case ReadFirst => 7
    case ReadUnlock => 6
    case Reading => 5
    case DoneLock => 4
    case DoneOut => 3
    case DoneLast => 2
    case DoneUnlock => 1
    case WriteDoor => 4
    case WriteRoom => 3
    case Writing => 2
    case WriteOut => 1
  }

  lemma WorkFalls(s: State, t: nat)
    requires Enabled(s, t, Go)
    ensures |Do(s, t, Go).ts| == |s.ts| && Sum(Do(s, t, Go).ts, Left) < Sum(s.ts, Left)
  {
    hide Sum;
    SumUpdate(s.ts, Left, t, Do(s, t, Go).ts[t]);
    assert Do(s, t, Go).ts == s.ts[t := Do(s, t, Go).ts[t]];
  }

  /** A schedule in which nobody starts anything new. */
  ghost predicate Onward(states: seq<State>, who: seq<nat>) {
    && |states| == |who| + 1
    && forall i | 0 <= i < |who| :: Enabled(states[i], who[i], Go) && states[i + 1] == Do(states[i], who[i], Go)
  }

  lemma {:induction false} OnwardBounded(states: seq<State>, who: seq<nat>)
    requires Onward(states, who) && Inv(states[0])
    ensures |who| + Sum(states[|who|].ts, Left) <= Sum(states[0].ts, Left)
    ensures Inv(states[|who|]) && |states[|who|].ts| == |states[0].ts|
    decreases |who|
  {
    hide Inv, Sum;
    if who != [] {
      var n := |who| - 1;
      OnwardBounded(states[..n + 1], who[..n]);
      assert states[n + 1] == Do(states[n], who[n], Go);
      WorkFalls(states[n], who[n]);
      InvStep(states[n], who[n], Go);
    }
  }

  lemma {:induction false} LeftBounded(ts: seq<Pc>)
    ensures Sum(ts, Left) <= 11 * |ts|
  {
    if ts != [] { LeftBounded(ts[1..]); }
  }

  /**
   From every reachable state, whatever the schedule, all readers and writers get through: no schedule without new
   calls is longer than eleven steps each, and where it can go no further everybody is idle.
   */
  lemma EveryScheduleServes(n: nat, states: seq<State>, who: seq<nat>, what: seq<Action>, i: nat,
                            more: seq<State>, next: seq<nat>)
    requires Run(n, states, who, what) && i < |states| && Onward(more, next) && more[0] == states[i]
    ensures |next| <= 11 * |states[i].ts|
    ensures !Moves(more[|next|]) ==> forall t | 0 <= t < |more[|next|].ts| :: more[|next|].ts[t].Idle?
  {
    RunInv(n, states, who, what, i);
    hide Inv, Sum, Run;
    OnwardBounded(more, next);
    LeftBounded(states[i].ts);
    var s := more[|next|];
    if t: nat :| t < |s.ts| && !s.ts[t].Idle? { SomeoneMoves(s, t); }
  }

  predicate ToRead(pc: Pc) {
    pc.ReadDoor? || pc.ReadPass? || pc.ReadLock? || pc.ReadIn? || pc.ReadFirst? || pc.ReadUnlock?
  }

  predicate ToWrite(pc: Pc) { pc.WriteDoor? || pc.WriteRoom? }

  /** Between coming to the door to read, or to write, and being idle again lies the reading, or the writing. */
  lemma {:induction false} WorksBetween(n: nat, states: seq<State>, who: seq<nat>, what: seq<Action>,
                                        i: nat, j: nat, t: nat)
    requires Run(n, states, who, what) && i <= j < |states|
    requires forall k | i <= k <= j :: t < |states[k].ts| && !states[k].ts[t].Reading? && !states[k].ts[t].Writing?
    ensures ToRead(states[i].ts[t]) ==> ToRead(states[j].ts[t])
    ensures ToWrite(states[i].ts[t]) ==> ToWrite(states[j].ts[t])
    decreases j - i
  {
    if i < j {
      WorksBetween(n, states, who, what, i, j - 1, t);
      assert states[j - 1 + 1] == Do(states[j - 1], who[j - 1], what[j - 1]);
      assert t < |states[j].ts| && !states[j].ts[t].Reading? && !states[j].ts[t].Writing?;
    }
  }

  /** The first k threads are reading, and nobody else has come. */
  ghost predicate Sharing(s: State, n: nat, k: nat) {
    && k <= n == |s.ts| && s.turnstile == 1 && s.mutex == 1 && s.room == (if k == 0 then 1 else 0) && s.readers == k
    && forall t | 0 <= t < n :: s.ts[t] == if t < k then Reading else Idle
  }

  lemma RunMore(n: nat, states: seq<State>, who: seq<nat>, what: seq<Action>, t: nat, a: Action)
    requires Run(n, states, who, what) && Enabled(states[|who|], t, a)
    ensures Run(n, states + [Do(states[|who|], t, a)], who + [t], what + [a])
  {
  }

  /** Readers share the lock: any number of threads can read at the same time. */
  lemma {:induction false} ReadersShare(n: nat, k: nat) returns (states: seq<State>, who: seq<nat>, what: seq<Action>)
    requires k <= n
    ensures Run(n, states, who, what) && Sharing(states[|who|], n, k)
  {
    if k == 0 {
      states, who, what := [Init(n)], [], [];
    } else {
      states, who, what := ReadersShare(n, k - 1);
      states, who, what := OneMore(n, states, who, what, k - 1);
    }
  }

  lemma OneMore(n: nat, states: seq<State>, who: seq<nat>, what: seq<Action>, k: nat)
      returns (states': seq<State>, who': seq<nat>, what': seq<Action>)
    requires Run(n, states, who, what) && Sharing(states[|who|], n, k) && k < n
    ensures Run(n, states', who', what') && Sharing(states'[|who'|], n, k + 1)
  {
    hide Run;
    RunShape(n, states, who, what);
    var s := states[|who|];
    states', who', what' := Steps(n, states, who, what, k, StartRead, At(s, k, ReadDoor));
    states', who', what' := Steps(n, states', who', what', k, Go, At(s, k, ReadPass).(turnstile := 0));
    states', who', what' := Steps(n, states', who', what', k, Go, At(s, k, ReadLock));
    states', who', what' := Steps(n, states', who', what', k, Go, At(s, k, ReadIn).(mutex := 0));
    var counted := At(s, k, if k == 0 then ReadFirst else ReadUnlock).(mutex := 0, readers := k + 1);
    states', who', what' := Steps(n, states', who', what', k, Go, counted);
    if k == 0 {
      states', who', what' := Steps(n, states', who', what', k, Go, At(counted, k, ReadUnlock).(room := 0));
    }
    states', who', what' := Steps(n, states', who', what', k, Go, At(counted, k, Reading).(mutex := 1, room := 0));
  }

  lemma RunShape(n: nat, states: seq<State>, who: seq<nat>, what: seq<Action>)
    requires Run(n, states, who, what)
    ensures |states| == |who| + 1
  {
  }

  lemma Steps(n: nat, states: seq<State>, who: seq<nat>, what: seq<Action>, t: nat, a: Action, s: State)
      returns (states': seq<State>, who': seq<nat>, what': seq<Action>)
    requires Run(n, states, who, what) && Enabled(states[|who|], t, a) && Do(states[|who|], t, a) == s
    ensures Run(n, states', who', what') && states'[|who'|] == s
  {
    RunMore(n, states, who, what, t, a);
    states', who', what' := states + [s], who + [t], what + [a];
  }

  /** And a writer can have it. */
  lemma CanWrite(n: nat, t: nat) returns (states: seq<State>)
    requires t < n
    ensures Run(n, states, [t, t, t], [StartWrite, Go, Go]) && t < |states[3].ts| && states[3].ts[t].Writing?
  {
    var s0 := Init(n);
    var s1 := Do(s0, t, StartWrite);
    var s2 := Do(s1, t, Go);
    states := [s0, s1, s2, Do(s2, t, Go)];
  }
}
