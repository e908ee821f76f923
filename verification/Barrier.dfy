/**
 The two-turnstile reusable barrier for n threads and any number of rounds. A step is one
 semaphore operation or one change of the arrival counter.
 */
module Barrier {
  import opened Sums

  /** The next thing a thread does in mbarrier_wait. */
  datatype Pc =
    | Out        // between calls
    | Lock1      // wait mutex
    | Inc        // ++arrived, and is it n
    | ShutB      // wait gate_b
    | OpenA      // post gate_a
    | Unlock1    // post mutex
    | TurnA      // wait gate_a
    | PassA      // post gate_a
    | Lock2      // wait mutex
    | Dec        // --arrived, and is it 0
    | ShutA      // wait gate_a
    | OpenB      // post gate_b
    | Unlock2    // post mutex
    | TurnB      // wait gate_b
    | PassB      // post gate_b

  /** A thread and the number of calls it has returned from. */
  datatype Thread = Thread(pc: Pc, rounds: nat)

  /** Filling, then briefly between gates, then draining, then briefly between gates again. */
  datatype Mode = Filling | Closing | Draining | Reopening

  datatype State = State(
    mutex: nat, gateA: nat, gateB: nat, arrived: nat, ts: seq<Thread>,
    mode: Mode, epoch: nat)   // history: which half of which round the barrier is in

  predicate Enabled(s: State, t: nat) {
    t < |s.ts| &&
    match s.ts[t].pc
    case Lock1 => s.mutex > 0
    case Lock2 => s.mutex > 0
    case ShutB => s.gateB > 0
    case TurnB => s.gateB > 0
    case ShutA => s.gateA > 0
    case TurnA => s.gateA > 0
    case Dec => s.arrived > 0
    case _ => true
  }

  function At(s: State, t: nat, pc: Pc): State
    requires t < |s.ts|
  {
    s.(ts := s.ts[t := Thread(pc, s.ts[t].rounds)])
  }

  function Do(s: State, t: nat): State
    requires Enabled(s, t)
  {
    match s.ts[t].pc
    case Out => At(s, t, Lock1)
    case Lock1 => At(s, t, Inc).(mutex := s.mutex - 1)
    case Inc => At(s, t, if s.arrived + 1 == |s.ts| then ShutB else Unlock1).(arrived := s.arrived + 1)
    case ShutB => At(s, t, OpenA).(gateB := s.gateB - 1, mode := Closing)
    case OpenA => At(s, t, Unlock1).(gateA := s.gateA + 1, mode := Draining)
    case Unlock1 => At(s, t, TurnA).(mutex := s.mutex + 1)
    case TurnA => At(s, t, PassA).(gateA := s.gateA - 1)
    case PassA => At(s, t, Lock2).(gateA := s.gateA + 1)
    case Lock2 => At(s, t, Dec).(mutex := s.mutex - 1)
    case Dec => At(s, t, if s.arrived - 1 == 0 then ShutA else Unlock2).(arrived := s.arrived - 1)
    case ShutA => At(s, t, OpenB).(gateA := s.gateA - 1, mode := Reopening)
    case OpenB => At(s, t, Unlock2).(gateB := s.gateB + 1, mode := Filling, epoch := s.epoch + 1)
    case Unlock2 => At(s, t, TurnB).(mutex := s.mutex + 1)
    case TurnB => At(s, t, PassB).(gateB := s.gateB - 1)
    case PassB =>
      s.(ts := s.ts[t := Thread(Out, s.ts[t].rounds + 1)], gateB := s.gateB + 1)
  }

  // ---- the invariant ----------------------------------------------------------

  predicate InMutex(pc: Pc) {
    pc.Inc? || pc.ShutB? || pc.OpenA? || pc.Unlock1? || pc.Dec? || pc.ShutA? || pc.OpenB? || pc.Unlock2?
  }

  /** The steps at which the counter or a gate may reach a turning point. */
  predicate Turning(pc: Pc) {
    pc.Inc? || pc.ShutB? || pc.OpenA? || pc.Dec? || pc.ShutA? || pc.OpenB?
  }

  predicate PastTurnstileOne(pc: Pc) {
    pc.PassA? || pc.Lock2? || pc.Dec? || pc.ShutA?
  }

  predicate Arrived(pc: Pc) {
    pc.ShutB? || pc.OpenA? || pc.Unlock1? || pc.TurnA? || pc.PassA? || pc.Lock2? || pc.Dec?
  }

  function MutexTerm(t: Thread): nat { if InMutex(t.pc) then 1 else 0 }
  function ArrivedTerm(t: Thread): nat { if Arrived(t.pc) then 1 else 0 }
  function PassATerm(t: Thread): nat { if t.pc == PassA then 1 else 0 }
  function PassBTerm(t: Thread): nat { if t.pc == PassB then 1 else 0 }

  /** Where thread t may be, and how many calls it has finished, in each mode of epoch e. */
  predicate Placed(t: Thread, mode: Mode, e: nat) {
    match mode
    case Filling =>
      if (t.pc.Out? || t.pc.Lock1? || t.pc.Inc? || t.pc.ShutB? || t.pc.Unlock1? || t.pc.TurnA?) then t.rounds == e
      else (t.pc.Unlock2? || t.pc.TurnB? || t.pc.PassB?) && t.rounds + 1 == e
    case Closing => (t.pc.OpenA? || t.pc.TurnA?) && t.rounds == e
    case Draining =>
      && (t.pc.Unlock1? || t.pc.TurnA? || t.pc.PassA? || t.pc.Lock2? || t.pc.Dec? || t.pc.ShutA?
          || t.pc.Unlock2? || t.pc.TurnB?)
      && t.rounds == e
    case Reopening => (t.pc.OpenB? || t.pc.TurnB?) && t.rounds == e
  }

  ghost predicate Inv(s: State) {
    && |s.ts| >= 1
    && s.mutex + Sum(s.ts, MutexTerm) == 1
    && s.arrived == Sum(s.ts, ArrivedTerm)
    && s.gateA + Sum(s.ts, PassATerm) == (if s.mode.Draining? then 1 else 0)
    && s.gateB + Sum(s.ts, PassBTerm) == (if s.mode.Filling? then 1 else 0)
    && (forall t | 0 <= t < |s.ts| :: Placed(s.ts[t], s.mode, s.epoch))
    && (forall t | 0 <= t < |s.ts| && s.ts[t].pc == ShutB :: s.arrived == |s.ts|)
    && (forall t | 0 <= t < |s.ts| && s.ts[t].pc == ShutA :: s.arrived == 0)
    && (s.mode.Closing? ==> exists t | 0 <= t < |s.ts| :: s.ts[t].pc == OpenA)
    && (s.mode.Reopening? ==> exists t | 0 <= t < |s.ts| :: s.ts[t].pc == OpenB)
    && (s.mode.Filling? && s.arrived == |s.ts| ==> exists t | 0 <= t < |s.ts| :: s.ts[t].pc == ShutB)
    && (s.mode.Draining? && s.arrived == 0 ==> exists t | 0 <= t < |s.ts| :: s.ts[t].pc == ShutA)
  }

  function Init(n: nat): State {
    State(1, 0, 1, 0, seq(n, _ => Thread(Out, 0)), Filling, 0)
  }

  lemma InitInv(n: nat)
    requires n >= 1
    ensures Inv(Init(n))
  {
    var ts := Init(n).ts;
    SumZero(ts, MutexTerm);
    SumZero(ts, ArrivedTerm);
    SumZero(ts, PassATerm);
    SumZero(ts, PassBTerm);
  }

  /** Only one thread is between a wait and a post of the mutex. */
  lemma OneInMutex(s: State, t: nat, u: nat)
    requires s.mutex + Sum(s.ts, MutexTerm) == 1
    requires t < |s.ts| && u < |s.ts| && t != u && InMutex(s.ts[t].pc)
    ensures !InMutex(s.ts[u].pc) && s.mutex == 0
  {
    SumAtLeastTwo(s.ts, MutexTerm, if t < u then t else u, if t < u then u else t);
  }

  lemma InvSums(s: State)
    requires Inv(s)
    ensures s.mutex + Sum(s.ts, MutexTerm) == 1 && s.arrived == Sum(s.ts, ArrivedTerm)
    ensures s.gateA + Sum(s.ts, PassATerm) == (if s.mode.Draining? then 1 else 0)
    ensures s.gateB + Sum(s.ts, PassBTerm) == (if s.mode.Filling? then 1 else 0)
    ensures forall t | 0 <= t < |s.ts| :: Placed(s.ts[t], s.mode, s.epoch)
  {
  }

  /** The mutex and the counter after one step. */
  lemma CounterStep(s: State, t: nat)
    requires Inv(s) && Enabled(s, t)
    ensures Do(s, t).mutex + Sum(Do(s, t).ts, MutexTerm) == 1
    ensures Do(s, t).arrived == Sum(Do(s, t).ts, ArrivedTerm)
  {
    hide Sum, Placed, Inv;
    InvSums(s);
    SumUpdate(s.ts, MutexTerm, t, Do(s, t).ts[t]);
    SumUpdate(s.ts, ArrivedTerm, t, Do(s, t).ts[t]);
    assert Do(s, t).ts == s.ts[t := Do(s, t).ts[t]];
  }

  /** Each gate is open exactly in its own mode, counting the thread walking through it. */
  lemma GateStep(s: State, t: nat)
    requires Inv(s) && Enabled(s, t)
    ensures var s' := Do(s, t);
      && s'.gateA + Sum(s'.ts, PassATerm) == (if s'.mode.Draining? then 1 else 0)
      && s'.gateB + Sum(s'.ts, PassBTerm) == (if s'.mode.Filling? then 1 else 0)
  {
    hide Sum, Inv;
    InvSums(s);
    assert Placed(s.ts[t], s.mode, s.epoch);
    SumUpdate(s.ts, PassATerm, t, Do(s, t).ts[t]);
    SumUpdate(s.ts, PassBTerm, t, Do(s, t).ts[t]);
    assert Do(s, t).ts == s.ts[t := Do(s, t).ts[t]];
  }

  /** When the last thread has arrived, everyone else waits at the first turnstile. */
  lemma AllAtTurnA(s: State, t: nat)
    requires Inv(s) && t < |s.ts| && s.ts[t].pc == ShutB
    ensures s.gateB == 1
    ensures forall u | 0 <= u < |s.ts| && u != t :: s.ts[u].pc == TurnA
  {
    CountAll(s.ts, ArrivedTerm);
    SumZero(s.ts, PassBTerm);
    forall u | 0 <= u < |s.ts| && u != t ensures s.ts[u].pc == TurnA {
      OneInMutex(s, t, u);
      assert ArrivedTerm(s.ts[u]) == 1 && Placed(s.ts[u], s.mode, s.epoch) && Placed(s.ts[t], s.mode, s.epoch);
    }
  }

  /** When the last thread has left, everyone else waits at the second turnstile. */
  lemma AllAtTurnB(s: State, t: nat)
    requires Inv(s) && t < |s.ts| && s.ts[t].pc == ShutA
    ensures s.gateA == 1
    ensures forall u | 0 <= u < |s.ts| && u != t :: s.ts[u].pc == TurnB
  {
    SumZero(s.ts, ArrivedTerm);
    SumZero(s.ts, PassATerm);
    forall u | 0 <= u < |s.ts| && u != t ensures s.ts[u].pc == TurnB {
      OneInMutex(s, t, u);
      assert ArrivedTerm(s.ts[u]) == 0 && Placed(s.ts[u], s.mode, s.epoch) && Placed(s.ts[t], s.mode, s.epoch);
    }
  }

  lemma PlaceStep(s: State, t: nat)
    requires Inv(s) && Enabled(s, t)
    ensures forall u | 0 <= u < |s.ts| :: Placed(Do(s, t).ts[u], Do(s, t).mode, Do(s, t).epoch)
  {
    var s' := Do(s, t);
    if s.ts[t].pc == ShutB { AllAtTurnA(s, t); }
    if s.ts[t].pc == ShutA { AllAtTurnB(s, t); }
    if s.mode.Closing? || s.mode.Reopening? {
      var h :| 0 <= h < |s.ts| && s.ts[h].pc == if s.mode.Closing? then OpenA else OpenB;
      forall u | 0 <= u < |s.ts| && u != h ensures !InMutex(s.ts[u].pc) { OneInMutex(s, h, u); }
    }
    if s.ts[t].pc == TurnA { SumAtLeast(s.ts, PassATerm, t); }
    forall u | 0 <= u < |s.ts| ensures Placed(s'.ts[u], s'.mode, s'.epoch) {
      assert Placed(s.ts[u], s.mode, s.epoch);
      assert Placed(s.ts[t], s.mode, s.epoch);
    }
  }

  /** A thread shutting a gate knows everyone has arrived, or everyone has left. */
  lemma ShutStep(s: State, t: nat)
    requires Inv(s) && Enabled(s, t)
    ensures var s' := Do(s, t);
      && (forall u | 0 <= u < |s'.ts| && s'.ts[u].pc == ShutB :: s'.arrived == |s'.ts|)
      && (forall u | 0 <= u < |s'.ts| && s'.ts[u].pc == ShutA :: s'.arrived == 0)
  {
    assert Placed(s.ts[t], s.mode, s.epoch);
    hide Sum, Placed;
    if InMutex(s.ts[t].pc) {
      forall u | 0 <= u < |s.ts| && u != t ensures !InMutex(s.ts[u].pc) { OneInMutex(s, t, u); }
    }
  }

  /** Whenever the counter or the gates are at a turning point, the thread that will turn them exists. */
  lemma WitnessStep(s: State, t: nat)
    requires Inv(s) && Enabled(s, t)
    ensures var s' := Do(s, t);
      && (s'.mode.Closing? ==> exists u | 0 <= u < |s'.ts| :: s'.ts[u].pc == OpenA)
      && (s'.mode.Reopening? ==> exists u | 0 <= u < |s'.ts| :: s'.ts[u].pc == OpenB)
      && (s'.mode.Filling? && s'.arrived == |s'.ts| ==> exists u | 0 <= u < |s'.ts| :: s'.ts[u].pc == ShutB)
      && (s'.mode.Draining? && s'.arrived == 0 ==> exists u | 0 <= u < |s'.ts| :: s'.ts[u].pc == ShutA)
  {
    var s' := Do(s, t);
    assert Placed(s.ts[t], s.mode, s.epoch);
    CountAll(s.ts, ArrivedTerm);
    SumAtLeast(s.ts, ArrivedTerm, t);
    hide Sum, Placed;
    if Turning(s.ts[t].pc) {
      assert s'.ts[t].pc != s.ts[t].pc;
    } else {
      forall u | 0 <= u < |s.ts| && Turning(s.ts[u].pc) ensures s'.ts[u] == s.ts[u] { }
    }
  }

  lemma InvStep(s: State, t: nat)
    requires Inv(s) && Enabled(s, t)
    ensures Inv(Do(s, t))
  {
    CounterStep(s, t);
    GateStep(s, t);
    PlaceStep(s, t);
    ShutStep(s, t);
    WitnessStep(s, t);
    hide Sum, Placed;
  }

  ghost predicate Run(n: nat, states: seq<State>, who: seq<nat>) {
    && n >= 1 && |states| == |who| + 1 && states[0] == Init(n)
    && forall i | 0 <= i < |who| :: Enabled(states[i], who[i]) && states[i + 1] == Do(states[i], who[i])
  }

  lemma {:induction false} RunInv(n: nat, states: seq<State>, who: seq<nat>, i: nat)
    requires Run(n, states, who) && i < |states|
    ensures Inv(states[i]) && |states[i].ts| == n
  {
    hide Inv;
    if i == 0 {
      InitInv(n);
    } else {
      RunInv(n, states, who, i - 1);
      InvStep(states[i - 1], who[i - 1]);
    }
  }

  /** Calls a thread has started. */
  function Entered(t: Thread): nat { if t.pc.Out? then t.rounds else t.rounds + 1 }

  /** No thread has returned from its r-th call before every thread has entered its own r-th call. */
  lemma NobodyLeavesEarly(n: nat, states: seq<State>, who: seq<nat>, i: nat, t: nat, u: nat)
    requires Run(n, states, who) && i < |states| && t < n && u < n
    ensures |states[i].ts| == n && states[i].ts[t].rounds <= Entered(states[i].ts[u])
  {
    RunInv(n, states, who, i);
    var s := states[i];
    assert Placed(s.ts[t], s.mode, s.epoch) && Placed(s.ts[u], s.mode, s.epoch);
  }

  /** A thread past the first turnstile has all n threads inside the same call: nobody laps. */
  lemma NobodyLaps(n: nat, states: seq<State>, who: seq<nat>, i: nat, t: nat, u: nat)
    requires Run(n, states, who) && i < |states| && t < n && u < n
    requires |states[i].ts| == n && PastTurnstileOne(states[i].ts[t].pc)
    ensures !states[i].ts[u].pc.Out? && states[i].ts[u].rounds == states[i].ts[t].rounds
  {
    RunInv(n, states, who, i);
    var s := states[i];
    assert Placed(s.ts[t], s.mode, s.epoch) && Placed(s.ts[u], s.mode, s.epoch);
  }

  /** Every thread inside a call waits at the first turnstile, for thread t, which has yet to make that call. */
  predicate WaitingFor(s: State, t: nat) {
    && t < |s.ts| && s.ts[t].pc.Out?
    && forall v | 0 <= v < |s.ts| && !s.ts[v].pc.Out? ::
         s.ts[v].pc.TurnA? && s.ts[v].rounds == s.ts[t].rounds
  }

  /** A thread inside can step, or all of them wait for a thread that is outside. */
  lemma SomeoneCanStep(s: State) returns (t: nat)
    requires Inv(s) && exists u | 0 <= u < |s.ts| :: !s.ts[u].pc.Out?
    ensures (Enabled(s, t) && !s.ts[t].pc.Out?) || WaitingFor(s, t)
  {
    if u :| 0 <= u < |s.ts| && InMutex(s.ts[u].pc) {
      t := u;
      if s.ts[u].pc == ShutB { AllAtTurnA(s, u); }
      if s.ts[u].pc == ShutA { AllAtTurnB(s, u); }
      if s.ts[u].pc == Dec { SumAtLeast(s.ts, ArrivedTerm, u); }
    } else {
      SumZero(s.ts, MutexTerm);
      if u :| 0 <= u < |s.ts| && (s.ts[u].pc.Lock1? || s.ts[u].pc.Lock2? || s.ts[u].pc.PassA? || s.ts[u].pc.PassB?) {
        t := u;
      } else {
        t := TurnstileOpen(s);
      }
    }
  }

  /**
   No deadlock: while any thread is inside a call, some thread inside can step, or all threads inside
   are at the first turnstile and some thread has yet to make the call they are in.
   */
  lemma NoDeadlock(n: nat, states: seq<State>, who: seq<nat>, i: nat) returns (t: nat)
    requires Run(n, states, who) && i < |states|
    requires exists u | 0 <= u < |states[i].ts| :: !states[i].ts[u].pc.Out?
    ensures (Enabled(states[i], t) && !states[i].ts[t].pc.Out?) || WaitingFor(states[i], t)
  {
    RunInv(n, states, who, i);
    t := SomeoneCanStep(states[i]);
  }

  /** With everyone inside at a turnstile, the gate that matters is open or somebody is still to come. */
  lemma TurnstileOpen(s: State) returns (t: nat)
    requires Inv(s) && forall u | 0 <= u < |s.ts| :: (s.ts[u].pc.Out? || s.ts[u].pc.TurnA? || s.ts[u].pc.TurnB?)
    ensures (Enabled(s, t) && !s.ts[t].pc.Out?) || WaitingFor(s, t)
  {
    SumZero(s.ts, PassATerm);
    SumZero(s.ts, PassBTerm);
    SumZero(s.ts, ArrivedTerm);
    AllArrived(s.ts);
    if u :| 0 <= u < |s.ts| && s.ts[u].pc == if s.mode.Filling? then TurnB else TurnA {
      t := u;
    } else if u :| 0 <= u < |s.ts| && s.ts[u].pc.Out? {
      t := u;
      assert Placed(s.ts[u], s.mode, s.epoch);
      forall v | 0 <= v < |s.ts| && !s.ts[v].pc.Out?
        ensures s.ts[v].pc.TurnA? && s.ts[v].rounds == s.ts[t].rounds
      {
        assert Placed(s.ts[v], s.mode, s.epoch);
      }
    } else {
      assert false;
    }
  }

  lemma {:induction false} AllArrived(ts: seq<Thread>)
    ensures (forall u | 0 <= u < |ts| :: Arrived(ts[u].pc)) ==> Sum(ts, ArrivedTerm) == |ts|
  {
    if ts != [] {
      AllArrived(ts[1..]);
    }
  }

  // ---- every call returns -----------------------------------------------------

  /** Own steps a thread still has ahead of it in its call. */
  function Left(t: Thread): nat {
    match t.pc
    case Out => 0
    case Lock1 => 14
    case Inc => 13
    case ShutB => 12
    case OpenA => 11
    case Unlock1 => 10
    case TurnA => 9
    case PassA => 8
    case Lock2 => 7
    case Dec => 6
    case ShutA => 5
    case OpenB => 4
    case Unlock2 => 3
    case TurnB => 2
    case PassB => 1
  }

  /** Every step of a thread inside a call brings it closer to returning, and moves no other thread. */
  lemma WorkFalls(s: State, t: nat)
    requires Enabled(s, t) && !s.ts[t].pc.Out?
    ensures Sum(Do(s, t).ts, Left) < Sum(s.ts, Left)
    ensures |Do(s, t).ts| == |s.ts| && forall u | 0 <= u < |s.ts| && u != t :: Do(s, t).ts[u] == s.ts[u]
  {
    hide Sum;
    OwnStep(s, t);
    SumUpdate(s.ts, Left, t, Do(s, t).ts[t]);
  }

  lemma OwnStep(s: State, t: nat)
    requires Enabled(s, t) && !s.ts[t].pc.Out?
    ensures |Do(s, t).ts| == |s.ts| && Do(s, t).ts == s.ts[t := Do(s, t).ts[t]]
    ensures Left(Do(s, t).ts[t]) < Left(s.ts[t])
  {
  }

  /** A schedule in which only threads inside a call step: nobody starts another. */
  ghost predicate Onward(states: seq<State>, who: seq<nat>) {
    && |states| == |who| + 1
    && forall i | 0 <= i < |who| ::
         Enabled(states[i], who[i]) && !states[i].ts[who[i]].pc.Out? && states[i + 1] == Do(states[i], who[i])
  }

  /** In call r, or just back from it. */
  predicate InCall(t: Thread, r: nat) { t.rounds == if t.pc.Out? then r + 1 else r }

  ghost predicate AllInCall(s: State, r: nat) { forall t | 0 <= t < |s.ts| :: InCall(s.ts[t], r) }

  /** Everyone has returned from call r. */
  ghost predicate AllBack(s: State, r: nat) { forall t | 0 <= t < |s.ts| :: s.ts[t] == Thread(Out, r + 1) }

  lemma CallStep(s: State, t: nat, r: nat)
    requires Enabled(s, t) && !s.ts[t].pc.Out? && AllInCall(s, r)
    ensures AllInCall(Do(s, t), r)
  {
  }

  /** With all in the same call nobody waits for someone outside. */
  lemma SomeoneGoesOn(s: State, r: nat, u: nat) returns (t: nat)
    requires Inv(s) && AllInCall(s, r) && u < |s.ts| && !s.ts[u].pc.Out?
    ensures t < |s.ts| && Enabled(s, t) && !s.ts[t].pc.Out?
  {
    hide Inv;
    t := SomeoneCanStep(s);
    assert t < |s.ts|;
    assert InCall(s.ts[u], r) && InCall(s.ts[t], r);
  }

  /** A schedule is no longer than the steps ahead when it begins. */
  lemma {:induction false} OnwardBounded(states: seq<State>, who: seq<nat>, r: nat)
    requires Onward(states, who) && Inv(states[0]) && AllInCall(states[0], r)
    ensures |who| + Sum(states[|who|].ts, Left) <= Sum(states[0].ts, Left)
    ensures Inv(states[|who|]) && AllInCall(states[|who|], r) && |states[|who|].ts| == |states[0].ts|
    decreases |who|
  {
    hide Inv, AllInCall, Sum;
    if who != [] {
      var n := |who| - 1;
      OnwardBounded(states[..n + 1], who[..n], r);
      assert states[n + 1] == Do(states[n], who[n]);
      WorkFalls(states[n], who[n]);
      InvStep(states[n], who[n]);
      CallStep(states[n], who[n], r);
    }
  }

  /**
   With all n threads inside call r, whatever the schedule, they return: no schedule is longer than the steps they
   have ahead, and where it can go no further every thread is back from call r.
   */
  lemma EveryScheduleReturns(n: nat, states: seq<State>, who: seq<nat>, i: nat, r: nat,
                             more: seq<State>, next: seq<nat>)
    requires Run(n, states, who) && i < |states| && Onward(more, next) && more[0] == states[i]
    requires forall t | 0 <= t < n :: t < |states[i].ts| && !states[i].ts[t].pc.Out? && states[i].ts[t].rounds == r
    ensures |next| <= Sum(states[i].ts, Left) <= 14 * n
    ensures (forall t | 0 <= t < |more[|next|].ts| && !more[|next|].ts[t].pc.Out? :: !Enabled(more[|next|], t)) ==>
              |more[|next|].ts| == n && AllBack(more[|next|], r)
  {
    RunInv(n, states, who, i);
    hide Inv, Sum;
    OnwardBounded(more, next, r);
    LeftBounded(states[i].ts);
    var s := more[|next|];
    if u :| 0 <= u < |s.ts| && !s.ts[u].pc.Out? {
      var t := SomeoneGoesOn(s, r, u);
    } else {
      forall t | 0 <= t < n ensures s.ts[t] == Thread(Out, r + 1) { assert InCall(s.ts[t], r); }
    }
  }

  lemma {:induction false} LeftBounded(ts: seq<Thread>)
    ensures Sum(ts, Left) <= 14 * |ts|
  {
    if ts != [] { LeftBounded(ts[1..]); }
  }

  /** And some schedule gets there. */
  lemma {:induction false} SomeScheduleReturns(s: State, r: nat) returns (more: seq<State>, next: seq<nat>)
    requires Inv(s) && AllInCall(s, r)
    ensures Onward(more, next) && more[0] == s && AllBack(more[|next|], r)
    decreases Sum(s.ts, Left)
  {
    hide Inv, Sum, Do, Enabled;
    if u :| 0 <= u < |s.ts| && !s.ts[u].pc.Out? {
      var t := SomeoneGoesOn(s, r, u);
      WorkFalls(s, t);
      InvStep(s, t);
      CallStep(s, t, r);
      var later, rest := SomeScheduleReturns(Do(s, t), r);
      more, next := [s] + later, [t] + rest;
      FirstStep(s, t, later, rest);
    } else {
      more, next := [s], [];
      forall t | 0 <= t < |s.ts| ensures s.ts[t] == Thread(Out, r + 1) { assert InCall(s.ts[t], r); }
    }
  }

  lemma FirstStep(s: State, t: nat, later: seq<State>, rest: seq<nat>)
    requires Enabled(s, t) && !s.ts[t].pc.Out? && Onward(later, rest) && later[0] == Do(s, t)
    ensures Onward([s] + later, [t] + rest)
  {
    hide Do, Enabled;
  }

  // ---- any number of rounds -----------------------------------------------------

  /** The first k threads have just entered call r, the others have not. */
  ghost predicate Entering(s: State, n: nat, r: nat, k: nat) {
    |s.ts| == n && forall t | 0 <= t < n :: s.ts[t] == Thread(if t < k then Lock1 else Out, r)
  }

  lemma {:induction false} EnterAll(n: nat, states: seq<State>, who: seq<nat>, r: nat, k: nat)
      returns (more: seq<State>, next: seq<nat>)
    requires Run(n, states, who) && Entering(states[|who|], n, r, 0) && k <= n
    ensures Run(n, more, next) && Entering(more[|next|], n, r, k)
  {
    if k == 0 {
      more, next := states, who;
    } else {
      var was, did := EnterAll(n, states, who, r, k - 1);
      var s := was[|did|];
      assert Do(s, k - 1) == At(s, k - 1, Lock1);
      more, next := was + [Do(s, k - 1)], did + [k - 1];
    }
  }

  /** A run goes on with a schedule. */
  lemma RunOn(n: nat, states: seq<State>, who: seq<nat>, more: seq<State>, next: seq<nat>)
    requires Run(n, states, who) && Onward(more, next) && more[0] == states[|who|]
    ensures Run(n, states + more[1..], who + next)
  {
    hide Do, Enabled;
    var all, turns := states + more[1..], who + next;
    forall i | 0 <= i < |turns| ensures Enabled(all[i], turns[i]) && all[i + 1] == Do(all[i], turns[i]) {
      if i >= |who| {
        assert all[i] == more[i - |who|] && all[i + 1] == more[i - |who| + 1];
      }
    }
  }

  /** The barrier serves any number of threads any number of times. */
  lemma {:induction false} RoundAfterRound(n: nat, r: nat) returns (states: seq<State>, who: seq<nat>)
    requires n >= 1
    ensures Run(n, states, who) && Entering(states[|who|], n, r, 0)
  {
    if r == 0 {
      states, who := [Init(n)], [];
    } else {
      var was, did := RoundAfterRound(n, r - 1);
      was, did := EnterAll(n, was, did, r - 1, n);
      RunInv(n, was, did, |did|);
      hide Do, Enabled, Inv;
      var s := was[|did|];
      forall t | 0 <= t < |s.ts| ensures InCall(s.ts[t], r - 1) { }
      var more, next := SomeScheduleReturns(s, r - 1);
      RunOn(n, was, did, more, next);
      states, who := was + more[1..], did + next;
      assert states[|who|] == more[|next|];
      RunInv(n, states, who, |who|);
    }
  }
}
