/**
 The three-valued sleeping lock over cas and futex, for any number of threads, with spurious
 wake-ups. One step is one atomic instruction or one futex call.
 */
module FutexLock {
  import opened Sums

  /** Where a thread is. `c` is the value its last cas returned. */
  datatype Pc =
    | Idle
    | Start            // about to cas 0 -> 1
    | Loop(c: int)     // about to test c and cas 1 -> 2
    | Wait             // about to futex_wait(2)
    | Parked           // asleep in the kernel
    | Retry            // about to cas 0 -> 2
    | Holding
    | Dropping         // fetch_sub returned 2: about to store 0
    | Waking           // stored 0: about to futex_wake one

  /** The lock word and every thread. */
  datatype State = State(word: int, pcs: seq<Pc>)

  datatype Action =
    | Acquire
    | Go
    | Wake(sleeper: nat)    // futex_wake picks this parked thread
    | WakeNone              // futex_wake finds no one
    | Spurious              // a parked thread returns on its own

  predicate Enabled(s: State, t: nat, a: Action) {
    t < |s.pcs| &&
    match a
    case Acquire => s.pcs[t].Idle?
    case Go => s.pcs[t] !in {Idle, Parked, Waking}
    case Wake(u) => s.pcs[t].Waking? && u < |s.pcs| && s.pcs[u].Parked?
    case WakeNone => s.pcs[t].Waking? && forall u | 0 <= u < |s.pcs| :: !s.pcs[u].Parked?
    case Spurious => s.pcs[t].Parked?
  }

  function Set(s: State, t: nat, word: int, pc: Pc): State
    requires t < |s.pcs|
  {
    State(word, s.pcs[t := pc])
  }

  function Do(s: State, t: nat, a: Action): State
    requires Enabled(s, t, a)
  {
    var w := s.word;
    match a
    case Acquire => Set(s, t, w, Start)
    case Spurious => Set(s, t, w, Retry)
    case Wake(u) => State(w, s.pcs[t := Idle][u := Retry])
    case WakeNone => Set(s, t, w, Idle)
    case Go =>
      match s.pcs[t]
      case Start => if w == 0 then Set(s, t, 1, Holding) else Set(s, t, w, Loop(w))
      case Loop(c) =>
        if c == 2 then Set(s, t, w, Wait)
        else if w == 1 then Set(s, t, 2, Wait)
        else if w != 0 then Set(s, t, w, Wait)
        else Set(s, t, w, Retry)
      case Wait => if w == 2 then Set(s, t, w, Parked) else Set(s, t, w, Retry)
      case Retry => if w == 0 then Set(s, t, 2, Holding) else Set(s, t, w, Loop(w))
      case Holding => if w == 1 then Set(s, t, 0, Idle) else Set(s, t, w - 1, Dropping)
      case Dropping => Set(s, t, 0, Waking)
      case _ => s
  }

  /** Between winning the word and giving it up; a releaser that has not stored 0 is still inside. */
  predicate Inside(pc: Pc) { pc.Holding? || pc.Dropping? }

  /** Awake on the slow path: it will look at the word again before it can sleep. */
  predicate Contending(pc: Pc) { pc.Loop? || pc.Wait? || pc.Retry? }

  /** Thread t will see to it that some sleeper is woken. */
  predicate Responsible(s: State, t: nat)
    requires t < |s.pcs|
  {
    (s.pcs[t].Holding? && s.word == 2) || s.pcs[t].Dropping? || s.pcs[t].Waking? || Contending(s.pcs[t])
  }

  ghost predicate Exclusive(s: State) {
    && 0 <= s.word <= 2
    && (forall t, u | 0 <= t < u < |s.pcs| :: !(Inside(s.pcs[t]) && Inside(s.pcs[u])))
    && (s.word == 0 <==> forall t | 0 <= t < |s.pcs| :: !Inside(s.pcs[t]))
  }

  ghost predicate Watched(s: State) {
    forall p | 0 <= p < |s.pcs| && s.pcs[p].Parked? :: exists t | 0 <= t < |s.pcs| :: Responsible(s, t)
  }

  ghost predicate Inv(s: State) {
    Exclusive(s) && Watched(s) && forall t | 0 <= t < |s.pcs| && s.pcs[t].Loop? :: s.pcs[t].c in {1, 2}
  }

  function Init(n: nat): State {
    State(0, seq(n, _ => Idle))
  }

  lemma ExclusiveStep(s: State, t: nat, a: Action)
    requires Exclusive(s) && Enabled(s, t, a)
    ensures Exclusive(Do(s, t, a))
  {
    var s' := Do(s, t, a);
    if a.Go? && Inside(s.pcs[t]) {
      forall u | 0 <= u < |s.pcs| && u != t ensures !Inside(s'.pcs[u]) {
        assert !Inside(s.pcs[u]);
      }
    }
    if s'.word != 0 {
      if s.word != 0 {
        var h :| 0 <= h < |s.pcs| && Inside(s.pcs[h]);
        assert Inside(s'.pcs[h]);
      } else {
        assert Inside(s'.pcs[t]);
      }
    }
  }

  /** A contender that goes to sleep saw the word at 2, and a word at 2 has an insider who owes a wake. */
  lemma WordTwoIsOwed(s: State) returns (h: nat)
    requires Exclusive(s) && s.word == 2
    ensures h < |s.pcs| && Inside(s.pcs[h]) && Responsible(s, h)
  {
    h :| 0 <= h < |s.pcs| && Inside(s.pcs[h]);
  }

  lemma WatchedStep(s: State, t: nat, a: Action)
    requires Exclusive(s) && Watched(s) && Enabled(s, t, a)
    ensures Watched(Do(s, t, a))
  {
    var s' := Do(s, t, a);
    if a.Wake? {
      assert Responsible(s', a.sleeper);
    } else if s'.pcs[t].Parked? {
      var h := WordTwoIsOwed(s);
      assert Responsible(s', h);
    } else {
      forall p | 0 <= p < |s'.pcs| && s'.pcs[p].Parked?
        ensures exists u | 0 <= u < |s'.pcs| :: Responsible(s', u)
      {
        assert s.pcs[p].Parked?;
        var u :| 0 <= u < |s.pcs| && Responsible(s, u);
        if s.word == s'.word && u != t {
          assert Responsible(s', u);
        } else if s.word == 2 || u == t {
          StillOwed(s, t, a, u);
        } else {
          assert Responsible(s', u);
        }
      }
    }
  }

  /** Whoever moves the word away from 2, or stops being responsible, leaves someone responsible. */
  lemma StillOwed(s: State, t: nat, a: Action, u: nat)
    requires Exclusive(s) && Enabled(s, t, a) && !a.Wake? && !a.WakeNone? && !Do(s, t, a).pcs[t].Parked?
    requires u < |s.pcs| && Responsible(s, u) && (s.word == 2 || u == t)
    ensures exists v | 0 <= v < |s.pcs| :: Responsible(Do(s, t, a), v)
  {
    var s' := Do(s, t, a);
    if u == t {
      assert Responsible(s', t);
    } else {
      var h := WordTwoIsOwed(s);
      assert Responsible(s', if s.pcs[u].Holding? then h else u) || Responsible(s', t);
    }
  }

  ghost predicate Run(n: nat, states: seq<State>, who: seq<nat>, what: seq<Action>) {
    && |states| == |who| + 1 == |what| + 1
    && states[0] == Init(n)
    && forall i | 0 <= i < |who| ::
         Enabled(states[i], who[i], what[i]) && states[i + 1] == Do(states[i], who[i], what[i])
  }

  lemma {:induction false} RunInv(n: nat, states: seq<State>, who: seq<nat>, what: seq<Action>, i: nat)
    requires Run(n, states, who, what) && i < |states|
    ensures Inv(states[i])
  {
    if i > 0 {
      RunInv(n, states, who, what, i - 1);
      ExclusiveStep(states[i - 1], who[i - 1], what[i - 1]);
      WatchedStep(states[i - 1], who[i - 1], what[i - 1]);
    }
  }

  /** In every reachable state at most one thread is inside. */
  lemma MutualExclusion(n: nat, states: seq<State>, who: seq<nat>, what: seq<Action>, i: nat, t: nat, u: nat)
    requires Run(n, states, who, what) && i < |states| && t < |states[i].pcs| && u < |states[i].pcs|
    requires Inside(states[i].pcs[t]) && Inside(states[i].pcs[u])
    ensures t == u
  {
    RunInv(n, states, who, what, i);
  }

  /**
   No wake-up is ever lost: while anyone sleeps, some awake thread holds with the word at 2,
   owes a wake, or is about to look at the word again; and that thread can step.
   */
  lemma NoLostWakeup(n: nat, states: seq<State>, who: seq<nat>, what: seq<Action>, i: nat, p: nat)
      returns (t: nat, a: Action)
    requires Run(n, states, who, what) && i < |states| && p < |states[i].pcs| && states[i].pcs[p].Parked?
    ensures t < |states[i].pcs| && Responsible(states[i], t)
    ensures Enabled(states[i], t, a) && !a.Spurious? && !a.Acquire?
  {
    RunInv(n, states, who, what, i);
    t :| 0 <= t < |states[i].pcs| && Responsible(states[i], t);
    a := if states[i].pcs[t].Waking? then Wake(p) else Go;
  }

  /** The threads t makes its steps alone. */
  function Alone(s: State, t: nat, k: nat): State
    requires t < |s.pcs|
    ensures |Alone(s, t, k).pcs| == |s.pcs|
  {
    if k == 0 then s
    else
      var r := Alone(s, t, k - 1);
      if Enabled(r, t, Go) then Do(r, t, Go) else r
  }

  /** A contender that finds the lock free takes it within three of its own steps, and takes it as 2. */
  lemma ContenderAcquires(s: State, t: nat) returns (k: nat)
    requires Inv(s) && t < |s.pcs| && Contending(s.pcs[t]) && s.word == 0
    ensures k <= 3 && Alone(s, t, k).pcs[t].Holding? && Alone(s, t, k).word == 2
  {
    k := if s.pcs[t].Retry? then 1 else if s.pcs[t].Wait? || s.pcs[t].c != 2 then 2 else 3;
    assert Alone(s, t, 1) == if Enabled(s, t, Go) then Do(s, t, Go) else s;
    assert Alone(s, t, 2) == if Enabled(Alone(s, t, 1), t, Go) then Do(Alone(s, t, 1), t, Go) else Alone(s, t, 1);
  }

  /** A release that found the word at 2 wakes a sleeper whenever there is one. */
  lemma ReleaseWakes(s: State, t: nat, a: Action, p: nat)
    requires t < |s.pcs| && s.pcs[t].Waking? && Enabled(s, t, a) && p < |s.pcs| && s.pcs[p].Parked?
    ensures a.Wake? && Contending(Do(s, t, a).pcs[a.sleeper]) && Do(s, t, a).pcs[t].Idle?
  {
  }

  // ---- every call returns -----------------------------------------------------

  /** Own steps a thread still has ahead of it if it next looks at the word when the lock is free. */
  function Left(pc: Pc): nat {
    match pc
    case Idle => 0
    case Waking => 1
    case Dropping => 2
    case Holding => 3
    case Start => 4
    case Retry => 4
    case Wait => 5
    case Parked => 5
    case Loop(_) => 6
  }

  /** A step towards the end: of the thread giving the lock up, or of any contender once the lock is free. */
  predicate Direct(s: State, t: nat, a: Action) {
    && Enabled(s, t, a) && !a.Acquire? && !a.Spurious?
    && (Inside(s.pcs[t]) || s.pcs[t].Waking? || s.word == 0)
  }

  lemma WorkFalls(s: State, t: nat, a: Action)
    requires Direct(s, t, a)
    ensures |Do(s, t, a).pcs| == |s.pcs| && Sum(Do(s, t, a).pcs, Left) < Sum(s.pcs, Left)
  {
    hide Sum;
    var s' := Do(s, t, a);
    if a.Wake? {
      SumUpdate(s.pcs, Left, t, Idle);
      SumUpdate(s.pcs[t := Idle], Left, a.sleeper, Retry);
    } else {
      SumUpdate(s.pcs, Left, t, s'.pcs[t]);
      assert s'.pcs == s.pcs[t := s'.pcs[t]];
    }
  }

  ghost predicate Onward(states: seq<State>, who: seq<nat>, what: seq<Action>) {
    && |states| == |who| + 1 == |what| + 1
    && forall i | 0 <= i < |who| ::
         Direct(states[i], who[i], what[i]) && states[i + 1] == Do(states[i], who[i], what[i])
  }

  lemma {:induction false} OnwardBounded(states: seq<State>, who: seq<nat>, what: seq<Action>)
    requires Onward(states, who, what) && Inv(states[0])
    ensures |who| + Sum(states[|who|].pcs, Left) <= Sum(states[0].pcs, Left)
    ensures Inv(states[|who|]) && |states[|who|].pcs| == |states[0].pcs|
    decreases |who|
  {
    hide Inv, Sum;
    if who != [] {
      var n := |who| - 1;
      OnwardBounded(states[..n + 1], who[..n], what[..n]);
      assert states[n + 1] == Do(states[n], who[n], what[n]);
      WorkFalls(states[n], who[n], what[n]);
      InvStep(states[n], who[n], what[n]);
    }
  }

  lemma InvStep(s: State, t: nat, a: Action)
    requires Inv(s) && Enabled(s, t, a)
    ensures Inv(Do(s, t, a))
  {
    ExclusiveStep(s, t, a);
    WatchedStep(s, t, a);
  }

  lemma {:induction false} LeftBounded(pcs: seq<Pc>)
    ensures Sum(pcs, Left) <= 6 * |pcs|
  {
    if pcs != [] { LeftBounded(pcs[1..]); }
  }

  /** While anyone is not idle, asleep or not, some direct step can be taken. */
  lemma SomeoneGoesOn(s: State, u: nat) returns (t: nat, a: Action)
    requires Inv(s) && u < |s.pcs| && !s.pcs[u].Idle?
    ensures Direct(s, t, a)
  {
    if h: nat :| h < |s.pcs| && (Inside(s.pcs[h]) || s.pcs[h].Waking?) {
      t, a := h, Go;
      if s.pcs[h].Waking? {
        if p: nat :| p < |s.pcs| && s.pcs[p].Parked? { a := Wake(p); } else { a := WakeNone; }
      }
    } else {
      t, a := u, Go;
      if s.pcs[u].Parked? { t :| 0 <= t < |s.pcs| && Responsible(s, t); }
    }
  }

  /**
   From every reachable state all calls return: a schedule of direct steps takes no more than six steps a thread,
   and where it can go no further every thread is idle, none of them asleep.
   */
  lemma EveryScheduleReturns(n: nat, states: seq<State>, who: seq<nat>, what: seq<Action>, i: nat,
                             more: seq<State>, next: seq<nat>, does: seq<Action>)
    requires Run(n, states, who, what) && i < |states| && Onward(more, next, does) && more[0] == states[i]
    ensures |next| <= 6 * |states[i].pcs|
    ensures (forall t: nat, a :: !Direct(more[|next|], t, a)) ==>
              forall t | 0 <= t < |more[|next|].pcs| :: more[|next|].pcs[t].Idle?
  {
    RunInv(n, states, who, what, i);
    hide Inv, Sum, Run;
    OnwardBounded(more, next, does);
    LeftBounded(states[i].pcs);
    var s := more[|next|];
    if u: nat :| u < |s.pcs| && !s.pcs[u].Idle? { var t, a := SomeoneGoesOn(s, u); }
  }

  /** Between calling acquire and being idle again a thread has held the lock. */
  lemma {:induction false} HoldsBetween(n: nat, states: seq<State>, who: seq<nat>, what: seq<Action>,
                                        i: nat, j: nat, t: nat)
    requires Run(n, states, who, what) && i <= j < |states| && t < |states[i].pcs| && states[i].pcs[t].Start?
    requires forall k | i <= k <= j :: t < |states[k].pcs| && !states[k].pcs[t].Holding?
    ensures states[j].pcs[t].Start? || states[j].pcs[t].Parked? || Contending(states[j].pcs[t])
    decreases j - i
  {
    if i < j {
      HoldsBetween(n, states, who, what, i, j - 1, t);
      assert states[j - 1 + 1] == Do(states[j - 1], who[j - 1], what[j - 1]);
      assert t < |states[j].pcs| && !states[j].pcs[t].Holding?;
    }
  }

  /** A free lock is had at once. */
  lemma CanHold(n: nat, t: nat) returns (states: seq<State>)
    requires t < n
    ensures Run(n, states, [t, t], [Acquire, Go])
    ensures t < |states[2].pcs| && states[2].pcs[t].Holding? && states[2].word == 1
  {
    var s1 := Do(Init(n), t, Acquire);
    states := [Init(n), s1, Do(s1, t, Go)];
  }
}
