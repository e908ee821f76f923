/** Dining philosophers: one semaphore per fork and a footman who seats at most n - 1. */
module Philosophers {
  import opened Sums

  datatype Pc =
    | Thinking
    | WantSeat     // wait footman
    | WantLeft     // wait fork[w]
    | WantRight    // wait fork[(w + 1) % n]
    | Eating       // holds both; next, post the right fork
    | PutLeft      // next, post the left fork
    | Leaving      // next, post the footman

  datatype State = State(footman: nat, forks: seq<nat>, pcs: seq<Pc>)

  function Next(n: nat, w: nat): (r: nat)
    requires w < n
    ensures r == (w + 1) % n
  {
    if w + 1 == n then 0 else w + 1
  }

  function Right(s: State, w: nat): (r: nat)
    requires w < |s.pcs|
    ensures r < |s.pcs|
  {
    Next(|s.pcs|, w)
  }

  predicate Enabled(s: State, w: nat) {
    w < |s.pcs| == |s.forks| &&
    match s.pcs[w]
    case WantSeat => s.footman > 0
    case WantLeft => s.forks[w] > 0
    case WantRight => s.forks[Right(s, w)] > 0
    case _ => true
  }

  function Do(s: State, w: nat): State
    requires Enabled(s, w)
  {
    var r := Right(s, w);
    match s.pcs[w]
    case Thinking => s.(pcs := s.pcs[w := WantSeat])
    case WantSeat => s.(footman := s.footman - 1, pcs := s.pcs[w := WantLeft])
    case WantLeft => s.(forks := s.forks[w := s.forks[w] - 1], pcs := s.pcs[w := WantRight])
    case WantRight => s.(forks := s.forks[r := s.forks[r] - 1], pcs := s.pcs[w := Eating])
    case Eating => s.(forks := s.forks[r := s.forks[r] + 1], pcs := s.pcs[w := PutLeft])
    case PutLeft => s.(forks := s.forks[w := s.forks[w] + 1], pcs := s.pcs[w := Leaving])
    case Leaving => s.(footman := s.footman + 1, pcs := s.pcs[w := Thinking])
  }

  predicate HoldsLeft(pc: Pc) { pc.WantRight? || pc.Eating? || pc.PutLeft? }
  predicate HoldsRight(pc: Pc) { pc.Eating? }

  function SeatTerm(pc: Pc): nat { if pc.Thinking? || pc.WantSeat? then 0 else 1 }

  function LeftNeighbour(n: nat, w: nat): nat
    requires w < n
  {
    if w == 0 then n - 1 else w - 1
  }

  /** Each fork is on the table or in exactly one hand, and the footman's count is exact. */
  ghost predicate Inv(s: State) {
    && |s.pcs| >= 2 && |s.forks| == |s.pcs|
    && s.footman + Sum(s.pcs, SeatTerm) == |s.pcs| - 1
    && forall f | 0 <= f < |s.pcs| :: ForkOK(s, f)
  }

  function Init(n: nat): State
    requires n >= 1
  {
    State(n - 1, seq(n, _ => 1), seq(n, _ => Thinking))
  }

  /** Fork f is on the table or in exactly one hand. */
  predicate ForkOK(s: State, f: nat)
    requires f < |s.pcs| == |s.forks|
  {
    s.forks[f] + (if HoldsLeft(s.pcs[f]) then 1 else 0)
    + (if HoldsRight(s.pcs[LeftNeighbour(|s.pcs|, f)]) then 1 else 0) == 1
  }

  lemma ForkStep(s: State, w: nat, f: nat)
    requires |s.pcs| >= 2 && Enabled(s, w) && f < |s.pcs| && ForkOK(s, f)
    requires ForkOK(s, w) && ForkOK(s, Right(s, w))
    ensures ForkOK(Do(s, w), f)
  {
  }

  lemma InvStep(s: State, w: nat)
    requires Inv(s) && Enabled(s, w)
    ensures Inv(Do(s, w))
  {
    SumUpdate(s.pcs, SeatTerm, w, Do(s, w).pcs[w]);
    hide Sum, ForkOK;
    forall f | 0 <= f < |s.pcs| ensures ForkOK(Do(s, w), f) { ForkStep(s, w, f); }
  }

  ghost predicate Run(n: nat, states: seq<State>, who: seq<nat>) {
    && n >= 2 && |states| == |who| + 1 && states[0] == Init(n)
    && forall i | 0 <= i < |who| :: Enabled(states[i], who[i]) && states[i + 1] == Do(states[i], who[i])
  }

  lemma {:induction false} RunInv(n: nat, states: seq<State>, who: seq<nat>, i: nat)
    requires Run(n, states, who) && i < |states|
    ensures Inv(states[i]) && |states[i].pcs| == n
  {
    if i == 0 {
      SumZero(Init(n).pcs, SeatTerm);
    } else {
      RunInv(n, states, who, i - 1);
      InvStep(states[i - 1], who[i - 1]);
    }
  }

  /** A philosopher's right fork is never also its neighbour's left fork in hand, so neighbours never both eat. */
  lemma ForksExclusive(n: nat, states: seq<State>, who: seq<nat>, i: nat, w: nat)
    requires Run(n, states, who) && i < |states| && w < n
    ensures |states[i].pcs| == n
    ensures !(HoldsRight(states[i].pcs[w]) && HoldsLeft(states[i].pcs[(w + 1) % n]))
    ensures !(states[i].pcs[w].Eating? && states[i].pcs[(w + 1) % n].Eating?)
  {
    RunInv(n, states, who, i);
    assert ForkOK(states[i], Next(n, w));
  }

  predicate Stuck(s: State) {
    forall u | 0 <= u < |s.pcs| && !s.pcs[u].Thinking? :: !Enabled(s, u)
  }

  /** A philosopher stuck waiting for its right fork has a right neighbour stuck in the same way. */
  lemma RingStep(s: State, w: nat)
    requires Inv(s) && Stuck(s) && w < |s.pcs| && s.pcs[w].WantRight?
    ensures s.pcs[Right(s, w)].WantRight?
  {
    hide Sum;
    assert !Enabled(s, w) && ForkOK(s, Right(s, w));
    assert s.pcs[Right(s, w)].Eating? || s.pcs[Right(s, w)].PutLeft? ==> Enabled(s, Right(s, w));
  }

  lemma {:induction false} RingUp(s: State, w: nat, j: nat)
    requires Inv(s) && Stuck(s) && w <= j < |s.pcs| && s.pcs[w].WantRight?
    ensures s.pcs[j].WantRight?
    decreases j - w
  {
    if w < j {
      RingStep(s, w);
      RingUp(s, w + 1, j);
    }
  }

  /** One philosopher stuck on its right fork would mean all n are, and the footman seats only n - 1. */
  lemma RingNeverCloses(s: State, w: nat)
    requires Inv(s) && w < |s.pcs| && s.pcs[w].WantRight?
    ensures !Stuck(s)
  {
    if Stuck(s) {
      var n := |s.pcs|;
      RingUp(s, w, n - 1);
      RingStep(s, n - 1);
      forall j | 0 <= j < n ensures SeatTerm(s.pcs[j]) == 1 {
        RingUp(s, 0, j);
      }
      AllSeated(s.pcs);
    }
  }

  lemma {:induction false} AllSeated(pcs: seq<Pc>)
    requires forall j | 0 <= j < |pcs| :: SeatTerm(pcs[j]) == 1
    ensures Sum(pcs, SeatTerm) == |pcs|
  {
    if pcs != [] {
      AllSeated(pcs[1..]);
    }
  }

  /** No deadlock: whenever anyone is not thinking, someone who is not thinking can step. */
  lemma NoDeadlock(n: nat, states: seq<State>, who: seq<nat>, i: nat, hungry: nat) returns (w: nat)
    requires Run(n, states, who) && i < |states|
    requires hungry < |states[i].pcs| && !states[i].pcs[hungry].Thinking?
    ensures Enabled(states[i], w) && !states[i].pcs[w].Thinking?
  {
    RunInv(n, states, who, i);
    var s := states[i];
    NeverStuck(s, hungry);
    w :| 0 <= w < |s.pcs| && !s.pcs[w].Thinking? && Enabled(s, w);
  }

  lemma NeverStuck(s: State, hungry: nat)
    requires Inv(s) && hungry < |s.pcs| && !s.pcs[hungry].Thinking?
    ensures !Stuck(s)
  {
    if u :| 0 <= u < |s.pcs| && s.pcs[u].WantRight? {
      RingNeverCloses(s, u);
    } else {
      NobodySeated(s, hungry);
    }
  }

  /** With no one past a left fork, a seated philosopher finds its left fork free, and an unseated one a seat. */
  lemma NobodySeated(s: State, hungry: nat)
    requires Inv(s) && hungry < |s.pcs| && !s.pcs[hungry].Thinking?
    requires forall u | 0 <= u < |s.pcs| :: !s.pcs[u].WantRight?
    ensures !Stuck(s)
  {
    if u :| 0 <= u < |s.pcs| && SeatTerm(s.pcs[u]) == 1 {
      assert ForkOK(s, u);
      if s.pcs[u].WantLeft? && !Enabled(s, u) {
        assert Enabled(s, LeftNeighbour(|s.pcs|, u));
      } else {
        assert Enabled(s, u);
      }
    } else {
      SumZero(s.pcs, SeatTerm);
      assert Enabled(s, hungry);
    }
  }

  // ---- everyone gets to eat ---------------------------------------------------

  /** Own steps a philosopher still has ahead of it before it thinks again. */
  function Left(pc: Pc): nat {
    match pc
    case Thinking => 0
    case WantSeat => 6
    case WantLeft => 5
    case WantRight => 4
    case Eating => 3
    case PutLeft => 2
    case Leaving => 1
  }

  lemma WorkFalls(s: State, w: nat)
    requires Enabled(s, w) && !s.pcs[w].Thinking?
    ensures |Do(s, w).pcs| == |s.pcs| && Sum(Do(s, w).pcs, Left) < Sum(s.pcs, Left)
  {
    hide Sum;
    SumUpdate(s.pcs, Left, w, Do(s, w).pcs[w]);
    assert Do(s, w).pcs == s.pcs[w := Do(s, w).pcs[w]];
  }

  /** A schedule in which nobody gets hungry: only those who are not thinking step. */
  ghost predicate Onward(states: seq<State>, who: seq<nat>) {
    && |states| == |who| + 1
    && forall i | 0 <= i < |who| ::
         Enabled(states[i], who[i]) && !states[i].pcs[who[i]].Thinking? && states[i + 1] == Do(states[i], who[i])
  }

  lemma {:induction false} OnwardBounded(states: seq<State>, who: seq<nat>)
    requires Onward(states, who) && Inv(states[0])
    ensures |who| + Sum(states[|who|].pcs, Left) <= Sum(states[0].pcs, Left)
    ensures Inv(states[|who|]) && |states[|who|].pcs| == |states[0].pcs|
    decreases |who|
  {
    hide Inv, Sum;
    if who != [] {
      var n := |who| - 1;
      OnwardBounded(states[..n + 1], who[..n]);
      assert states[n + 1] == Do(states[n], who[n]);
      WorkFalls(states[n], who[n]);
      InvStep(states[n], who[n]);
    }
  }

  lemma {:induction false} LeftBounded(pcs: seq<Pc>)
    ensures Sum(pcs, Left) <= 6 * |pcs|
  {
    if pcs != [] { LeftBounded(pcs[1..]); }
  }

  /**
   From every reachable state, whatever the schedule, all who are hungry are served: no schedule without new hunger
   is longer than six steps each, and where it can go no further everybody is thinking.
   */
  lemma EveryScheduleServes(n: nat, states: seq<State>, who: seq<nat>, i: nat, more: seq<State>, next: seq<nat>)
    requires Run(n, states, who) && i < |states| && Onward(more, next) && more[0] == states[i]
    ensures |next| <= 6 * n
    ensures Stuck(more[|next|]) ==> forall w | 0 <= w < |more[|next|].pcs| :: more[|next|].pcs[w].Thinking?
  {
    RunInv(n, states, who, i);
    hide Inv, Sum;
    OnwardBounded(more, next);
    LeftBounded(states[i].pcs);
    var s := more[|next|];
    if u :| 0 <= u < |s.pcs| && !s.pcs[u].Thinking? { NeverStuck(s, u); }
  }

  /** Between wanting a seat and thinking again lies a meal. */
  lemma {:induction false} EatsBetween(n: nat, states: seq<State>, who: seq<nat>, i: nat, j: nat, w: nat)
    requires Run(n, states, who) && i <= j < |states| && w < n
    requires w < |states[i].pcs| && states[i].pcs[w].WantSeat?
    requires forall k | i <= k <= j :: w < |states[k].pcs| && !states[k].pcs[w].Eating?
    ensures Hungry(states[j].pcs[w])
    decreases j - i
  {
    if i < j {
      EatsBetween(n, states, who, i, j - 1, w);
      assert states[j - 1 + 1] == Do(states[j - 1], who[j - 1]);
      assert !states[j].pcs[w].Eating?;
    }
  }

  predicate Hungry(pc: Pc) { pc.WantSeat? || pc.WantLeft? || pc.WantRight? }

  /** At a table of any size any philosopher can sit down and eat. */
  lemma CanEat(n: nat, w: nat) returns (states: seq<State>)
    requires n >= 2 && w < n
    ensures Run(n, states, [w, w, w, w]) && w < |states[4].pcs| && states[4].pcs[w].Eating?
  {
    var s0 := Init(n);
    var s1 := Do(s0, w);
    var s2 := Do(s1, w);
    var s3 := Do(s2, w);
    states := [s0, s1, s2, s3, Do(s3, w)];
  }
}
