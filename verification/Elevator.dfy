/** Disk scheduling: the elevator's order and its bound, nearest-first, and the rotational cost model. */
module Elevator {
  import opened Counting
  import opened Division

  function Abs(x: int): nat { if x < 0 then -x else x }

  /** Total head movement of a path from h. */
  function Travel(h: int, path: seq<int>): nat
    decreases |path|
  {
    if path == [] then 0 else Abs(path[0] - h) + Travel(path[0], path[1..])
  }

  /** Where the head ends up. */
  function End(h: int, path: seq<int>): int { if path == [] then h else path[|path| - 1] }

  lemma {:induction false} TravelAppend(h: int, p: seq<int>, q: seq<int>)
    ensures Travel(h, p + q) == Travel(h, p) + Travel(End(h, p), q)
    decreases |p|
  {
    if p == [] {
      assert p + q == q;
    } else {
      TravelAppend(p[0], p[1..], q);
      assert (p + q)[1..] == p[1..] + q;
    }
  }

  /** A path that visits x has come at least that far; one that visits x and y has covered the distance between. */
  lemma {:induction false} Reach(h: int, p: seq<int>, x: int)
    requires x in p
    ensures Travel(h, p) >= Abs(x - h)
    decreases |p|
  {
    if p[0] != x {
      assert x in p[1..];
      Reach(p[0], p[1..], x);
    }
  }

  lemma {:induction false} ReachBoth(h: int, p: seq<int>, x: int, y: int)
    requires x in p && y in p
    ensures Travel(h, p) >= Abs(x - y)
    decreases |p|
  {
    if p[0] == x {
      if x != y { assert y in p[1..]; Reach(x, p[1..], y); }
    } else if p[0] == y {
      assert x in p[1..];
      Reach(y, p[1..], x);
    } else {
      assert x in p[1..] && y in p[1..];
      ReachBoth(p[0], p[1..], x, y);
    }
  }

  /** From h on in one direction without turning back: up or down. */
  predicate OneWay(up: bool, h: int, p: seq<int>) {
    && (forall i | 0 <= i < |p| :: if up then h <= p[i] else p[i] <= h)
    && (forall i, j | 0 <= i < j < |p| :: if up then p[i] <= p[j] else p[j] <= p[i])
  }

  lemma {:induction false} OneWayTravel(up: bool, h: int, p: seq<int>)
    requires OneWay(up, h, p)
    ensures Travel(h, p) == Abs(End(h, p) - h)
    decreases |p|
  {
    if p != [] {
      OneWayTravel(up, p[0], p[1..]);
    }
  }

  /** A sweep one way and then the other moves at most twice as far as any path that visits the same places. */
  lemma SweepTwice(up: bool, h: int, a: seq<int>, b: seq<int>, q: seq<int>)
    requires OneWay(up, h, a) && OneWay(!up, End(h, a), b)
    requires (forall x | x in a :: x in q) && (forall x | x in b :: x in q)
    ensures Travel(h, a + b) <= 2 * Travel(h, q)
  {
    TravelAppend(h, a, b);
    OneWayTravel(up, h, a);
    OneWayTravel(!up, End(h, a), b);
    var turn, end := End(h, a), End(End(h, a), b);
    if a != [] { assert turn in a; Reach(h, q, turn); }
    if b != [] {
      assert end in b;
      if a != [] { ReachBoth(h, q, turn, end); } else { Reach(h, q, end); }
    }
  }

  // ---- the schedulers -------------------------------------------------------------------------

  datatype Side = AtOrAbove | Below | AtOrBelow | Above

  predicate On(side: Side, cyl: int, h: int) {
    match side
    case AtOrAbove => cyl >= h
    case Below => cyl < h
    case AtOrBelow => cyl <= h
    case Above => cyl > h
  }

  function Other(side: Side): Side {
    match side case AtOrAbove => Below case Below => AtOrAbove case AtOrBelow => Above case Above => AtOrBelow
  }

  predicate Indices(c: seq<int>, s: seq<nat>) { forall i | 0 <= i < |s| :: s[i] < |c| }

  /** The requests of s on one side of the head, in the order of s. */
  function Keep(c: seq<int>, s: seq<nat>, h: int, side: Side): (r: seq<nat>)
    requires Indices(c, s)
    ensures Indices(c, r)
  {
    if s == [] then [] else Keep(c, s[..|s| - 1], h, side) + if On(side, c[s[|s| - 1]], h) then [s[|s| - 1]] else []
  }

  function Rev(s: seq<nat>): (r: seq<nat>)
    ensures |r| == |s| && forall i | 0 <= i < |s| :: r[i] == s[|s| - 1 - i]
  {
    seq(|s|, i requires 0 <= i < |s| => s[|s| - 1 - i])
  }

  function Cyls(c: seq<int>, order: seq<nat>): (p: seq<int>)
    requires Indices(c, order)
    ensures |p| == |order|
  {
    seq(|order|, i requires 0 <= i < |order| => c[order[i]])
  }

  /** Labels in sorted order: all requests, by cylinder, earlier arrivals first among equals. */
  predicate SortedUp(c: seq<int>, idx: seq<nat>) {
    && Permutation(idx, |c|)
    && Rising(c, idx)
  }

  /** By cylinder, earlier arrivals first among equals. */
  predicate Sooner(c: seq<int>, a: nat, b: nat)
    requires a < |c| && b < |c|
  {
    c[a] < c[b] || (c[a] == c[b] && a < b)
  }

  predicate Rising(c: seq<int>, s: seq<nat>)
    requires Indices(c, s)
  {
    forall i, j | 0 <= i < j < |s| :: Sooner(c, s[i], s[j])
  }

  /**
   Request a is served before b by a sweep that starts at h going up or down: those ahead of the head or at its
   cylinder come first, each part in cylinder order, the second back again or, if circular, the same way once more.
   */
  predicate Before(c: seq<int>, h: int, up: bool, circular: bool, a: nat, b: nat)
    requires a < |c| && b < |c|
  {
    if Ahead(c[a], h, up) != Ahead(c[b], h, up) then Ahead(c[a], h, up)
    else if (Ahead(c[a], h, up) || circular) == up then Sooner(c, a, b)
    else Sooner(c, b, a)
  }

  predicate Ahead(cyl: int, h: int, up: bool) { if up then cyl >= h else cyl <= h }

  predicate Swept(c: seq<int>, h: int, up: bool, circular: bool, order: seq<nat>)
    requires Indices(c, order)
  {
    forall i, j | 0 <= i < j < |order| :: Before(c, h, up, circular, order[i], order[j])
  }

  /** There is only one such order of any requests. */
  lemma OneSweep(c: seq<int>, h: int, up: bool, circular: bool, s: seq<nat>, t: seq<nat>)
    requires Indices(c, s) && Indices(c, t) && Swept(c, h, up, circular, s) && Swept(c, h, up, circular, t)
    requires forall x: nat :: x in s <==> x in t
    ensures s == t
  {
    OneOrder(s, t, (a: nat, b: nat) => a < |c| && b < |c| && Before(c, h, up, circular, a, b));
  }

  predicate Permutation(order: seq<nat>, n: nat) {
    |order| == n && (forall i | 0 <= i < n :: order[i] < n) && forall x: nat | x < n :: x in order
  }

  /** What the elevator serves: one way in cylinder order, then back. */
  function ScanOrder(c: seq<int>, idx: seq<nat>, h: int, up: bool): seq<nat>
    requires Indices(c, idx)
  {
    if up then Keep(c, idx, h, AtOrAbove) + Rev(Keep(c, idx, h, Below))
    else Rev(Keep(c, idx, h, AtOrBelow)) + Keep(c, idx, h, Above)
  }

  /** The circular form: the same way twice. */
  function CircularOrder(c: seq<int>, idx: seq<nat>, h: int, up: bool): seq<nat>
    requires Indices(c, idx)
  {
    if up then Keep(c, idx, h, AtOrAbove) + Keep(c, idx, h, Below)
    else Rev(Keep(c, idx, h, AtOrBelow)) + Rev(Keep(c, idx, h, Above))
  }

  method Forward(c: seq<int>, idx: seq<nat>, h: int, side: Side) returns (order: seq<nat>)
    requires Indices(c, idx)
    ensures order == Keep(c, idx, h, side)
  {
    order := [];
    var i := 0;
    while i < |idx|
      invariant 0 <= i <= |idx| && order == Keep(c, idx[..i], h, side)
    {
      assert idx[..i + 1][..i] == idx[..i];
      if On(side, c[idx[i]], h) { order := order + [idx[i]]; }
      i := i + 1;
    }
    assert idx[..|idx|] == idx;
  }

  method Backward(c: seq<int>, idx: seq<nat>, h: int, side: Side) returns (order: seq<nat>)
    requires Indices(c, idx)
    ensures order == Rev(Keep(c, idx, h, side))
  {
    order := [];
    var i := |idx|;
    assert idx[..i] == idx;
    while i > 0
      invariant 0 <= i <= |idx| && order + Rev(Keep(c, idx[..i], h, side)) == Rev(Keep(c, idx, h, side))
    {
      i := i - 1;
      assert idx[..i + 1][..i] == idx[..i];
      var k := Keep(c, idx[..i], h, side);
      if On(side, c[idx[i]], h) {
        assert Rev(k + [idx[i]]) == [idx[i]] + Rev(k);
        order := order + [idx[i]];
      } else {
        assert k + [] == k;
      }
    }
  }

  /** The elevator: a permutation of the requests whose movement is at most twice that of any order at all. */
  method SchedScan(c: seq<int>, idx: seq<nat>, h: int, up: bool) returns (order: seq<nat>)
    requires SortedUp(c, idx)
    ensures Permutation(order, |c|) && Swept(c, h, up, false, order) && order == ScanOrder(c, idx, h, up)
    ensures forall other: seq<nat> | Permutation(other, |c|) ::
              Travel(h, Cyls(c, order)) <= 2 * Travel(h, Cyls(c, other))
  {
    if up {
      var ahead := Forward(c, idx, h, AtOrAbove);
      var behind := Backward(c, idx, h, Below);
      order := ahead + behind;
    } else {
      var ahead := Backward(c, idx, h, AtOrBelow);
      var behind := Forward(c, idx, h, Above);
      order := ahead + behind;
    }
    ScanPermutation(c, idx, h, up);
    SweptParts(c, idx, h, up);
    forall other: seq<nat> | Permutation(other, |c|)
      ensures Travel(h, Cyls(c, order)) <= 2 * Travel(h, Cyls(c, other))
    {
      ScanTwice(c, idx, h, up, other);
    }
  }

  lemma TwoStops(h: int, x: int, y: int)
    ensures Travel(h, [x, y]) == Abs(x - h) + Abs(y - x)
  {
    assert [x, y][1..] == [y] && Travel(x, [y]) == Abs(y - x);
  }

  lemma KeepTwo(c: seq<int>, a: nat, b: nat, h: int, side: Side)
    requires a < |c| && b < |c|
    ensures Keep(c, [a, b], h, side) == (if On(side, c[a], h) then [a] else []) + if On(side, c[b], h) then [b] else []
  {
    assert [a, b][..1] == [a] && [a][..0] == [];
    assert Keep(c, [a], h, side) == if On(side, c[a], h) then [a] else [];
  }

  /** Two requests, one on either side of the head, are served in the order the head is moving. */
  lemma TwoSides(c: seq<int>, h: int, up: bool)
    requires |c| == 2 && (if up then c[1] < h < c[0] else c[0] < h < c[1])
    ensures ScanOrder(c, if up then [1, 0] else [0, 1], h, up) == [0, 1]
  {
    hide Keep;
    if up {
      KeepTwo(c, 1, 0, h, AtOrAbove);
      KeepTwo(c, 1, 0, h, Below);
      assert Rev([1]) == [1];
    } else {
      KeepTwo(c, 0, 1, h, AtOrBelow);
      KeepTwo(c, 0, 1, h, Above);
      assert Rev([0]) == [0];
    }
  }

  lemma TwoSorted(c: seq<int>, up: bool)
    requires |c| == 2 && (if up then c[1] < c[0] else c[0] < c[1])
    ensures SortedUp(c, if up then [1, 0] else [0, 1]) && Permutation([1, 0], 2)
  {
    assert [1, 0][0] == 1 && [1, 0][1] == 0 && [0, 1][0] == 0 && [0, 1][1] == 1;
  }

  lemma TwoTravel(c: seq<int>, h: int)
    requires |c| == 2
    ensures Travel(h, Cyls(c, [0, 1])) == Abs(c[0] - h) + Abs(c[1] - c[0])
    ensures Travel(h, Cyls(c, [1, 0])) == Abs(c[1] - h) + Abs(c[0] - c[1])
  {
    assert Cyls(c, [0, 1]) == [c[0], c[1]] && Cyls(c, [1, 0]) == [c[1], c[0]];
    TwoStops(h, c[0], c[1]);
    TwoStops(h, c[1], c[0]);
  }

  lemma Exceeds(p: nat, q: nat)
    requires p < 2 * q
    ensures q * (6 * q + 1) > p * (3 * q + 2)
  {
    MulLess(p, 2 * q - 1, 3 * q + 2);
    assert (2 * q - 1) * (3 * q + 2) == 6 * (q * q) + q - 2;
    assert q * (6 * q + 1) == 6 * (q * q) + q;
  }

  /** No smaller factor than two would do: whatever p / q below it, some requests make the elevator exceed it. */
  lemma FactorTwoIsTight(p: nat, q: nat, up: bool) returns (c: seq<int>, idx: seq<nat>, h: int, other: seq<nat>)
    requires p < 2 * q
    ensures SortedUp(c, idx) && Permutation(other, |c|) && forall i | 0 <= i < |c| :: c[i] >= 0
    ensures q * Travel(h, Cyls(c, ScanOrder(c, idx, h, up))) > p * Travel(h, Cyls(c, other))
  {
    hide ScanOrder, SortedUp, Permutation, Travel, Cyls;
    var n := 3 * q;
    c := if up then [n + 1, 0] else [0, n + 1];
    idx := if up then [1, 0] else [0, 1];
    h := if up then 1 else n;
    other := [1, 0];
    TwoSorted(c, up);
    TwoSides(c, h, up);
    TwoTravel(c, h);
    Exceeds(p, q);
    assert Travel(h, Cyls(c, [0, 1])) == 6 * q + 1 && Travel(h, Cyls(c, other)) == 3 * q + 2;
  }

  method SchedCscan(c: seq<int>, idx: seq<nat>, h: int, up: bool) returns (order: seq<nat>)
    requires SortedUp(c, idx)
    ensures Permutation(order, |c|) && Swept(c, h, up, true, order)
  {
    var ahead, behind;
    if up {
      ahead := Forward(c, idx, h, AtOrAbove);
      behind := Forward(c, idx, h, Below);
    } else {
      ahead := Backward(c, idx, h, AtOrBelow);
      behind := Backward(c, idx, h, Above);
    }
    order := ahead + behind;
    CircularPermutation(c, idx, h, up);
    SweptParts(c, idx, h, up);
  }

  /** Both kinds of sweep serve what is ahead first, each part in its direction. */
  lemma SweptParts(c: seq<int>, idx: seq<nat>, h: int, up: bool)
    requires SortedUp(c, idx)
    ensures Indices(c, ScanOrder(c, idx, h, up)) && Swept(c, h, up, false, ScanOrder(c, idx, h, up))
    ensures Indices(c, CircularOrder(c, idx, h, up)) && Swept(c, h, up, true, CircularOrder(c, idx, h, up))
  {
    var side := if up then AtOrAbove else AtOrBelow;
    KeepBoth(c, idx, h, side);
    KeepBoth(c, idx, h, Other(side));
    KeepRising(c, idx, h, side);
    KeepRising(c, idx, h, Other(side));
    var near, far := Keep(c, idx, h, side), Keep(c, idx, h, Other(side));
    Turned(c, near);
    Turned(c, far);
    hide Keep, Rev, Sooner;
    Joined(c, h, up, false, if up then near else Rev(near), if up then Rev(far) else far);
    Joined(c, h, up, true, if up then near else Rev(near), if up then far else Rev(far));
  }

  predicate Falling(c: seq<int>, s: seq<nat>)
    requires Indices(c, s)
  {
    forall i, j | 0 <= i < j < |s| :: Sooner(c, s[j], s[i])
  }

  lemma Turned(c: seq<int>, s: seq<nat>)
    requires Indices(c, s) && Rising(c, s)
    ensures Indices(c, Rev(s)) && Falling(c, Rev(s)) && forall x :: x in Rev(s) <==> x in s
  {
    RevElements(s);
  }

  lemma Joined(c: seq<int>, h: int, up: bool, circular: bool, s: seq<nat>, t: seq<nat>)
    requires Indices(c, s) && Indices(c, t)
    requires (forall x | x in s :: Ahead(c[x], h, up)) && (forall x | x in t :: !Ahead(c[x], h, up))
    requires if up then Rising(c, s) else Falling(c, s)
    requires if circular == up then Rising(c, t) else Falling(c, t)
    ensures Indices(c, s + t) && Swept(c, h, up, circular, s + t)
  {
    hide Sooner;
    var r := s + t;
    forall i, j | 0 <= i < j < |r| ensures Before(c, h, up, circular, r[i], r[j]) {
      assert r[i] in s || r[i] in t;
    }
  }

  /** The two sides share the requests out. */
  lemma {:induction false} KeepBoth(c: seq<int>, s: seq<nat>, h: int, side: Side)
    requires Indices(c, s)
    ensures |Keep(c, s, h, side)| + |Keep(c, s, h, Other(side))| == |s|
    ensures forall x | x in s :: x in Keep(c, s, h, side) || x in Keep(c, s, h, Other(side))
    ensures forall x | x in Keep(c, s, h, side) :: x in s && On(side, c[x], h)
  {
    if s != [] {
      var n := |s| - 1;
      KeepBoth(c, s[..n], h, side);
      assert s == s[..n] + [s[n]];
    }
  }

  lemma RevElements(s: seq<nat>)
    ensures forall x :: x in Rev(s) <==> x in s
  {
    forall x | x in s ensures x in Rev(s) {
      var i: nat :| i < |s| && s[i] == x;
      assert Rev(s)[|s| - 1 - i] == x;
    }
  }

  lemma ScanPermutation(c: seq<int>, idx: seq<nat>, h: int, up: bool)
    requires Permutation(idx, |c|)
    ensures Permutation(ScanOrder(c, idx, h, up), |c|)
  {
    var side := if up then AtOrAbove else AtOrBelow;
    KeepBoth(c, idx, h, side);
    RevElements(Keep(c, idx, h, side));
    RevElements(Keep(c, idx, h, Other(side)));
    hide Keep, Rev;
  }

  lemma CircularPermutation(c: seq<int>, idx: seq<nat>, h: int, up: bool)
    requires Permutation(idx, |c|)
    ensures Permutation(CircularOrder(c, idx, h, up), |c|)
  {
    var side := if up then AtOrAbove else AtOrBelow;
    KeepBoth(c, idx, h, side);
    RevElements(Keep(c, idx, h, side));
    RevElements(Keep(c, idx, h, Other(side)));
    hide Keep, Rev;
  }

  lemma {:induction false} KeepRising(c: seq<int>, s: seq<nat>, h: int, side: Side)
    requires Indices(c, s) && Rising(c, s)
    ensures Rising(c, Keep(c, s, h, side))
  {
    if s != [] {
      var n := |s| - 1;
      KeepRising(c, s[..n], h, side);
      KeepBoth(c, s[..n], h, side);
      var k := Keep(c, s[..n], h, side);
      hide Keep, On;
      forall i: nat | i < |k| ensures Sooner(c, k[i], s[n]) {
        assert k[i] in s[..n];
      }
      LastRising(c, k, s[n]);
      assert k + [] == k;
    }
  }

  lemma LastRising(c: seq<int>, k: seq<nat>, x: nat)
    requires Indices(c, k) && Rising(c, k) && x < |c| && forall i: nat | i < |k| :: Sooner(c, k[i], x)
    ensures Indices(c, k + [x]) && Rising(c, k + [x])
  {
  }

  lemma UpPath(c: seq<int>, s: seq<nat>, h: int)
    requires Indices(c, s) && Rising(c, s) && forall x | x in s :: c[x] >= h
    ensures OneWay(true, h, Cyls(c, s)) && End(h, Cyls(c, s)) >= h
  {
  }

  lemma DownPath(c: seq<int>, s: seq<nat>, h: int)
    requires Indices(c, s) && Rising(c, s) && forall x | x in s :: c[x] <= h
    ensures OneWay(false, h, Cyls(c, Rev(s))) && End(h, Cyls(c, Rev(s))) <= h
  {
    RevElements(s);
    var p := Cyls(c, Rev(s));
    forall i, j | 0 <= i < j < |p| ensures p[j] <= p[i] {
      assert p[i] == c[s[|s| - 1 - i]] && p[j] == c[s[|s| - 1 - j]];
    }
  }

  lemma CylsAppend(c: seq<int>, s: seq<nat>, t: seq<nat>)
    requires Indices(c, s) && Indices(c, t)
    ensures Cyls(c, s + t) == Cyls(c, s) + Cyls(c, t)
  {
  }

  lemma ScanTwice(c: seq<int>, idx: seq<nat>, h: int, up: bool, other: seq<nat>)
    requires SortedUp(c, idx) && Permutation(other, |c|)
    ensures Indices(c, ScanOrder(c, idx, h, up))
    ensures Travel(h, Cyls(c, ScanOrder(c, idx, h, up))) <= 2 * Travel(h, Cyls(c, other))
  {
    hide Keep, Travel, OneWay, Rising, Cyls, Rev, End;
    var side := if up then AtOrAbove else AtOrBelow;
    var near, far := Keep(c, idx, h, side), Keep(c, idx, h, Other(side));
    KeepBoth(c, idx, h, side);
    KeepBoth(c, idx, h, Other(side));
    KeepRising(c, idx, h, side);
    KeepRising(c, idx, h, Other(side));
    if up {
      UpPath(c, near, h);
      DownPath(c, far, End(h, Cyls(c, near)));
      ScanBound(c, near, Rev(far), h, up, other);
    } else {
      DownPath(c, near, h);
      UpPath(c, far, End(h, Cyls(c, Rev(near))));
      ScanBound(c, Rev(near), far, h, up, other);
    }
  }

  lemma ScanBound(c: seq<int>, first: seq<nat>, second: seq<nat>, h: int, up: bool, other: seq<nat>)
    requires Indices(c, first) && Indices(c, second) && Permutation(other, |c|)
    requires OneWay(up, h, Cyls(c, first)) && OneWay(!up, End(h, Cyls(c, first)), Cyls(c, second))
    ensures Travel(h, Cyls(c, first + second)) <= 2 * Travel(h, Cyls(c, other))
  {
    hide Keep, Travel;
    CylsAppend(c, first, second);
    Covered(c, first, other);
    Covered(c, second, other);
    SweepTwice(up, h, Cyls(c, first), Cyls(c, second), Cyls(c, other));
  }

  lemma Covered(c: seq<int>, s: seq<nat>, other: seq<nat>)
    requires Indices(c, s) && Permutation(other, |c|)
    ensures forall x | x in Cyls(c, s) :: x in Cyls(c, other)
  {
    forall x | x in Cyls(c, s) ensures x in Cyls(c, other) {
      var i: nat :| i < |s| && Cyls(c, s)[i] == x;
      assert s[i] in other;
      var j: nat :| j < |other| && other[j] == s[i];
      assert Cyls(c, other)[j] == x;
    }
  }

  // ---- nearest first --------------------------------------------------------------------------

  /** i comes before j for a head at cur: nearer, or as near and on a lower cylinder, or an earlier arrival there. */
  predicate Nearer(c: seq<int>, cur: int, i: nat, j: nat)
    requires i < |c| && j < |c|
  {
    var di, dj := Abs(c[i] - cur), Abs(c[j] - cur);
    di < dj || (di == dj && (c[i] < c[j] || (c[i] == c[j] && i <= j)))
  }

  /** Every choice is the nearest of the requests still waiting. */
  ghost predicate Greedy(c: seq<int>, h: int, order: seq<nat>)
    requires Indices(c, order)
  {
    forall k | 0 <= k < |order| ::
      forall j: nat | j < |c| && j !in order[..k] :: Nearer(c, End(h, Cyls(c, order[..k])), order[k], j)
  }

  method SchedSstf(c: seq<int>, h: int) returns (order: seq<nat>)
    ensures Permutation(order, |c|) && Greedy(c, h, order)
  {
    var n := |c|;
    var done := seq(n, _ => false);
    order := [];
    var cur := h;
    while |order| < n
      invariant |order| <= n == |done| && Indices(c, order) && Greedy(c, h, order)
      invariant cur == End(h, Cyls(c, order))
      invariant forall i: nat | i < n :: done[i] <==> i in order
      invariant NoRepeat(order)
      decreases n - |order|
    {
      Pigeons(order, n);
      var best := Nearest(c, cur, done);
      GreedyNext(c, h, order, best);
      order := order + [best];
      done := done[best := true];
      cur := c[best];
    }
    Pigeons(order, n);
  }

  /** The inner scan: nearest wins, then the lower cylinder, then the earlier arrival. */
  method Nearest(c: seq<int>, cur: int, done: seq<bool>) returns (best: nat)
    requires |done| == |c| && exists i: nat :: i < |c| && !done[i]
    ensures best < |c| && !done[best] && forall j: nat | j < |c| && !done[j] :: Nearer(c, cur, best, j)
  {
    var found := false;
    best := 0;
    var i := 0;
    while i < |c|
      invariant 0 <= i <= |c| && (found ==> best < i && !done[best])
      invariant forall j: nat | j < i && !done[j] :: found && Nearer(c, cur, best, j)
    {
      if !done[i] {
        var d := Abs(c[i] - cur);
        if !found || d < Abs(c[best] - cur) || (d == Abs(c[best] - cur) && c[i] < c[best]) {
          found, best := true, i;
        }
      }
      i := i + 1;
    }
  }

  lemma GreedyNext(c: seq<int>, h: int, order: seq<nat>, best: nat)
    requires Indices(c, order) && Greedy(c, h, order) && best < |c|
    requires forall j: nat | j < |c| && j !in order :: Nearer(c, End(h, Cyls(c, order)), best, j)
    ensures Indices(c, order + [best]) && Greedy(c, h, order + [best])
    ensures End(h, Cyls(c, order + [best])) == c[best]
  {
    var next := order + [best];
    forall k: nat | k < |next| ensures next[..k] == order[..if k < |order| then k else |order|] { }
    assert order[..|order|] == order;
    assert Cyls(c, next)[|order|] == c[best];
  }

  // ---- the cost model -------------------------------------------------------------------------

  datatype Req = Req(cyl: int, sec: nat, nsec: nat)
  datatype Timing = Timing(seek: nat, rot: nat, xfer: nat, end: nat)
  datatype Drive = Drive(spt: nat, seek: nat, rot: nat, xfer: nat)

  /** One service: the wait is less than a turn, and the transfer starts with the target sector under the head. */
  predicate ServedAt(g: Drive, r: Req, before: nat, cur: int, t: Timing) {
    && t.seek == Abs(r.cyl - cur) * g.seek && t.xfer == r.nsec * g.xfer
    && t.end == before + t.seek + t.rot + t.xfer
    && (g.spt * g.rot == 0 ==> t.rot == 0)
    && (g.spt * g.rot > 0 ==>
          t.rot < g.spt * g.rot && (before + t.seek + t.rot) % (g.spt * g.rot) == r.sec * g.rot % (g.spt * g.rot))
  }

  /** The k-th service begins when and where the one before ended. */
  predicate ServedNth(g: Drive, reqs: seq<Req>, order: seq<nat>, start: int, times: seq<Timing>, k: nat) {
    && k < |order| && k < |times| && (forall i | 0 <= i < |order| :: order[i] < |reqs|)
    && ServedAt(g, reqs[order[k]], if k == 0 then 0 else times[k - 1].end,
                if k == 0 then start else reqs[order[k - 1]].cyl, times[k])
  }

  method Serve(reqs: seq<Req>, order: seq<nat>, g: Drive, start: int) returns (times: seq<Timing>, seekTotal: nat)
    requires forall i | 0 <= i < |order| :: order[i] < |reqs|
    requires forall i | 0 <= i < |reqs| :: reqs[i].sec < g.spt || g.spt == 0
    ensures |times| == |order|
            && seekTotal == Travel(start, seq(|order|, k requires 0 <= k < |order| => reqs[order[k]].cyl))
    ensures forall k | 0 <= k < |order| :: ServedNth(g, reqs, order, start, times, k)
  {
    ghost var path := seq(|order|, k requires 0 <= k < |order| => reqs[order[k]].cyl);
    var t: nat, cur, period := 0, start, g.spt * g.rot;
    times, seekTotal := [], 0;
    var k := 0;
    assert path[..0] == [];
    while k < |order|
      invariant 0 <= k <= |order| == |path| && |times| == k
      invariant t == (if k == 0 then 0 else times[k - 1].end) && cur == if k == 0 then start else reqs[order[k - 1]].cyl
      invariant seekTotal == Travel(start, path[..k]) && cur == End(start, path[..k])
      invariant forall j | 0 <= j < k :: ServedNth(g, reqs, order, start, times, j)
    {
      var r := reqs[order[k]];
      var time := ServeOne(g, r, t, cur, period);
      ghost var before := times;
      times := times + [time];
      forall j: nat | j < k ensures ServedNth(g, reqs, order, start, times, j) {
        assert ServedNth(g, reqs, order, start, before, j);
      }
      t := time.end;
      TravelAppend(start, path[..k], [r.cyl]);
      assert path[..k + 1] == path[..k] + [r.cyl];
      assert Travel(cur, [r.cyl]) == Abs(r.cyl - cur);
      seekTotal := seekTotal + Abs(r.cyl - cur);
      cur := r.cyl;
      k := k + 1;
    }
    assert path[..|order|] == path;
  }

  method ServeOne(g: Drive, r: Req, t: nat, cur: int, period: nat) returns (time: Timing)
    requires period == g.spt * g.rot && (r.sec < g.spt || g.spt == 0)
    ensures ServedAt(g, r, t, cur, time)
  {
    var seek := Abs(r.cyl - cur) * g.seek;
    var at := t + seek;
    var rot := 0;
    if period > 0 {
      var pos, target := at % period, r.sec * g.rot;
      assert target < period by { Within(r.sec, g.spt, g.rot); }
      rot := (target - pos + period) % period;
      WaitLands(at, target, period);
    }
    time := Timing(seek, rot, r.nsec * g.xfer, at + rot + r.nsec * g.xfer);
  }

  lemma Within(a: nat, b: nat, d: nat)
    requires a < b && b * d > 0
    ensures a * d < b * d
  {
  }

  /** Waiting (target - pos + period) % period from angle pos lands on the target. */
  lemma WaitLands(at: nat, target: nat, period: nat)
    requires target < period
    ensures var rot := (target - at % period + period) % period;
      0 <= rot < period && (at + rot) % period == target % period
  {
    DivMod(0, period, target);
    WaitIs(at % period, target, period);
    Rebuilt(at, period);
    Turns(at / period, at % period, target, period);
  }

  /** From angle pos after q turns to the target, in this turn or the next. */
  lemma Turns(q: nat, pos: nat, target: nat, period: nat)
    requires target < period && pos < period
    ensures target >= pos ==> (q * period + pos + (target - pos)) % period == target
    ensures target < pos ==> (q * period + pos + (target - pos + period)) % period == target
  {
    DivMod(q, period, target);
    DivMod(q + 1, period, target);
    MulStep(period, q);
  }

  lemma WaitIs(pos: nat, target: nat, period: nat)
    requires target < period && pos < period
    ensures (target - pos + period) % period == if target >= pos then target - pos else target - pos + period
  {
    if target >= pos { DivMod(1, period, target - pos); } else { DivMod(0, period, target - pos + period); }
  }
}
