/** Counting the elements of sequences without repetition. */
module Counting {
  function Elements(s: seq<nat>): set<nat> { set x | x in s }

  predicate NoRepeat(s: seq<nat>) { forall i, j | 0 <= i < j < |s| :: s[i] != s[j] }

  lemma {:induction false} Counted(s: seq<nat>)
    ensures |Elements(s)| <= |s|
    ensures NoRepeat(s) ==> |Elements(s)| == |s|
  {
    if s != [] {
      var n := |s| - 1;
      Counted(s[..n]);
      assert Elements(s) == Elements(s[..n]) + {s[n]};
    } else {
      assert Elements(s) == {};
    }
  }

  lemma SubsetCount(a: set<nat>, b: set<nat>)
    requires a <= b
    ensures |a| <= |b| && (|a| == |b| ==> a == b)
  {
    assert b == a + (b - a);
  }

  function UpTo(n: nat): (r: set<nat>)
    ensures |r| == n && forall x: nat :: x in r <==> x < n
  {
    if n == 0 then {} else UpTo(n - 1) + {n - 1}
  }

  /** Numbers below n without repetition: at most n, and all of them if n. */
  lemma Pigeons(s: seq<nat>, n: nat)
    requires NoRepeat(s) && forall i | 0 <= i < |s| :: s[i] < n
    ensures |s| <= n && (|s| == n <==> forall x: nat | x < n :: x in s)
  {
    Counted(s);
    SubsetCount(Elements(s), UpTo(n));
    if |s| == n {
      forall x: nat | x < n ensures x in s { assert x in UpTo(n) && x in Elements(s); }
    }
    if forall x: nat | x < n :: x in s {
      assert forall x | x in UpTo(n) :: x in s;
      SubsetCount(UpTo(n), Elements(s));
    }
  }

  // ---- sorting --------------------------------------------------------------------------------

  predicate SortedBy<T>(s: seq<T>, before: (T, T) -> bool) {
    forall i, j | 0 <= i < j < |s| :: before(s[i], s[j])
  }

  predicate Asymmetric<T>(s: seq<T>, before: (T, T) -> bool) {
    forall i, j | 0 <= i < |s| && 0 <= j < |s| && before(s[i], s[j]) :: !before(s[j], s[i])
  }

  /** Sorted by a relation that never holds both ways, the same elements come in one order only. */
  lemma {:induction false} OneOrder<T>(s: seq<T>, t: seq<T>, before: (T, T) -> bool)
    requires SortedBy(s, before) && SortedBy(t, before) && Asymmetric(s, before)
    requires (forall x | x in s :: x in t) && (forall x | x in t :: x in s)
    ensures s == t
  {
    assert (s != [] ==> s[0] in s && s[0] in t) && (t != [] ==> t[0] in t && t[0] in s);
    if s != [] {
      FirstAlone(s, s, before);
      FirstAlone(t, s, before);
      OneOrder(s[1..], t[1..], before);
    }
  }

  lemma FirstAlone<T>(s: seq<T>, all: seq<T>, before: (T, T) -> bool)
    requires s != [] && SortedBy(s, before) && Asymmetric(all, before) && forall x | x in s :: x in all
    ensures forall x | x in s :: x == s[0] || before(s[0], x)
    ensures forall x | x in s[1..] :: x in s && x != s[0]
  {
    forall x | x in s[1..] ensures before(s[0], x) && x != s[0] {
      var i: nat :| i < |s[1..]| && s[1..][i] == x;
      assert before(s[0], s[i + 1]) && s[0] in all && x in all;
    }
  }
}
