/** Counting arguments on finite sequences of naturals, shared by the two pointer rings and the
    address generator. */
module Finite {

  ghost predicate Distinct<T(!new)>(s: seq<T>) {
    forall i, j :: 0 <= i < j < |s| ==> s[i] != s[j]
  }

  ghost predicate Bounded(s: seq<nat>, n: nat) {
    forall i :: 0 <= i < |s| ==> s[i] < n
  }

  /** A sequence naming each of the first `n` naturals exactly once. */
  ghost predicate Permutation(s: seq<nat>, n: nat) {
    |s| == n && Distinct(s) && Bounded(s, n)
  }

  ghost function Below(n: nat): (r: set<nat>)
    ensures forall i: nat :: i in r <==> i < n
  {
    if n == 0 then {} else Below(n - 1) + {n - 1}
  }

  ghost function Elements<T>(s: seq<T>): set<T> {
    set x | x in s
  }

  lemma OneMore<T>(s: set<T>, x: T)
    requires x !in s
    ensures |s + {x}| == |s| + 1
  {
  }

  lemma {:induction false} BelowSize(n: nat)
    ensures |Below(n)| == n
  {
    if n > 0 {
      BelowSize(n - 1);
      OneMore(Below(n - 1), n - 1);
    }
  }

  lemma {:induction false} DistinctSize<T(!new)>(s: seq<T>)
    requires Distinct(s)
    ensures |Elements(s)| == |s|
  {
    if s != [] {
      var t := s[..|s| - 1];
      DistinctSize(t);
      assert s == t + [s[|s| - 1]] && s[|s| - 1] !in t;
      assert Elements(s) == Elements(t) + {s[|s| - 1]};
    }
  }

  lemma SubsetSize<T>(a: set<T>, b: set<T>)
    requires a <= b
    ensures |a| <= |b| && |b - a| == |b| - |a|
  {
    assert b == a + (b - a);
  }

  /** Exactly `n - |s|` of the first `n` naturals do not occur in `s`. */
  lemma Absent(s: seq<nat>, n: nat)
    requires Distinct(s) && Bounded(s, n)
    ensures |s| <= n && |Below(n) - Elements(s)| == n - |s|
  {
    BelowSize(n);
    DistinctSize(s);
    SubsetSize(Elements(s), Below(n));
  }

  /** A permutation reaches every index. */
  lemma PermutationOnto(s: seq<nat>, n: nat, v: nat)
    requires Permutation(s, n) && v < n
    ensures v in s
  {
    Absent(s, n);
    assert v in Below(n) - Elements(s) || v in s;
  }

  /** Among more than `n` naturals below `n`, two are equal. */
  lemma Repeats(s: seq<nat>, n: nat) returns (i: nat, j: nat)
    requires Bounded(s, n) && n < |s|
    ensures i < j < |s| && s[i] == s[j]
  {
    if Distinct(s) {
      Absent(s, n);
    }
    i, j :| 0 <= i < j < |s| && s[i] == s[j];
  }
}
