/** Duplicate-free sequences and positions in them. */
module Sequences {

  predicate Distinct<T(==)>(s: seq<T>) {
    forall i, j | 0 <= i < j < |s| :: s[i] != s[j]
  }

  lemma DistinctCons<T>(x: T, s: seq<T>)
    ensures Distinct([x] + s) <==> x !in s && Distinct(s)
  {
    var all := [x] + s;
    if Distinct(all) {
      forall i | 0 <= i < |s| ensures s[i] != x {
        assert all[0] != all[i + 1];
      }
      forall i, j | 0 <= i < j < |s| ensures s[i] != s[j] {
        assert all[i + 1] != all[j + 1];
      }
    }
  }

  /** Where an element first occurs, or the length when it is absent. */
  function IndexOf<T(==)>(s: seq<T>, x: T): (p: nat)
    ensures p <= |s| && (p < |s| <==> x in s)
    ensures p < |s| ==> s[p] == x
    ensures forall i | 0 <= i < p :: s[i] != x
  {
    if s == [] || s[0] == x then 0 else 1 + IndexOf(s[1..], x)
  }

  /** Each element once, in order of first appearance. */
  function Dedup<T(==)>(s: seq<T>): seq<T> {
    if s == [] then [] else
      var kept, last := Dedup(s[..|s| - 1]), s[|s| - 1];
      if last in kept then kept else kept + [last]
  }

  lemma {:induction false} DedupIs<T(!new)>(s: seq<T>)
    ensures Distinct(Dedup(s)) && forall x :: x in Dedup(s) <==> x in s
  {
    if s != [] {
      DedupIs(s[..|s| - 1]);
      assert s == s[..|s| - 1] + [s[|s| - 1]];
    }
  }

  lemma {:induction false} DedupOfDistinct<T>(s: seq<T>)
    requires Distinct(s)
    ensures Dedup(s) == s
  {
    if s != [] {
      DedupOfDistinct(s[..|s| - 1]);
      assert s == s[..|s| - 1] + [s[|s| - 1]];
    }
  }
}
