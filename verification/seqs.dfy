/** Small facts about sequences shared by the genome modules. */
module Seqs {

  /** Number of occurrences of `v` in `s`: Python's `list.count`. */
  function Count(s: seq<int>, v: int): nat
  {
    if |s| == 0 then 0
    else Count(s[..|s|-1], v) + (if s[|s|-1] == v then 1 else 0)
  }

  /** A value that does not occur is counted zero times. */
  lemma {:induction false} CountAbsent(s: seq<int>, v: int)
    requires v !in s
    ensures Count(s, v) == 0
  {
    if |s| > 0 {
      assert v !in s[..|s|-1];
      CountAbsent(s[..|s|-1], v);
    }
  }

  /** A value that occurs is counted at least once. */
  lemma {:induction false} CountPresent(s: seq<int>, v: int)
    requires v in s
    ensures Count(s, v) >= 1
  {
    if s[|s|-1] != v {
      var j :| 0 <= j < |s| && s[j] == v;
      assert s[..|s|-1][j] == v;
      CountPresent(s[..|s|-1], v);
    }
  }

  /** Two sequences that hold `v` at exactly the same positions count it equally often. */
  lemma {:induction false} CountSame(a: seq<int>, b: seq<int>, v: int)
    requires |a| == |b|
    requires forall i :: 0 <= i < |a| ==> (a[i] == v <==> b[i] == v)
    ensures Count(a, v) == Count(b, v)
  {
    if |a| > 0 {
      var n := |a| - 1;
      assert forall i :: 0 <= i < n ==> a[..n][i] == a[i] && b[..n][i] == b[i];
      CountSame(a[..n], b[..n], v);
    }
  }

  /** No element occurs twice. */
  predicate NoDups<T(==)>(s: seq<T>)
  {
    forall i, j :: 0 <= i < j < |s| ==> s[i] != s[j]
  }

  /** The position of the first occurrence of `x`; in a duplicate-free sequence the only one. */
  function IndexOf<T(==)>(s: seq<T>, x: T): (r: nat)
    requires x in s
    ensures r < |s| && s[r] == x
    ensures forall j :: 0 <= j < r ==> s[j] != x
    ensures NoDups(s) ==> forall p :: 0 <= p < |s| && s[p] == x ==> p == r
  {
    if s[0] == x then 0 else 1 + IndexOf(s[1..], x)
  }
}
