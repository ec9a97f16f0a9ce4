/** Notions used by several components. */
module Basics {
  ghost predicate Distinct<T>(s: seq<T>) {
    forall i, j | 0 <= i < j < |s| :: s[i] != s[j]
  }

  /** What stands before what in `r` stands before it in `s`. */
  ghost predicate SameOrder<T>(r: seq<T>, s: seq<T>) {
    forall i, j, a, b | 0 <= i < j < |r| && 0 <= a < |s| && 0 <= b < |s| && s[a] == r[i] && s[b] == r[j] :: a < b
  }

  lemma OrderTransitive<T>(r: seq<T>, s: seq<T>, t: seq<T>)
    requires SameOrder(r, s) && SameOrder(s, t)
    requires forall x | x in r :: x in s
    ensures SameOrder(r, t)
  {
    forall i, j, a, b | 0 <= i < j < |r| && 0 <= a < |t| && 0 <= b < |t| && t[a] == r[i] && t[b] == r[j]
      ensures a < b
    {
      assert r[i] in s && r[j] in s;
      var c :| 0 <= c < |s| && s[c] == r[i];
      var d :| 0 <= d < |s| && s[d] == r[j];
      assert c < d;
    }
  }

  lemma OwnOrder<T>(s: seq<T>)
    requires Distinct(s)
    ensures SameOrder(s, s)
  {
    forall i, j, a, b | 0 <= i < j < |s| && 0 <= a < |s| && 0 <= b < |s| && s[a] == s[i] && s[b] == s[j]
      ensures a < b
    {
      assert a == i && b == j;
    }
  }

  lemma MulAtLeast(d: int, k: int)
    requires d > 0
    ensures k >= 1 ==> d * k >= d
    ensures k <= -1 ==> d * k <= -d
  {
  }
}
