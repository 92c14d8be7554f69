/** Sizes of finite sets of numbers. */
module FiniteSets {

  lemma WithoutCard(s: set<nat>, x: nat)
    ensures |s| == |s - {x}| + (if x in s then 1 else 0)
  {
    if x in s {
      assert s == (s - {x}) + {x};
    } else {
      assert s == s - {x};
    }
  }

  lemma {:induction false} BelowCard(s: set<nat>, n: nat)
    requires forall x | x in s :: x < n
    ensures |s| <= n
    ensures |s| == n ==> forall x | 0 <= x < n :: x in s
    decreases n
  {
    if n > 0 {
      var r := s - {n - 1};
      BelowCard(r, n - 1);
      WithoutCard(s, n - 1);
      forall x | |s| == n && 0 <= x < n ensures x in s {
        assert x == n - 1 || x in r;
      }
    } else {
      assert s == {};
    }
  }

  lemma {:induction false} AtLeast(s: set<nat>, n: nat)
    requires forall x | 0 <= x < n :: x in s
    ensures |s| >= n
    decreases n
  {
    if n > 0 {
      AtLeast(s - {n - 1}, n - 1);
      WithoutCard(s, n - 1);
    }
  }

  lemma DisjointCard(s: set<nat>, r: set<nat>)
    requires s !! r
    ensures |s + r| == |s| + |r|
  {}

  lemma DifferenceCard(s: set<nat>, r: set<nat>)
    requires r <= s
    ensures |s - r| == |s| - |r|
  {
    assert s == (s - r) + r;
    assert |(s - r) + r| == |s - r| + |r|;
  }
}
