/** Quorum sizes for one to seven voters and the intersections they guarantee. */
module Quorum {
  import opened Types

  function Slow(n: nat): nat {
    n / 2 + 1
  }

  /** The optimized fast quorum for odd sizes, the conservative one for even sizes. */
  function Fast(n: nat): nat
    requires n >= 1
  {
    if n % 2 == 1 then
      var f := n / 2;
      if f + (f + 1) / 2 == 0 then 1 else f + (f + 1) / 2
    else n - (n - 1) / 4
  }

  function Witness(n: nat): int
    requires n >= 1
  {
    Fast(n) + Slow(n) - n
  }

  lemma SizesOrdered(n: nat)
    requires 1 <= n <= 7
    ensures 1 <= Slow(n) <= n && 1 <= Fast(n) <= n && Slow(n) <= Fast(n) + 1
    ensures Witness(n) >= 1 && 2 * Slow(n) > n
  {
  }

  /** Every k that reaches the bound is at least v, and v reaches it. */
  ghost predicate IsLeast(v: nat, reaches: nat -> bool) {
    reaches(v) && forall k: nat | reaches(k) :: v <= k
  }

  /**
   A slow quorum is the least majority. A fast quorum of an odd number of voters is the least that
   leaves, in every slow quorum, half of its members as witnesses; of an even number, the least above
   three quarters.
   */
  lemma QuorumLaws(n: nat)
    requires 1 <= n <= 7
    ensures IsLeast(Slow(n), k => 2 * k > n)
    ensures n % 2 == 1 ==> IsLeast(Fast(n), k => k >= 1 && k + Slow(n) - n >= Slow(n) / 2)
    ensures n % 2 == 0 ==> IsLeast(Fast(n), k => 4 * k > 3 * n)
    ensures Fast(n) == [1, 2, 2, 4, 3, 5, 5][n - 1] && Witness(n) == Fast(n) + Slow(n) - n
  {
  }

  /** Two sets of voters overlap in at least the excess of their sizes. */
  lemma Overlap(voters: set<ReplicaID>, a: set<ReplicaID>, b: set<ReplicaID>)
    requires a <= voters && b <= voters
    ensures |a * b| >= |a| + |b| - |voters|
  {
    assert |a + b| == |a| + |b| - |a * b|;
    SubsetSize(a + b, voters);
  }

  lemma {:induction false} SubsetSize(a: set<ReplicaID>, b: set<ReplicaID>)
    requires a <= b
    ensures |a| <= |b|
    decreases a
  {
    if a != {} {
      var x :| x in a;
      SubsetSize(a - {x}, b - {x});
    }
  }

  /** Any two slow quorums share a voter. */
  lemma SlowQuorumsMeet(voters: set<ReplicaID>, a: set<ReplicaID>, b: set<ReplicaID>)
    requires a <= voters && b <= voters && |a| >= Slow(|voters|) && |b| >= Slow(|voters|)
    ensures exists x :: x in a && x in b
  {
    Overlap(voters, a, b);
    var x :| x in a * b;
  }
}
