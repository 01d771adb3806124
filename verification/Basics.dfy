/** Counting nodes, and finding the step of a run that establishes a property. */
module Basics {
  ghost function Below(n: nat): (s: set<nat>)
    ensures |s| == n
    ensures forall x :: x in s <==> 0 <= x < n
  {
    if n == 0 then {} else Below(n - 1) + {n - 1}
  }

  lemma SubsetSize(a: set<nat>, b: set<nat>)
    requires a <= b
    ensures |a| <= |b|
  {
    assert b == a + (b - a);
  }

  /** Two groups of replicas that together outnumber the cluster share a member. */
  lemma GroupsMeet(n: nat, a: set<nat>, b: set<nat>)
    requires a <= Below(n) && b <= Below(n) && |a| + |b| > n
    ensures a * b != {}
  {
    if a * b == {} {
      assert |a + b| == |a| + |b|;
      SubsetSize(a + b, Below(n));
    }
  }

  ghost function Members(nodes: seq<nat>): set<nat> {
    set n: nat | n in nodes
  }

  lemma {:induction false} DistinctCounted(nodes: seq<nat>)
    requires forall x, y :: 0 <= x < y < |nodes| ==> nodes[x] != nodes[y]
    ensures |Members(nodes)| == |nodes|
  {
    if nodes == [] {
    } else {
      var init, last := nodes[..|nodes| - 1], nodes[|nodes| - 1];
      DistinctCounted(init);
      assert nodes == init + [last];
      assert Members(nodes) == Members(init) + {last};
    }
  }

  /** A property that fails at `lo` and holds at `hi` is established by some single step between them. */
  lemma {:induction false} StepThatEstablishes(p: nat -> bool, lo: nat, hi: nat) returns (m: nat)
    requires lo < hi && !p(lo) && p(hi)
    ensures lo <= m < hi && !p(m) && p(m + 1)
    decreases hi
  {
    if p(hi - 1) {
      m := StepThatEstablishes(p, lo, hi - 1);
    } else {
      m := hi - 1;
    }
  }
}
