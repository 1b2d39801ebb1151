/** Sums of multisets over an indexed family of holders (worker slots, lease slots). */
module Tallies {

  /** Everything held by the members of `xs`, where `f` says what one member holds. */
  function Gather<A, B>(xs: seq<A>, f: A -> multiset<B>): multiset<B> {
    if |xs| == 0 then multiset{} else f(xs[0]) + Gather(xs[1..], f)
  }

  /** Replacing one member exchanges exactly what that member held. */
  lemma {:induction false} GatherUpdate<A, B>(xs: seq<A>, i: nat, x: A, f: A -> multiset<B>)
    requires i < |xs|
    ensures Gather(xs[i := x], f) + f(xs[i]) == Gather(xs, f) + f(x)
  {
    if i == 0 {
      assert xs[0 := x][1..] == xs[1..];
    } else {
      var rest := xs[1..];
      assert xs[i := x][1..] == rest[i - 1 := x];
      GatherUpdate(rest, i - 1, x, f);
      assert Gather(xs[i := x], f) + f(xs[i]) == f(xs[0]) + (Gather(rest[i - 1 := x], f) + f(rest[i - 1]));
    }
  }

  /** What one member holds is part of the whole. */
  lemma {:induction false} GatherIncludes<A, B>(xs: seq<A>, i: nat, f: A -> multiset<B>)
    requires i < |xs|
    ensures f(xs[i]) <= Gather(xs, f)
  {
    if i > 0 {
      GatherIncludes(xs[1..], i - 1, f);
    }
  }

  /** Two different members hold separate parts of the whole. */
  lemma {:induction false} GatherSeparates<A, B>(xs: seq<A>, i: nat, j: nat, f: A -> multiset<B>)
    requires i < j < |xs|
    ensures f(xs[i]) + f(xs[j]) <= Gather(xs, f)
  {
    if i == 0 {
      GatherIncludes(xs[1..], j - 1, f);
    } else {
      GatherSeparates(xs[1..], i - 1, j - 1, f);
    }
  }

  /** If nobody holds anything, the whole is empty. */
  lemma {:induction false} GatherEmpty<A, B>(xs: seq<A>, f: A -> multiset<B>)
    requires forall i :: 0 <= i < |xs| ==> f(xs[i]) == multiset{}
    ensures Gather(xs, f) == multiset{}
  {
    if |xs| > 0 {
      assert f(xs[0]) == multiset{};
      forall i | 0 <= i < |xs[1..]| ensures f(xs[1..][i]) == multiset{} {
        assert xs[1..][i] == xs[i + 1];
      }
      GatherEmpty(xs[1..], f);
    }
  }

  /** With at most one item per member, the whole is no larger than the number of members. */
  lemma {:induction false} GatherBounded<A, B>(xs: seq<A>, f: A -> multiset<B>)
    requires forall i :: 0 <= i < |xs| ==> |f(xs[i])| <= 1
    ensures |Gather(xs, f)| <= |xs|
  {
    if |xs| > 0 {
      assert |f(xs[0])| <= 1;
      forall i | 0 <= i < |xs[1..]| ensures |f(xs[1..][i])| <= 1 {
        assert xs[1..][i] == xs[i + 1];
      }
      GatherBounded(xs[1..], f);
    }
  }

  /** ... and strictly smaller when some member holds nothing. */
  lemma {:induction false} GatherLeavesOne<A, B>(xs: seq<A>, k: nat, f: A -> multiset<B>)
    requires k < |xs| && f(xs[k]) == multiset{}
    requires forall i :: 0 <= i < |xs| ==> |f(xs[i])| <= 1
    ensures |Gather(xs, f)| < |xs|
  {
    forall i | 0 <= i < |xs[1..]| ensures |f(xs[1..][i])| <= 1 {
      assert xs[1..][i] == xs[i + 1];
    }
    if k == 0 {
      GatherBounded(xs[1..], f);
    } else {
      assert |f(xs[0])| <= 1;
      GatherLeavesOne(xs[1..], k - 1, f);
    }
  }

  lemma Cancel<B>(a: multiset<B>, b: multiset<B>, x: multiset<B>)
    requires a + x == b + x
    ensures a == b
  {
    assert a == (a + x) - x && b == (b + x) - x;
  }

  /** The first n identifiers, each once. */
  ghost function Ids(n: nat): multiset<nat> {
    if n == 0 then multiset{} else Ids(n - 1) + multiset{n - 1}
  }

  lemma {:induction false} IdsOnce(n: nat, x: nat)
    ensures Ids(n)[x] == if x < n then 1 else 0
    ensures |Ids(n)| == n
  {
    if n > 0 {
      IdsOnce(n - 1, x);
    }
  }

  ghost predicate StrictlyIncreasing(s: seq<nat>) {
    forall i, j :: 0 <= i < j < |s| ==> s[i] < s[j]
  }
}
