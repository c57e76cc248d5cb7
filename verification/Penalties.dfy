/** How the penalties of one rule in one domain add up: sorted from the largest, each
    later one counts for less. A penalty is in tenths, a cluster in two-hundredths. */
module Penalties {

  /** Twentieths that the penalty at position `i` keeps: 1, 1/2, 1/4, then 1/10. */
  function Returns(i: nat): nat {
    if i == 0 then 20 else if i == 1 then 10 else if i == 2 then 5 else 2
  }

  /** The penalties in the given order, weighted from position `k` on. */
  function Weighted(penalties: seq<nat>, k: nat): nat {
    if penalties == [] then 0 else penalties[0] * Returns(k) + Weighted(penalties[1..], k + 1)
  }

  ghost predicate Descending(s: seq<nat>) {
    forall i, j :: 0 <= i < j < |s| ==> s[i] >= s[j]
  }

  function Insert(x: nat, s: seq<nat>): seq<nat> {
    if s == [] || x >= s[0] then [x] + s else [s[0]] + Insert(x, s[1..])
  }

  function SortDescending(s: seq<nat>): seq<nat> {
    if s == [] then [] else Insert(s[0], SortDescending(s[1..]))
  }

  lemma {:induction false} InsertKeepsElements(x: nat, s: seq<nat>)
    ensures multiset(Insert(x, s)) == multiset(s) + multiset{x}
  {
    if s != [] && x < s[0] {
      InsertKeepsElements(x, s[1..]);
      assert s == [s[0]] + s[1..];
    }
  }

  ghost predicate AtLeastAll(y: nat, s: seq<nat>) {
    forall i :: 0 <= i < |s| ==> y >= s[i]
  }

  lemma {:induction false} InsertBounded(y: nat, x: nat, s: seq<nat>)
    requires AtLeastAll(y, s) && y >= x
    ensures AtLeastAll(y, Insert(x, s))
  {
    if s != [] && x < s[0] {
      InsertBounded(y, x, s[1..]);
    }
  }

  lemma {:induction false} InsertDescending(x: nat, s: seq<nat>)
    requires Descending(s)
    ensures Descending(Insert(x, s))
  {
    if s != [] && x < s[0] {
      InsertDescending(x, s[1..]);
      InsertBounded(s[0], x, s[1..]);
    }
  }

  lemma {:induction false} SortExact(s: seq<nat>)
    ensures Descending(SortDescending(s)) && multiset(SortDescending(s)) == multiset(s)
  {
    if s != [] {
      SortExact(s[1..]);
      InsertDescending(s[0], SortDescending(s[1..]));
      InsertKeepsElements(s[0], SortDescending(s[1..]));
      assert s == [s[0]] + s[1..];
    }
  }

  // ---------------------------------------------------------------------------
  // Rearrangement
  // ---------------------------------------------------------------------------

  lemma {:induction false} InsertPaysMost(x: nat, s: seq<nat>, k: nat)
    requires Descending(s)
    ensures Weighted([x] + s, k) <= Weighted(Insert(x, s), k)
  {
    if s == [] || x >= s[0] {
    } else {
      var y, rest := s[0], s[1..];
      InsertPaysMost(x, rest, k + 1);
      assert ([x] + s)[1..] == s && ([x] + rest)[1..] == rest;
      assert x * Returns(k) + y * Returns(k + 1) <= y * Returns(k) + x * Returns(k + 1) by {
        assert (y - x) * (Returns(k) - Returns(k + 1)) >= 0;
      }
    }
  }

  /** No order of the penalties weighs more than the descending one. */
  lemma {:induction false} DescendingPaysMost(penalties: seq<nat>, k: nat)
    ensures Weighted(penalties, k) <= Weighted(SortDescending(penalties), k)
  {
    if penalties != [] {
      var x, rest := penalties[0], penalties[1..];
      DescendingPaysMost(rest, k + 1);
      SortExact(rest);
      assert ([x] + SortDescending(rest))[1..] == SortDescending(rest);
      InsertPaysMost(x, SortDescending(rest), k);
    }
  }

  // ---------------------------------------------------------------------------
  // Dominance
  // ---------------------------------------------------------------------------

  /** `b` is at least as long as `a` and at least as large at every position of `a`. */
  ghost predicate Dominates(b: seq<nat>, a: seq<nat>) {
    |a| <= |b| && forall i :: 0 <= i < |a| ==> a[i] <= b[i]
  }

  /** Sorted descending, a larger collection dominates a smaller one position by position. */
  lemma {:induction false} MoreDominates(a: seq<nat>, b: seq<nat>)
    requires Descending(a) && Descending(b) && multiset(a) <= multiset(b)
    ensures Dominates(b, a)
  {
    if a != [] {
      LargestFirst(a, b);
      TailsIncluded(a, b);
      MoreDominates(a[1..], b[1..]);
      assert forall i :: 1 <= i < |a| ==> a[i] == a[1..][i - 1] && b[i] == b[1..][i - 1];
    }
  }

  lemma LargestFirst(a: seq<nat>, b: seq<nat>)
    requires Descending(a) && Descending(b) && multiset(a) <= multiset(b) && a != []
    ensures b != [] && a[0] <= b[0] && (a[0] == b[0] || multiset(a)[b[0]] == 0)
  {
    assert a[0] in multiset(a);
    assert multiset(b)[a[0]] > 0;
    assert a[0] in b;
    if b[0] in multiset(a) {
      assert b[0] in a;
    }
  }

  lemma TailsIncluded(a: seq<nat>, b: seq<nat>)
    requires a != [] && b != [] && multiset(a) <= multiset(b)
    requires a[0] == b[0] || multiset(a)[b[0]] == 0
    ensures multiset(a[1..]) <= multiset(b[1..])
  {
    HeadCount(a);
    HeadCount(b);
    forall x: nat
      ensures multiset(a[1..])[x] <= multiset(b[1..])[x]
    {
      assert multiset(a)[x] <= multiset(b)[x];
    }
  }

  lemma HeadCount(s: seq<nat>)
    requires s != []
    ensures forall x: nat :: multiset(s)[x] == multiset(s[1..])[x] + if x == s[0] then 1 else 0
  {
    assert s == [s[0]] + s[1..];
    assert multiset(s) == multiset{s[0]} + multiset(s[1..]);
  }

  lemma {:induction false} DominanceWeighs(b: seq<nat>, a: seq<nat>, k: nat)
    requires Dominates(b, a)
    ensures Weighted(a, k) <= Weighted(b, k)
  {
    if a != [] {
      DominanceWeighs(b[1..], a[1..], k + 1);
      assert a[0] * Returns(k) <= b[0] * Returns(k);
    }
  }

  const CLUSTER_CAP: nat := 20 * 200

  /** Points one rule takes in one domain, in two-hundredths. */
  function ClusterPoints(penalties: seq<nat>): nat {
    var w := Weighted(SortDescending(penalties), 0);
    if w <= CLUSTER_CAP then w else CLUSTER_CAP
  }

  /** More penalties never take fewer points; the same penalties in another order take the same. */
  lemma ClusterMonotone(a: seq<nat>, b: seq<nat>)
    requires multiset(a) <= multiset(b)
    ensures ClusterPoints(a) <= ClusterPoints(b)
  {
    SortExact(a);
    SortExact(b);
    MoreDominates(SortDescending(a), SortDescending(b));
    DominanceWeighs(SortDescending(b), SortDescending(a), 0);
  }

  // ---------------------------------------------------------------------------
  // Repetition
  // ---------------------------------------------------------------------------

  function Copies(p: nat, n: nat): seq<nat> {
    seq(n, _ => p)
  }

  /** What `n` equal penalties of `p` weigh: the second half of the first, the third a quarter,
      every later one a tenth. */
  function Diminished(p: nat, n: nat): nat {
    if n == 0 then 0 else if n == 1 then 20 * p else if n == 2 then 20 * p + 10 * p
    else 20 * p + 10 * p + 5 * p + 2 * p * (n - 3)
  }

  lemma {:induction false} CopiesSorted(p: nat, n: nat)
    ensures SortDescending(Copies(p, n)) == Copies(p, n)
  {
    if n > 0 {
      CopiesSorted(p, n - 1);
      assert Copies(p, n) == [p] + Copies(p, n - 1);
      assert Copies(p, n)[1..] == Copies(p, n - 1);
    }
  }

  lemma CopyStep(p: nat, n: nat, k: nat)
    requires n > 0
    ensures Weighted(Copies(p, n), k) == p * Returns(k) + Weighted(Copies(p, n - 1), k + 1)
  {
    assert Copies(p, n)[1..] == Copies(p, n - 1);
  }

  lemma NoCopies(p: nat, k: nat)
    ensures Weighted(Copies(p, 0), k) == 0
  {
  }

  lemma {:induction false} LateCopies(p: nat, n: nat, k: nat)
    requires k >= 3
    ensures Weighted(Copies(p, n), k) == 2 * p * n
  {
    if n == 0 {
      NoCopies(p, k);
    } else {
      LateCopies(p, n - 1, k + 1);
      CopyStep(p, n, k);
      OneMoreTime(2 * p, n);
    }
  }

  lemma OneMoreTime(x: nat, n: nat)
    requires n > 0
    ensures x * n == x * (n - 1) + x
  {
  }

  lemma CopiesWeigh(p: nat, n: nat)
    ensures Weighted(Copies(p, n), 0) == Diminished(p, n)
  {
    hide Weighted, Copies;
    NoCopies(p, 0);
    NoCopies(p, 1);
    NoCopies(p, 2);
    if n >= 1 {
      CopyStep(p, n, 0);
    }
    if n >= 2 {
      CopyStep(p, n - 1, 1);
    }
    if n >= 3 {
      CopyStep(p, n - 2, 2);
      LateCopies(p, n - 3, 3);
    }
  }

  /** Each repetition of a penalty of one rule takes less than the one before it. */
  lemma RepeatsCountLess(p: nat, n: nat)
    ensures ClusterPoints(Copies(p, n)) == if Diminished(p, n) <= 4000 then Diminished(p, n) else 4000
  {
    hide Weighted, Copies, Diminished, SortDescending;
    CopiesSorted(p, n);
    CopiesWeigh(p, n);
  }

  // ---------------------------------------------------------------------------
  // One penalty in place of another
  // ---------------------------------------------------------------------------

  /** A penalty from here on fills a cluster by itself. */
  const FULL: nat := 200

  function Effective(penalty: nat): nat {
    if penalty <= FULL then penalty else FULL
  }

  lemma OnePenalty(p: nat)
    ensures ClusterPoints([p]) == 20 * Effective(p)
  {
    assert SortDescending([p]) == [p];
    assert Weighted([p], 0) == p * 20;
  }

  lemma {:induction false} InsertLarger(x: nat, y: nat, s: seq<nat>)
    requires Descending(s) && x <= y
    ensures Dominates(Insert(y, s), Insert(x, s))
  {
    if s != [] && x < s[0] {
      InsertLarger(x, if y < s[0] then y else s[0], s[1..]);
      assert y >= s[0] ==> Insert(s[0], s[1..]) == s;
    }
  }

  lemma {:induction false} InsertZero(s: seq<nat>, k: nat)
    requires Descending(s)
    ensures Weighted(Insert(0, s), k) == Weighted(s, k)
  {
    if s == [] {
      assert Weighted([0], k) == 0;
    } else if s[0] == 0 {
      ZerosWeighNothing(s, k);
      ZerosWeighNothing([0] + s, k);
    } else {
      InsertZero(s[1..], k + 1);
    }
  }

  lemma {:induction false} ZerosWeighNothing(s: seq<nat>, k: nat)
    requires forall i :: 0 <= i < |s| ==> s[i] == 0
    ensures Weighted(s, k) == 0
  {
    if s != [] {
      ZerosWeighNothing(s[1..], k + 1);
    }
  }

  /** A larger penalty in place of a smaller one never takes fewer points; beyond a full
      cluster the size no longer matters. */
  lemma ClusterReplaced(rest: seq<nat>, x: nat, y: nat)
    requires Effective(x) <= Effective(y)
    ensures ClusterPoints([x] + rest) <= ClusterPoints([y] + rest)
  {
    assert ([x] + rest)[1..] == rest && ([y] + rest)[1..] == rest;
    if x <= y {
      SortExact(rest);
      InsertLarger(x, y, SortDescending(rest));
      DominanceWeighs(Insert(y, SortDescending(rest)), Insert(x, SortDescending(rest)), 0);
    } else {
      OnePenalty(y);
      ClusterMonotone([y], [y] + rest);
    }
  }

  lemma ClusterZero(rest: seq<nat>)
    ensures ClusterPoints([0] + rest) == ClusterPoints(rest)
  {
    assert ([0] + rest)[1..] == rest;
    SortExact(rest);
    InsertZero(SortDescending(rest), 0);
  }

  method Cluster(penalties: seq<nat>) returns (points: nat)
    ensures points == ClusterPoints(penalties)
    ensures points <= CLUSTER_CAP
  {
    var sorted := SortDescending(penalties);
    var cluster := 0;
    for i := 0 to |sorted|
      invariant cluster + Weighted(sorted[i..], i) == Weighted(sorted, 0)
    {
      cluster := cluster + sorted[i] * Returns(if i < 3 then i else 3);
      assert sorted[i..][1..] == sorted[i + 1..];
    }
    points := if cluster <= CLUSTER_CAP then cluster else CLUSTER_CAP;
  }
}
