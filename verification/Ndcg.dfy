/** The ranking metric of the benchmark: discounted gain of the top `k`, relative to the
    gain of the ideal list. The discount is any positive, strictly decreasing weight. */
module Ndcg {
  import opened Collections

  type Weight = nat -> real

  ghost predicate IsDiscount(w: Weight) {
    && (forall i: nat :: w(i) > 0.0)
    && (forall i: nat, j: nat :: i < j ==> w(i) > w(j))
  }

  /** Slice up to `k`; a negative bound counts from the end. */
  function Top(ids: seq<string>, k: int): seq<string> {
    if k >= 0 then (if k <= |ids| then ids[..k] else ids)
    else if |ids| + k >= 0 then ids[..|ids| + k] else []
  }

  /** Gain of the first `n` places. */
  function Gain(ids: seq<string>, ideal: seq<string>, w: Weight, n: nat): real
    requires n <= |ids|
  {
    if n == 0 then 0.0 else Gain(ids, ideal, w, n - 1) + if ids[n - 1] in ideal then w(n - 1) else 0.0
  }

  function Dcg(ids: seq<string>, ideal: seq<string>, k: int, w: Weight): real {
    var top := Top(ids, k);
    Gain(top, ideal, w, |top|)
  }

  function NdcgAtK(ranked: seq<string>, ideal: seq<string>, k: int, w: Weight): real {
    if ideal == [] then 1.0
    else
      var best := Dcg(Top(ideal, k), ideal, k, w);
      if best != 0.0 then Dcg(ranked, ideal, k, w) / best else 0.0
  }

  // ---------------------------------------------------------------------------

  /** The most that `n` ideal items can gain: all of them first. */
  function Full(n: nat, w: Weight): real {
    if n == 0 then 0.0 else Full(n - 1, w) + w(n - 1)
  }

  function Found(ids: seq<string>, ideal: seq<string>, n: nat): (r: nat)
    requires n <= |ids|
    ensures r <= n
  {
    if n == 0 then 0 else Found(ids, ideal, n - 1) + if ids[n - 1] in ideal then 1 else 0
  }

  ghost predicate AllIdeal(ids: seq<string>, ideal: seq<string>, n: nat) {
    n <= |ids| && forall i :: 0 <= i < n ==> ids[i] in ideal
  }

  lemma {:induction false} FullGrows(m: nat, n: nat, w: Weight)
    requires IsDiscount(w) && m <= n
    ensures 0.0 <= Full(m, w) <= Full(n, w)
    ensures m < n ==> Full(m, w) < Full(n, w)
  {
    if m < n {
      FullGrows(m, n - 1, w);
    } else if m > 0 {
      FullGrows(m - 1, m - 1, w);
    }
  }

  lemma {:induction false} FoundAll(ids: seq<string>, ideal: seq<string>, n: nat)
    requires n <= |ids|
    ensures Found(ids, ideal, n) == n <==> AllIdeal(ids, ideal, n)
  {
    if n > 0 {
      FoundAll(ids, ideal, n - 1);
    }
  }

  lemma {:induction false} FoundGrows(ids: seq<string>, ideal: seq<string>, m: nat, n: nat)
    requires m <= n <= |ids|
    ensures Found(ids, ideal, m) <= Found(ids, ideal, n)
  {
    if m < n {
      FoundGrows(ids, ideal, m, n - 1);
    }
  }

  /** Under a strict discount the items found gain at most what they would gain in front,
      and exactly that only when they are in front. */
  lemma {:induction false} FrontGainsMost(ids: seq<string>, ideal: seq<string>, w: Weight, n: nat)
    requires IsDiscount(w) && n <= |ids|
    ensures var h := Found(ids, ideal, n);
      && 0.0 <= Gain(ids, ideal, w, n) <= Full(h, w)
      && (Gain(ids, ideal, w, n) == Full(h, w) <==> AllIdeal(ids, ideal, h))
  {
    if n > 0 {
      hide IsDiscount, AllIdeal;
      FrontGainsMost(ids, ideal, w, n - 1);
      if ids[n - 1] in ideal {
        OneMoreFound(ids, ideal, w, n);
      }
    }
  }

  lemma OneMoreFound(ids: seq<string>, ideal: seq<string>, w: Weight, n: nat)
    requires IsDiscount(w) && 0 < n <= |ids| && ids[n - 1] in ideal
    ensures var h := Found(ids, ideal, n - 1);
      && Full(h + 1, w) == Full(h, w) + w(h) && w(n - 1) <= w(h)
      && (if h < n - 1 then w(n - 1) < w(h) && !AllIdeal(ids, ideal, h + 1)
          else AllIdeal(ids, ideal, h) && AllIdeal(ids, ideal, h + 1))
  {
    hide Found;
    var h := Found(ids, ideal, n - 1);
    if h < n - 1 {
      FoundAll(ids, ideal, h + 1);
      FoundGrows(ids, ideal, h + 1, n - 1);
    } else {
      FoundAll(ids, ideal, n - 1);
    }
  }

  /** Distinct items cannot find more than the ideal list holds. */
  lemma {:induction false} FoundBounded(ids: seq<string>, ideal: seq<string>, n: nat)
    requires n <= |ids| && NoDuplicates(ids)
    ensures Found(ids, ideal, n) <= |ideal|
  {
    var hits := FoundItems(ids, ideal, n);
    FoundItemsExact(ids, ideal, n);
    DistinctIncluded(hits, ideal);
    assert |multiset(hits)| <= |multiset(ideal)| by {
      assert multiset(ideal) == multiset(hits) + (multiset(ideal) - multiset(hits));
    }
  }

  /** The ideal items among the first `n`, in ranking order. */
  function FoundItems(ids: seq<string>, ideal: seq<string>, n: nat): seq<string>
    requires n <= |ids|
  {
    if n == 0 then [] else FoundItems(ids, ideal, n - 1) + if ids[n - 1] in ideal then [ids[n - 1]] else []
  }

  lemma {:induction false} FoundItemsExact(ids: seq<string>, ideal: seq<string>, n: nat)
    requires n <= |ids| && NoDuplicates(ids)
    ensures |FoundItems(ids, ideal, n)| == Found(ids, ideal, n)
    ensures NoDuplicates(FoundItems(ids, ideal, n))
    ensures forall x :: x in FoundItems(ids, ideal, n) ==> x in ideal && exists i :: 0 <= i < n && ids[i] == x
  {
    if n > 0 {
      FoundItemsExact(ids, ideal, n - 1);
    }
  }

  function Min(a: nat, b: nat): nat {
    if a <= b then a else b
  }

  /** How many items of a list of `n` the cut leaves. */
  function Places(n: nat, k: int): nat {
    if k >= 0 then Min(k, n) else if n + k >= 0 then n + k else 0
  }

  /** A cut takes that many from the front; a negative one leaves as many off the end. */
  lemma TopIsPrefix(ids: seq<string>, k: int)
    ensures Places(|ids|, k) <= |ids| && Top(ids, k) == ids[..Places(|ids|, k)]
    ensures 0 <= k <= |ids| ==> |Top(ids, k)| == k
    ensures k > |ids| ==> Top(ids, k) == ids
    ensures -|ids| <= k < 0 ==> |Top(ids, k)| == |ids| + k
    ensures k < -|ids| ==> Top(ids, k) == []
  {
  }

  /** Places the metric is measured by: the ideal list is cut twice, which matters only for a
      negative cut. */
  function IdealPlaces(ideal: seq<string>, k: int): nat {
    Places(Places(|ideal|, k), k)
  }

  lemma IdealGain(ideal: seq<string>, k: int, w: Weight)
    requires IsDiscount(w)
    ensures Dcg(Top(ideal, k), ideal, k, w) == Full(IdealPlaces(ideal, k), w)
  {
    TopIsPrefix(ideal, k);
    TopIsPrefix(Top(ideal, k), k);
    var top := Top(Top(ideal, k), k);
    assert top == ideal[..IdealPlaces(ideal, k)];
    assert AllIdeal(top, ideal, |top|);
    FoundAll(top, ideal, |top|);
    FrontGainsMost(top, ideal, w, |top|);
  }

  /** For a ranking without repetitions and a cut that is not negative the metric lies between
      0 and 1, and is 1 exactly when the places that count are all taken by ideal items; with
      no place to look at it is 0. */
  lemma NdcgExact(ranked: seq<string>, ideal: seq<string>, k: nat, w: Weight)
    requires IsDiscount(w) && NoDuplicates(ranked) && ideal != []
    ensures 0.0 <= NdcgAtK(ranked, ideal, k, w) <= 1.0
    ensures NdcgAtK(ranked, ideal, k, w) == 1.0 <==> k >= 1 && AllIdeal(ranked, ideal, Min(k, |ideal|))
    ensures k == 0 ==> NdcgAtK(ranked, ideal, k, w) == 0.0
  {
    hide Gain, Found, AllIdeal, Full, IsDiscount;
    var m, top := Min(k, |ideal|), Top(ranked, k);
    IdealGain(ideal, k, w);
    if k == 0 {
      assert Full(0, w) == 0.0 by { FullNone(w); }
    } else {
      TopGain(top, ideal, w, m);
      FrontOfTop(ranked, ideal, k, m);
      Ratio(Gain(top, ideal, w, |top|), Full(m, w));
    }
  }

  lemma FullNone(w: Weight)
    ensures Full(0, w) == 0.0
  {
  }

  /** For any ranking, repetitions and negative cuts included: the metric is 0 when the cut
      leaves the ideal list no place, and else within 1 when no more ideal items are found than
      there are such places. */
  lemma WithinOne(ranked: seq<string>, ideal: seq<string>, k: int, w: Weight)
    requires IsDiscount(w) && ideal != []
    ensures var top, m := Top(ranked, k), IdealPlaces(ideal, k);
      && 0.0 <= NdcgAtK(ranked, ideal, k, w)
      && (m == 0 ==> NdcgAtK(ranked, ideal, k, w) == 0.0)
      && (m > 0 ==> (NdcgAtK(ranked, ideal, k, w) <= 1.0 <==> Gain(top, ideal, w, |top|) <= Full(m, w)))
      && (m > 0 && Found(top, ideal, |top|) <= m ==> NdcgAtK(ranked, ideal, k, w) <= 1.0)
      && (m > 0 && AllIdeal(top, ideal, Found(top, ideal, |top|)) ==>
            (NdcgAtK(ranked, ideal, k, w) <= 1.0 <==> Found(top, ideal, |top|) <= m))
  {
    hide Gain, Found, AllIdeal, IsDiscount, Top, IdealPlaces;
    var top, m := Top(ranked, k), IdealPlaces(ideal, k);
    var h := Found(top, ideal, |top|);
    IdealGain(ideal, k, w);
    FrontGainsMost(top, ideal, w, |top|);
    if m > 0 {
      FullGrows(0, m, w);
      if h <= m {
        FullGrows(h, m, w);
      } else {
        FullGrows(m, h, w);
      }
      Quotient(Gain(top, ideal, w, |top|), Full(m, w));
    }
  }

  /** A discount that falls so slowly that one place more outweighs any loss by position. */
  function Slow(m: nat): Weight {
    (i: nat) => m as real + 1.0 + 1.0 / (i as real + 1.0)
  }

  lemma SlowIsDiscount(m: nat)
    ensures IsDiscount(Slow(m))
    ensures forall i: nat :: m as real + 1.0 < Slow(m)(i) <= m as real + 2.0
  {
    forall i: nat
      ensures m as real + 1.0 < Slow(m)(i) <= m as real + 2.0
    {
      assert 0.0 < 1.0 / (i as real + 1.0) <= 1.0;
    }
    forall i: nat, j: nat | i < j
      ensures Slow(m)(i) > Slow(m)(j)
    {
      Reciprocals(i as real + 1.0, j as real + 1.0);
    }
  }

  lemma Reciprocals(x: real, y: real)
    requires 0.0 < x < y
    ensures 1.0 / x > 1.0 / y
  {
    assert 1.0 / x - 1.0 / y == (y - x) / (x * y);
  }

  lemma {:induction false} GainAtLeast(ids: seq<string>, ideal: seq<string>, w: Weight, n: nat, c: real)
    requires n <= |ids| && forall i: nat :: w(i) >= c
    ensures Gain(ids, ideal, w, n) >= Found(ids, ideal, n) as real * c
  {
    if n > 0 {
      GainAtLeast(ids, ideal, w, n - 1, c);
    }
  }

  lemma {:induction false} FullAtMost(n: nat, w: Weight, c: real)
    requires forall i: nat :: w(i) <= c
    ensures Full(n, w) <= n as real * c
  {
    if n > 0 {
      FullAtMost(n - 1, w, c);
    }
  }

  /** The metric of a ranking stays within 1 under every discount exactly when the cut leaves
      the ideal list no place or no more ideal items are found than it has places. */
  lemma WithinOneExactly(ranked: seq<string>, ideal: seq<string>, k: int)
    requires ideal != []
    ensures (forall w: Weight :: IsDiscount(w) ==> NdcgAtK(ranked, ideal, k, w) <= 1.0)
      <==> IdealPlaces(ideal, k) == 0 || Found(Top(ranked, k), ideal, |Top(ranked, k)|) <= IdealPlaces(ideal, k)
  {
    hide Gain, Found, IsDiscount, Top, IdealPlaces, NdcgAtK, Full, Slow;
    var top, m := Top(ranked, k), IdealPlaces(ideal, k);
    var h := Found(top, ideal, |top|);
    if m == 0 || h <= m {
      forall w: Weight | IsDiscount(w)
        ensures NdcgAtK(ranked, ideal, k, w) <= 1.0
      {
        WithinOne(ranked, ideal, k, w);
      }
    } else {
      var w, c := Slow(m), m as real + 1.0;
      SlowIsDiscount(m);
      GainAtLeast(top, ideal, w, |top|, c);
      FullAtMost(m, w, c + 1.0);
      OnePlaceMore(h, m);
      WithinOne(ranked, ideal, k, w);
    }
  }

  lemma OnePlaceMore(h: nat, m: nat)
    requires h > m
    ensures h as real * (m as real + 1.0) > m as real * (m as real + 2.0)
  {
    assert h * (m + 1) >= (m + 1) * (m + 1) > m * (m + 2);
    assert h as real * (m as real + 1.0) == (h * (m + 1)) as real;
    assert m as real * (m as real + 2.0) == (m * (m + 2)) as real;
  }

  lemma Quotient(x: real, y: real)
    requires 0.0 <= x && y > 0.0
    ensures 0.0 <= x / y && (x / y <= 1.0 <==> x <= y)
  {
  }

  /** A list without repetitions gains at most a full front of `m`, and that much exactly
      when its first `m` places are ideal, if it cannot hold more than `m` ideal items. */
  lemma TopGain(top: seq<string>, ideal: seq<string>, w: Weight, m: nat)
    requires IsDiscount(w) && NoDuplicates(top) && m >= 1
    requires |top| <= m || |ideal| <= m
    ensures 0.0 <= Gain(top, ideal, w, |top|) <= Full(m, w) && Full(m, w) > 0.0
    ensures Gain(top, ideal, w, |top|) == Full(m, w) <==> AllIdeal(top, ideal, m)
  {
    hide Gain;
    var h := Found(top, ideal, |top|);
    FrontGainsMost(top, ideal, w, |top|);
    FoundBounded(top, ideal, |top|);
    FullGrows(h, m, w);
    FullGrows(0, m, w);
    if AllIdeal(top, ideal, m) {
      FoundAll(top, ideal, m);
      FoundGrows(top, ideal, m, |top|);
    }
  }

  lemma FrontOfTop(ranked: seq<string>, ideal: seq<string>, k: nat, m: nat)
    requires m <= k
    ensures AllIdeal(Top(ranked, k), ideal, m) <==> AllIdeal(ranked, ideal, m)
  {
  }

  lemma Ratio(x: real, y: real)
    requires 0.0 <= x <= y && y > 0.0
    ensures 0.0 <= x / y <= 1.0 && (x / y == 1.0 <==> x == y)
  {
  }

  /** Without an ideal list every ranking is perfect. */
  lemma NothingIdeal(ranked: seq<string>, k: int, w: Weight)
    ensures NdcgAtK(ranked, [], k, w) == 1.0
  {
  }

  /** Repetitions break the upper bound: one item listed twice gains twice. */
  lemma RepetitionExceedsOne(x: string, w: Weight)
    requires IsDiscount(w)
    ensures NdcgAtK([x, x], [x], 2, w) > 1.0
  {
    var ids := [x, x];
    assert Top(ids, 2) == ids;
    assert Gain(ids, [x], w, 1) == Gain(ids, [x], w, 0) + w(0);
    assert Gain(ids, [x], w, 2) == w(0) + w(1);
    IdealGain([x], 2, w);
    assert Full(1, w) == Full(0, w) + w(0);
    assert Dcg(ids, [x], 2, w) == w(0) + w(1);
    MoreThanWhole(w(0) + w(1), w(0));
  }

  lemma MoreThanWhole(x: real, y: real)
    requires x > y > 0.0
    ensures x / y > 1.0
  {
  }

  // ---------------------------------------------------------------------------
  // Moving an ideal item up
  // ---------------------------------------------------------------------------

  /** The ranking with the item at `from` moved up to `to`. */
  function MoveUp(ids: seq<string>, from: nat, to: nat): seq<string>
    requires to <= from < |ids|
  {
    ids[..to] + [ids[from]] + ids[to..from] + ids[from + 1..]
  }

  lemma {:induction false} SwapGains(ids: seq<string>, swapped: seq<string>, i: nat, ideal: seq<string>, w: Weight,
                                     n: nat)
    requires IsDiscount(w) && i + 1 < |ids| && n <= |ids|
    requires swapped == ids[i := ids[i + 1]][i + 1 := ids[i]]
    requires ids[i + 1] in ideal
    ensures Gain(swapped, ideal, w, n) >= Gain(ids, ideal, w, n)
    ensures n <= i ==> Gain(swapped, ideal, w, n) == Gain(ids, ideal, w, n)
  {
    if n > 0 {
      SwapGains(ids, swapped, i, ideal, w, n - 1);
      if n == i + 2 {
        SwapGains(ids, swapped, i, ideal, w, i);
        assert Gain(ids, ideal, w, i + 1) == Gain(ids, ideal, w, i) + if ids[i] in ideal then w(i) else 0.0;
        assert Gain(swapped, ideal, w, i + 1) == Gain(swapped, ideal, w, i) + w(i);
        assert w(i) > w(i + 1);
      }
    }
  }

  lemma {:induction false} MoveGains(ids: seq<string>, from: nat, to: nat, ideal: seq<string>, w: Weight, n: nat)
    requires IsDiscount(w) && to <= from < |ids| && n <= |ids| && ids[from] in ideal
    ensures |MoveUp(ids, from, to)| == |ids|
    ensures Gain(MoveUp(ids, from, to), ideal, w, n) >= Gain(ids, ideal, w, n)
    decreases from
  {
    if from == to {
      assert MoveUp(ids, from, to) == ids;
    } else {
      var i := from - 1;
      var swapped := ids[i := ids[i + 1]][i + 1 := ids[i]];
      SwapGains(ids, swapped, i, ideal, w, n);
      MoveGains(swapped, i, to, ideal, w, n);
      assert MoveUp(swapped, i, to) == MoveUp(ids, from, to);
    }
  }

  lemma {:induction false} GainOfTop(ids: seq<string>, ideal: seq<string>, w: Weight, n: nat, k: nat)
    requires n <= k <= |ids|
    ensures Gain(ids[..k], ideal, w, n) == Gain(ids, ideal, w, n)
  {
    if n > 0 {
      GainOfTop(ids, ideal, w, n - 1, k);
    }
  }

  /** Moving an ideal item up the ranking never lowers the metric, whatever the cut. */
  lemma MovingUpNeverLowers(ranked: seq<string>, from: nat, to: nat, ideal: seq<string>, k: int, w: Weight)
    requires IsDiscount(w) && to <= from < |ranked| && ranked[from] in ideal
    ensures NdcgAtK(MoveUp(ranked, from, to), ideal, k, w) >= NdcgAtK(ranked, ideal, k, w)
  {
    var moved, n := MoveUp(ranked, from, to), Places(|ranked|, k);
    TopIsPrefix(ranked, k);
    TopIsPrefix(moved, k);
    MoveGains(ranked, from, to, ideal, w, n);
    GainOfTop(ranked, ideal, w, n, n);
    GainOfTop(moved, ideal, w, n, n);
    IdealGain(ideal, k, w);
    FullGrows(0, IdealPlaces(ideal, k), w);
    var best := Full(IdealPlaces(ideal, k), w);
    if best != 0.0 {
      RatioGrows(Dcg(ranked, ideal, k, w), Dcg(moved, ideal, k, w), best);
    }
  }

  lemma RatioGrows(x: real, y: real, d: real)
    requires x <= y && d > 0.0
    ensures x / d <= y / d
  {
  }
}
