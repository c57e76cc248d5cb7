/** Merging of findings that overlapping rules and adapters report twice. */
module Deduplication {
  import opened Collections
  import opened Findings
  import opened Text
  import Scoring

  function SeverityOrder(s: Severity): nat {
    match s
    case Critical => 0
    case High => 1
    case Medium => 2
    case Low => 3
    case Info => 4
  }

  function ConfidenceOrder(g: Grade): nat {
    match g
    case GradeHigh => 0
    case GradeMedium => 1
    case GradeLow => 2
  }

  /** More severe, or as severe and more certain. */
  predicate Better(f: Finding, g: Finding) {
    || SeverityOrder(f.severity) < SeverityOrder(g.severity)
    || (SeverityOrder(f.severity) == SeverityOrder(g.severity)
      && ConfidenceOrder(f.confidence) < ConfidenceOrder(g.confidence))
  }

  /** The start of the first evidence. */
  function Snippet(f: Finding): string {
    if f.evidence == [] then "" else if |f.evidence[0]| <= 30 then f.evidence[0] else f.evidence[0][..30]
  }

  /** Adapter findings are told apart by file and evidence, all others by rule alone. */
  function Key(f: Finding): string {
    var file := if f.affectedFiles != [] then f.affectedFiles[0] else "";
    if f.layer == AdapterLayer && file != "" then
      f.ruleId + "::" + file + "::" + Snippet(f)
    else f.ruleId
  }

  function Keys(findings: seq<Finding>): seq<string> {
    seq(|findings|, i requires 0 <= i < |findings| => Key(findings[i]))
  }

  /** The finding at `i` is the earliest of the best ones under its key. */
  ghost predicate Winner(findings: seq<Finding>, i: int) {
    && 0 <= i < |findings|
    && forall k :: 0 <= k < |findings| && Key(findings[k]) == Key(findings[i]) ==>
         !Better(findings[k], findings[i]) && (k < i ==> Better(findings[i], findings[k]))
  }

  ghost predicate Wins(findings: seq<Finding>, f: Finding) {
    exists i :: Winner(findings, i) && findings[i] == f
  }

  /** `r` keeps the winner of every key, in the order the keys first occur. */
  ghost predicate IsDeduplicated(findings: seq<Finding>, r: seq<Finding>) {
    && Keys(r) == FirstOccurrences(Keys(findings))
    && forall f :: f in r ==> Wins(findings, f)
  }

  /** What the loop keeps: keys in first-occurrence order, each with its winner so far. */
  ghost predicate Merged(before: seq<Finding>, order: seq<string>, seen: map<string, Finding>) {
    && order == FirstOccurrences(Keys(before))
    && (forall key :: key in seen <==> key in order)
    && (forall key :: key in seen ==> Key(seen[key]) == key && Wins(before, seen[key]))
  }

  method Deduplicate(findings: seq<Finding>) returns (r: seq<Finding>)
    ensures IsDeduplicated(findings, r)
  {
    hide Key, Merged, IsDeduplicated, Better;
    var order: seq<string> := [];
    var seen: map<string, Finding> := map[];
    assert Merged(findings[..0], order, seen) by { StartMerged(); }
    for i := 0 to |findings|
      invariant Merged(findings[..i], order, seen)
    {
      var f := findings[i];
      var key := Key(f);
      MergeStep(findings[..i], f, order, seen);
      if key !in seen {
        order := order + [key];
        seen := seen[key := f];
      } else {
        var existing := seen[key];
        BetterMeans(f, existing);
        if SeverityOrder(f.severity) < SeverityOrder(existing.severity) {
          seen := seen[key := f];
        } else if SeverityOrder(f.severity) == SeverityOrder(existing.severity)
            && ConfidenceOrder(f.confidence) < ConfidenceOrder(existing.confidence) {
          seen := seen[key := f];
        }
      }
      assert findings[..i + 1] == findings[..i] + [f];
    }
    assert findings[..|findings|] == findings;
    r := Values(order, seen);
    MergedIsDeduplicated(findings, order, seen);
  }

  /** The values of the dictionary in the order of its keys. */
  function Values(order: seq<string>, seen: map<string, Finding>): seq<Finding> {
    if order == [] then []
    else Values(order[..|order| - 1], seen) + if order[|order| - 1] in seen then [seen[order[|order| - 1]]] else []
  }

  lemma BetterMeans(f: Finding, g: Finding)
    ensures Better(f, g) <==>
      || SeverityOrder(f.severity) < SeverityOrder(g.severity)
      || (SeverityOrder(f.severity) == SeverityOrder(g.severity)
        && ConfidenceOrder(f.confidence) < ConfidenceOrder(g.confidence))
  {
  }

  lemma StartMerged()
    ensures Merged([], [], map[])
  {
  }

  lemma MergeStep(before: seq<Finding>, f: Finding, order: seq<string>, seen: map<string, Finding>)
    requires Merged(before, order, seen)
    ensures Key(f) !in seen ==> Merged(before + [f], order + [Key(f)], seen[Key(f) := f])
    ensures Key(f) in seen && Better(f, seen[Key(f)]) ==> Merged(before + [f], order, seen[Key(f) := f])
    ensures Key(f) in seen && !Better(f, seen[Key(f)]) ==> Merged(before + [f], order, seen)
  {
    hide Key, Better, Wins, FirstOccurrences, Keys;
    KeysAppend(before, f);
    if Key(f) !in seen {
      FirstOfItsKey(before, f);
    } else if Better(f, seen[Key(f)]) {
      BetterTakesOver(before, f, seen[Key(f)]);
    }
    forall key | key in seen && (key != Key(f) || !Better(f, seen[key]))
      ensures Wins(before + [f], seen[key])
    {
      WinnerStays(before, f, seen[key]);
    }
  }

  lemma {:induction false} ValuesExact(order: seq<string>, seen: map<string, Finding>)
    requires forall k :: k in order ==> k in seen && Key(seen[k]) == k
    ensures Keys(Values(order, seen)) == order
    ensures forall f :: f in Values(order, seen) ==> Key(f) in order && seen[Key(f)] == f
  {
    hide Key;
    if order != [] {
      var n := |order| - 1;
      ValuesExact(order[..n], seen);
      assert order == order[..n] + [order[n]];
    }
  }

  lemma MergedIsDeduplicated(findings: seq<Finding>, order: seq<string>, seen: map<string, Finding>)
    requires Merged(findings, order, seen)
    ensures IsDeduplicated(findings, Values(order, seen))
  {
    hide Key, Wins;
    ValuesExact(order, seen);
  }

  lemma KeysAppend(before: seq<Finding>, f: Finding)
    ensures Keys(before + [f]) == Keys(before) + [Key(f)]
    ensures FirstOccurrences(Keys(before + [f])) ==
      if Key(f) in FirstOccurrences(Keys(before)) then FirstOccurrences(Keys(before))
        else FirstOccurrences(Keys(before)) + [Key(f)]
  {
    hide Key;
    var keys := Keys(before) + [Key(f)];
    assert Keys(before + [f]) == keys;
    assert keys[..|keys| - 1] == Keys(before);
  }

  lemma WinnerStays(before: seq<Finding>, f: Finding, g: Finding)
    requires Wins(before, g) && (Key(g) != Key(f) || !Better(f, g))
    ensures Wins(before + [f], g)
  {
    hide Key;
    var i :| Winner(before, i) && before[i] == g;
    assert Winner(before + [f], i);
  }

  lemma FirstOfItsKey(before: seq<Finding>, f: Finding)
    requires Key(f) !in FirstOccurrences(Keys(before))
    ensures Wins(before + [f], f)
  {
    hide Key;
    FirstOccurrencesExact(Keys(before));
    forall k | 0 <= k < |before|
      ensures Key(before[k]) != Key(f)
    {
      assert Keys(before)[k] == Key(before[k]);
    }
    assert Winner(before + [f], |before|);
  }

  lemma BetterTakesOver(before: seq<Finding>, f: Finding, g: Finding)
    requires Wins(before, g) && Key(g) == Key(f) && Better(f, g)
    ensures Wins(before + [f], f)
  {
    hide Key;
    var i :| Winner(before, i) && before[i] == g;
    assert Winner(before + [f], |before|);
  }

  // ---------------------------------------------------------------------------
  // What deduplication promises
  // ---------------------------------------------------------------------------

  lemma OneWinnerPerKey(findings: seq<Finding>, f: Finding, g: Finding)
    requires Wins(findings, f) && Wins(findings, g) && Key(f) == Key(g)
    ensures f == g
  {
    hide Key;
    var i :| Winner(findings, i) && findings[i] == f;
    var j :| Winner(findings, j) && findings[j] == g;
  }

  /** The description leaves no freedom: it determines the result. */
  lemma DeduplicatedUnique(findings: seq<Finding>, r: seq<Finding>, r': seq<Finding>)
    requires IsDeduplicated(findings, r) && IsDeduplicated(findings, r')
    ensures r == r'
  {
    hide Key, Better;
    assert |r| == |Keys(r)| == |Keys(r')| == |r'|;
    forall j | 0 <= j < |r|
      ensures r[j] == r'[j]
    {
      assert Keys(r)[j] == Keys(r')[j];
      assert r[j] in r && r'[j] in r';
      OneWinnerPerKey(findings, r[j], r'[j]);
    }
  }

  lemma DistinctKeys(findings: seq<Finding>, r: seq<Finding>)
    requires IsDeduplicated(findings, r)
    ensures NoDuplicates(Keys(r)) && NoDuplicates(r)
  {
    hide Key, Better;
    FirstOccurrencesExact(Keys(findings));
    forall i, j | 0 <= i < j < |r|
      ensures r[i] != r[j]
    {
      assert Keys(r)[i] != Keys(r)[j];
    }
  }

  /** Deduplicating a deduplicated list changes nothing. */
  lemma Idempotent(findings: seq<Finding>, once: seq<Finding>, twice: seq<Finding>)
    requires IsDeduplicated(findings, once) && IsDeduplicated(once, twice)
    ensures twice == once
  {
    hide Key;
    DistinctKeys(findings, once);
    AlreadyDistinct(Keys(once));
    forall f | f in once
      ensures Wins(once, f)
    {
      var i :| 0 <= i < |once| && once[i] == f;
      forall k | 0 <= k < |once| && Key(once[k]) == Key(once[i])
        ensures k == i
      {
        assert Keys(once)[k] == Keys(once)[i];
      }
      assert Winner(once, i);
    }
    DeduplicatedUnique(once, once, twice);
  }

  /** Every key of the list is represented, by exactly one of its findings. */
  lemma EveryKeyKept(findings: seq<Finding>, r: seq<Finding>, f: Finding)
    requires IsDeduplicated(findings, r) && f in findings
    ensures exists g :: g in r && Key(g) == Key(f) && !Better(f, g)
  {
    hide Key;
    FirstOccurrencesExact(Keys(findings));
    var k :| 0 <= k < |findings| && findings[k] == f;
    assert Keys(findings)[k] == Key(f);
    assert Key(f) in Keys(r);
    var j :| 0 <= j < |r| && Keys(r)[j] == Key(f);
    assert r[j] in r;
    var i :| Winner(findings, i) && findings[i] == r[j];
  }

  /** Scoring the merged list never gives a lower raw score than scoring the full one. */
  lemma MergingNeverLowersScore(findings: seq<Finding>, r: seq<Finding>, domain: string)
    requires IsDeduplicated(findings, r)
    ensures Scoring.RawScore(r, domain) >= Scoring.RawScore(findings, domain)
  {
    hide Key, Better;
    DistinctKeys(findings, r);
    forall f | f in r
      ensures f in findings
    {
      var i :| Winner(findings, i) && findings[i] == f;
    }
    DistinctIncluded(r, findings);
    Scoring.RawScoreAntitone(r, findings, domain);
  }

  const FROM_WORST: seq<Severity> := [Critical, High, Medium, Low, Info]
  const FROM_SUREST: seq<Grade> := [GradeHigh, GradeMedium, GradeLow]

  /** Of two findings with one key the more severe one survives, of equally severe ones the more
      certain, and of equal ones the first. */
  lemma Survivor(f: Finding, g: Finding, i: nat, j: nat, x: nat, y: nat)
    requires Key(f) == Key(g)
    requires i < 5 && j < 5 && f.severity == FROM_WORST[i] && g.severity == FROM_WORST[j]
    requires x < 3 && y < 3 && f.confidence == FROM_SUREST[x] && g.confidence == FROM_SUREST[y]
    ensures IsDeduplicated([f, g], [if j < i || (j == i && y < x) then g else f])
  {
    hide Key;
    var s := [f, g];
    assert Better(g, f) <==> j < i || (j == i && y < x);
    assert Keys(s) == [Key(f)] + [Key(f)];
    assert Keys(s)[..1] == [Key(f)] && [Key(f)][..0] == [];
    assert FirstOccurrences([Key(f)]) == [Key(f)];
    assert Winner(s, if Better(g, f) then 1 else 0);
  }

  // ---------------------------------------------------------------------------
  // Scores of merged lists
  // ---------------------------------------------------------------------------

  /** What one more finding does to a merged list. */
  ghost predicate MergesInto(r: seq<Finding>, g: Finding, r': seq<Finding>) {
    if Key(g) !in Keys(r) then r' == r + [g]
    else exists j :: 0 <= j < |r| && Key(r[j]) == Key(g) && r' == if Better(g, r[j]) then r[j := g] else r
  }

  lemma MergeOne(a: seq<Finding>, g: Finding, r: seq<Finding>) returns (r': seq<Finding>)
    requires IsDeduplicated(a, r)
    ensures IsDeduplicated(a + [g], r') && MergesInto(r, g, r')
  {
    hide Key, Better, Wins, FirstOccurrences, Keys;
    KeysAppend(a, g);
    if Key(g) in Keys(r) {
      var j := KeyAt(r, Key(g));
      OthersStay(a, g, r, j);
      if Better(g, r[j]) {
        r' := r[j := g];
        assert r[j] in r;
        BetterTakesOver(a, g, r[j]);
        KeysReplaced(r, j, g);
      } else {
        r' := r;
      }
    } else {
      r' := r + [g];
      KeysAppend(r, g);
      FirstOfItsKey(a, g);
      forall f | f in r
        ensures Wins(a + [g], f)
      {
        KeyIn(r, f);
        WinnerStays(a, g, f);
      }
    }
  }

  lemma KeyIn(r: seq<Finding>, f: Finding)
    requires f in r
    ensures Key(f) in Keys(r)
  {
    var k :| 0 <= k < |r| && r[k] == f;
    assert Keys(r)[k] == Key(f);
  }

  lemma KeyAt(r: seq<Finding>, key: string) returns (j: nat)
    requires key in Keys(r)
    ensures j < |r| && Key(r[j]) == key
  {
    j :| 0 <= j < |Keys(r)| && Keys(r)[j] == key;
  }

  lemma KeysReplaced(r: seq<Finding>, j: nat, g: Finding)
    requires j < |r| && Key(r[j]) == Key(g)
    ensures Keys(r[j := g]) == Keys(r)
  {
  }

  /** Only the winner of its own key can lose to an added finding. */
  lemma OthersStay(a: seq<Finding>, g: Finding, r: seq<Finding>, j: nat)
    requires IsDeduplicated(a, r) && j < |r| && Key(r[j]) == Key(g)
    ensures forall k :: 0 <= k < |r| && k != j ==> Wins(a + [g], r[k])
    ensures !Better(g, r[j]) ==> Wins(a + [g], r[j])
  {
    hide Key, Better, Wins, FirstOccurrences;
    DistinctKeys(a, r);
    forall k | 0 <= k < |r| && (k != j || !Better(g, r[k]))
      ensures Wins(a + [g], r[k])
    {
      assert r[k] in r;
      if k != j {
        assert Keys(r)[k] != Keys(r)[j];
      }
      WinnerStays(a, g, r[k]);
    }
  }

  /** Whatever else the list holds, merging `g` in over `e` never raises the raw score. */
  ghost predicate NeverRaises(e: Finding, g: Finding, domain: string) {
    forall a, r, r' :: IsDeduplicated(a, r) && e in r && IsDeduplicated(a + [g], r') ==>
      Scoring.RawScore(r', domain) <= Scoring.RawScore(r, domain)
  }

  /** A better finding that takes the place of another can raise the score of the merged list:
      it never does, in any list, exactly when it weighs at least as much. */
  lemma DisplacementExact(e: Finding, g: Finding, domain: string)
    requires Key(e) == Key(g) && Better(g, e) && Free(e.ruleId, ':') && Free(g.ruleId, ':')
    ensures NeverRaises(e, g, domain) <==> Scoring.Weight(e, domain) <= Scoring.Weight(g, domain)
  {
    hide Key, Better;
    SameRule(e, g);
    if Scoring.Weight(e, domain) <= Scoring.Weight(g, domain) {
      forall a, r, r' | IsDeduplicated(a, r) && e in r && IsDeduplicated(a + [g], r')
        ensures Scoring.RawScore(r', domain) <= Scoring.RawScore(r, domain)
      {
        OneMore(a, g, r, r', domain);
      }
    } else {
      LighterRaises(e, g, domain);
    }
  }

  /** One finding that displaces nothing, or nothing heavier, never raises the score. */
  lemma OneMore(a: seq<Finding>, g: Finding, r: seq<Finding>, r': seq<Finding>, domain: string)
    requires IsDeduplicated(a, r) && IsDeduplicated(a + [g], r')
    requires forall e :: e in r && Key(e) == Key(g) && Better(g, e) ==>
      e.ruleId == g.ruleId && Scoring.Weight(e, domain) <= Scoring.Weight(g, domain)
    ensures Scoring.RawScore(r', domain) <= Scoring.RawScore(r, domain)
  {
    hide Key, Better, IsDeduplicated, Scoring.RawScore, Scoring.Weight;
    var merged := MergeOne(a, g, r);
    DeduplicatedUnique(a + [g], r', merged);
    if Key(g) !in Keys(r) {
      assert r' == r + [g];
      Scoring.RawScoreAntitone(r, r', domain);
    } else {
      var j :| 0 <= j < |r| && Key(r[j]) == Key(g) && r' == if Better(g, r[j]) then r[j := g] else r;
      if Better(g, r[j]) {
        Scoring.HeavierInPlace(r, j, g, domain);
      }
    }
  }

  /** A list in which a lighter finding raises the score: the displaced one and a finding of
      another rule that brings their points to a whole number. */
  lemma LighterRaises(e: Finding, g: Finding, domain: string)
    requires Key(e) == Key(g) && Better(g, e) && e.ruleId == g.ruleId && Free(e.ruleId, ':')
    requires Scoring.Weight(e, domain) > Scoring.Weight(g, domain)
    ensures !NeverRaises(e, g, domain)
  {
    hide Key, Better, IsDeduplicated, Scoring.RawScore, Scoring.Weight;
    var h := Partner(e, domain);
    TwoApart(e, h);
    var r' := MergeOne([e, h], g, [e, h]);
    assert r' == [g, h] by { Displaced(e, g, h, r'); }
    Scoring.PairScore(e, h, domain);
    Scoring.PairScore(g, h, domain);
    assert e in [e, h];
  }

  /** A finding of another rule and key that fills the points of `e` up to a whole number. */
  lemma Partner(e: Finding, domain: string) returns (h: Finding)
    requires Free(e.ruleId, ':')
    ensures Key(h) != Key(e) && h.ruleId != e.ruleId
    ensures (Scoring.Weight(e, domain) + Scoring.Weight(h, domain)) % 10 == 0
  {
    hide Key, Scoring.Weight;
    var n := FillUp(Scoring.Weight(e, domain));
    h := Scoring.Sample(e.ruleId + "+", domain, Medium, map[domain := 0 - n as int]);
    assert |h.ruleId| == |e.ruleId| + 1;
    assert Free(h.ruleId, ':') by { FreeAppend(e.ruleId); }
    ColonShows(e);
    SampleWeight(h, domain, n);
  }

  lemma FreeAppend(s: string)
    requires Free(s, ':')
    ensures Free(s + "+", ':')
  {
  }

  lemma SameRule(f: Finding, g: Finding)
    requires Free(f.ruleId, ':') && Free(g.ruleId, ':') && Key(g) == Key(f)
    ensures f.ruleId == g.ruleId
  {
    hide Key;
    ColonShows(f);
    ColonShows(g);
    if Located(f) {
      KeyOfLocated(f);
      KeyOfLocated(g);
      FirstColon(f.ruleId, [':'] + PlaceText(f), g.ruleId, [':'] + PlaceText(g));
    }
  }

  lemma FillUp(w: nat) returns (n: nat)
    ensures n < 10 && (w + 7 * n) % 10 == 0
  {
    n := (10 - w % 10) * 3 % 10;
  }

  lemma SampleWeight(h: Finding, domain: string, n: nat)
    requires h == Scoring.Sample(h.ruleId, domain, Medium, map[domain := 0 - n as int]) && n < 10
    ensures Scoring.Weight(h, domain) == 7 * n && Key(h) == h.ruleId
  {
  }

  lemma Displaced(e: Finding, g: Finding, h: Finding, r': seq<Finding>)
    requires Key(e) == Key(g) && Better(g, e) && Key(h) != Key(e) && MergesInto([e, h], g, r')
    ensures r' == [g, h]
  {
    hide Key, Better;
    assert Keys([e, h]) == [Key(e), Key(h)];
  }

  lemma TwoApart(e: Finding, h: Finding)
    requires Key(e) != Key(h)
    ensures IsDeduplicated([e, h], [e, h])
  {
    hide Key;
    var s := [e, h];
    assert NoDuplicates(Keys(s));
    AlreadyDistinct(Keys(s));
    assert Winner(s, 0) && Winner(s, 1);
  }

  /** No finding of the list that was added later displaces a heavier one of its key. */
  ghost predicate DisplacesNoHeavier(a: seq<Finding>, more: seq<Finding>, domain: string) {
    forall e, g :: e in a + more && g in more && Key(e) == Key(g) && Better(g, e) ==>
      e.ruleId == g.ruleId && Scoring.Weight(e, domain) <= Scoring.Weight(g, domain)
  }

  /** Raw scores of merged lists fall along every run of added findings none of which displaces
      a heavier one. */
  lemma {:induction false} MergedScoreAntitone(a: seq<Finding>, more: seq<Finding>,
                                               r: seq<Finding>, r': seq<Finding>, domain: string)
    requires IsDeduplicated(a, r) && IsDeduplicated(a + more, r') && DisplacesNoHeavier(a, more, domain)
    ensures Scoring.RawScore(r', domain) <= Scoring.RawScore(r, domain)
    decreases |more|
  {
    hide Key, Better, IsDeduplicated, Scoring.RawScore, Scoring.Weight;
    if more == [] {
      assert a + more == a;
      DeduplicatedUnique(a, r, r');
    } else {
      var g, rest := more[0], more[1..];
      var next := MergeOne(a, g, r);
      assert a + [g] + rest == a + more;
      KeptAreGiven(a, r);
      assert g in more && forall e :: e in a ==> e in a + more;
      OneMore(a, g, r, next, domain);
      MergedScoreAntitone(a + [g], rest, next, r', domain);
    }
  }

  lemma KeptAreGiven(findings: seq<Finding>, r: seq<Finding>)
    requires IsDeduplicated(findings, r)
    ensures forall f :: f in r ==> f in findings
  {
    forall f | f in r
      ensures f in findings
    {
      var i :| Winner(findings, i) && findings[i] == f;
    }
  }

  /** So with the full toolchain such findings never turn an unsuitable report suitable. */
  lemma MergedNeverMakesSuitable(a: seq<Finding>, more: seq<Finding>, r: seq<Finding>, r': seq<Finding>)
    requires IsDeduplicated(a, r) && IsDeduplicated(a + more, r')
    requires forall d :: DisplacesNoHeavier(a, more, d)
    requires Scoring.Suitable(r', Scoring.FullToolchain)
    ensures Scoring.Suitable(r, Scoring.FullToolchain)
  {
    hide IsDeduplicated, DisplacesNoHeavier, Scoring.RawScore, Scoring.ProductionSuitable;
    forall d { MergedScoreAntitone(a, more, r, r', d); }
    Scoring.ScoresInScale(r, Scoring.FullToolchain);
    Scoring.ScoresInScale(r', Scoring.FullToolchain);
    Scoring.SuitableMonotone(
      Scoring.ScoresOf(r', Scoring.FullToolchain), Scoring.ScoresOf(r, Scoring.FullToolchain));
  }

  const LEAK: Finding := Scoring.Sample("R1", "security", High, map[Scoring.SECURITY := -20])
  const HOLE: Finding := Scoring.Sample("R2", "security", High, map[Scoring.SECURITY := -20])
  const ALARM: Finding := Scoring.Sample("R1", "security", Critical, map[])

  /** Even with the full toolchain an added finding can turn a report suitable: one that is
      more severe than a finding of its rule, and takes its place, but has no impact. */
  lemma AddedFindingMakesSuitable()
    ensures IsDeduplicated([LEAK, HOLE], [LEAK, HOLE]) && IsDeduplicated([LEAK, HOLE, ALARM], [ALARM, HOLE])
    ensures !Scoring.Suitable([LEAK, HOLE], Scoring.FullToolchain)
    ensures Scoring.Suitable([ALARM, HOLE], Scoring.FullToolchain)
  {
    hide Scoring.RawScore, Scoring.Suitable, IsDeduplicated;
    assert LEAK.ruleId[1] != HOLE.ruleId[1];
    TwoApart(LEAK, HOLE);
    var merged := MergeOne([LEAK, HOLE], ALARM, [LEAK, HOLE]);
    Displaced(LEAK, ALARM, HOLE, merged);
    assert [LEAK, HOLE] + [ALARM] == [LEAK, HOLE, ALARM];
    LeakVerdict();
    AlarmVerdict();
  }

  lemma LeakVerdict()
    ensures !Scoring.Suitable([LEAK, HOLE], Scoring.FullToolchain)
  {
    hide Scoring.RawScore, Scoring.InterpretOverall;
    assert LEAK.ruleId[1] != HOLE.ruleId[1];
    Scoring.PairScore(LEAK, HOLE, Scoring.SECURITY);
  }

  lemma AlarmVerdict()
    ensures Scoring.Suitable([ALARM, HOLE], Scoring.FullToolchain)
  {
    hide Scoring.RawScore, Scoring.InterpretOverall;
    assert ALARM.ruleId[1] != HOLE.ruleId[1];
    forall d { Scoring.PairScore(ALARM, HOLE, d); }
    Scoring.BandsPartition(96);
  }

  // ---------------------------------------------------------------------------
  // Which reports added findings can turn
  // ---------------------------------------------------------------------------

  /** No finding is better, so none takes its place. */
  predicate Unbeatable(f: Finding) {
    f.severity == Critical && f.confidence == GradeHigh
  }

  lemma UnbeatableExact(f: Finding)
    ensures Unbeatable(f) <==> forall g :: !Better(g, f)
  {
    assert Better(Blank(f), f) || Unbeatable(f);
  }

  /** The findings of a merged list that stay in it whatever is added. */
  function Lasting(r: seq<Finding>): seq<Finding> {
    if r == [] then [] else Lasting(r[..|r| - 1]) + if Unbeatable(r[|r| - 1]) then [r[|r| - 1]] else []
  }

  lemma {:induction false} LastingExact(r: seq<Finding>)
    ensures forall f :: f in Lasting(r) <==> f in r && Unbeatable(f)
    ensures NoDuplicates(r) ==> NoDuplicates(Lasting(r))
  {
    hide Unbeatable;
    if r != [] {
      LastingExact(r[..|r| - 1]);
      assert r == r[..|r| - 1] + [r[|r| - 1]];
    }
  }

  /** A finding with the key of `f` that beats it unless it is unbeatable, and has no impact. */
  function Blank(f: Finding): Finding {
    f.(severity := Critical, confidence := GradeHigh, scoreImpact := map[])
  }

  lemma BlankExact(f: Finding)
    ensures Key(Blank(f)) == Key(f) && (Better(Blank(f), f) <==> !Unbeatable(f))
    ensures forall d :: !Scoring.Penalizes(Blank(f), d)
  {
  }

  function Blanks(r: seq<Finding>): seq<Finding> {
    seq(|r|, i requires 0 <= i < |r| => Blank(r[i]))
  }

  /** A text longer than every key. */
  function Fresh(keys: seq<string>): string {
    if keys == [] then "+" else keys[0] + Fresh(keys[1..])
  }

  lemma {:induction false} FreshIsLonger(keys: seq<string>)
    ensures forall k :: k in keys ==> |k| < |Fresh(keys)|
    ensures Fresh(keys) != ""
  {
    if keys != [] {
      FreshIsLonger(keys[1..]);
      assert keys == [keys[0]] + keys[1..];
    }
  }

  lemma {:induction false} SomeDeduplicated(findings: seq<Finding>) returns (r: seq<Finding>)
    ensures IsDeduplicated(findings, r)
  {
    hide IsDeduplicated;
    if findings == [] {
      r := [];
      assert IsDeduplicated([], []) by { NothingToMerge(); }
    } else {
      var init := SomeDeduplicated(findings[..|findings| - 1]);
      r := MergeOne(findings[..|findings| - 1], findings[|findings| - 1], init);
      assert findings == findings[..|findings| - 1] + [findings[|findings| - 1]];
    }
  }

  lemma NothingToMerge()
    ensures IsDeduplicated([], [])
  {
  }

  lemma UnbeatableStays(a: seq<Finding>, more: seq<Finding>, r: seq<Finding>, r': seq<Finding>, f: Finding)
    requires IsDeduplicated(a, r) && IsDeduplicated(a + more, r') && f in r && Unbeatable(f)
    ensures f in r'
  {
    hide Key;
    var i :| Winner(a, i) && a[i] == f;
    assert Wins(a + more, f) by {
      UnbeatableExact(f);
      hide Better;
      assert Winner(a + more, i);
    }
    assert f in a + more by { assert (a + more)[i] == f; }
    EveryKeyKept(a + more, r', f);
    var g :| g in r' && Key(g) == Key(f);
    OneWinnerPerKey(a + more, f, g);
  }

  /** With a blank of every finding and a mention added, what is left of the old findings is
      what nothing beats. */
  lemma OnlyLastingLeft(a: seq<Finding>, r: seq<Finding>, rule: string, r': seq<Finding>, f: Finding)
    requires IsDeduplicated(a, r) && IsDeduplicated(a + (Blanks(r) + [Scoring.Mention(rule)]), r')
    requires f in r' && f !in Blanks(r) && f != Scoring.Mention(rule)
    ensures f in r && Unbeatable(f)
  {
    hide Key, Better, Unbeatable, Scoring.Mention;
    var more := Blanks(r) + [Scoring.Mention(rule)];
    var i :| Winner(a + more, i) && (a + more)[i] == f;
    assert f in a + more;
    assert f !in more;
    assert i < |a|;
    assert Winner(a, i) by {
      assert forall k :: 0 <= k < |a| ==> a[k] == (a + more)[k];
    }
    assert f in a && Wins(a, f);
    EveryKeyKept(a, r, f);
    var g :| g in r && Key(g) == Key(f);
    OneWinnerPerKey(a, f, g);
    var j :| 0 <= j < |r| && r[j] == f;
    BlankExact(f);
    assert (a + more)[|a| + j] == Blanks(r)[j] == Blank(f);
  }

  lemma MentionKept(a: seq<Finding>, r: seq<Finding>, rule: string, r': seq<Finding>)
    requires IsDeduplicated(a, r) && IsDeduplicated(a + (Blanks(r) + [Scoring.Mention(rule)]), r')
    requires rule == Fresh(Keys(a))
    ensures Scoring.Mention(rule) in r'
  {
    hide Better, Fresh;
    var m := Scoring.Mention(rule);
    var findings := a + (Blanks(r) + [m]);
    assert Key(m) == rule;
    hide Key, Scoring.Mention;
    assert m in findings by { assert findings[|findings| - 1] == m; }
    EveryKeyKept(findings, r', m);
    var g :| g in r' && Key(g) == Key(m);
    KeptAreGiven(findings, r');
    FreshIsLonger(Keys(a));
    KeptAreGiven(a, r);
    if g in a {
      KeyIn(a, g);
      assert false;
    } else if g in Blanks(r) {
      var j :| 0 <= j < |r| && Blanks(r)[j] == g;
      BlankExact(r[j]);
      KeyIn(a, r[j]);
      assert false;
    }
  }

  /** On the merged findings a report scores: some added findings make it suitable, at any
      depth, exactly when the findings that nothing can displace are suitable without caps. All
      other penalties can be merged away and every cap lifted. */
  lemma MergedVerdictFlipsExactly(a: seq<Finding>, r: seq<Finding>, depth: Scoring.Depth)
    requires IsDeduplicated(a, r)
    ensures (exists more, r' :: IsDeduplicated(a + more, r') && Scoring.Suitable(r', depth))
      <==> Scoring.Suitable(Lasting(r), Scoring.FullToolchain)
  {
    hide Key, Better, IsDeduplicated, Unbeatable, Scoring.Suitable, Scoring.Mention, Scoring.Penalizes;
    DistinctKeys(a, r);
    LastingExact(r);
    forall more, r' | IsDeduplicated(a + more, r') && Scoring.Suitable(r', depth)
      ensures Scoring.Suitable(Lasting(r), Scoring.FullToolchain)
    {
      forall f | f in Lasting(r) { UnbeatableStays(a, more, r, r', f); }
      DistinctIncluded(Lasting(r), r');
      Scoring.SuitableWithoutCaps(Lasting(r), r', depth);
    }
    if Scoring.Suitable(Lasting(r), Scoring.FullToolchain) {
      var r' := TurnedReport(a, r, depth);
    }
  }

  lemma TurnedReport(a: seq<Finding>, r: seq<Finding>, depth: Scoring.Depth) returns (r': seq<Finding>)
    requires IsDeduplicated(a, r) && Scoring.Suitable(Lasting(r), Scoring.FullToolchain)
    ensures exists more :: IsDeduplicated(a + more, r')
    ensures Scoring.Suitable(r', depth)
  {
    hide Key, Better, IsDeduplicated, Unbeatable, Fresh;
    hide Scoring.Suitable, Scoring.Mention, Scoring.Penalizes, Scoring.AllSpoken;
    var rule := Fresh(Keys(a));
    var more := Blanks(r) + [Scoring.Mention(rule)];
    r' := SomeDeduplicated(a + more);
    MentionKept(a, r, rule, r');
    Scoring.MentionSpeaks(r', rule);
    DistinctKeys(a + more, r');
    LastingExact(r);
    forall f, d | f in r' && Scoring.Penalizes(f, d)
      ensures f in Lasting(r)
    {
      if j :| 0 <= j < |r| && Blanks(r)[j] == f {
        BlankExact(r[j]);
        assert false;
      }
      OnlyLastingLeft(a, r, rule, r', f);
    }
    Scoring.SuitableAround(Lasting(r), r', depth);
  }

  // ---------------------------------------------------------------------------
  // What the key tells apart
  // ---------------------------------------------------------------------------

  /** Adapter findings that name a file are told apart instance by instance. */
  predicate Located(f: Finding) {
    f.layer == AdapterLayer && f.affectedFiles != [] && f.affectedFiles[0] != ""
  }

  /** Of one rule and, for located adapter findings, of one file with the same start of evidence. */
  predicate SamePlace(f: Finding, g: Finding) {
    && f.ruleId == g.ruleId && Located(f) == Located(g)
    && (Located(f) ==> f.affectedFiles[0] == g.affectedFiles[0] && Snippet(f) == Snippet(g))
  }

  /** File and evidence as they stand in the key. */
  function PlaceText(f: Finding): string
    requires Located(f)
  {
    f.affectedFiles[0] + "::" + Snippet(f)
  }

  /** The text can be cut at `i` into a file and a start of evidence. */
  predicate Cut(text: string, i: nat) {
    0 < i && i + 2 <= |text| && text[i..i + 2] == "::" && |text| - i - 2 <= 30
  }

  /** A finding shares its key with all findings of its own rule, file and evidence, and with
      no others exactly when the key has no second pair of colons where it could be cut as well. Rule names are
      constants of the rules and hold no colon. */
  lemma KeyExact(f: Finding)
    requires Free(f.ruleId, ':')
    ensures (forall g: Finding :: Free(g.ruleId, ':') && Key(g) == Key(f) ==> SamePlace(f, g))
      <==> (Located(f) ==> forall i: nat :: Cut(PlaceText(f), i) ==> i == |f.affectedFiles[0]|)
    ensures forall g :: SamePlace(f, g) ==> Key(g) == Key(f)
  {
    hide Key, Snippet, Cut;
    forall g | SamePlace(f, g) { SamePlaceSameKey(f, g); }
    if Located(f) {
      forall i: nat | Cut(PlaceText(f), i) && i != |f.affectedFiles[0]|
        ensures exists g: Finding :: Free(g.ruleId, ':') && Key(g) == Key(f) && !SamePlace(f, g)
      {
        var g := CutThere(f, i);
      }
    }
    if Located(f) ==> forall i: nat :: Cut(PlaceText(f), i) ==> i == |f.affectedFiles[0]| {
      forall g: Finding | Free(g.ruleId, ':') && Key(g) == Key(f)
        ensures SamePlace(f, g)
      {
        SharedKey(f, g);
      }
    }
  }

  /** Findings of one place share the key. */
  lemma SamePlaceSameKey(f: Finding, g: Finding)
    requires SamePlace(f, g)
    ensures Key(f) == Key(g)
  {
  }

  lemma KeyOfLocated(f: Finding)
    requires Located(f)
    ensures Key(f) == f.ruleId + [':'] + ([':'] + PlaceText(f))
  {
    assert "::" == [':'] + [':'];
  }

  /** Another finding of the rule whose place is written with the same text. */
  lemma CutThere(f: Finding, i: nat) returns (g: Finding)
    requires Located(f) && Cut(PlaceText(f), i) && i != |f.affectedFiles[0]|
    ensures g.ruleId == f.ruleId && Key(g) == Key(f) && !SamePlace(f, g)
  {
    var text := PlaceText(f);
    g := f.(affectedFiles := [text[..i]], evidence := [text[i + 2..]]);
    assert Located(g) && Snippet(g) == text[i + 2..];
    assert text == text[..i] + text[i..i + 2] + text[i + 2..];
    assert PlaceText(g) == text;
    KeyOfLocated(f);
    KeyOfLocated(g);
  }

  lemma SharedKey(f: Finding, g: Finding)
    requires Free(f.ruleId, ':') && Free(g.ruleId, ':') && Key(g) == Key(f)
    requires Located(f) ==> forall i: nat :: Cut(PlaceText(f), i) ==> i == |f.affectedFiles[0]|
    ensures SamePlace(f, g)
  {
    hide Snippet, Cut;
    ColonShows(f);
    ColonShows(g);
    if Located(f) && Located(g) {
      KeyOfLocated(f);
      KeyOfLocated(g);
      FirstColon(f.ruleId, [':'] + PlaceText(f), g.ruleId, [':'] + PlaceText(g));
      assert ([':'] + PlaceText(f))[1..] == PlaceText(f) && ([':'] + PlaceText(g))[1..] == PlaceText(g);
      OwnCut(g);
      var text, i := PlaceText(f), |f.affectedFiles[0]|;
      assert f.affectedFiles[0] == text[..i] && g.affectedFiles[0] == text[..i];
      assert Snippet(f) == text[i + 2..] && Snippet(g) == text[i + 2..];
    }
  }

  lemma OwnCut(f: Finding)
    requires Located(f)
    ensures Cut(PlaceText(f), |f.affectedFiles[0]|)
  {
  }

  /** Only a located finding has a colon in its key, as long as its rule has none. */
  lemma ColonShows(f: Finding)
    requires Free(f.ruleId, ':')
    ensures Free(Key(f), ':') <==> !Located(f)
    ensures !Located(f) ==> Key(f) == f.ruleId
  {
    if Located(f) {
      KeyOfLocated(f);
      assert Key(f)[|f.ruleId|] == ':';
    }
  }

  /** Texts joined at a first colon are equal part by part. */
  lemma FirstColon(a: string, x: string, b: string, y: string)
    requires Free(a, ':') && Free(b, ':') && a + [':'] + x == b + [':'] + y
    ensures a == b && x == y
  {
    var s, t := a + [':'] + x, b + [':'] + y;
    assert s[|a|] == ':' && t[|b|] == ':';
    assert forall i :: 0 <= i < |a| ==> s[i] == a[i];
    assert forall i :: 0 <= i < |b| ==> t[i] == b[i];
    assert a == s[..|a|] && b == t[..|b|];
    assert x == s[|a| + 1..] && y == t[|b| + 1..];
  }
}
