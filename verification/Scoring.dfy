/** From findings to category scores, depth caps, the overall score and the verdict.
    Points are exact, in two-hundredths of a score point. */
module Scoring {
  import opened Collections
  import opened Findings
  import opened Penalties

  // ---------------------------------------------------------------------------
  // Raw scores
  // ---------------------------------------------------------------------------

  /** Severity multiplier, in tenths. */
  function SeverityTenths(s: Severity): nat {
    match s
    case Critical => 15
    case High => 10
    case Medium => 7
    case Low => 4
    case Info => 0
  }

  predicate Penalizes(f: Finding, domain: string) {
    domain in f.scoreImpact && f.scoreImpact[domain] < 0
  }

  function PenaltyOf(f: Finding, domain: string): nat
    requires Penalizes(f, domain)
  {
    -f.scoreImpact[domain] * SeverityTenths(f.severity)
  }

  /** Penalties one finding puts into the bucket of a domain and a rule. */
  function OwnPenalties(f: Finding, domain: string, rule: string): seq<nat> {
    if f.ruleId == rule && Penalizes(f, domain) then [PenaltyOf(f, domain)] else []
  }

  function PenaltiesOf(findings: seq<Finding>, domain: string, rule: string): seq<nat> {
    if findings == [] then []
    else PenaltiesOf(findings[..|findings| - 1], domain, rule) + OwnPenalties(findings[|findings| - 1], domain, rule)
  }

  /** Rules with a penalty in the domain. */
  function RulesIn(findings: seq<Finding>, domain: string): set<string> {
    set f | f in findings && Penalizes(f, domain) :: f.ruleId
  }

  /** Points of the clusters of some rules; the order they are added in does not matter. */
  ghost function RulePoints(findings: seq<Finding>, domain: string, rules: set<string>): nat {
    if rules == {} then 0
    else
      var r :| r in rules;
      ClusterPoints(PenaltiesOf(findings, domain, r)) + RulePoints(findings, domain, rules - {r})
  }

  const DOMAIN_CAP: nat := 100 * 200

  ghost function DomainPoints(findings: seq<Finding>, domain: string): nat {
    var p := RulePoints(findings, domain, RulesIn(findings, domain));
    if p <= DOMAIN_CAP then p else DOMAIN_CAP
  }

  /** A total in two-hundredths is cut to whole points before it is taken off. */
  function RawFrom(points: nat): int {
    if 100 - points / 200 >= 0 then 100 - points / 200 else 0
  }

  ghost function RawScore(findings: seq<Finding>, domain: string): int {
    RawFrom(DomainPoints(findings, domain))
  }

  lemma {:induction false} RulePointsTake(findings: seq<Finding>, domain: string, rules: set<string>, r: string)
    requires r in rules
    ensures RulePoints(findings, domain, rules) ==
      ClusterPoints(PenaltiesOf(findings, domain, r)) + RulePoints(findings, domain, rules - {r})
  {
    hide ClusterPoints, PenaltiesOf;
    var q :| q in rules && RulePoints(findings, domain, rules) ==
      ClusterPoints(PenaltiesOf(findings, domain, q)) + RulePoints(findings, domain, rules - {q});
    if q != r {
      RulePointsTake(findings, domain, rules - {q}, r);
      RulePointsTake(findings, domain, rules - {r}, q);
      assert rules - {q} - {r} == rules - {r} - {q};
    }
  }

  lemma {:induction false} PenaltiesConcat(a: seq<Finding>, b: seq<Finding>, domain: string, rule: string)
    ensures PenaltiesOf(a + b, domain, rule) == PenaltiesOf(a, domain, rule) + PenaltiesOf(b, domain, rule)
  {
    if b == [] {
      assert a + b == a;
    } else {
      hide OwnPenalties, PenaltiesOf;
      var init, f := b[..|b| - 1], b[|b| - 1];
      PenaltiesConcat(a, init, domain, rule);
      assert b == init + [f];
      Assoc(a, init, [f]);
      LastPenalties(init, f, domain, rule);
      LastPenalties(a + init, f, domain, rule);
      Assoc(PenaltiesOf(a, domain, rule), PenaltiesOf(init, domain, rule), OwnPenalties(f, domain, rule));
    }
  }

  lemma Assoc<T>(a: seq<T>, b: seq<T>, c: seq<T>)
    ensures a + b + c == a + (b + c)
  {
  }

  lemma LastPenalties(init: seq<Finding>, f: Finding, domain: string, rule: string)
    ensures PenaltiesOf(init + [f], domain, rule) == PenaltiesOf(init, domain, rule) + OwnPenalties(f, domain, rule)
  {
    assert (init + [f])[..|init|] == init;
  }

  /** A bucket holds one penalty per finding, wherever the finding stands. */
  lemma PenaltiesWithout(findings: seq<Finding>, j: nat, domain: string, rule: string)
    requires j < |findings|
    ensures multiset(PenaltiesOf(findings, domain, rule)) ==
      multiset(PenaltiesOf(findings[..j] + findings[j + 1..], domain, rule))
        + multiset(OwnPenalties(findings[j], domain, rule))
  {
    var before, own, after := findings[..j], [findings[j]], findings[j + 1..];
    assert findings == before + own + after;
    PenaltiesConcat(before + own, after, domain, rule);
    PenaltiesConcat(before, own, domain, rule);
    PenaltiesConcat(before, after, domain, rule);
    assert own[..0] == [];
    assert PenaltiesOf(own, domain, rule) == PenaltiesOf([], domain, rule) + OwnPenalties(findings[j], domain, rule);
  }

  lemma {:induction false} PenaltiesIncluded(a: seq<Finding>, b: seq<Finding>, domain: string, rule: string)
    requires multiset(a) <= multiset(b)
    ensures multiset(PenaltiesOf(a, domain, rule)) <= multiset(PenaltiesOf(b, domain, rule))
  {
    if a != [] {
      hide OwnPenalties;
      var init, x := a[..|a| - 1], a[|a| - 1];
      assert a == init + [x];
      var j, rest := TakeOne(init, x, b);
      PenaltiesIncluded(init, rest, domain, rule);
      PenaltiesWithout(b, j, domain, rule);
    }
  }

  /** A collection that contains `init` and `x` still contains `init` after one `x` is taken out. */
  lemma TakeOne(init: seq<Finding>, x: Finding, b: seq<Finding>) returns (j: nat, rest: seq<Finding>)
    requires multiset(init) + multiset{x} <= multiset(b)
    ensures j < |b| && b[j] == x && rest == b[..j] + b[j + 1..]
    ensures multiset(init) <= multiset(rest)
  {
    assert x in multiset(b);
    j :| 0 <= j < |b| && b[j] == x;
    rest := b[..j] + b[j + 1..];
    assert b == b[..j] + [x] + b[j + 1..];
    assert multiset(b) == multiset(rest) + multiset{x};
    Cancel(multiset(init), multiset(rest), multiset{x});
  }

  lemma Cancel<T>(a: multiset<T>, b: multiset<T>, c: multiset<T>)
    requires a + c <= b + c
    ensures a <= b
  {
    forall y
      ensures a[y] <= b[y]
    {
      assert (a + c)[y] <= (b + c)[y];
    }
  }

  lemma {:induction false} RulePointsGrow(a: seq<Finding>, b: seq<Finding>, domain: string, rulesA: set<string>,
                                          rulesB: set<string>)
    requires multiset(a) <= multiset(b) && rulesA <= rulesB
    ensures RulePoints(a, domain, rulesA) <= RulePoints(b, domain, rulesB)
  {
    hide ClusterPoints, PenaltiesOf;
    if rulesA != {} {
      var r :| r in rulesA;
      RulePointsTake(a, domain, rulesA, r);
      RulePointsTake(b, domain, rulesB, r);
      PenaltiesIncluded(a, b, domain, r);
      ClusterMonotone(PenaltiesOf(a, domain, r), PenaltiesOf(b, domain, r));
      RulePointsGrow(a, b, domain, rulesA - {r}, rulesB - {r});
    }
  }

  /** More findings never raise a raw score, in any category and wherever they are inserted. */
  lemma RawScoreAntitone(a: seq<Finding>, b: seq<Finding>, domain: string)
    requires multiset(a) <= multiset(b)
    ensures DomainPoints(a, domain) <= DomainPoints(b, domain)
    ensures RawScore(b, domain) <= RawScore(a, domain)
  {
    assert RulesIn(a, domain) <= RulesIn(b, domain) by {
      forall f | f in a && Penalizes(f, domain)
        ensures f in b
      {
        assert f in multiset(a) && f in multiset(b);
      }
    }
    RulePointsGrow(a, b, domain, RulesIn(a, domain), RulesIn(b, domain));
  }

  /** Raw scores do not see the order of the findings. */
  lemma RawScoreOrderFree(a: seq<Finding>, b: seq<Finding>, domain: string)
    requires multiset(a) == multiset(b)
    ensures RawScore(a, domain) == RawScore(b, domain)
  {
    RawScoreAntitone(a, b, domain);
    RawScoreAntitone(b, a, domain);
  }

  // ---------------------------------------------------------------------------
  // Depth caps
  // ---------------------------------------------------------------------------

  datatype Depth = StructuralOnly | LintAugmented | SecurityAugmented | FullToolchain

  datatype Scorecard = Scorecard(
    maintainability: int, reliability: int, security: int,
    testing: int, operationalReadiness: int, developerExperience: int
  )

  const MAINTAINABILITY := "maintainability"
  const RELIABILITY := "reliability"
  const SECURITY := "security"
  const TESTING := "testing"
  const OPERATIONS := "operational_readiness"
  const EXPERIENCE := "developer_experience"

  const CATEGORIES: seq<string> := [MAINTAINABILITY, RELIABILITY, SECURITY, TESTING, OPERATIONS, EXPERIENCE]

  /** Ceilings per depth; a category not named is not capped. */
  function DepthCaps(depth: Depth): Scorecard {
    match depth
    case StructuralOnly => Scorecard(85, 88, 90, 85, 100, 100)
    case LintAugmented => Scorecard(92, 93, 88, 92, 100, 100)
    case SecurityAugmented => Scorecard(94, 94, 97, 93, 100, 100)
    case FullToolchain => Scorecard(100, 100, 100, 100, 100, 100)
  }

  /** A finding speaks of a category when it is filed under it or names it in its impact,
      whatever the sign of the impact. */
  predicate SpeaksOf(f: Finding, category: string) {
    f.category == category || category in f.scoreImpact
  }

  ghost predicate HasFinding(findings: seq<Finding>, category: string) {
    exists f :: f in findings && SpeaksOf(f, category)
  }

  function CategoryCount(findings: seq<Finding>, category: string): nat {
    if findings == [] then 0
    else
      var f := findings[|findings| - 1];
      CategoryCount(findings[..|findings| - 1], category)
      + (if f.category == category then 1 else 0) + (if category in f.scoreImpact then 1 else 0)
  }

  lemma {:induction false} CountedExactly(findings: seq<Finding>, category: string)
    ensures CategoryCount(findings, category) > 0 <==> HasFinding(findings, category)
  {
    if findings != [] {
      var init, f := findings[..|findings| - 1], findings[|findings| - 1];
      CountedExactly(init, category);
      assert findings == init + [f];
      assert f in findings;
    }
  }

  function Get(counts: map<string, nat>, key: string): nat {
    if key in counts then counts[key] else 0
  }

  method FindingsByCategory(findings: seq<Finding>) returns (counts: map<string, nat>)
    ensures forall c :: Get(counts, c) == CategoryCount(findings, c)
  {
    counts := map[];
    for i := 0 to |findings|
      invariant forall c :: Get(counts, c) == CategoryCount(findings[..i], c)
    {
      var f := findings[i];
      assert findings[..i + 1][..i] == findings[..i];
      counts := counts[f.category := Get(counts, f.category) + 1];
      var left := f.scoreImpact.Keys;
      while left != {}
        invariant left <= f.scoreImpact.Keys
        invariant forall c :: Get(counts, c) + (if c in left then 1 else 0) == CategoryCount(findings[..i + 1], c)
      {
        var domain :| domain in left;
        counts := counts[domain := Get(counts, domain) + 1];
        left := left - {domain};
      }
    }
    assert findings[..|findings|] == findings;
  }

  function Capped(current: int, ceiling: int, count: nat): int {
    if count > 0 then current else if current <= ceiling then current else ceiling
  }

  function ApplyDepthCaps(card: Scorecard, depth: Depth, counts: map<string, nat>): Scorecard {
    if depth == FullToolchain then card
    else
      var caps := DepthCaps(depth);
      Scorecard(
        Capped(card.maintainability, caps.maintainability, Get(counts, MAINTAINABILITY)),
        Capped(card.reliability, caps.reliability, Get(counts, RELIABILITY)),
        Capped(card.security, caps.security, Get(counts, SECURITY)),
        Capped(card.testing, caps.testing, Get(counts, TESTING)),
        Capped(card.operationalReadiness, caps.operationalReadiness, Get(counts, OPERATIONS)),
        Capped(card.developerExperience, caps.developerExperience, Get(counts, EXPERIENCE)))
  }

  /** The score of a category as the report shows it, from the findings alone. */
  ghost function FinalScore(findings: seq<Finding>, category: string, depth: Depth, ceiling: int): int {
    if depth == FullToolchain || HasFinding(findings, category) then RawScore(findings, category)
    else if RawScore(findings, category) <= ceiling then RawScore(findings, category) else ceiling
  }

  ghost function ScoresOf(findings: seq<Finding>, depth: Depth): Scorecard {
    var caps := DepthCaps(depth);
    Scorecard(
      FinalScore(findings, MAINTAINABILITY, depth, caps.maintainability),
      FinalScore(findings, RELIABILITY, depth, caps.reliability),
      FinalScore(findings, SECURITY, depth, caps.security),
      FinalScore(findings, TESTING, depth, caps.testing),
      FinalScore(findings, OPERATIONS, depth, caps.operationalReadiness),
      FinalScore(findings, EXPERIENCE, depth, caps.developerExperience))
  }

  /** A category no finding speaks of has no penalties. */
  lemma UntouchedIsPerfect(findings: seq<Finding>, category: string)
    requires !HasFinding(findings, category)
    ensures RawScore(findings, category) == 100
  {
    assert RulesIn(findings, category) == {} by {
      forall f | f in findings
        ensures !Penalizes(f, category)
      {
        assert !SpeaksOf(f, category);
      }
    }
  }

  lemma FinalAtMostRaw(findings: seq<Finding>, category: string, depth: Depth, ceiling: int)
    ensures FinalScore(findings, category, depth, ceiling) <= RawScore(findings, category)
  {
  }

  /** Caps make the shown score not antitone: it fails to fall exactly when the first finding
      of a category lifts a cap that the raw score still exceeds. */
  lemma FinalScoreFallsExactly(a: seq<Finding>, b: seq<Finding>, category: string, depth: Depth, ceiling: int)
    requires multiset(a) <= multiset(b) && 0 <= ceiling <= 100
    ensures FinalScore(b, category, depth, ceiling) <= FinalScore(a, category, depth, ceiling)
      <==> depth == FullToolchain || HasFinding(a, category) || !HasFinding(b, category)
           || RawScore(b, category) <= ceiling
  {
    RawScoreAntitone(a, b, category);
    if HasFinding(a, category) {
      var f :| f in a && SpeaksOf(f, category);
      assert f in multiset(a) && f in multiset(b);
      assert HasFinding(b, category);
    } else {
      UntouchedIsPerfect(a, category);
    }
    if !HasFinding(b, category) {
      UntouchedIsPerfect(b, category);
    }
  }

  // ---------------------------------------------------------------------------
  // Overall score and verdict
  // ---------------------------------------------------------------------------

  function Overall(card: Scorecard): int {
    (card.security * 20 + card.reliability * 20 + card.maintainability * 20
     + card.testing * 15 + card.operationalReadiness * 15 + card.developerExperience * 10) / 100
  }

  datatype Trust = TrustStrong | TrustSolid | TrustModerate | TrustLimited | TrustNone

  datatype Band = Band(lo: int, hi: int, trust: Trust)

  const BANDS: seq<Band> := [
    Band(90, 100, TrustStrong), Band(75, 89, TrustSolid), Band(60, 74, TrustModerate),
    Band(40, 59, TrustLimited), Band(0, 39, TrustNone)
  ]

  /** The first band that holds the score, else the last one. */
  function FirstBand(bands: seq<Band>, score: int): Band
    requires bands != []
  {
    if bands[0].lo <= score <= bands[0].hi || |bands| == 1 then bands[0] else FirstBand(bands[1..], score)
  }

  function InterpretOverall(score: int): Band {
    FirstBand(BANDS, score)
  }

  predicate ProductionSuitable(card: Scorecard, overall: int) {
    InterpretOverall(overall).trust in {TrustStrong, TrustSolid} && card.security >= 65 && card.testing >= 50
  }

  predicate InScale(card: Scorecard) {
    && 0 <= card.maintainability <= 100 && 0 <= card.reliability <= 100 && 0 <= card.security <= 100
    && 0 <= card.testing <= 100 && 0 <= card.operationalReadiness <= 100 && 0 <= card.developerExperience <= 100
  }

  predicate NotAbove(x: Scorecard, y: Scorecard) {
    && x.maintainability <= y.maintainability && x.reliability <= y.reliability && x.security <= y.security
    && x.testing <= y.testing && x.operationalReadiness <= y.operationalReadiness
      && x.developerExperience <= y.developerExperience
  }

  /** The bands leave no gap: every score of the scale lies in exactly one of them, and the
      trusted ones are those from 75 up. */
  lemma BandsPartition(score: int)
    requires 0 <= score <= 100
    ensures var b := InterpretOverall(score); b.lo <= score <= b.hi
    ensures exists i :: 0 <= i < |BANDS| && BANDS[i] == InterpretOverall(score)
    ensures forall i, j :: 0 <= i < j < |BANDS| ==>
      !(BANDS[i].lo <= score <= BANDS[i].hi && BANDS[j].lo <= score <= BANDS[j].hi)
    ensures InterpretOverall(score).trust in {TrustStrong, TrustSolid} <==> score >= 75
  {
    var i :=
      if score >= 90 then 0 else if score >= 75 then 1 else if score >= 60 then 2 else if score >= 40 then 3 else 4;
    assert FirstBand(BANDS[4..], score) == BANDS[4];
    assert BANDS[3..][1..] == BANDS[4..] && BANDS[2..][1..] == BANDS[3..] && BANDS[1..][1..] == BANDS[2..];
    assert FirstBand(BANDS[3..], score) == if i == 3 then BANDS[3] else FirstBand(BANDS[4..], score);
    assert FirstBand(BANDS[2..], score) == if i == 2 then BANDS[2] else FirstBand(BANDS[3..], score);
    assert FirstBand(BANDS[1..], score) == if i == 1 then BANDS[1] else FirstBand(BANDS[2..], score);
    assert BANDS[i] == InterpretOverall(score);
  }

  lemma OverallMonotone(x: Scorecard, y: Scorecard)
    requires NotAbove(x, y) && InScale(x) && InScale(y)
    ensures 0 <= Overall(x) <= Overall(y) <= 100
  {
  }

  /** Equal scores give themselves overall; the weights are 20, 20, 20, 15, 15 and 10 percent. */
  lemma OverallWeights(n: int)
    ensures Overall(Scorecard(n, n, n, n, n, n)) == n
    ensures Overall(Scorecard(5 * n, 0, 0, 0, 0, 0)) == Overall(Scorecard(0, 5 * n, 0, 0, 0, 0)) ==
      Overall(Scorecard(0, 0, 5 * n, 0, 0, 0)) == n
    ensures Overall(Scorecard(0, 0, 0, 20 * n, 0, 0)) == Overall(Scorecard(0, 0, 0, 0, 20 * n, 0)) == 3 * n
    ensures Overall(Scorecard(0, 0, 0, 0, 0, 10 * n)) == n
  {
  }

  /** A report is suitable exactly from 75 overall, 65 in security and 50 in testing. */
  lemma SuitableExactly(card: Scorecard)
    requires InScale(card)
    ensures ProductionSuitable(card, Overall(card)) <==>
      Overall(card) >= 75 && card.security >= 65 && card.testing >= 50
  {
    hide InterpretOverall;
    OverallMonotone(card, card);
    BandsPartition(Overall(card));
  }

  /** On cards that do not rise anywhere, a verdict never turns suitable. */
  lemma SuitableMonotone(x: Scorecard, y: Scorecard)
    requires NotAbove(x, y) && InScale(x) && InScale(y)
    requires ProductionSuitable(x, Overall(x))
    ensures ProductionSuitable(y, Overall(y))
  {
    OverallMonotone(x, y);
    BandsPartition(Overall(x));
    BandsPartition(Overall(y));
  }

  lemma ScoresInScale(findings: seq<Finding>, depth: Depth)
    ensures InScale(ScoresOf(findings, depth))
  {
  }

  /** The verdict on a list of findings that is scored as it stands. */
  ghost predicate Suitable(findings: seq<Finding>, depth: Depth) {
    var card := ScoresOf(findings, depth);
    ProductionSuitable(card, Overall(card))
  }

  /** With the full toolchain, a longer list that is scored as it stands is never suitable
      where the shorter one is not. */
  lemma FindingsNeverMakeSuitable(a: seq<Finding>, b: seq<Finding>)
    requires multiset(a) <= multiset(b) && Suitable(b, FullToolchain)
    ensures Suitable(a, FullToolchain)
  {
    hide RawScore, ProductionSuitable;
    forall d { RawScoreAntitone(a, b, d); }
    ScoresInScale(a, FullToolchain);
    ScoresInScale(b, FullToolchain);
    SuitableMonotone(ScoresOf(b, FullToolchain), ScoresOf(a, FullToolchain));
  }

  // ---------------------------------------------------------------------------
  // The scorecard as it is computed
  // ---------------------------------------------------------------------------

  type Buckets = map<string, map<string, seq<nat>>>

  function BucketOf(buckets: Buckets, domain: string, rule: string): seq<nat> {
    if domain in buckets && rule in buckets[domain] then buckets[domain][rule] else []
  }

  function AddPenalty(buckets: Buckets, domain: string, rule: string, penalty: nat): Buckets {
    var rules := if domain in buckets then buckets[domain] else map[];
    buckets[domain := rules[rule := BucketOf(buckets, domain, rule) + [penalty]]]
  }

  ghost predicate HoldsPenalties(buckets: Buckets, findings: seq<Finding>) {
    forall d, r :: BucketOf(buckets, d, r) == PenaltiesOf(findings, d, r)
  }

  ghost predicate NoEmptyBucket(buckets: Buckets) {
    forall d :: d in buckets ==> buckets[d] != map[] && forall r :: r in buckets[d] ==> buckets[d][r] != []
  }

  /** Penalties of `init`, and those of `f` for the domains already handled. */
  ghost predicate HoldsPart(buckets: Buckets, init: seq<Finding>, f: Finding, left: set<string>) {
    forall d, r :: BucketOf(buckets, d, r) ==
      PenaltiesOf(init, d, r) + if d in left then [] else OwnPenalties(f, d, r)
  }

  lemma PartStart(buckets: Buckets, init: seq<Finding>, f: Finding, left: set<string>)
    requires HoldsPenalties(buckets, init) && left == f.scoreImpact.Keys
    ensures HoldsPart(buckets, init, f, left)
  {
    forall d, r
      ensures BucketOf(buckets, d, r) == PenaltiesOf(init, d, r) + if d in left then [] else OwnPenalties(f, d, r)
    {
      assert BucketOf(buckets, d, r) == PenaltiesOf(init, d, r);
    }
  }

  lemma PartStep(buckets: Buckets, init: seq<Finding>, f: Finding, left: set<string>, domain: string)
    requires domain in left && left <= f.scoreImpact.Keys
    requires HoldsPart(buckets, init, f, left) && NoEmptyBucket(buckets)
    ensures var next := if f.scoreImpact[domain] < 0 then AddPenalty(buckets, domain, f.ruleId, PenaltyOf(f, domain))
      else buckets;
      HoldsPart(next, init, f, left - {domain}) && NoEmptyBucket(next)
  {
    hide PenaltiesOf;
    var next := if f.scoreImpact[domain] < 0 then AddPenalty(buckets, domain, f.ruleId, PenaltyOf(f, domain))
      else buckets;
    forall d, r
      ensures BucketOf(next, d, r) ==
        PenaltiesOf(init, d, r) + if d in left - {domain} then [] else OwnPenalties(f, d, r)
    {
      assert BucketOf(buckets, d, r) == PenaltiesOf(init, d, r) + if d in left then [] else OwnPenalties(f, d, r);
    }
  }

  method AddFinding(buckets: Buckets, ghost init: seq<Finding>, f: Finding) returns (next: Buckets)
    requires HoldsPenalties(buckets, init) && NoEmptyBucket(buckets)
    ensures HoldsPart(next, init, f, {}) && NoEmptyBucket(next)
  {
    hide HoldsPart, NoEmptyBucket, AddPenalty;
    next := buckets;
    var left := f.scoreImpact.Keys;
    PartStart(next, init, f, left);
    while left != {}
      invariant left <= f.scoreImpact.Keys
      invariant HoldsPart(next, init, f, left) && NoEmptyBucket(next)
    {
      var domain :| domain in left;
      PartStep(next, init, f, left, domain);
      if f.scoreImpact[domain] < 0 {
        next := AddPenalty(next, domain, f.ruleId, PenaltyOf(f, domain));
      }
      left := left - {domain};
    }
  }

  method CollectPenalties(findings: seq<Finding>) returns (buckets: Buckets)
    ensures HoldsPenalties(buckets, findings) && NoEmptyBucket(buckets)
  {
    buckets := map[];
    for i := 0 to |findings|
      invariant HoldsPenalties(buckets, findings[..i]) && NoEmptyBucket(buckets)
    {
      var next := AddFinding(buckets, findings[..i], findings[i]);
      assert findings[..i + 1][..i] == findings[..i];
      buckets := next;
    }
    assert findings[..|findings|] == findings;
  }

  /** Adds the clusters of one domain, in whatever order the rules come. */
  method DomainTotal(rules: map<string, seq<nat>>, ghost findings: seq<Finding>, ghost domain: string)
      returns (points: nat)
    requires rules.Keys == RulesIn(findings, domain)
    requires forall r :: r in rules ==> rules[r] == PenaltiesOf(findings, domain, r)
    ensures points == DomainPoints(findings, domain)
  {
    var total, left := 0, rules.Keys;
    while left != {}
      invariant left <= rules.Keys
      invariant total + RulePoints(findings, domain, left) == RulePoints(findings, domain, rules.Keys)
    {
      var r :| r in left;
      RulePointsTake(findings, domain, left, r);
      var cluster := Cluster(rules[r]);
      total := total + cluster;
      left := left - {r};
    }
    points := if total <= DOMAIN_CAP then total else DOMAIN_CAP;
  }

  lemma {:induction false} BucketRules(findings: seq<Finding>, domain: string, rule: string)
    ensures PenaltiesOf(findings, domain, rule) != [] <==> rule in RulesIn(findings, domain)
  {
    if findings != [] {
      var init, f := findings[..|findings| - 1], findings[|findings| - 1];
      BucketRules(init, domain, rule);
      assert findings == init + [f];
      assert f in findings;
      assert forall g :: g in findings <==> g in init || g == f;
    }
  }

  method ComputeScorecard(findings: seq<Finding>, depth: Depth) returns (card: Scorecard)
    ensures card == ScoresOf(findings, depth)
    ensures InScale(card)
  {
    var buckets := CollectPenalties(findings);
    var totals: map<string, nat> := map[];
    var left := buckets.Keys;
    while left != {}
      invariant left <= buckets.Keys && totals.Keys == buckets.Keys - left
      invariant forall d :: d in totals ==> totals[d] == DomainPoints(findings, d)
    {
      var d :| d in left;
      DomainRules(buckets, findings, d);
      var points := DomainTotal(buckets[d], findings, d);
      totals := totals[d := points];
      left := left - {d};
    }
    forall d
      ensures RawFrom(Get(totals, d)) == RawScore(findings, d)
    {
      if d !in totals {
        NoDomainNoPoints(buckets, findings, d);
      }
    }
    var raw := Scorecard(
      RawFrom(Get(totals, MAINTAINABILITY)), RawFrom(Get(totals, RELIABILITY)), RawFrom(Get(totals, SECURITY)),
      RawFrom(Get(totals, TESTING)), RawFrom(Get(totals, OPERATIONS)), RawFrom(Get(totals, EXPERIENCE)));
    var counts := FindingsByCategory(findings);
    card := ApplyDepthCaps(raw, depth, counts);
    CapsAgree(findings, depth, raw, counts);
    ScoresInScale(findings, depth);
  }

  lemma DomainRules(buckets: Buckets, findings: seq<Finding>, d: string)
    requires HoldsPenalties(buckets, findings) && NoEmptyBucket(buckets) && d in buckets
    ensures buckets[d].Keys == RulesIn(findings, d)
    ensures forall r :: r in buckets[d] ==> buckets[d][r] == PenaltiesOf(findings, d, r)
  {
    hide PenaltiesOf, RulesIn;
    forall r
      ensures r in buckets[d] <==> r in RulesIn(findings, d)
    {
      BucketRules(findings, d, r);
      assert BucketOf(buckets, d, r) == PenaltiesOf(findings, d, r);
    }
    forall r | r in buckets[d]
      ensures buckets[d][r] == PenaltiesOf(findings, d, r)
    {
      assert BucketOf(buckets, d, r) == PenaltiesOf(findings, d, r);
    }
  }

  lemma NoDomainNoPoints(buckets: Buckets, findings: seq<Finding>, d: string)
    requires HoldsPenalties(buckets, findings) && d !in buckets
    ensures DomainPoints(findings, d) == 0
  {
    hide PenaltiesOf, RulesIn;
    forall r
      ensures r !in RulesIn(findings, d)
    {
      BucketRules(findings, d, r);
      assert BucketOf(buckets, d, r) == PenaltiesOf(findings, d, r);
    }
    assert RulesIn(findings, d) == {};
  }

  lemma CapsAgree(findings: seq<Finding>, depth: Depth, raw: Scorecard, counts: map<string, nat>)
    requires raw == Scorecard(
      RawScore(findings, MAINTAINABILITY), RawScore(findings, RELIABILITY), RawScore(findings, SECURITY),
      RawScore(findings, TESTING), RawScore(findings, OPERATIONS), RawScore(findings, EXPERIENCE))
    requires forall c :: Get(counts, c) == CategoryCount(findings, c)
    ensures ApplyDepthCaps(raw, depth, counts) == ScoresOf(findings, depth)
  {
    hide RawScore, CategoryCount, HasFinding, Get;
    forall c
      ensures Get(counts, c) > 0 <==> HasFinding(findings, c)
    {
      CountedExactly(findings, c);
      assert Get(counts, c) == CategoryCount(findings, c);
    }
  }

  // ---------------------------------------------------------------------------
  // One finding in place of another
  // ---------------------------------------------------------------------------

  /** What a finding alone takes off a category, in tenths: its penalty, up to a full cluster. */
  function Weight(f: Finding, domain: string): nat {
    if Penalizes(f, domain) then Effective(PenaltyOf(f, domain)) else 0
  }

  lemma OwnCluster(f: Finding, domain: string)
    ensures ClusterPoints(OwnPenalties(f, domain, f.ruleId)) == 20 * Weight(f, domain)
  {
    if Penalizes(f, domain) {
      OnePenalty(PenaltyOf(f, domain));
    }
  }

  /** Rules without a penalty in the domain add no points. */
  lemma {:induction false} ExtraRules(s: seq<Finding>, domain: string, rules: set<string>)
    requires RulesIn(s, domain) <= rules
    ensures RulePoints(s, domain, rules) == RulePoints(s, domain, RulesIn(s, domain))
    decreases rules
  {
    hide PenaltiesOf, RulesIn;
    if rules != RulesIn(s, domain) {
      var r :| r in rules && r !in RulesIn(s, domain);
      RulePointsTake(s, domain, rules, r);
      BucketRules(s, domain, r);
      ExtraRules(s, domain, rules - {r});
    }
  }

  lemma {:induction false} RulePointsPointwise(a: seq<Finding>, b: seq<Finding>, domain: string, rules: set<string>)
    requires forall r :: ClusterPoints(PenaltiesOf(a, domain, r)) <= ClusterPoints(PenaltiesOf(b, domain, r))
    ensures RulePoints(a, domain, rules) <= RulePoints(b, domain, rules)
  {
    hide ClusterPoints, PenaltiesOf;
    if rules != {} {
      var r :| r in rules;
      RulePointsTake(a, domain, rules, r);
      RulePointsTake(b, domain, rules, r);
      RulePointsPointwise(a, b, domain, rules - {r});
    }
  }

  lemma OwnReplaced(e: Finding, g: Finding, domain: string, rule: string, rest: seq<nat>)
    requires e.ruleId == g.ruleId && Weight(e, domain) <= Weight(g, domain)
    ensures ClusterPoints(OwnPenalties(e, domain, rule) + rest) <= ClusterPoints(OwnPenalties(g, domain, rule) + rest)
  {
    hide ClusterPoints;
    var x := if Penalizes(e, domain) then PenaltyOf(e, domain) else 0;
    var y := if Penalizes(g, domain) then PenaltyOf(g, domain) else 0;
    ClusterReplaced(rest, x, y);
    ClusterZero(rest);
    assert [] + rest == rest;
  }

  /** The bucket of a list with one finding replaced, with the own penalty put first. */
  lemma BucketReplaced(s: seq<Finding>, j: nat, g: Finding, domain: string, rule: string)
    requires j < |s|
    ensures ClusterPoints(PenaltiesOf(s[j := g], domain, rule)) ==
      ClusterPoints(OwnPenalties(g, domain, rule) + PenaltiesOf(s[..j] + s[j + 1..], domain, rule))
  {
    hide ClusterPoints, PenaltiesOf, OwnPenalties;
    var t := s[j := g];
    assert t[..j] == s[..j] && t[j + 1..] == s[j + 1..];
    PenaltiesWithout(t, j, domain, rule);
    var moved := OwnPenalties(g, domain, rule) + PenaltiesOf(s[..j] + s[j + 1..], domain, rule);
    ClusterMonotone(PenaltiesOf(t, domain, rule), moved);
    ClusterMonotone(moved, PenaltiesOf(t, domain, rule));
  }

  /** A finding of the same rule that weighs at least as much never raises the raw score by
      taking the place of another. */
  lemma HeavierInPlace(s: seq<Finding>, j: nat, g: Finding, domain: string)
    requires j < |s| && s[j].ruleId == g.ruleId && Weight(s[j], domain) <= Weight(g, domain)
    ensures RawScore(s[j := g], domain) <= RawScore(s, domain)
  {
    hide ClusterPoints, PenaltiesOf, OwnPenalties, RulesIn, Weight, RulePoints;
    var t := s[j := g];
    assert s[j := s[j]] == s;
    forall r
      ensures ClusterPoints(PenaltiesOf(s, domain, r)) <= ClusterPoints(PenaltiesOf(t, domain, r))
    {
      BucketReplaced(s, j, s[j], domain, r);
      BucketReplaced(s, j, g, domain, r);
      OwnReplaced(s[j], g, domain, r, PenaltiesOf(s[..j] + s[j + 1..], domain, r));
    }
    var rules := RulesIn(s, domain) + RulesIn(t, domain);
    RulePointsPointwise(s, t, domain, rules);
    ExtraRules(s, domain, rules);
    ExtraRules(t, domain, rules);
  }

  // ---------------------------------------------------------------------------
  // Where the caps break monotonicity
  // ---------------------------------------------------------------------------

  /** A finding with no negative impact leaves every raw score alone. */
  lemma NeutralFinding(a: seq<Finding>, f: Finding, domain: string)
    requires !Penalizes(f, domain)
    ensures RawScore(a + [f], domain) == RawScore(a, domain)
  {
    hide ClusterPoints;
    var b := a + [f];
    assert b[..|a|] == a;
    assert forall g :: g in b <==> g in a || g == f;
    assert RulesIn(b, domain) == RulesIn(a, domain);
    SamePoints(a, b, domain, RulesIn(a, domain));
  }

  lemma {:induction false} SamePoints(a: seq<Finding>, b: seq<Finding>, domain: string, rules: set<string>)
    requires forall r :: PenaltiesOf(a, domain, r) == PenaltiesOf(b, domain, r)
    ensures RulePoints(a, domain, rules) == RulePoints(b, domain, rules)
  {
    hide ClusterPoints, PenaltiesOf;
    if rules != {} {
      var r :| r in rules;
      RulePointsTake(a, domain, rules, r);
      RulePointsTake(b, domain, rules, r);
      SamePoints(a, b, domain, rules - {r});
    }
  }

  ghost predicate DistinctRules(s: seq<Finding>) {
    forall i, j :: 0 <= i < j < |s| ==> s[i].ruleId != s[j].ruleId
  }

  function TotalWeight(s: seq<Finding>, domain: string): nat {
    if s == [] then 0 else TotalWeight(s[..|s| - 1], domain) + Weight(s[|s| - 1], domain)
  }

  function RuleIds(s: seq<Finding>): set<string> {
    set f | f in s :: f.ruleId
  }

  lemma {:induction false} NoneOfRule(s: seq<Finding>, domain: string, rule: string)
    requires forall f :: f in s ==> f.ruleId != rule
    ensures PenaltiesOf(s, domain, rule) == []
  {
    if s != [] {
      NoneOfRule(s[..|s| - 1], domain, rule);
    }
  }

  lemma {:induction false} SamePointsOn(a: seq<Finding>, b: seq<Finding>, domain: string, rules: set<string>)
    requires forall r :: r in rules ==> PenaltiesOf(a, domain, r) == PenaltiesOf(b, domain, r)
    ensures RulePoints(a, domain, rules) == RulePoints(b, domain, rules)
  {
    hide ClusterPoints, PenaltiesOf;
    if rules != {} {
      var r :| r in rules;
      RulePointsTake(a, domain, rules, r);
      RulePointsTake(b, domain, rules, r);
      SamePointsOn(a, b, domain, rules - {r});
    }
  }

  lemma {:induction false} DistinctRulePoints(s: seq<Finding>, domain: string)
    requires DistinctRules(s)
    ensures RulePoints(s, domain, RuleIds(s)) == 20 * TotalWeight(s, domain)
  {
    if s != [] {
      hide ClusterPoints, PenaltiesOf, Weight, RulePoints, RuleIds, DistinctRules;
      var init, f := s[..|s| - 1], s[|s| - 1];
      assert s == init + [f];
      LastRule(init, f);
      DistinctRulePoints(init, domain);
      RulePointsTake(s, domain, RuleIds(s), f.ruleId);
      LastCluster(init, f, domain);
      forall r | r in RuleIds(init)
        ensures PenaltiesOf(s, domain, r) == PenaltiesOf(init, domain, r)
      {
        EarlierRule(init, f, domain, r);
      }
      SamePointsOn(s, init, domain, RuleIds(init));
    }
  }

  lemma EarlierRule(init: seq<Finding>, f: Finding, domain: string, rule: string)
    requires f.ruleId != rule
    ensures PenaltiesOf(init + [f], domain, rule) == PenaltiesOf(init, domain, rule)
  {
    hide PenaltiesOf;
    LastPenalties(init, f, domain, rule);
    NothingAdded(PenaltiesOf(init, domain, rule));
  }

  lemma LastRule(init: seq<Finding>, f: Finding)
    requires DistinctRules(init + [f])
    ensures DistinctRules(init)
    ensures f.ruleId !in RuleIds(init) && f.ruleId in RuleIds(init + [f])
    ensures RuleIds(init + [f]) - {f.ruleId} == RuleIds(init)
  {
    var s := init + [f];
    assert forall i :: 0 <= i < |init| ==> s[i] == init[i];
    forall g | g in init
      ensures g.ruleId != f.ruleId
    {
      var i :| 0 <= i < |init| && init[i] == g;
      assert s[i].ruleId != s[|init|].ruleId;
    }
  }

  lemma LastCluster(init: seq<Finding>, f: Finding, domain: string)
    requires f.ruleId !in RuleIds(init)
    ensures ClusterPoints(PenaltiesOf(init + [f], domain, f.ruleId)) == 20 * Weight(f, domain)
  {
    hide ClusterPoints, PenaltiesOf, Weight, OwnPenalties;
    NoneOfRule(init, domain, f.ruleId);
    LastPenalties(init, f, domain, f.ruleId);
    assert [] + OwnPenalties(f, domain, f.ruleId) == OwnPenalties(f, domain, f.ruleId);
    OwnCluster(f, domain);
  }

  /** Findings of different rules add up: their weights, in tenths, are taken off the hundred and
      only the sum is cut to whole points, down to nothing. */
  lemma DistinctRulesScore(s: seq<Finding>, domain: string)
    requires DistinctRules(s)
    ensures RawScore(s, domain) ==
      if TotalWeight(s, domain) <= 1000 then 100 - TotalWeight(s, domain) / 10 else 0
  {
    hide ClusterPoints, PenaltiesOf, Weight, RulePoints, TotalWeight, Penalizes, PenaltyOf;
    assert RulesIn(s, domain) <= RuleIds(s);
    ExtraRules(s, domain, RuleIds(s));
    DistinctRulePoints(s, domain);
  }

  /** What a finding weighs: its negative impact times 1.5, 1, 0.7, 0.4 or nothing by severity, up
      to twenty points. */
  lemma WeightExact(f: Finding, domain: string, i: nat)
    requires i < 5 && f.severity == [Critical, High, Medium, Low, Info][i]
    ensures Weight(f, domain) ==
      if domain in f.scoreImpact && f.scoreImpact[domain] < 0 then
        (var p := -f.scoreImpact[domain] * [15, 10, 7, 4, 0][i]; if p <= 200 then p else 200)
      else 0
  {
  }

  lemma PairScore(f: Finding, g: Finding, domain: string)
    requires f.ruleId != g.ruleId
    ensures RawScore([f, g], domain) == 100 - (Weight(f, domain) + Weight(g, domain)) / 10
  {
    hide RawScore, Penalizes, PenaltyOf;
    DistinctRulesScore([f, g], domain);
    assert [f, g][..1] == [f] && [f][..0] == [];
    assert TotalWeight([f], domain) == TotalWeight([], domain) + Weight(f, domain);
  }

  function Sample(rule: string, category: string, severity: Severity, impact: map<string, int>): Finding {
    Finding(rule, rule, category, severity, GradeHigh, RuleLayer, [], [], impact)
  }

  const WIDE: Finding :=
    Sample("R1", "security", Critical, map[SECURITY := -20, RELIABILITY := -20, OPERATIONS := -20, EXPERIENCE := -20])
  const NARROW: Finding := Sample("R2", "reliability", Critical, map[RELIABILITY := -20, OPERATIONS := -20])
  const REMARK: Finding := Sample("R3", "maintainability", Info, map[])

  /** Without the full toolchain an added finding can turn an unsuitable report suitable: a
      remark that penalizes nothing lifts the cap of its category. */
  lemma RemarkMakesSuitable()
    ensures var a, b := [WIDE, NARROW], [WIDE, NARROW] + [REMARK];
      && ScoresOf(a, StructuralOnly) == Scorecard(85, 60, 80, 85, 60, 80)
      && ScoresOf(b, StructuralOnly) == Scorecard(100, 60, 80, 85, 60, 80)
      && !Suitable(a, StructuralOnly) && Suitable(b, StructuralOnly)
  {
    hide RawScore, InterpretOverall, HasFinding;
    var a := [WIDE, NARROW];
    var b := a + [REMARK];
    SampleScores(a, b, MAINTAINABILITY);
    SampleScores(a, b, RELIABILITY);
    SampleScores(a, b, SECURITY);
    SampleScores(a, b, TESTING);
    SampleScores(a, b, OPERATIONS);
    SampleScores(a, b, EXPERIENCE);
    BandsPartition(74);
    BandsPartition(77);
  }

  lemma SampleScores(a: seq<Finding>, b: seq<Finding>, d: string)
    requires a == [WIDE, NARROW] && b == a + [REMARK]
    requires d in CATEGORIES
    ensures RawScore(b, d) == RawScore(a, d) ==
      100 - (if d in WIDE.scoreImpact then 20 else 0) - (if d in NARROW.scoreImpact then 20 else 0)
    ensures HasFinding(a, d) <==> d !in {MAINTAINABILITY, TESTING}
    ensures HasFinding(b, d) <==> d != TESTING
  {
    hide RawScore, HasFinding;
    PairScore(WIDE, NARROW, d);
    NeutralFinding(a, REMARK, d);
    SpokenOf(a, b, d);
  }

  lemma SpokenOf(a: seq<Finding>, b: seq<Finding>, d: string)
    requires a == [WIDE, NARROW] && b == a + [REMARK]
    requires d in CATEGORIES
    ensures HasFinding(a, d) <==> d !in {MAINTAINABILITY, TESTING}
    ensures HasFinding(b, d) <==> d != TESTING
  {
    assert WIDE in a && NARROW in a && WIDE in b && NARROW in b && REMARK in b;
    assert forall f :: f in a <==> f == WIDE || f == NARROW;
    assert forall f :: f in b <==> f == WIDE || f == NARROW || f == REMARK;
  }

  /** A finding that speaks of every category and penalizes none. */
  function Mention(rule: string): Finding {
    Sample(rule, MAINTAINABILITY, Info, map[
      MAINTAINABILITY := 0, RELIABILITY := 0, SECURITY := 0, TESTING := 0, OPERATIONS := 0, EXPERIENCE := 0])
  }

  ghost predicate AllSpoken(findings: seq<Finding>) {
    forall c :: c in CATEGORIES ==> HasFinding(findings, c)
  }

  lemma MentionSpeaks(findings: seq<Finding>, rule: string)
    requires Mention(rule) in findings
    ensures AllSpoken(findings)
    ensures forall d :: !Penalizes(Mention(rule), d)
  {
    forall c | c in CATEGORIES
      ensures SpeaksOf(Mention(rule), c)
    {
    }
  }

  /** Where findings speak of every category no cap is left at any depth. */
  lemma NoCapsLeft(findings: seq<Finding>, depth: Depth)
    requires AllSpoken(findings)
    ensures ScoresOf(findings, depth) == ScoresOf(findings, FullToolchain)
  {
    hide RawScore, HasFinding;
    forall i | 0 <= i < 6
      ensures HasFinding(findings, CATEGORIES[i])
    {
      assert CATEGORIES[i] in CATEGORIES;
    }
    assert CATEGORIES[0] == MAINTAINABILITY && CATEGORIES[1] == RELIABILITY && CATEGORIES[2] == SECURITY;
    assert CATEGORIES[3] == TESTING && CATEGORIES[4] == OPERATIONS && CATEGORIES[5] == EXPERIENCE;
  }

  lemma SameScores(a: seq<Finding>, b: seq<Finding>)
    requires forall d :: RawScore(a, d) == RawScore(b, d)
    ensures ScoresOf(a, FullToolchain) == ScoresOf(b, FullToolchain)
  {
    hide RawScore;
  }

  /** Of lists scored as they stand: at any depth, some longer list is suitable exactly when
      this one is suitable without caps. */
  lemma VerdictFlipsExactly(a: seq<Finding>, depth: Depth)
    ensures (exists b :: multiset(a) <= multiset(b) && Suitable(b, depth)) <==> Suitable(a, FullToolchain)
  {
    hide Suitable, RawScore, ScoresOf, Mention;
    forall b | multiset(a) <= multiset(b) && Suitable(b, depth)
      ensures Suitable(a, FullToolchain)
    {
      SuitableWithoutCaps(a, b, depth);
    }
    if Suitable(a, FullToolchain) {
      var b := a + [Mention("R0")];
      MentionSpeaks(b, "R0");
      forall d { NeutralFinding(a, Mention("R0"), d); }
      NoCapsLeft(b, depth);
      SameScores(a, b);
      SameCardSameVerdict(a, FullToolchain, b, depth);
      assert multiset(a) <= multiset(b);
    }
  }

  lemma SameCardSameVerdict(a: seq<Finding>, d: Depth, b: seq<Finding>, e: Depth)
    requires ScoresOf(a, d) == ScoresOf(b, e)
    ensures Suitable(a, d) <==> Suitable(b, e)
  {
    hide ScoresOf, ProductionSuitable;
  }

  lemma SuitableWithoutCaps(a: seq<Finding>, b: seq<Finding>, depth: Depth)
    requires multiset(a) <= multiset(b) && Suitable(b, depth)
    ensures Suitable(a, FullToolchain)
  {
    hide RawScore, ProductionSuitable, HasFinding;
    forall d { RawScoreAntitone(a, b, d); }
    ScoresInScale(b, depth);
    ScoresInScale(a, FullToolchain);
    SuitableMonotone(ScoresOf(b, depth), ScoresOf(a, FullToolchain));
  }

  // ---------------------------------------------------------------------------
  // Findings without penalties
  // ---------------------------------------------------------------------------

  function PenalizingIn(s: seq<Finding>, domain: string): seq<Finding> {
    if s == [] then []
    else PenalizingIn(s[..|s| - 1], domain) + if Penalizes(s[|s| - 1], domain) then [s[|s| - 1]] else []
  }

  lemma {:induction false} PenalizingExact(s: seq<Finding>, domain: string)
    ensures forall f :: f in PenalizingIn(s, domain) <==> f in s && Penalizes(f, domain)
    ensures NoDuplicates(s) ==> NoDuplicates(PenalizingIn(s, domain))
  {
    hide Penalizes;
    if s != [] {
      PenalizingExact(s[..|s| - 1], domain);
      assert s == s[..|s| - 1] + [s[|s| - 1]];
    }
  }

  lemma {:induction false} PenalizingKeeps(s: seq<Finding>, domain: string, rule: string)
    ensures PenaltiesOf(PenalizingIn(s, domain), domain, rule) == PenaltiesOf(s, domain, rule)
  {
    if s != [] {
      hide Penalizes, PenaltiesOf, OwnPenalties;
      var init, x := s[..|s| - 1], s[|s| - 1];
      PenalizingKeeps(init, domain, rule);
      assert s == init + [x];
      LastPenalties(init, x, domain, rule);
      LastPenalties(PenalizingIn(init, domain), x, domain, rule);
      NoPenalty(x, domain, rule);
      NothingAdded(PenalizingIn(init, domain));
      NothingAdded(PenaltiesOf(init, domain, rule));
    }
  }

  lemma NothingAdded<T>(s: seq<T>)
    ensures s + [] == s
  {
  }

  lemma NoPenalty(x: Finding, domain: string, rule: string)
    ensures !Penalizes(x, domain) ==> OwnPenalties(x, domain, rule) == []
  {
  }

  /** A list without repetitions whose penalties all come from `core` scores no lower. */
  lemma PenaltiesWithin(core: seq<Finding>, r: seq<Finding>, domain: string)
    requires NoDuplicates(r) && forall f :: f in r && Penalizes(f, domain) ==> f in core
    ensures RawScore(core, domain) <= RawScore(r, domain)
  {
    hide PenaltiesOf, RawScore;
    var p := PenalizingIn(r, domain);
    PenalizingExact(r, domain);
    forall rule { PenalizingKeeps(r, domain, rule); }
    DistinctIncluded(p, core);
    RawScoreAntitone(p, core, domain);
    assert RawScore(p, domain) == RawScore(r, domain) by { SamePenalties(p, r, domain); }
  }

  lemma SamePenalties(a: seq<Finding>, b: seq<Finding>, domain: string)
    requires forall r :: PenaltiesOf(a, domain, r) == PenaltiesOf(b, domain, r)
    ensures RawScore(a, domain) == RawScore(b, domain)
  {
    hide PenaltiesOf, RulesIn, RulePoints;
    var rules := RulesIn(a, domain) + RulesIn(b, domain);
    ExtraRules(a, domain, rules);
    ExtraRules(b, domain, rules);
    SamePoints(a, b, domain, rules);
  }

  /** So it is suitable where `core` is, at any depth, if it speaks of every category. */
  lemma SuitableAround(core: seq<Finding>, r: seq<Finding>, depth: Depth)
    requires Suitable(core, FullToolchain) && AllSpoken(r) && NoDuplicates(r)
    requires forall f, d :: f in r && Penalizes(f, d) ==> f in core
    ensures Suitable(r, depth)
  {
    hide RawScore, ProductionSuitable, AllSpoken;
    forall d { PenaltiesWithin(core, r, d); }
    NoCapsLeft(r, depth);
    ScoresInScale(core, FullToolchain);
    ScoresInScale(r, FullToolchain);
    SuitableMonotone(ScoresOf(core, FullToolchain), ScoresOf(r, FullToolchain));
  }

  /** What a report without findings shows: the ceilings of its depth. */
  lemma CleanReportScores()
    ensures ScoresOf([], StructuralOnly) == Scorecard(85, 88, 90, 85, 100, 100)
    ensures ScoresOf([], LintAugmented) == Scorecard(92, 93, 88, 92, 100, 100)
    ensures ScoresOf([], SecurityAugmented) == Scorecard(94, 94, 97, 93, 100, 100)
    ensures ScoresOf([], FullToolchain) == Scorecard(100, 100, 100, 100, 100, 100)
  {
    hide RawScore;
    forall c
      ensures !HasFinding([], c) && RawScore([], c) == 100
    {
      UntouchedIsPerfect([], c);
    }
  }
}
