/** The deterministic summary in three voices, and the trace that must account for every
    sentence of it. Two builders produce them from different lists of findings. */
module Summaries {
  import opened Findings
  import opened Text
  import opened Wrappers
  import Scoring

  datatype Sentence =
    | CriticalFindings(count: nat)
    | HighFindings(count: nat, categories: seq<string>)
    | NoCriticalIssues(verdict: string)
    | TestingInsufficient
    | SecurityNeedsAttention
    | VerdictIs(verdict: string)
    | ElevatedRiskIn(areas: seq<string>)
    | HardeningSprint
    | ManageableDebt(verdict: string)
    | NoBlockers
    | LacksDisciplineIn(qualifier: Qualifier, areas: seq<string>)
    | BasicHygiene
    | NoStaticAnalysis
    | DisciplineAcross(qualifier: Qualifier, areas: seq<string>)
    | AbsenceOfTesting

  datatype Qualifier = Demonstrates | ShowsSignals | ShowsStructuralSignals

  datatype Label = LabelHigh | LabelMedium | LabelLow | LabelOther(text: string)

  /** Scores in the order of the dictionary they come from. */
  type Scores = seq<(string, int)>

  datatype LlmFinding = LlmFinding(ruleId: string, severity: Severity, category: string)

  datatype LlmInput = LlmInput(
    verdict: string, suitable: bool, scores: Scores, findings: seq<LlmFinding>, confidence: Label, adaptersRan: bool
  )

  /** How the runtime lists the set of the given elements: some function of their insertion order. */
  type SetOrder = f: seq<string> -> seq<string> | forall s, x :: x in f(s) <==> x in s witness s => s

  // ---------------------------------------------------------------------------
  // Inputs
  // ---------------------------------------------------------------------------

  predicate Reported(s: Severity) {
    s == Critical || s == High || s == Medium
  }

  function ReportedFindings(findings: seq<Finding>): seq<LlmFinding> {
    if findings == [] then []
    else
      var f := findings[|findings| - 1];
      ReportedFindings(findings[..|findings| - 1])
      + if Reported(f.severity) then [LlmFinding(f.ruleId, f.severity, f.category)] else []
  }

  function ScoreList(card: Scoring.Scorecard): Scores {
    [ (Scoring.SECURITY, card.security), (Scoring.TESTING, card.testing),
      (Scoring.MAINTAINABILITY, card.maintainability), (Scoring.RELIABILITY, card.reliability),
      (Scoring.OPERATIONS, card.operationalReadiness), (Scoring.EXPERIENCE, card.developerExperience) ]
  }

  method BuildLlmInput(card: Scoring.Scorecard, verdict: string, suitable: bool, findings: seq<Finding>,
                       confidence: Label, adaptersRan: bool)
      returns (input: LlmInput)
    ensures input == LlmInput(verdict, suitable, ScoreList(card), ReportedFindings(findings), confidence, adaptersRan)
  {
    var reported := [];
    for i := 0 to |findings|
      invariant reported == ReportedFindings(findings[..i])
    {
      var f := findings[i];
      assert findings[..i + 1][..i] == findings[..i];
      if f.severity == Critical || f.severity == High || f.severity == Medium {
        reported := reported + [LlmFinding(f.ruleId, f.severity, f.category)];
      }
    }
    assert findings[..|findings|] == findings;
    input := LlmInput(verdict, suitable, ScoreList(card), reported, confidence, adaptersRan);
  }

  function Score(scores: Scores, key: string, default: int): int {
    if scores == [] then default else if scores[0].0 == key then scores[0].1 else Score(scores[1..], key, default)
  }

  /** Names of the scores below `bound`, in dictionary order. */
  function Below(scores: Scores, bound: int): seq<string> {
    if scores == [] then [] else (if scores[0].1 < bound then [scores[0].0] else []) + Below(scores[1..], bound)
  }

  function AtLeast(scores: Scores, bound: int): seq<string> {
    if scores == [] then [] else (if scores[0].1 >= bound then [scores[0].0] else []) + AtLeast(scores[1..], bound)
  }

  function First<T>(s: seq<T>, n: nat): seq<T> {
    if |s| <= n then s else s[..n]
  }

  function Qualify(confidence: Label): Qualifier {
    match confidence
    case LabelHigh => Demonstrates
    case LabelMedium => ShowsSignals
    case LabelLow => ShowsStructuralSignals
    case LabelOther(_) => ShowsStructuralSignals
  }

  /** The areas a manager hears about, each with the bound it misses. */
  const GAP_BOUNDS: seq<(string, int)> := [(Scoring.TESTING, 50), (Scoring.SECURITY, 65), (Scoring.RELIABILITY, 65)]

  function Gaps(scores: Scores, bounds: seq<(string, int)>): seq<(string, int)> {
    if bounds == [] then []
    else (if Score(scores, bounds[0].0, 100) < bounds[0].1 then [bounds[0]] else []) + Gaps(scores, bounds[1..])
  }

  function Names(pairs: seq<(string, int)>): seq<string> {
    if pairs == [] then [] else [pairs[0].0] + Names(pairs[1..])
  }

  // ---------------------------------------------------------------------------
  // What each voice says
  // ---------------------------------------------------------------------------

  /** All that a summary depends on. */
  datatype Facts = Facts(
    critical: nat, high: nat, highCategories: seq<string>,
    verdict: string, suitable: bool, scores: Scores, confidence: Label, adaptersRan: bool
  ) {
    function Testing(): int {
      Score(scores, Scoring.TESTING, 100)
    }

    function Security(): int {
      Score(scores, Scoring.SECURITY, 100)
    }
  }

  function DeveloperVoice(f: Facts, order: SetOrder): seq<Sentence> {
    (if f.critical > 0 then [CriticalFindings(f.critical)]
     else if f.high > 0 then [HighFindings(f.high, First(order(f.highCategories), 2))]
     else [NoCriticalIssues(f.verdict)])
    + (if f.Testing() < 50 then [TestingInsufficient]
       else if f.Security() < 65 then [SecurityNeedsAttention] else [])
  }

  function RiskSentence(gaps: seq<(string, int)>): seq<Sentence> {
    if gaps == [] then [] else [ElevatedRiskIn(Names(gaps))]
  }

  function ManagerVoice(f: Facts): seq<Sentence> {
    if f.suitable then [ManageableDebt(f.verdict), NoBlockers]
    else [VerdictIs(f.verdict)] + RiskSentence(Gaps(f.scores, GAP_BOUNDS)) + [HardeningSprint]
  }

  function HiringVoice(f: Facts): seq<Sentence> {
    var weak := Below(f.scores, 55);
    if weak != [] then
      [LacksDisciplineIn(Qualify(f.confidence), First(weak, 2))]
      + if f.Testing() < 40 then [AbsenceOfTesting] else []
    else if f.confidence == LabelLow then [BasicHygiene] + if f.adaptersRan then [] else [NoStaticAnalysis]
    else [DisciplineAcross(Qualify(f.confidence), First(AtLeast(f.scores, 75), 3))]
  }

  function Emitted(f: Facts, order: SetOrder): seq<Sentence> {
    DeveloperVoice(f, order) + ManagerVoice(f) + HiringVoice(f)
  }

  // ---------------------------------------------------------------------------
  // What the sentences mean
  // ---------------------------------------------------------------------------

  predicate DistinctNames(scores: Scores) {
    forall i, j :: 0 <= i < j < |scores| ==> scores[i].0 != scores[j].0
  }

  /** Every named area has a score under the bound. */
  ghost predicate AllBelow(areas: seq<string>, scores: Scores, bound: int) {
    forall a :: a in areas ==> Score(scores, a, 100) < bound
  }

  /** The qualifier claims no more than the confidence allows. */
  predicate Hedged(q: Qualifier, confidence: Label) {
    && (q == Demonstrates <==> confidence == LabelHigh)
    && (q == ShowsSignals <==> confidence == LabelMedium)
  }

  /** What a sentence claims is so. */
  ghost predicate Holds(s: Sentence, f: Facts) {
    match s
    case CriticalFindings(n) => n == f.critical > 0
    case HighFindings(n, areas) =>
      && n == f.high > 0 && f.critical == 0 && |areas| <= 2
      && forall a :: a in areas ==> a in f.highCategories
    case NoCriticalIssues(v) => v == f.verdict && f.critical == 0 && f.high == 0
    case TestingInsufficient => f.Testing() < 50
    case SecurityNeedsAttention => f.Security() < 65
    case VerdictIs(v) => v == f.verdict
    case ElevatedRiskIn(areas) => areas != [] && forall a :: a in areas <==> MissesBound(f.scores, a)
    case HardeningSprint => !f.suitable
    case ManageableDebt(v) => v == f.verdict && f.suitable
    case NoBlockers => f.suitable
    case LacksDisciplineIn(q, areas) =>
      && Hedged(q, f.confidence) && areas != [] && AllBelow(areas, f.scores, 55)
      && areas <= Below(f.scores, 55) && (|areas| == 2 || areas == Below(f.scores, 55))
    case AbsenceOfTesting => f.Testing() < 40
    case BasicHygiene => f.confidence == LabelLow && forall i :: 0 <= i < |f.scores| ==> f.scores[i].1 >= 55
    case NoStaticAnalysis => !f.adaptersRan
    case DisciplineAcross(q, areas) =>
      && Hedged(q, f.confidence) && f.confidence != LabelLow
      && (forall a :: a in areas ==> Score(f.scores, a, 100) >= 75)
      && areas <= AtLeast(f.scores, 75) && (|areas| == 3 || areas == AtLeast(f.scores, 75))
      && forall i :: 0 <= i < |f.scores| ==> f.scores[i].1 >= 55
  }

  /** The area is one a manager hears about, and its score misses its bound. */
  predicate MissesBound(scores: Scores, area: string) {
    || (area == Scoring.TESTING && Score(scores, area, 100) < 50)
    || (area == Scoring.SECURITY && Score(scores, area, 100) < 65)
    || (area == Scoring.RELIABILITY && Score(scores, area, 100) < 65)
  }

  ghost predicate TellsDeveloper(dev: seq<Sentence>, f: Facts) {
    && (f.critical > 0 <==> CriticalFindings(f.critical) in dev)
    && (f.critical == 0 && f.high > 0 <==> exists areas :: HighFindings(f.high, areas) in dev)
    && (f.critical == 0 && f.high == 0 <==> NoCriticalIssues(f.verdict) in dev)
    && (f.Testing() < 50 <==> TestingInsufficient in dev)
    && (f.Testing() >= 50 && f.Security() < 65 <==> SecurityNeedsAttention in dev)
  }

  ghost predicate TellsManager(mgr: seq<Sentence>, f: Facts) {
    && (f.suitable <==> ManageableDebt(f.verdict) in mgr)
    && (f.suitable <==> NoBlockers in mgr)
    && (!f.suitable <==> VerdictIs(f.verdict) in mgr)
    && (!f.suitable <==> HardeningSprint in mgr)
    && (forall a :: MissesBound(f.scores, a) && !f.suitable ==>
      exists areas :: a in areas && ElevatedRiskIn(areas) in mgr)
  }

  ghost predicate SomeWeak(scores: Scores) {
    exists i :: 0 <= i < |scores| && scores[i].1 < 55
  }

  ghost predicate TellsHiring(hire: seq<Sentence>, f: Facts) {
    && (SomeWeak(f.scores) <==> exists q, areas :: LacksDisciplineIn(q, areas) in hire)
    && (f.Testing() < 40 <==> AbsenceOfTesting in hire)
    && (!SomeWeak(f.scores) && f.confidence == LabelLow <==> BasicHygiene in hire)
    && (!SomeWeak(f.scores) && f.confidence == LabelLow && !f.adaptersRan <==> NoStaticAnalysis in hire)
    && (!SomeWeak(f.scores) && f.confidence != LabelLow <==> exists q, areas :: DisciplineAcross(q, areas) in hire)
  }

  /** What must be told is told. */
  ghost predicate TellsAll(dev: seq<Sentence>, mgr: seq<Sentence>, hire: seq<Sentence>, f: Facts) {
    TellsDeveloper(dev, f) && TellsManager(mgr, f) && TellsHiring(hire, f)
  }

  lemma {:induction false} BelowExact(scores: Scores, bound: int, name: string)
    ensures Below(scores, bound) == [] <==> forall i :: 0 <= i < |scores| ==> scores[i].1 >= bound
    ensures DistinctNames(scores) && name in Below(scores, bound) ==> Score(scores, name, 100) < bound
    ensures name in Below(scores, bound) ==> exists i :: 0 <= i < |scores| && scores[i].0 == name
  {
    if scores != [] {
      BelowExact(scores[1..], bound, name);
      assert forall i :: 0 <= i < |scores[1..]| ==> scores[1..][i] == scores[i + 1];
      assert (forall i :: 0 <= i < |scores| ==> scores[i].1 >= bound)
        <==> scores[0].1 >= bound && forall i :: 0 <= i < |scores[1..]| ==> scores[1..][i].1 >= bound by {
        assert forall i :: 1 <= i < |scores| ==> scores[i] == scores[1..][i - 1];
      }
    }
  }

  lemma {:induction false} AtLeastIsHigh(scores: Scores, bound: int, name: string)
    requires DistinctNames(scores) && name in AtLeast(scores, bound)
    ensures Score(scores, name, 100) >= bound
    ensures exists i :: 0 <= i < |scores| && scores[i].0 == name
  {
    if scores[0].0 != name || scores[0].1 < bound {
      AtLeastIsHigh(scores[1..], bound, name);
      var i :| 0 <= i < |scores[1..]| && scores[1..][i].0 == name;
      assert scores[i + 1].0 == name;
    }
  }

  lemma {:induction false} GapsExact(scores: Scores, bounds: seq<(string, int)>, b: (string, int))
    ensures b in Gaps(scores, bounds) <==> b in bounds && Score(scores, b.0, 100) < b.1
  {
    hide Score;
    if bounds != [] {
      GapsExact(scores, bounds[1..], b);
      assert bounds == [bounds[0]] + bounds[1..];
    }
  }

  lemma {:induction false} NamesExact(pairs: seq<(string, int)>, area: string)
    ensures area in Names(pairs) <==> exists b :: b in pairs && b.0 == area
    ensures Names(pairs) == [] <==> pairs == []
  {
    if pairs != [] {
      NamesExact(pairs[1..], area);
      assert pairs == [pairs[0]] + pairs[1..];
      assert pairs[0] in pairs;
    }
  }

  /** The areas told are those that miss their bounds. */
  lemma GapAreas(scores: Scores, area: string)
    ensures area in Names(Gaps(scores, GAP_BOUNDS)) <==> MissesBound(scores, area)
    ensures Names(Gaps(scores, GAP_BOUNDS)) == [] <==> Gaps(scores, GAP_BOUNDS) == []
  {
    hide Score, Gaps, Names;
    NamesExact(Gaps(scores, GAP_BOUNDS), area);
    forall b
      ensures b in Gaps(scores, GAP_BOUNDS) <==> b in GAP_BOUNDS && Score(scores, b.0, 100) < b.1
    {
      GapsExact(scores, GAP_BOUNDS, b);
    }
  }

  lemma DeveloperHolds(f: Facts, order: SetOrder, s: Sentence)
    requires s in DeveloperVoice(f, order)
    ensures Holds(s, f)
  {
    hide Score, Scoring.TESTING;
    match s {
      case HighFindings(_, areas) =>
        assert forall a :: a in areas ==> a in order(f.highCategories);
      case _ =>
    }
  }

  lemma ManagerHolds(f: Facts, s: Sentence)
    requires s in ManagerVoice(f)
    ensures Holds(s, f)
  {
    hide Score, Gaps, Names;
    match s {
      case ElevatedRiskIn(areas) =>
        forall a
          ensures a in areas <==> MissesBound(f.scores, a)
        {
          GapAreas(f.scores, a);
        }
        GapAreas(f.scores, "");
      case _ =>
    }
  }

  lemma HiringHolds(f: Facts, s: Sentence)
    requires DistinctNames(f.scores) && s in HiringVoice(f)
    ensures Holds(s, f)
  {
    hide Score, Below, AtLeast, DistinctNames;
    BelowExact(f.scores, 55, "");
    match s {
      case LacksDisciplineIn(_, areas) =>
        forall a | a in areas
          ensures Score(f.scores, a, 100) < 55
        {
          BelowExact(f.scores, 55, a);
        }
      case DisciplineAcross(_, areas) =>
        forall a | a in areas
          ensures Score(f.scores, a, 100) >= 75
        {
          AtLeastIsHigh(f.scores, 75, a);
        }
      case _ =>
    }
  }

  /** Every sentence of every voice is so, whatever the report. */
  lemma VoicesHold(f: Facts, order: SetOrder, s: Sentence)
    requires DistinctNames(f.scores) && s in Emitted(f, order)
    ensures Holds(s, f)
  {
    hide DeveloperVoice, ManagerVoice, HiringVoice, Holds;
    if s in DeveloperVoice(f, order) {
      DeveloperHolds(f, order, s);
    } else if s in ManagerVoice(f) {
      ManagerHolds(f, s);
    } else {
      HiringHolds(f, s);
    }
  }

  /** A testing score low enough to be remarked on is a weak area. */
  lemma {:induction false} WeakTesting(scores: Scores)
    ensures Score(scores, Scoring.TESTING, 100) < 40 ==> Below(scores, 55) != []
  {
    if scores != [] {
      WeakTesting(scores[1..]);
    }
  }

  lemma DeveloperTells(f: Facts, order: SetOrder)
    ensures TellsDeveloper(DeveloperVoice(f, order), f)
  {
    hide Score;
    var dev := DeveloperVoice(f, order);
    assert dev[0] in dev;
  }

  lemma ManagerTells(f: Facts)
    ensures TellsManager(ManagerVoice(f), f)
  {
    hide Score, Gaps, Names;
    var mgr := ManagerVoice(f);
    forall a | MissesBound(f.scores, a) && !f.suitable
      ensures exists areas :: a in areas && ElevatedRiskIn(areas) in mgr
    {
      GapAreas(f.scores, a);
      assert mgr[1] == ElevatedRiskIn(Names(Gaps(f.scores, GAP_BOUNDS)));
      assert mgr[1] in mgr;
    }
  }

  lemma HiringTells(f: Facts)
    ensures TellsHiring(HiringVoice(f), f)
  {
    hide Score, Below, AtLeast, Qualify, SomeWeak;
    var hire := HiringVoice(f);
    WeakTesting(f.scores);
    assert SomeWeak(f.scores) <==> Below(f.scores, 55) != [] by { WeakExact(f.scores); }
    assert hire[0] in hire;
  }

  lemma WeakExact(scores: Scores)
    ensures SomeWeak(scores) <==> Below(scores, 55) != []
  {
    hide Below;
    BelowExact(scores, 55, "");
  }

  lemma VoicesTellAll(f: Facts, order: SetOrder)
    ensures TellsAll(DeveloperVoice(f, order), ManagerVoice(f), HiringVoice(f), f)
  {
    hide DeveloperVoice, ManagerVoice, HiringVoice, TellsDeveloper, TellsManager, TellsHiring;
    DeveloperTells(f, order);
    ManagerTells(f);
    HiringTells(f);
  }

  // ---------------------------------------------------------------------------
  // The sentences as they are built
  // ---------------------------------------------------------------------------

  function SeverityCount(findings: seq<LlmFinding>, s: Severity): nat {
    if findings == [] then 0
    else SeverityCount(findings[..|findings| - 1], s) + if findings[|findings| - 1].severity == s then 1 else 0
  }

  function CategoriesOf(findings: seq<LlmFinding>, s: Severity): seq<string> {
    if findings == [] then []
    else
      CategoriesOf(findings[..|findings| - 1], s)
      + if findings[|findings| - 1].severity == s then [findings[|findings| - 1].category] else []
  }

  function FactsOf(input: LlmInput): Facts {
    Facts(
      SeverityCount(input.findings, Critical), SeverityCount(input.findings, High), CategoriesOf(input.findings, High),
      input.verdict, input.suitable, input.scores, input.confidence, input.adaptersRan)
  }

  method DeveloperSentences(input: LlmInput, order: SetOrder) returns (dev: seq<Sentence>)
    ensures dev == DeveloperVoice(FactsOf(input), order)
  {
    hide Score, SeverityCount, CategoriesOf;
    var critical, high := SeverityCount(input.findings, Critical), SeverityCount(input.findings, High);
    var testing, security := Score(input.scores, Scoring.TESTING, 100), Score(input.scores, Scoring.SECURITY, 100);
    if critical > 0 {
      dev := [CriticalFindings(critical)];
    } else if high > 0 {
      dev := [HighFindings(high, First(order(CategoriesOf(input.findings, High)), 2))];
    } else {
      dev := [NoCriticalIssues(input.verdict)];
    }
    if testing < 50 {
      dev := dev + [TestingInsufficient];
    } else if security < 65 {
      dev := dev + [SecurityNeedsAttention];
    }
  }

  method ManagerSentences(input: LlmInput) returns (mgr: seq<Sentence>)
    ensures mgr == ManagerVoice(FactsOf(input))
  {
    hide Score, SeverityCount, CategoriesOf, Gaps, Names;
    if !input.suitable {
      var gaps := Gaps(input.scores, GAP_BOUNDS);
      mgr := [VerdictIs(input.verdict)];
      if gaps != [] {
        mgr := mgr + [ElevatedRiskIn(Names(gaps))];
      }
      mgr := mgr + [HardeningSprint];
    } else {
      mgr := [ManageableDebt(input.verdict)];
      mgr := mgr + [NoBlockers];
    }
  }

  method HiringSentences(input: LlmInput) returns (hire: seq<Sentence>)
    ensures hire == HiringVoice(FactsOf(input))
  {
    hide Score, SeverityCount, CategoriesOf, Below, AtLeast;
    var testing := Score(input.scores, Scoring.TESTING, 100);
    var weak, strong := Below(input.scores, 55), AtLeast(input.scores, 75);
    if weak != [] {
      hire := [LacksDisciplineIn(Qualify(input.confidence), First(weak, 2))];
      if testing < 40 {
        hire := hire + [AbsenceOfTesting];
      }
    } else if input.confidence == LabelLow {
      hire := [BasicHygiene];
      if !input.adaptersRan {
        hire := hire + [NoStaticAnalysis];
      }
    } else {
      hire := [DisciplineAcross(Qualify(input.confidence), First(strong, 3))];
    }
  }

  /** The three voices of one input: every sentence is so, and all that must be told is told. */
  method BuildSentences(input: LlmInput, order: SetOrder)
      returns (dev: seq<Sentence>, mgr: seq<Sentence>, hire: seq<Sentence>)
    ensures dev == DeveloperVoice(FactsOf(input), order) && mgr == ManagerVoice(FactsOf(input))
    ensures hire == HiringVoice(FactsOf(input))
    ensures DistinctNames(input.scores) ==> forall s :: s in dev + mgr + hire ==> Holds(s, FactsOf(input))
    ensures TellsAll(dev, mgr, hire, FactsOf(input))
  {
    hide DeveloperVoice, ManagerVoice, HiringVoice, Holds, TellsAll, DistinctNames;
    dev := DeveloperSentences(input, order);
    mgr := ManagerSentences(input);
    hire := HiringSentences(input);
    AllHold(FactsOf(input), order);
    VoicesTellAll(FactsOf(input), order);
  }

  lemma AllHold(f: Facts, order: SetOrder)
    ensures DistinctNames(f.scores) ==> forall s :: s in Emitted(f, order) ==> Holds(s, f)
  {
    hide Emitted, Holds, DistinctNames;
    if DistinctNames(f.scores) {
      forall s | s in Emitted(f, order) { VoicesHold(f, order, s); }
    }
  }

  // ---------------------------------------------------------------------------
  // The trace
  // ---------------------------------------------------------------------------

  datatype Source =
    | FromFindings(ruleIds: seq<string>)
    | FromScore(field: string, value: int, threshold: int)
    | FromVerdict(field: string)
    | FromCoverage

  datatype SentenceTrace = SentenceTrace(sentence: Sentence, source: Source)

  datatype SummaryTrace =
    SummaryTrace(developer: seq<SentenceTrace>, manager: seq<SentenceTrace>, hiring: seq<SentenceTrace>)

  function Traced(traces: seq<SentenceTrace>): seq<Sentence> {
    seq(|traces|, i requires 0 <= i < |traces| => traces[i].sentence)
  }

  function WithSeverity(findings: seq<Finding>, s: Severity): seq<Finding> {
    if findings == [] then []
    else
      WithSeverity(findings[..|findings| - 1], s)
      + if findings[|findings| - 1].severity == s then [findings[|findings| - 1]] else []
  }

  function RuleIds(findings: seq<Finding>): seq<string> {
    seq(|findings|, i requires 0 <= i < |findings| => findings[i].ruleId)
  }

  function Categories(findings: seq<Finding>): seq<string> {
    seq(|findings|, i requires 0 <= i < |findings| => findings[i].category)
  }

  /** The facts the trace goes by: counts from its own list of findings, the rest as given. */
  function TracedFacts(input: LlmInput, findings: seq<Finding>, scores: Scores): Facts {
    Facts(|WithSeverity(findings, Critical)|, |WithSeverity(findings, High)|, Categories(WithSeverity(findings, High)),
      input.verdict, input.suitable, scores, input.confidence, input.adaptersRan)
  }

  /** The trace of the manager always opens with the verdict and the risk, suitable or not. */
  function ManagerTraced(f: Facts): seq<Sentence> {
    [VerdictIs(f.verdict)] + RiskSentence(Gaps(f.scores, GAP_BOUNDS))
    + if f.suitable then [ManageableDebt(f.verdict), NoBlockers] else [HardeningSprint]
  }

  ghost predicate ScoredBelow(source: Source, scores: Scores, field: string, bound: int) {
    source == FromScore(field, Score(scores, field, 100), bound) && Score(scores, field, 100) < bound
  }

  /** The source of a trace bears its sentence out: the findings named are those counted, the
      score quoted is the score of the first area named, and on the side of the threshold the
      sentence claims. */
  ghost predicate Grounded(t: SentenceTrace, findings: seq<Finding>, scores: Scores) {
    var critical, high := WithSeverity(findings, Critical), WithSeverity(findings, High);
    match t.sentence
    case CriticalFindings(_) => t.source == FromFindings(RuleIds(critical))
    case HighFindings(_, _) => t.source == FromFindings(RuleIds(First(high, 4)))
    case NoCriticalIssues(_) => t.source == FromVerdict("verdict_label")
    case TestingInsufficient => ScoredBelow(t.source, scores, Scoring.TESTING, 50)
    case SecurityNeedsAttention => ScoredBelow(t.source, scores, Scoring.SECURITY, 65)
    case ElevatedRiskIn(areas) =>
      areas != [] && t.source.FromScore? && ScoredBelow(t.source, scores, areas[0], t.source.threshold)
    case LacksDisciplineIn(_, areas) => areas != [] && ScoredBelow(t.source, scores, areas[0], 55)
    case AbsenceOfTesting => ScoredBelow(t.source, scores, Scoring.TESTING, 40)
    case DisciplineAcross(_, areas) =>
      areas != [] ==> t.source == FromScore(areas[0], Score(scores, areas[0], 100), 75) && t.source.value >= 75
    case BasicHygiene => t.source.FromScore?
    case NoStaticAnalysis => t.source == FromCoverage
    case VerdictIs(_) => t.source.FromVerdict?
    case HardeningSprint => t.source.FromVerdict?
    case ManageableDebt(_) => t.source.FromVerdict?
    case NoBlockers => t.source.FromVerdict?
  }

  ghost predicate AllGrounded(traces: seq<SentenceTrace>, findings: seq<Finding>, scores: Scores) {
    forall t :: t in traces ==> Grounded(t, findings, scores)
  }

  method DeveloperTraces(input: LlmInput, findings: seq<Finding>, scores: Scores, order: SetOrder)
      returns (dev: seq<SentenceTrace>)
    ensures Traced(dev) == DeveloperVoice(TracedFacts(input, findings, scores), order)
    ensures AllGrounded(dev, findings, scores)
  {
    hide Score, WithSeverity, RuleIds, Categories;
    var critical, high := WithSeverity(findings, Critical), WithSeverity(findings, High);
    var testing, security := Score(scores, Scoring.TESTING, 100), Score(scores, Scoring.SECURITY, 100);
    if critical != [] {
      dev := [SentenceTrace(CriticalFindings(|critical|), FromFindings(RuleIds(critical)))];
    } else if high != [] {
      var areas := First(order(Categories(high)), 2);
      dev := [SentenceTrace(HighFindings(|high|, areas), FromFindings(RuleIds(First(high, 4))))];
    } else {
      dev := [SentenceTrace(NoCriticalIssues(input.verdict), FromVerdict("verdict_label"))];
    }
    if testing < 50 {
      dev := dev + [SentenceTrace(TestingInsufficient, FromScore(Scoring.TESTING, testing, 50))];
    } else if security < 65 {
      dev := dev + [SentenceTrace(SecurityNeedsAttention, FromScore(Scoring.SECURITY, security, 65))];
    }
  }

  lemma {:induction false} GapsAreLow(scores: Scores, bounds: seq<(string, int)>)
    ensures forall g :: g in Gaps(scores, bounds) ==> Score(scores, g.0, 100) < g.1
    ensures Gaps(scores, bounds) != [] ==>
      Names(Gaps(scores, bounds)) != [] && Names(Gaps(scores, bounds))[0] == Gaps(scores, bounds)[0].0
  {
    if bounds != [] {
      GapsAreLow(scores, bounds[1..]);
    }
  }

  method ManagerTraces(input: LlmInput, ghost findings: seq<Finding>, scores: Scores) returns (mgr: seq<SentenceTrace>)
    ensures Traced(mgr) == ManagerTraced(TracedFacts(input, findings, scores))
    ensures AllGrounded(mgr, findings, scores)
  {
    hide Gaps, Score, Names, WithSeverity, RuleIds, Categories;
    mgr := [SentenceTrace(VerdictIs(input.verdict), FromVerdict("verdict_label"))];
    var gaps := Gaps(scores, GAP_BOUNDS);
    GapsAreLow(scores, GAP_BOUNDS);
    if gaps != [] {
      var source := FromScore(gaps[0].0, Score(scores, gaps[0].0, 100), gaps[0].1);
      mgr := mgr + [SentenceTrace(ElevatedRiskIn(Names(gaps)), source)];
    }
    if !input.suitable {
      mgr := mgr + [SentenceTrace(HardeningSprint, FromVerdict("production_suitable"))];
    } else {
      mgr := mgr + [SentenceTrace(ManageableDebt(input.verdict), FromVerdict("production_suitable"))];
      mgr := mgr + [SentenceTrace(NoBlockers, FromVerdict("production_suitable"))];
    }
  }

  method HiringTraces(input: LlmInput, ghost findings: seq<Finding>, scores: Scores) returns (hire: seq<SentenceTrace>)
    ensures Traced(hire) == HiringVoice(TracedFacts(input, findings, scores))
    ensures DistinctNames(scores) ==> AllGrounded(hire, findings, scores)
  {
    hide Score, Below, AtLeast, DistinctNames, Qualify, WithSeverity, RuleIds, Categories;
    var testing := Score(scores, Scoring.TESTING, 100);
    var weak, strong := Below(scores, 55), AtLeast(scores, 75);
    WeakTesting(scores);
    if DistinctNames(scores) {
      NamedAreasGrounded(scores);
    }
    if weak != [] {
      var source := FromScore(weak[0], Score(scores, weak[0], 100), 55);
      hire := [SentenceTrace(LacksDisciplineIn(Qualify(input.confidence), First(weak, 2)), source)];
    } else if input.confidence == LabelLow {
      hire := [SentenceTrace(BasicHygiene, FromScore(Scoring.EXPERIENCE, Score(scores, Scoring.EXPERIENCE, 80), 75))];
      if !input.adaptersRan {
        hire := hire + [SentenceTrace(NoStaticAnalysis, FromCoverage)];
      }
    } else {
      var field := if strong != [] then strong[0] else Scoring.EXPERIENCE;
      var source := FromScore(field, Score(scores, field, 100), 75);
      hire := [SentenceTrace(DisciplineAcross(Qualify(input.confidence), First(strong, 3)), source)];
    }
    if testing < 40 {
      hire := hire + [SentenceTrace(AbsenceOfTesting, FromScore(Scoring.TESTING, testing, 40))];
    }
  }

  lemma NamedAreasGrounded(scores: Scores)
    requires DistinctNames(scores)
    ensures Below(scores, 55) != [] ==> Score(scores, Below(scores, 55)[0], 100) < 55
    ensures AtLeast(scores, 75) != [] ==> Score(scores, AtLeast(scores, 75)[0], 100) >= 75
  {
    if Below(scores, 55) != [] {
      BelowExact(scores, 55, Below(scores, 55)[0]);
    }
    if AtLeast(scores, 75) != [] {
      AtLeastIsHigh(scores, 75, AtLeast(scores, 75)[0]);
    }
  }

  method BuildDeterministicTrace(input: LlmInput, findings: seq<Finding>, scores: Scores, order: SetOrder)
      returns (trace: SummaryTrace)
    ensures Traced(trace.developer) == DeveloperVoice(TracedFacts(input, findings, scores), order)
    ensures Traced(trace.manager) == ManagerTraced(TracedFacts(input, findings, scores))
    ensures Traced(trace.hiring) == HiringVoice(TracedFacts(input, findings, scores))
    ensures AllGrounded(trace.developer, findings, scores) && AllGrounded(trace.manager, findings, scores)
    ensures DistinctNames(scores) ==> AllGrounded(trace.hiring, findings, scores)
  {
    var dev := DeveloperTraces(input, findings, scores, order);
    var mgr := ManagerTraces(input, findings, scores);
    var hire := HiringTraces(input, findings, scores);
    trace := SummaryTrace(dev, mgr, hire);
  }

  // ---------------------------------------------------------------------------
  // Agreement
  // ---------------------------------------------------------------------------

  /** The severity filter drops no critical and no high finding, and keeps their order. */
  lemma {:induction false} FilterKeepsSevere(findings: seq<Finding>, s: Severity)
    requires Reported(s)
    ensures SeverityCount(ReportedFindings(findings), s) == |WithSeverity(findings, s)|
    ensures CategoriesOf(ReportedFindings(findings), s) == Categories(WithSeverity(findings, s))
  {
    if findings != [] {
      var init, f := findings[..|findings| - 1], findings[|findings| - 1];
      FilterKeepsSevere(init, s);
      var reported, l := ReportedFindings(init), LlmFinding(f.ruleId, f.severity, f.category);
      assert (reported + [l])[..|reported|] == reported;
      assert Categories(WithSeverity(init, s) + [f]) == Categories(WithSeverity(init, s)) + [f.category];
      assert reported + [] == reported && WithSeverity(init, s) + [] == WithSeverity(init, s);
    }
  }

  /** What the filter lets through: the findings of the three upper severities, and no others. */
  lemma {:induction false} ReportedExact(findings: seq<Finding>, l: LlmFinding)
    ensures l in ReportedFindings(findings) <==>
      exists f ::
        f in findings && f.severity in {Critical, High, Medium} && l == LlmFinding(f.ruleId, f.severity, f.category)
  {
    if findings != [] {
      var init, f := findings[..|findings| - 1], findings[|findings| - 1];
      ReportedExact(init, l);
      assert findings == init + [f];
      assert forall g :: g in findings <==> g in init || g == f;
    }
  }

  /** Each score is found under its own name. */
  lemma ScoresByName(card: Scoring.Scorecard, default: int)
    ensures var s := ScoreList(card);
      && Score(s, Scoring.SECURITY, default) == card.security && Score(s, Scoring.TESTING, default) == card.testing
      && Score(s, Scoring.MAINTAINABILITY, default) == card.maintainability
      && Score(s, Scoring.RELIABILITY, default) == card.reliability
      && Score(s, Scoring.OPERATIONS, default) == card.operationalReadiness
      && Score(s, Scoring.EXPERIENCE, default) == card.developerExperience
  {
    var s := ScoreList(card);
    forall i | 0 <= i < 6
      ensures Score(s, s[i].0, default) == s[i].1
    {
      ScoreAt(s, i, default);
    }
    assert s[0].0 == Scoring.SECURITY && s[1].0 == Scoring.TESTING && s[2].0 == Scoring.MAINTAINABILITY;
    assert s[3].0 == Scoring.RELIABILITY && s[4].0 == Scoring.OPERATIONS && s[5].0 == Scoring.EXPERIENCE;
  }

  lemma {:induction false} ScoreAt(scores: Scores, i: nat, default: int)
    requires i < |scores| && DistinctNames(scores)
    ensures Score(scores, scores[i].0, default) == scores[i].1
  {
    if i > 0 {
      assert scores[0].0 != scores[i].0;
      ScoreAt(scores[1..], i - 1, default);
    }
  }

  /** `part` is `whole` with some elements left out. */
  predicate IsSubsequence<T(==)>(part: seq<T>, whole: seq<T>) {
    part == [] ||
    (whole != [] &&
     if part[0] == whole[0] then IsSubsequence(part[1..], whole[1..]) else IsSubsequence(part, whole[1..]))
  }

  lemma ManagerAgrees(f: Facts)
    ensures IsSubsequence(ManagerVoice(f), ManagerTraced(f))
    ensures ManagerVoice(f) == ManagerTraced(f) <==> !f.suitable
  {
    hide Gaps;
    if f.suitable {
      var voice := [ManageableDebt(f.verdict), NoBlockers];
      var tail := RiskSentence(Gaps(f.scores, GAP_BOUNDS)) + voice;
      assert ManagerTraced(f)[1..] == tail;
      SubsequenceRefl(voice);
      if Gaps(f.scores, GAP_BOUNDS) != [] {
        assert tail[1..] == voice;
      } else {
        assert tail == voice;
      }
    } else {
      SubsequenceRefl(ManagerVoice(f));
    }
  }

  lemma {:induction false} SubsequenceRefl<T>(s: seq<T>)
    ensures IsSubsequence(s, s)
  {
    if s != [] {
      SubsequenceRefl(s[1..]);
    }
  }

  lemma {:induction false} SubsequenceMember<T>(part: seq<T>, whole: seq<T>, x: T)
    requires IsSubsequence(part, whole) && x in part
    ensures x in whole
  {
    if part[0] == whole[0] {
      if x != part[0] {
        SubsequenceMember(part[1..], whole[1..], x);
      }
    } else {
      SubsequenceMember(part, whole[1..], x);
    }
  }

  /** The developer hears the same from two reports: the same critical count or, without
      critical findings, the same high count and the same first two categories. */
  predicate SameHeadline(f: Facts, g: Facts, order: SetOrder) {
    && f.critical == g.critical
    && (f.critical == 0 ==> f.high == g.high)
    && (f.critical == 0 && f.high > 0 ==> First(order(f.highCategories), 2) == First(order(g.highCategories), 2))
  }

  lemma HeadlineExact(f: Facts, g: Facts, order: SetOrder)
    requires f.scores == g.scores && f.verdict == g.verdict
    ensures DeveloperVoice(f, order) == DeveloperVoice(g, order) <==> SameHeadline(f, g, order)
  {
    hide Score;
    assert DeveloperVoice(f, order)[0] == DeveloperVoice(g, order)[0] <==> SameHeadline(f, g, order);
    assert DeveloperVoice(f, order)[1..] == DeveloperVoice(g, order)[1..];
  }

  /** Summary and trace of one input. The sentences come from the findings inside the input,
      the trace from a list handed over beside it, which may be left out and then is empty.
      Developer sentences and traces are equal exactly when both lists make the same headline;
      the hiring ones always are; the manager's sentences are among its traces, and are all of
      them exactly when the report is not production suitable. */
  method DeterministicFallback(input: LlmInput, findings: Option<seq<Finding>>, order: SetOrder)
      returns (dev: seq<Sentence>, mgr: seq<Sentence>, hire: seq<Sentence>, trace: SummaryTrace)
    ensures var given := if findings.Some? then findings.value else [];
      && (dev == Traced(trace.developer)
          <==> SameHeadline(FactsOf(input), TracedFacts(input, given, input.scores), order))
      && AllGrounded(trace.developer + trace.manager, given, input.scores)
      && (DistinctNames(input.scores) ==> AllGrounded(trace.hiring, given, input.scores))
    ensures findings.None? ==>
      (dev == Traced(trace.developer)
       <==> SeverityCount(input.findings, Critical) == 0 && SeverityCount(input.findings, High) == 0)
    ensures Traced(trace.hiring) == hire
    ensures IsSubsequence(mgr, Traced(trace.manager))
    ensures mgr == Traced(trace.manager) <==> !input.suitable
    ensures dev == DeveloperVoice(FactsOf(input), order)
    ensures DistinctNames(input.scores) ==> forall s :: s in dev + mgr + hire ==> Holds(s, FactsOf(input))
  {
    hide Holds, Grounded, TellsAll, Gaps, Score, DistinctNames, Below, AtLeast;
    dev, mgr, hire := BuildSentences(input, order);
    var given := if findings.Some? then findings.value else [];
    trace := BuildDeterministicTrace(input, given, input.scores, order);
    HeadlineExact(FactsOf(input), TracedFacts(input, given, input.scores), order);
    ManagerAgrees(FactsOf(input));
  }

  /** The summary of a report. Input and trace are given the same findings, so the headlines
      agree, and every sentence emitted is so. */
  method SummarizeReport(card: Scoring.Scorecard, verdict: string, suitable: bool, findings: seq<Finding>,
                         confidence: Label, adaptersRan: bool, order: SetOrder)
      returns (dev: seq<Sentence>, mgr: seq<Sentence>, hire: seq<Sentence>, trace: SummaryTrace)
    ensures Traced(trace.developer) == dev && Traced(trace.hiring) == hire
    ensures IsSubsequence(mgr, Traced(trace.manager))
    ensures mgr == Traced(trace.manager) <==> !suitable
    ensures AllGrounded(trace.developer + trace.manager + trace.hiring, findings, ScoreList(card))
    ensures var facts := Facts(|WithSeverity(findings, Critical)|, |WithSeverity(findings, High)|,
        Categories(WithSeverity(findings, High)), verdict, suitable, ScoreList(card), confidence, adaptersRan);
      forall s :: s in dev + mgr + hire ==> Holds(s, facts)
  {
    hide Holds, Grounded, Gaps, Below, AtLeast, WithSeverity, SeverityCount, CategoriesOf, Categories;
    var input := BuildLlmInput(card, verdict, suitable, findings, confidence, adaptersRan);
    FilterKeepsSevere(findings, Critical);
    FilterKeepsSevere(findings, High);
    assert DistinctNames(input.scores);
    dev, mgr, hire, trace := DeterministicFallback(input, Some(findings), order);
  }

  // ---------------------------------------------------------------------------
  // Challenging a claim
  // ---------------------------------------------------------------------------

  /** The wording of a sentence. */
  type Wording = Sentence -> string

  predicate IsSpace(c: char) {
    c == ' ' || c == '\t' || c == '\n' || c == '\r'
  }

  function Strip(s: string): (r: string)
    ensures exists i, j :: 0 <= i <= j <= |s| && r == s[i..j]
  {
    if s != "" && IsSpace(s[0]) then
      var r := Strip(s[1..]);
      assert exists i, j :: 0 <= i <= j <= |s| && r == s[i..j] by {
        var i, j :| 0 <= i <= j <= |s[1..]| && r == s[1..][i..j];
        assert r == s[i + 1..j + 1];
      }
      r
    else if s != "" && IsSpace(s[|s| - 1]) then
      var r := Strip(s[..|s| - 1]);
      assert exists i, j :: 0 <= i <= j <= |s| && r == s[i..j] by {
        var i, j :| 0 <= i <= j <= |s[..|s| - 1]| && r == s[..|s| - 1][i..j];
        assert r == s[i..j];
      }
      r
    else
      assert s == s[0..|s|];
      s
  }

  function AllTraces(trace: SummaryTrace): seq<SentenceTrace> {
    trace.developer + trace.manager + trace.hiring
  }

  function Matching(traces: seq<SentenceTrace>, needle: string, wording: Wording): seq<SentenceTrace> {
    if traces == [] then []
    else
      var t := traces[|traces| - 1];
      Matching(traces[..|traces| - 1], needle, wording)
      + if Contains(Lower(wording(t.sentence)), needle) then [t] else []
  }

  method ChallengeClaim(trace: SummaryTrace, fragment: string, wording: Wording) returns (matches: seq<SentenceTrace>)
    ensures matches == Matching(AllTraces(trace), Strip(Lower(fragment)), wording)
  {
    var needle := Strip(Lower(fragment));
    var all := AllTraces(trace);
    matches := [];
    for i := 0 to |all|
      invariant matches == Matching(all[..i], needle, wording)
    {
      assert all[..i + 1][..i] == all[..i];
      if Contains(Lower(wording(all[i].sentence)), needle) {
        matches := matches + [all[i]];
      }
    }
    assert all[..|all|] == all;
  }

  lemma {:induction false} MatchingExact(traces: seq<SentenceTrace>, needle: string, wording: Wording, t: SentenceTrace)
    ensures t in Matching(traces, needle, wording) <==> t in traces && Contains(Lower(wording(t.sentence)), needle)
  {
    if traces != [] {
      MatchingExact(traces[..|traces| - 1], needle, wording, t);
      assert traces == traces[..|traces| - 1] + [traces[|traces| - 1]];
    }
  }

  lemma LowerSlice(text: string, i: nat, j: nat)
    requires i <= j <= |text|
    ensures Lower(text[i..j]) == Lower(text)[i..j]
  {
  }

  lemma SliceOfSlice(s: string, i: nat, j: nat, a: nat, b: nat)
    requires i <= j <= |s| && a <= b <= j - i
    ensures s[i..j][a..b] == s[i + a..i + b]
  {
    var x, y := s[i..j][a..b], s[i + a..i + b];
    assert |x| == |y| && forall k :: 0 <= k < |x| ==> x[k] == y[k];
  }

  lemma SliceContained(s: string, i: nat, j: nat)
    requires i <= j <= |s|
    ensures Contains(s, s[i..j])
  {
    assert s[i..][..j - i] == s[i..j];
    assert StartsWith(s[i..], s[i..j]);
  }

  /** A piece of a text, lowered and stripped, is found in the lowered text. */
  lemma PieceFound(text: string, i: nat, j: nat)
    requires i <= j <= |text|
    ensures Contains(Lower(text), Strip(Lower(text[i..j])))
  {
    hide Strip, Contains;
    LowerSlice(text, i, j);
    var lowered, piece := Lower(text), Lower(text[i..j]);
    var a, b :| 0 <= a <= b <= |piece| && Strip(piece) == piece[a..b];
    SliceOfSlice(lowered, i, j, a, b);
    SliceContained(lowered, i + a, i + b);
  }

  /** Challenging any piece of any traced sentence brings up a trace of that sentence. With
      the agreement above, no piece of an emitted sentence is ever reported untraceable. */
  lemma TracedSentencesAnswer(trace: SummaryTrace, k: nat, wording: Wording, i: nat, j: nat)
    requires k < |AllTraces(trace)|
    requires i <= j <= |wording(AllTraces(trace)[k].sentence)|
    ensures var t := AllTraces(trace)[k];
      t in Matching(AllTraces(trace), Strip(Lower(wording(t.sentence)[i..j])), wording)
  {
    var t := AllTraces(trace)[k];
    PieceFound(wording(t.sentence), i, j);
    MatchingExact(AllTraces(trace), Strip(Lower(wording(t.sentence)[i..j])), wording, t);
  }

  /** So no piece of a sentence that was emitted is ever reported untraceable. */
  lemma EmittedSentencesAnswer(trace: SummaryTrace, dev: seq<Sentence>, mgr: seq<Sentence>, hire: seq<Sentence>,
                               s: Sentence, wording: Wording, i: nat, j: nat)
    requires Traced(trace.developer) == dev && Traced(trace.hiring) == hire
    requires IsSubsequence(mgr, Traced(trace.manager))
    requires s in dev + mgr + hire && i <= j <= |wording(s)|
    ensures exists t: SentenceTrace ::
      t.sentence == s && t in Matching(AllTraces(trace), Strip(Lower(wording(s)[i..j])), wording)
  {
    hide Matching, Strip, Lower, IsSubsequence;
    if s in mgr {
      SubsequenceMember(mgr, Traced(trace.manager), s);
    }
    assert s in Traced(trace.developer) + Traced(trace.manager) + Traced(trace.hiring);
    assert Traced(AllTraces(trace)) == Traced(trace.developer) + Traced(trace.manager) + Traced(trace.hiring);
    assert s in Traced(AllTraces(trace));
    var k :| 0 <= k < |Traced(AllTraces(trace))| && Traced(AllTraces(trace))[k] == s;
    TracedSentencesAnswer(trace, k, wording, i, j);
  }
}
