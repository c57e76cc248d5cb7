/** Findings as the reviewer's rules and adapters report them. */
module Findings {
  datatype Severity = Critical | High | Medium | Low | Info
  datatype Grade = GradeHigh | GradeMedium | GradeLow
  datatype Layer = RuleLayer | AdapterLayer | HeuristicLayer

  datatype Finding = Finding(
    ruleId: string,
    title: string,
    category: string,
    severity: Severity,
    confidence: Grade,
    layer: Layer,
    evidence: seq<string>,
    affectedFiles: seq<string>,
    scoreImpact: map<string, int>
  )
}
