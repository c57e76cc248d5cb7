/** Execution of one analysis job: what the session holds, what is committed, and what
    every collaborator may do to the run by raising. */
module AtlasWorker {
  import opened Wrappers

  datatype Status = Queued | Running | Completed | Failed

  datatype JobId = JobId(n: int)
  datatype ResultId = ResultId(n: int)

  datatype Job = Job(status: Status, cachedResultId: Option<ResultId>, error: bool)

  /** A diagnostic section of a result, once it has been written. */
  datatype Section = Report(text: string) | ScanFailed(error: string)

  datatype Tabs = Tabs(setupRisk: Option<Section>, debugReadiness: Option<Section>, changeRisk: Option<Section>)

  datatype Evidence = Plain(text: string) | Sealed(text: string)

  datatype Result = Result(jobId: JobId, sha: Option<string>, evidence: Evidence, tabs: Tabs)

  datatype Db = Db(jobs: map<JobId, Job>, results: map<ResultId, Result>)

  // ---------------------------------------------------------------------------
  // What the collaborators do in one run
  // ---------------------------------------------------------------------------

  datatype Analysis = Analysis(sha: Option<string>, evidence: string, hasIntelligence: bool)

  /** Sections the onboarding analyzers wrote (none where they wrote nothing), whether the
      clone or the analyzers raised after that, and whether the last flush went through. */
  datatype Diagnosis = Diagnosis(writes: Tabs, raised: bool, flushed: bool)

  datatype Env = Env(
    analysis: Option<Analysis>,   // None: the analysis raised
    summarized: bool,             // summaries and the row could be built
    keySet: bool,                 // field encryption is configured
    decrypts: bool,               // the key opens the stored evidence (it may have been rotated)
    diagnosis: Diagnosis,
    diagnosisCommitted: bool,     // the commit after the diagnosis succeeds
    rolledBack: bool,             // the rollback after a failed diagnosis succeeds
    persisted: bool               // persisting the intelligence does not raise
  )

  const NO_TABS := Tabs(None, None, None)

  function Encrypt(e: Evidence, keySet: bool): Evidence {
    if keySet then Sealed(e.text) else e
  }

  /** Evidence that cannot be opened is handed back as it is. */
  function Decrypt(e: Evidence, keySet: bool, decrypts: bool): Evidence {
    if keySet && decrypts then Plain(e.text) else e
  }

  predicate HasAllTabs(t: Tabs) {
    t.setupRisk.Some? && t.debugReadiness.Some? && t.changeRisk.Some?
  }

  function Else(a: Option<Section>, b: Option<Section>): Option<Section> {
    if a.Some? then a else b
  }

  function Overwrite(t: Tabs, writes: Tabs): Tabs {
    Tabs(Else(writes.setupRisk, t.setupRisk), Else(writes.debugReadiness, t.debugReadiness),
      Else(writes.changeRisk, t.changeRisk))
  }

  function MarkMissing(t: Tabs, error: string): Tabs {
    var sentinel := Some(ScanFailed(error));
    Tabs(Else(t.setupRisk, sentinel), Else(t.debugReadiness, sentinel), Else(t.changeRisk, sentinel))
  }

  /** Where one section of an incomplete result comes from: what the analyzers wrote, else what
      was there, else a mark that tells a raise from an incomplete run. */
  ghost predicate SectionOf(r: Option<Section>, before: Option<Section>, written: Option<Section>, raised: bool) {
    && (written.Some? ==> r == written)
    && (written.None? && before.Some? ==> r == before)
    && (written.None? && before.None? ==>
          r == Some(ScanFailed(if raised then "diagnostic_pipeline_error" else "diagnostic_pipeline_incomplete")))
  }

  /** The tabs of a result after its diagnosis: all present; complete tabs stay as they were,
      else each section is settled on its own. */
  function Diagnosed(t: Tabs, d: Diagnosis): (r: Tabs)
    ensures HasAllTabs(r)
    ensures t.setupRisk.Some? && t.debugReadiness.Some? && t.changeRisk.Some? ==> r == t
    ensures t.setupRisk.None? || t.debugReadiness.None? || t.changeRisk.None? ==>
      && SectionOf(r.setupRisk, t.setupRisk, d.writes.setupRisk, d.raised)
      && SectionOf(r.debugReadiness, t.debugReadiness, d.writes.debugReadiness, d.raised)
      && SectionOf(r.changeRisk, t.changeRisk, d.writes.changeRisk, d.raised)
  {
    if HasAllTabs(t) then t
    else MarkMissing(Overwrite(t, d.writes),
      if d.raised then "diagnostic_pipeline_error" else "diagnostic_pipeline_incomplete")
  }

  /** The diagnosis itself raises only when there is something to do and the flush fails. */
  predicate DiagnosisRaises(t: Tabs, d: Diagnosis) {
    !HasAllTabs(t) && !d.flushed
  }

  /** Whether the tabs a diagnosis wrote get committed. */
  predicate DiagnosisSticks(t: Tabs, env: Env) {
    !DiagnosisRaises(t, env.diagnosis) && env.diagnosisCommitted
  }

  /** Rows a lookup by tree SHA finds; an absent or empty SHA is never looked up. */
  function Hits(db: Db, sha: Option<string>): set<ResultId> {
    set id | id in db.results && sha.Some? && sha.value != "" && db.results[id].sha == sha
  }

  // ---------------------------------------------------------------------------
  // What a run may leave behind
  // ---------------------------------------------------------------------------

  /** Nothing of a result is written. */
  predicate Stops(db: Db, env: Env) {
    || env.analysis.None?
    || |Hits(db, env.analysis.value.sha)| > 1
    || (Hits(db, env.analysis.value.sha) == {} && !env.summarized)
  }

  predicate ReusesResult(db: Db, env: Env) {
    !Stops(db, env) && Hits(db, env.analysis.value.sha) != {}
  }

  /** An exception reaches the outer handler. */
  predicate Raises(db: Db, env: Env) {
    || Stops(db, env)
    || (!ReusesResult(db, env) && env.analysis.value.hasIntelligence && !env.persisted)
  }

  function NewResult(jobId: JobId, env: Env, tabs: Tabs): Result
    requires env.analysis.Some?
  {
    Result(jobId, env.analysis.value.sha, Encrypt(Plain(env.analysis.value.evidence), env.keySet), tabs)
  }

  function Reused(r: Result, env: Env): Result {
    r.(evidence := Decrypt(r.evidence, env.keySet, env.decrypts))
  }

  function WithTabs(db: Db, id: ResultId, tabs: Tabs): Db
    requires id in db.results
  {
    db.(results := db.results[id := db.results[id].(tabs := tabs)])
  }

  /** The tabs that end up committed for a row that started with `t`. */
  function CommittedTabs(t: Tabs, env: Env): Tabs {
    if DiagnosisSticks(t, env) then Diagnosed(t, env.diagnosis) else t
  }

  /** The same for a new row; tabs a failed rollback left in the session go out with the
      commit that marks the job failed. */
  function FreshTabs(env: Env): Tabs {
    if DiagnosisSticks(NO_TABS, env)
      || (!env.rolledBack && env.analysis.Some? && env.analysis.value.hasIntelligence && !env.persisted)
    then Diagnosed(NO_TABS, env.diagnosis) else NO_TABS
  }

  /** How one execution moves the committed database, whatever its collaborators did. */
  ghost predicate Executed(before: Db, after: Db, jobId: JobId, markRunning: bool, env: Env, newId: ResultId) {
    && jobId in before.jobs && after.jobs.Keys == before.jobs.Keys
    && (forall j :: j in before.jobs && j != jobId ==> after.jobs[j] == before.jobs[j])
    && after.jobs[jobId].status == (if Raises(before, env) then Failed else Completed)
    && after.jobs[jobId].error == (if Raises(before, env) then true else !markRunning && before.jobs[jobId].error)
    && (if Stops(before, env) then
          after.results == before.results && after.jobs[jobId].cachedResultId == before.jobs[jobId].cachedResultId
        else if ReusesResult(before, env) then
          exists id :: ReusedRow(before, after, jobId, env, id)
        else
          && after.results == before.results[newId := NewResult(jobId, env, FreshTabs(env))]
          && after.jobs[jobId].cachedResultId == before.jobs[jobId].cachedResultId)
  }

  /** What the body of the job leaves in the session before any exception is handled. */
  ghost predicate Progress(before: Db, after: Db, jobId: JobId, env: Env, newId: ResultId) {
    && jobId in before.jobs && after.jobs.Keys == before.jobs.Keys
    && (forall j :: j in before.jobs && j != jobId ==> after.jobs[j] == before.jobs[j])
    && after.jobs[jobId].error == before.jobs[jobId].error
    && (if Stops(before, env) then after == before
        else if ReusesResult(before, env) then
          && after.jobs[jobId].status == Completed
          && exists id :: ReusedRow(before, after, jobId, env, id)
        else
          && after.jobs[jobId].status == Completed
          && after.results == before.results[newId := NewResult(jobId, env, FreshTabs(env))]
          && after.jobs[jobId].cachedResultId == before.jobs[jobId].cachedResultId)
  }

  ghost predicate ReusedRow(before: Db, after: Db, jobId: JobId, env: Env, id: ResultId)
    requires jobId in before.jobs && after.jobs.Keys == before.jobs.Keys && env.analysis.Some?
  {
    && Hits(before, env.analysis.value.sha) == {id}
    && after.jobs[jobId].cachedResultId == Some(id)
    && id in before.results
    && after.results == before.results[id :=
         Reused(before.results[id], env).(tabs := CommittedTabs(before.results[id].tabs, env))]
  }

  /** A job shown as completed has its result: the cached row with the SHA it asked for, or
      the row written for the job itself. */
  ghost predicate Backed(db: Db, jobId: JobId, env: Env, newId: ResultId) {
    jobId in db.jobs && db.jobs[jobId].status == Completed ==>
      && env.analysis.Some?
      && (|| (exists id :: id in db.results && db.jobs[jobId].cachedResultId == Some(id)
                && db.results[id].sha == env.analysis.value.sha && env.analysis.value.sha.Some?)
          || (newId in db.results && db.results[newId].jobId == jobId
            && db.results[newId].sha == env.analysis.value.sha))
  }

  /** The final state follows from what the body left and from how the run was framed. */
  lemma Settled(before: Db, started: Db, now: Db, after: Db, jobId: JobId, markRunning: bool, env: Env, newId: ResultId)
    requires jobId in before.jobs && Progress(started, now, jobId, env, newId)
    requires started == if markRunning then
      before.(jobs := before.jobs[jobId := before.jobs[jobId].(status := Running, error := false)]) else before
    requires after == if Raises(started, env) then
      now.(jobs := now.jobs[jobId := now.jobs[jobId].(status := Failed, error := true)]) else now
    ensures Executed(before, after, jobId, markRunning, env, newId)
  {
    assert forall sha :: Hits(before, sha) == Hits(started, sha);
    if ReusesResult(started, env) {
      var id :| ReusedRow(started, now, jobId, env, id);
      assert ReusedRow(before, after, jobId, env, id);
    }
  }

  lemma SingleHit(db: Db, sha: Option<string>, id: ResultId)
    requires id in Hits(db, sha) && |Hits(db, sha)| <= 1
    ensures Hits(db, sha) == {id}
  {
    assert |Hits(db, sha) - {id}| == 0;
  }

  // ---------------------------------------------------------------------------
  // The worker
  // ---------------------------------------------------------------------------

  class Worker {
    var committed: Db
    var session: Db
    /** Every state the database was committed to, in order. */
    ghost var commits: seq<Db>

    constructor (db: Db)
      ensures committed == session == db && commits == []
    {
      committed, session, commits := db, db, [];
    }

    method Commit()
      modifies this
      ensures committed == session == old(session) && commits == old(commits) + [session]
    {
      committed := session;
      commits := commits + [session];
    }

    method Rollback(ok: bool)
      modifies `session
      ensures session == if ok then committed else old(session)
    {
      if ok {
        session := committed;
      }
    }

    method SetJob(id: JobId, job: Job)
      modifies `session
      ensures session == old(session).(jobs := old(session).jobs[id := job])
    {
      session := session.(jobs := session.jobs[id := job]);
    }

    method SetResult(id: ResultId, result: Result)
      modifies `session
      ensures session == old(session).(results := old(session).results[id := result])
    {
      session := session.(results := session.results[id := result]);
    }

    method PopulateDiagnosticTabs(id: ResultId, d: Diagnosis) returns (raised: bool)
      requires id in session.results
      modifies `session
      ensures raised == DiagnosisRaises(old(session).results[id].tabs, d)
      ensures session == WithTabs(old(session), id, Diagnosed(old(session).results[id].tabs, d))
    {
      var result := session.results[id];
      if HasAllTabs(result.tabs) {
        return false;
      }
      var tabs := Overwrite(result.tabs, d.writes);
      if d.raised {
        tabs := MarkMissing(tabs, "diagnostic_pipeline_error");
      } else {
        tabs := MarkMissing(tabs, "diagnostic_pipeline_incomplete");
      }
      SetResult(id, result.(tabs := tabs));
      return !d.flushed;
    }

    /** The guarded block after a job was committed as completed: fill the tabs, commit, and
        on any failure roll back; nothing escapes. */
    method Diagnose(id: ResultId, env: Env)
      requires session == committed && id in committed.results
      modifies this
      ensures var t := old(committed).results[id].tabs;
        && committed == WithTabs(old(committed), id, CommittedTabs(t, env))
        && session == (if env.rolledBack then committed else WithTabs(old(committed), id, Diagnosed(t, env.diagnosis)))
        && commits == old(commits) + if DiagnosisSticks(t, env) then [committed] else []
    {
      var raised := PopulateDiagnosticTabs(id, env.diagnosis);
      if !raised && env.diagnosisCommitted {
        Commit();
      } else {
        Rollback(env.rolledBack);
      }
    }

    /** Cache hit: the job points at an existing row. */
    method Reuse(jobId: JobId, id: ResultId, env: Env)
      requires session == committed && jobId in committed.jobs && env.analysis.Some?
      requires Hits(committed, env.analysis.value.sha) == {id} && id in committed.results
      modifies this
      ensures committed.jobs ==
        old(committed).jobs[jobId := old(committed).jobs[jobId].(status := Completed, cachedResultId := Some(id))]
      ensures committed.results == old(committed).results[id :=
        Reused(old(committed).results[id], env).(tabs := CommittedTabs(old(committed).results[id].tabs, env))]
      ensures old(commits) <= commits
      ensures forall k :: |old(commits)| <= k < |commits| ==>
        && commits[k].jobs == committed.jobs
        && commits[k].results.Keys == committed.results.Keys
        && commits[k].results[id].sha == old(committed).results[id].sha
    {
      SetResult(id, Reused(session.results[id], env));
      SetJob(jobId, session.jobs[jobId].(status := Completed, cachedResultId := Some(id)));
      Commit();
      Diagnose(id, env);
    }

    /** Cache miss: the job's own row and its status go out in one commit. */
    method Publish(jobId: JobId, newId: ResultId, env: Env)
      requires session == committed && jobId in committed.jobs && env.analysis.Some? && newId !in committed.results
      modifies this
      ensures committed.jobs == session.jobs ==
        old(committed).jobs[jobId := old(committed).jobs[jobId].(status := Completed)]
      ensures committed.results == old(committed).results[newId := NewResult(jobId, env, CommittedTabs(NO_TABS, env))]
      ensures session.results == old(committed).results[newId := NewResult(jobId, env,
        if env.rolledBack then CommittedTabs(NO_TABS, env) else Diagnosed(NO_TABS, env.diagnosis))]
      ensures old(commits) <= commits
      ensures forall k :: |old(commits)| <= k < |commits| ==>
        && commits[k].jobs == committed.jobs
        && newId in commits[k].results
        && commits[k].results[newId].jobId == jobId
        && commits[k].results[newId].sha == env.analysis.value.sha
    {
      SetResult(newId, NewResult(jobId, env, NO_TABS));
      SetJob(jobId, session.jobs[jobId].(status := Completed));
      Commit();
      Diagnose(newId, env);
    }

    /** The body of the outer `try`; true when an exception leaves it. */
    method Pipeline(jobId: JobId, env: Env, newId: ResultId) returns (raised: bool)
      requires session == committed && jobId in committed.jobs && newId !in committed.results
      modifies this
      ensures raised == Raises(old(committed), env)
      ensures Progress(old(committed), if raised then session else committed, jobId, env, newId)
      ensures old(commits) <= commits
      ensures forall k :: |old(commits)| <= k < |commits| ==> Backed(commits[k], jobId, env, newId)
    {
      if env.analysis.None? {
        return true;
      }
      var a := env.analysis.value;
      var hits := Hits(session, a.sha);
      if |hits| > 1 {
        return true;
      }
      if hits != {} {
        var id :| id in hits;
        SingleHit(session, a.sha, id);
        Reuse(jobId, id, env);
        assert ReusedRow(old(committed), committed, jobId, env, id);
        return false;
      }
      if !env.summarized {
        return true;
      }
      Publish(jobId, newId, env);
      return a.hasIntelligence && !env.persisted;
    }

    /** Runs one job. */
    method ExecuteAnalysisJob(jobId: JobId, markRunning: bool, env: Env, newId: ResultId)
      requires session == committed && newId !in committed.results
      modifies this
      ensures jobId !in old(committed).jobs ==> committed == old(committed) && commits == old(commits)
      ensures jobId in old(committed).jobs ==> Executed(old(committed), committed, jobId, markRunning, env, newId)
      ensures old(commits) <= commits
      ensures forall k :: |old(commits)| <= k < |commits| ==> Backed(commits[k], jobId, env, newId)
    {
      if jobId !in session.jobs {
        return;
      }
      if markRunning {
        SetJob(jobId, session.jobs[jobId].(status := Running, error := false));
        Commit();
      }
      ghost var started := committed;
      var raised := Pipeline(jobId, env, newId);
      ghost var now := if raised then session else committed;
      if raised {
        SetJob(jobId, session.jobs[jobId].(status := Failed, error := true));
        Commit();
      }
      Settled(old(committed), started, now, committed, jobId, markRunning, env, newId);
    }
  }

  // ---------------------------------------------------------------------------
  // Any number of executions, one after the other
  // ---------------------------------------------------------------------------

  datatype Execution = Execution(jobId: JobId, markRunning: bool, env: Env, newId: ResultId)

  /** `dbs` are the committed states between the executions of `runs`. */
  ghost predicate IsHistory(dbs: seq<Db>, runs: seq<Execution>) {
    && |dbs| == |runs| + 1
    && forall i :: 0 <= i < |runs| ==> IsExecution(dbs[i], dbs[i + 1], runs[i])
  }

  ghost predicate IsExecution(before: Db, after: Db, run: Execution) {
    run.newId !in before.results && Executed(before, after, run.jobId, run.markRunning, run.env, run.newId)
  }

  predicate SameSha(a: Result, b: Result) {
    a.sha == b.sha && a.sha.Some? && a.sha.value != ""
  }

  ghost predicate UniqueSha(db: Db) {
    forall id, id' :: id in db.results && id' in db.results && SameSha(db.results[id], db.results[id']) ==> id == id'
  }

  /** Rows are only added, and what identifies a row never changes. */
  ghost predicate RowsKept(before: Db, after: Db) {
    forall id :: id in before.results ==>
      id in after.results && after.results[id].sha == before.results[id].sha
        && after.results[id].jobId == before.results[id].jobId
  }

  lemma ExecutionKeepsRows(before: Db, after: Db, run: Execution)
    requires IsExecution(before, after, run)
    ensures RowsKept(before, after)
  {
    if ReusesResult(before, run.env) {
      var id :| ReusedRow(before, after, run.jobId, run.env, id);
    }
  }

  lemma ExecutionKeepsShaUnique(before: Db, after: Db, run: Execution)
    requires IsExecution(before, after, run) && UniqueSha(before)
    ensures UniqueSha(after)
  {
    if ReusesResult(before, run.env) {
      var id :| ReusedRow(before, after, run.jobId, run.env, id);
      assert forall k :: k in after.results ==> k in before.results && after.results[k].sha == before.results[k].sha;
    } else if !Stops(before, run.env) {
      var sha := run.env.analysis.value.sha;
      forall k | k in before.results && sha.Some? && sha.value != ""
        ensures before.results[k].sha != sha
      {
        assert k !in Hits(before, sha);
      }
    }
  }

  lemma UniqueShaLookup(db: Db, sha: Option<string>)
    requires UniqueSha(db)
    ensures |Hits(db, sha)| <= 1
  {
    var hits := Hits(db, sha);
    if hits != {} {
      var id :| id in hits;
      forall k | k in hits
        ensures k == id
      {
        assert SameSha(db.results[k], db.results[id]);
      }
      assert hits == {id};
    }
  }

  /** At most one result per tree SHA is ever committed, so the lookup never meets two. */
  lemma {:induction false} LookupNeverSeesTwo(dbs: seq<Db>, runs: seq<Execution>, i: nat, sha: Option<string>)
    requires IsHistory(dbs, runs) && UniqueSha(dbs[0]) && i < |dbs|
    ensures UniqueSha(dbs[i])
    ensures |Hits(dbs[i], sha)| <= 1
  {
    if i > 0 {
      LookupNeverSeesTwo(dbs, runs, i - 1, sha);
      ExecutionKeepsShaUnique(dbs[i - 1], dbs[i], runs[i - 1]);
    }
    UniqueShaLookup(dbs[i], sha);
  }

  ghost predicate HasResult(db: Db, jobId: JobId) {
    || (jobId in db.jobs && db.jobs[jobId].cachedResultId.Some? && db.jobs[jobId].cachedResultId.value in db.results)
    || (exists id :: id in db.results && db.results[id].jobId == jobId)
  }

  ghost predicate CompletedHaveResults(db: Db) {
    forall j :: j in db.jobs && db.jobs[j].status == Completed ==> HasResult(db, j)
  }

  lemma ExecutionKeepsResults(before: Db, after: Db, run: Execution, j: JobId)
    requires IsExecution(before, after, run) && CompletedHaveResults(before)
    requires j in after.jobs && after.jobs[j].status == Completed
    ensures HasResult(after, j)
  {
    ExecutionKeepsRows(before, after, run);
    if j != run.jobId {
      assert HasResult(before, j);
    } else if ReusesResult(before, run.env) {
      var id :| ReusedRow(before, after, run.jobId, run.env, id);
    } else {
      assert run.newId in after.results && after.results[run.newId].jobId == j;
    }
  }

  /** In every state of every history each completed job has a committed result. */
  lemma {:induction false} CompletedAlwaysHaveResults(dbs: seq<Db>, runs: seq<Execution>, i: nat)
    requires IsHistory(dbs, runs) && CompletedHaveResults(dbs[0]) && i < |dbs|
    ensures CompletedHaveResults(dbs[i])
  {
    if i > 0 {
      CompletedAlwaysHaveResults(dbs, runs, i - 1);
      forall j | j in dbs[i].jobs && dbs[i].jobs[j].status == Completed
        ensures HasResult(dbs[i], j)
      {
        ExecutionKeepsResults(dbs[i - 1], dbs[i], runs[i - 1], j);
      }
    }
  }

  /** A job whose row was committed keeps it even when persisting raises and the job is
      marked failed; only the status flips. */
  lemma FailedPersistKeepsRow(before: Db, after: Db, run: Execution)
    requires IsExecution(before, after, run)
    requires !Stops(before, run.env) && !ReusesResult(before, run.env)
    ensures run.newId in after.results && after.results[run.newId].jobId == run.jobId
    ensures after.results[run.newId].sha == run.env.analysis.value.sha
    ensures after.jobs[run.jobId].status ==
      if run.env.analysis.value.hasIntelligence && !run.env.persisted then Failed else Completed
  {
  }

  /** Some committed row holds the tree SHA the analysis found. */
  ghost predicate Cached(db: Db, sha: Option<string>) {
    exists id :: id in db.results && sha.Some? && sha.value != "" && db.results[id].sha == sha
  }

  lemma CachedExact(db: Db, sha: Option<string>)
    ensures Cached(db, sha) <==> Hits(db, sha) != {}
  {
    if Cached(db, sha) {
      var id :| id in db.results && sha.Some? && sha.value != "" && db.results[id].sha == sha;
      assert id in Hits(db, sha);
    }
  }

  /** When an execution fails: the analysis raises; or, with no row for its SHA, the summaries do
      or persisting the intelligence does. */
  lemma FailsExactly(before: Db, after: Db, run: Execution)
    requires IsExecution(before, after, run) && UniqueSha(before)
    ensures after.jobs[run.jobId].status in {Failed, Completed}
    ensures after.jobs[run.jobId].status == Failed <==>
      || run.env.analysis.None?
      || (&& !Cached(before, run.env.analysis.value.sha)
          && (!run.env.summarized || (run.env.analysis.value.hasIntelligence && !run.env.persisted)))
    ensures after.jobs[run.jobId].error <==>
      after.jobs[run.jobId].status == Failed || (!run.markRunning && before.jobs[run.jobId].error)
    ensures forall j :: j in before.jobs && j != run.jobId ==> j in after.jobs && after.jobs[j] == before.jobs[j]
  {
    if run.env.analysis.Some? {
      UniqueShaLookup(before, run.env.analysis.value.sha);
      CachedExact(before, run.env.analysis.value.sha);
    }
  }

  /** The sections a row ends up with that had `t`: the diagnosis counts when it was flushed and
      committed, and else leaves the row as it was. */
  ghost predicate SettledTabs(r: Tabs, t: Tabs, d: Diagnosis, kept: bool) {
    if kept && (t.setupRisk.None? || t.debugReadiness.None? || t.changeRisk.None?) then
      && SectionOf(r.setupRisk, t.setupRisk, d.writes.setupRisk, d.raised)
      && SectionOf(r.debugReadiness, t.debugReadiness, d.writes.debugReadiness, d.raised)
      && SectionOf(r.changeRisk, t.changeRisk, d.writes.changeRisk, d.raised)
    else r == t
  }

  /** What a fresh execution commits for its job: the SHA and the evidence of the analysis, sealed
      when a key is set, and the sections of its diagnosis. Sections that were not committed go
      out after all when the rollback fails and persisting then raises. */
  lemma FreshRowExactly(before: Db, after: Db, run: Execution)
    requires IsExecution(before, after, run) && run.env.analysis.Some? && run.env.summarized
    requires !Cached(before, run.env.analysis.value.sha)
    ensures var env := run.env; var a := env.analysis.value;
      && after.results.Keys == before.results.Keys + {run.newId}
      && (forall id :: id in before.results ==> after.results[id] == before.results[id])
      && var row := after.results[run.newId];
      && row.jobId == run.jobId && row.sha == a.sha
      && row.evidence == (if env.keySet then Sealed(a.evidence) else Plain(a.evidence))
      && SettledTabs(row.tabs, Tabs(None, None, None), env.diagnosis,
           (env.diagnosis.flushed && env.diagnosisCommitted)
           || (!env.rolledBack && a.hasIntelligence && !env.persisted))
  {
    CachedExact(before, run.env.analysis.value.sha);
  }

  /** What a cache hit commits: the job points at the row of its SHA, whose evidence is opened if
      the key can, and whose missing sections are filled in. */
  lemma CacheHitExactly(before: Db, after: Db, run: Execution) returns (id: ResultId)
    requires IsExecution(before, after, run) && UniqueSha(before) && run.env.analysis.Some?
    requires Cached(before, run.env.analysis.value.sha)
    ensures id in before.results && before.results[id].sha == run.env.analysis.value.sha
    ensures after.jobs[run.jobId].cachedResultId == Some(id)
    ensures after.results.Keys == before.results.Keys
    ensures forall k :: k in before.results && k != id ==> after.results[k] == before.results[k]
    ensures var env, was, row := run.env, before.results[id], after.results[id];
      && row.jobId == was.jobId && row.sha == was.sha && row.evidence.text == was.evidence.text
      && (env.keySet && env.decrypts ==> row.evidence.Plain?)
      && (!env.keySet || !env.decrypts ==> row.evidence == was.evidence)
      && SettledTabs(row.tabs, was.tabs, env.diagnosis,
           env.diagnosisCommitted && env.diagnosis.flushed)
  {
    UniqueShaLookup(before, run.env.analysis.value.sha);
    CachedExact(before, run.env.analysis.value.sha);
    id :| ReusedRow(before, after, run.jobId, run.env, id);
  }

  ghost predicate AllSealed(db: Db) {
    forall id :: id in db.results ==> db.results[id].evidence.Sealed?
  }

  /** Evidence is meant to be sealed at rest. An execution keeps that exactly when it does not
      reuse a row or cannot open it: a cache hit commits the row with its evidence opened. */
  lemma SealedAtRestExactly(before: Db, after: Db, run: Execution)
    requires IsExecution(before, after, run) && run.env.keySet && AllSealed(before)
    ensures AllSealed(after) <==> !ReusesResult(before, run.env) || !run.env.decrypts
  {
    if ReusesResult(before, run.env) {
      var id :| ReusedRow(before, after, run.jobId, run.env, id);
      assert after.results[id].evidence.Sealed? <==> !run.env.decrypts;
    }
  }
}
