/** From parsed files to the dependency graph: edges, dependency lists, callers,
    critical path and graph confidence. */
module CodeContexts {
  import opened Collections
  import opened CriticalPath
  import opened PythonImports
  import opened Repository
  import opened Text
  import opened TsImports
  import opened Wrappers

  datatype Reason = DynamicImport | AliasUnknown | AmbiguousPackageImport | FileNotScanned

  datatype DependencyEdge =
    | Confirmed(source: Path, target: Path, rawImport: string)
    | Unresolved(source: Path, rawImport: string, reason: Reason)

  /** Tables the scanner is configured with. */
  datatype ScanConfig = ScanConfig(aliases: seq<Alias>, externalRoots: set<string>, packageDirs: set<string>)

  /** What every import of one scan is resolved against. */
  datatype Env = Env(index: FileIndex, known: set<Path>, config: ScanConfig)

  function EnvOf(files: seq<FileIntelligence>, config: ScanConfig): Env {
    Env(IndexOf(files), set f | f in files :: f.path, config)
  }

  // ---------------------------------------------------------------------------
  // One import
  // ---------------------------------------------------------------------------

  const DYNAMIC_PATTERNS: seq<string> := ["importlib", "__import__", "import_module", "${", "` +"]

  predicate IsExternal(imp: string, config: ScanConfig) {
    var root := Split(Split(StripLeft(imp, '.'), '.')[0], '/')[0];
    Lower(if StartsWith(root, "@") then Split(imp, '/')[0] else root) in config.externalRoots
  }

  function UnresolvedReason(imp: string, language: Language, config: ScanConfig): Reason {
    if exists p :: p in DYNAMIC_PATTERNS && Contains(imp, p) then DynamicImport
    else match language
      case TypeScript => TsReason(imp, config)
      case JavaScript => TsReason(imp, config)
      case Python =>
        var parts := Split(StripLeft(imp, '.'), '.');
        if |parts| >= 2 && Lower(parts[|parts| - 1]) in config.packageDirs then AmbiguousPackageImport
        else FileNotScanned
      case Other => FileNotScanned
  }

  function TsReason(imp: string, config: ScanConfig): Reason {
    if exists a :: a in config.aliases && StartsWith(imp, StripRight(a.prefix, '*')) then FileNotScanned
    else if StartsWith(imp, "@") then AliasUnknown
    else FileNotScanned
  }

  function Resolve(file: FileIntelligence, imp: string, env: Env): Option<FilePath> {
    match file.language
    case Python => ResolvePython(imp, file.path, env.index)
    case TypeScript => ResolveTs(imp, file.path, env.config.aliases, env.index)
    case JavaScript => ResolveTs(imp, file.path, env.config.aliases, env.index)
    case Other => None
  }

  /** The import without its last dotted component. */
  function Parent(imp: string): string {
    var parts := Split(imp, '.');
    Join(parts[..|parts| - 1], '.')
  }

  /** A name imported from a module that is itself a scanned file. */
  predicate IsMemberImport(file: FileIntelligence, imp: string, env: Env) {
    && file.language == Python && '.' in imp && Parent(imp) != "" && !StartsWith(imp, ".")
    && ResolvePython(Parent(imp), file.path, env.index).Some?
  }

  datatype ImportOutcome = Suppressed | External | Hit(target: FilePath) | Miss(reason: Reason)

  function Outcome(file: FileIntelligence, imp: string, env: Env): ImportOutcome {
    var resolved := Resolve(file, imp, env);
    if resolved.None? && IsMemberImport(file, imp, env) then Suppressed
    else if resolved.Some? && resolved.value in env.known && resolved.value != file.path then Hit(resolved.value)
    else if IsExternal(imp, env.config) then External
    else Miss(UnresolvedReason(imp, file.language, env.config))
  }

  method ResolveImport(file: FileIntelligence, imp: string, env: Env) returns (r: Option<FilePath>)
    ensures r == Resolve(file, imp, env)
  {
    match file.language {
      case Python => r := ResolvePythonImport(imp, file.path, env.index);
      case TypeScript => r := ResolveTsImport(imp, file.path, env.config.aliases, env.index);
      case JavaScript => r := ResolveTsImport(imp, file.path, env.config.aliases, env.index);
      case Other => r := None;
    }
  }

  // ---------------------------------------------------------------------------
  // All imports
  // ---------------------------------------------------------------------------

  /** The edge an import leaves, if it leaves one. */
  function EdgeOf(file: FileIntelligence, imp: string, env: Env): seq<DependencyEdge> {
    match Outcome(file, imp, env)
    case Hit(target) => [Confirmed(file.path, target, imp)]
    case Miss(reason) => [Unresolved(file.path, imp, reason)]
    case Suppressed => []
    case External => []
  }

  /** Edges of the first `n` imports of a file. */
  function FileEdges(file: FileIntelligence, n: nat, env: Env): seq<DependencyEdge>
    requires n <= |file.imports|
  {
    if n == 0 then [] else FileEdges(file, n - 1, env) + EdgeOf(file, file.imports[n - 1], env)
  }

  /** Edges of the first `n` files. */
  function GraphEdges(files: seq<FileIntelligence>, n: nat, env: Env): seq<DependencyEdge>
    requires n <= |files|
  {
    if n == 0 then [] else GraphEdges(files, n - 1, env) + FileEdges(files[n - 1], |files[n - 1].imports|, env)
  }

  /** Targets of the confirmed edges in a list, in order. */
  function Targets(edges: seq<DependencyEdge>): seq<Path> {
    if edges == [] then []
    else Targets(edges[..|edges| - 1])
         + if edges[|edges| - 1].Confirmed? then [edges[|edges| - 1].target] else []
  }

  function ConfirmedCount(edges: seq<DependencyEdge>): nat {
    if edges == [] then 0 else ConfirmedCount(edges[..|edges| - 1]) + if edges[|edges| - 1].Confirmed? then 1 else 0
  }

  predicate IsDynamic(e: DependencyEdge) {
    e.Unresolved? && e.reason == DynamicImport
  }

  /** Edges that count against confidence: all but the dynamic ones. */
  function StaticCount(edges: seq<DependencyEdge>): nat {
    if edges == [] then 0 else StaticCount(edges[..|edges| - 1]) + if IsDynamic(edges[|edges| - 1]) then 0 else 1
  }

  lemma {:induction false} CountsAppend(edges: seq<DependencyEdge>, e: DependencyEdge)
    ensures ConfirmedCount(edges + [e]) == ConfirmedCount(edges) + if e.Confirmed? then 1 else 0
    ensures StaticCount(edges + [e]) ==
      StaticCount(edges) + if e.Unresolved? && e.reason == DynamicImport then 0 else 1
    ensures Targets(edges + [e]) == Targets(edges) + if e.Confirmed? then [e.target] else []
  {
    assert (edges + [e])[..|edges|] == edges;
  }

  lemma StartCounts()
    ensures ConfirmedCount([]) == StaticCount([]) == 0 && Targets([]) == []
  {
  }

  lemma {:induction false} ConfirmedAtMostStatic(edges: seq<DependencyEdge>)
    ensures ConfirmedCount(edges) <= StaticCount(edges) <= |edges|
  {
    if edges != [] {
      ConfirmedAtMostStatic(edges[..|edges| - 1]);
    }
  }

  /** The share of confirmed edges among the static ones; one half when there are none. */
  function Confidence(confirmed: nat, total: nat): real {
    if total == 0 then 0.5 else confirmed as real / total as real
  }

  lemma ConfidenceBounds(edges: seq<DependencyEdge>)
    ensures 0.0 <= Confidence(ConfirmedCount(edges), StaticCount(edges)) <= 1.0
  {
    ConfirmedAtMostStatic(edges);
    if StaticCount(edges) > 0 {
      Ratio(ConfirmedCount(edges) as real, StaticCount(edges) as real);
    }
  }

  /** Confidence times the edges that are not dynamic gives the confirmed ones; without such
      edges it is one half. */
  lemma ConfidenceExact(edges: seq<DependencyEdge>)
    ensures var c := Confidence(ConfirmedCount(edges), StaticCount(edges));
      && (StaticCount(edges) > 0 ==> c * StaticCount(edges) as real == ConfirmedCount(edges) as real)
      && (StaticCount(edges) == 0 ==> c == 0.5)
  {
  }

  lemma Ratio(x: real, y: real)
    requires 0.0 <= x <= y && y > 0.0
    ensures 0.0 <= x / y <= 1.0
  {
  }

  // ---------------------------------------------------------------------------
  // The passes
  // ---------------------------------------------------------------------------

  function FileContext(file: FileIntelligence, env: Env): CodeContext {
    CodeContext(FirstOccurrences(Targets(FileEdges(file, |file.imports|, env))), [], file.isEntrypoint, 0)
  }

  /** Resolves every import of one file. */
  method CollectFile(file: FileIntelligence, env: Env)
      returns (edges: seq<DependencyEdge>, downstream: seq<Path>, confirmed: nat, total: nat)
    ensures edges == FileEdges(file, |file.imports|, env)
    ensures downstream == Targets(edges) && confirmed == ConfirmedCount(edges) && total == StaticCount(edges)
  {
    hide Resolve, IsMemberImport, IsExternal, UnresolvedReason, Targets, ConfirmedCount, StaticCount;
    StartCounts();
    edges, downstream, confirmed, total := [], [], 0, 0;
    for i := 0 to |file.imports|
      invariant edges == FileEdges(file, i, env)
      invariant downstream == Targets(edges) && confirmed == ConfirmedCount(edges) && total == StaticCount(edges)
    {
      var imp := file.imports[i];
      var resolved := ResolveImport(file, imp, env);
      if resolved.None? && IsMemberImport(file, imp, env) {
        continue;
      }
      if resolved.Some? && resolved.value in env.known && resolved.value != file.path {
        CountsAppend(edges, Confirmed(file.path, resolved.value, imp));
        total := total + 1;
        confirmed := confirmed + 1;
        edges := edges + [Confirmed(file.path, resolved.value, imp)];
        downstream := downstream + [resolved.value];
      } else if !IsExternal(imp, env.config) {
        var reason := UnresolvedReason(imp, file.language, env.config);
        CountsAppend(edges, Unresolved(file.path, imp, reason));
        if reason != DynamicImport {
          total := total + 1;
        }
        edges := edges + [Unresolved(file.path, imp, reason)];
      }
    }
  }

  lemma {:induction false} CountsConcat(a: seq<DependencyEdge>, b: seq<DependencyEdge>)
    ensures ConfirmedCount(a + b) == ConfirmedCount(a) + ConfirmedCount(b)
    ensures StaticCount(a + b) == StaticCount(a) + StaticCount(b)
  {
    if b == [] {
      assert a + b == a;
    } else {
      CountsConcat(a, b[..|b| - 1]);
      assert (a + b)[..|a + b| - 1] == a + b[..|b| - 1];
    }
  }

  /** First pass: edges, and a context per file with its dependency list. */
  method ResolveAll(graph: ContextGraph, files: seq<FileIntelligence>, env: Env)
      returns (edges: seq<DependencyEdge>, confirmed: nat, total: nat)
    requires DistinctPaths(files)
    modifies graph
    ensures edges == GraphEdges(files, |files|, env)
    ensures confirmed == ConfirmedCount(edges) && total == StaticCount(edges)
    ensures graph.contexts.Keys == old(graph.contexts).Keys + set f | f in files :: f.path
    ensures forall f :: f in files ==> graph.contexts[f.path] == FileContext(f, env)
  {
    hide FileEdges, FirstOccurrences;
    edges, confirmed, total := [], 0, 0;
    for i := 0 to |files|
      invariant edges == GraphEdges(files, i, env)
      invariant confirmed == ConfirmedCount(edges) && total == StaticCount(edges)
      invariant graph.contexts.Keys == old(graph.contexts).Keys + set f | f in files[..i] :: f.path
      invariant forall k :: 0 <= k < i ==> graph.contexts[files[k].path] == FileContext(files[k], env)
    {
      var file := files[i];
      var fileEdges, downstream, c, t := CollectFile(file, env);
      CountsConcat(edges, fileEdges);
      edges, confirmed, total := edges + fileEdges, confirmed + c, total + t;
      var context := CodeContext(FirstOccurrences(downstream), [], file.isEntrypoint, 0);
      graph.contexts := graph.contexts[file.path := context];
      assert files[..i + 1] == files[..i] + [file];
    }
    assert files[..|files|] == files;
  }

  /** The first `n` files that depend on `q`, in file order. */
  ghost function Callers(contexts: Contexts, files: seq<FileIntelligence>, n: nat, q: Path): seq<Path>
    requires n <= |files|
  {
    if n == 0 then [] else Callers(contexts, files, n - 1, q) + OneCaller(contexts, files[n - 1].path, q)
  }

  ghost function OneCaller(contexts: Contexts, p: Path, q: Path): seq<Path> {
    if Imports(contexts, p, q) then [p] else []
  }

  lemma {:induction false} CallersExact(contexts: Contexts, files: seq<FileIntelligence>, n: nat, q: Path)
    requires n <= |files| && DistinctPaths(files)
    ensures NoDuplicates(Callers(contexts, files, n, q))
    ensures forall p ::
      p in Callers(contexts, files, n, q)
      <==> Imports(contexts, p, q) && exists k :: 0 <= k < n && files[k].path == p
  {
    if n > 0 {
      CallersExact(contexts, files, n - 1, q);
    }
  }

  /** Callers of `q` once `n` files and the first `j` dependencies of the next one are linked. */
  ghost function CallersSoFar(start: Contexts, files: seq<FileIntelligence>, n: nat, j: nat, q: Path): seq<Path>
    requires n <= |files|
    requires j > 0 ==> n < |files| && files[n].path in start && j <= |start[files[n].path].downstream|
  {
    Callers(start, files, n, q)
    + if j > 0 && q in start[files[n].path].downstream[..j] then [files[n].path] else []
  }

  ghost predicate Linked(start: Contexts, now: Contexts, files: seq<FileIntelligence>, n: nat, j: nat)
    requires n <= |files|
    requires j > 0 ==> n < |files| && files[n].path in start && j <= |start[files[n].path].downstream|
  {
    && now.Keys == start.Keys
    && forall q :: q in now ==>
      var callers := CallersSoFar(start, files, n, j, q);
      now[q] == start[q].(upstream := callers, callerCount := |callers|)
  }

  ghost predicate Unlinked(contexts: Contexts) {
    forall q :: q in contexts ==>
      contexts[q].upstream == [] && contexts[q].callerCount == 0 && NoDuplicates(contexts[q].downstream)
  }

  /** Contexts after `caller` was added to the callers of `dep`. */
  function WithCaller(contexts: Contexts, caller: Path, dep: Path): Contexts {
    if dep !in contexts then contexts
    else
      var c := contexts[dep];
      contexts[dep := c.(upstream := if caller in c.upstream then c.upstream else c.upstream + [caller],
                         callerCount := c.callerCount + 1)]
  }

  method LinkOne(graph: ContextGraph, caller: Path, dep: Path)
    modifies graph
    ensures graph.contexts == WithCaller(old(graph.contexts), caller, dep)
  {
    if dep in graph.contexts {
      if caller !in graph.contexts[dep].upstream {
        var context := graph.contexts[dep];
        graph.contexts := graph.contexts[dep := context.(upstream := context.upstream + [caller])];
      }
      graph.contexts := graph.contexts[dep := graph.contexts[dep].(callerCount := graph.contexts[dep].callerCount + 1)];
    }
  }

  lemma LinkOneKeeps(start: Contexts, now: Contexts, files: seq<FileIntelligence>, n: nat, j: nat)
    requires DistinctPaths(files) && Unlinked(start)
    requires n < |files| && files[n].path in start && j < |start[files[n].path].downstream|
    requires Linked(start, now, files, n, j)
    ensures Linked(start, WithCaller(now, files[n].path, start[files[n].path].downstream[j]), files, n, j + 1)
  {
    hide Imports, Callers;
    var caller, deps := files[n].path, start[files[n].path].downstream;
    var dep := deps[j];
    var next := WithCaller(now, caller, dep);
    assert deps[..j + 1] == deps[..j] + [dep];
    assert dep !in deps[..j];
    CallersExact(start, files, n, dep);
    forall q | q in next
      ensures next[q] == start[q].(upstream := CallersSoFar(start, files, n, j + 1, q),
        callerCount := |CallersSoFar(start, files, n, j + 1, q)|)
    {
      if q == dep {
        assert caller !in Callers(start, files, n, dep);
      }
    }
  }

  lemma FileLinked(start: Contexts, now: Contexts, files: seq<FileIntelligence>, n: nat)
    requires n < |files| && files[n].path in start
    requires Linked(start, now, files, n, |start[files[n].path].downstream|)
    ensures Linked(start, now, files, n + 1, 0)
  {
    var deps := start[files[n].path].downstream;
    assert deps[..|deps|] == deps;
  }

  lemma LinkedSameDependencies(start: Contexts, now: Contexts, files: seq<FileIntelligence>, n: nat)
    requires n <= |files| && Linked(start, now, files, n, 0)
    ensures SameDependencies(start, now)
  {
  }

  lemma StartLinked(start: Contexts, files: seq<FileIntelligence>)
    requires Unlinked(start)
    ensures Linked(start, start, files, 0, 0)
  {
  }

  /** Second pass: every dependency learns its callers. */
  method LinkCallers(graph: ContextGraph, files: seq<FileIntelligence>)
    requires DistinctPaths(files) && Unlinked(graph.contexts)
    requires forall f :: f in files ==> f.path in graph.contexts
    modifies graph
    ensures Linked(old(graph.contexts), graph.contexts, files, |files|, 0)
  {
    hide Linked, WithCaller, Unlinked;
    ghost var start := graph.contexts;
    StartLinked(start, files);
    for i := 0 to |files|
      invariant Linked(start, graph.contexts, files, i, 0)
    {
      LinkedSameDependencies(start, graph.contexts, files, i);
      assert files[i] in files;
      var caller := files[i].path;
      var deps := graph.contexts[caller].downstream;
      for j := 0 to |deps|
        invariant Linked(start, graph.contexts, files, i, j)
      {
        LinkOneKeeps(start, graph.contexts, files, i, j);
        LinkOne(graph, caller, deps[j]);
      }
      FileLinked(start, graph.contexts, files, i);
    }
  }

  ghost predicate IsEntrypoint(files: seq<FileIntelligence>, p: Path) {
    exists f :: f in files && f.isEntrypoint && f.path == p
  }

  ghost predicate EntryReaches(files: seq<FileIntelligence>, n: nat, contexts: Contexts, p: Path)
    requires n <= |files|
  {
    exists k :: 0 <= k < n && files[k].isEntrypoint && ReachesWithin(contexts, files[k].path, p, 2)
  }

  /** Last pass: every entrypoint flags its neighbourhood. */
  method MarkEntrypoints(graph: ContextGraph, files: seq<FileIntelligence>)
    requires forall f :: f in files ==> f.path in graph.contexts
    modifies graph
    ensures graph.contexts.Keys == old(graph.contexts).Keys
    ensures forall p :: p in graph.contexts ==>
      graph.contexts[p] == old(graph.contexts)[p].(onCriticalPath :=
        old(graph.contexts)[p].onCriticalPath || EntryReaches(files, |files|, old(graph.contexts), p))
  {
    ghost var start := graph.contexts;
    for i := 0 to |files|
      invariant graph.contexts.Keys == start.Keys
      invariant forall p :: p in graph.contexts ==>
        graph.contexts[p] == start[p].(onCriticalPath := start[p].onCriticalPath || EntryReaches(files, i, start, p))
    {
      if files[i].isEntrypoint {
        ReachAgrees(graph.contexts, start);
        assert files[i] in files;
        ghost var _ := graph.MarkCriticalPathBfs(files[i].path, DEPTH_CAP);
      }
    }
  }

  // ---------------------------------------------------------------------------
  // The whole build
  // ---------------------------------------------------------------------------

  ghost predicate ConfirmedEdge(edges: seq<DependencyEdge>, p: Path, q: Path) {
    exists e :: e in edges && e.Confirmed? && e.source == p && e.target == q
  }

  /** Dependency lists hold exactly the confirmed edges. */
  ghost predicate ListsConfirmedEdges(contexts: Contexts, edges: seq<DependencyEdge>) {
    forall p, q :: Imports(contexts, p, q) <==> ConfirmedEdge(edges, p, q)
  }

  /** Callers are the duplicate-free transpose of the dependency lists, and are counted right. */
  ghost predicate CallersTransposed(contexts: Contexts) {
    forall q :: q in contexts ==>
      && NoDuplicates(contexts[q].downstream)
      && NoDuplicates(contexts[q].upstream)
      && (forall p :: p in contexts[q].upstream <==> Imports(contexts, p, q))
      && contexts[q].callerCount == |contexts[q].upstream|
  }

  ghost predicate FlaggedByEntrypoints(contexts: Contexts, files: seq<FileIntelligence>) {
    forall p :: p in contexts ==> (contexts[p].onCriticalPath <==> EntryReaches(files, |files|, contexts, p))
  }

  /** Builds the contexts, edges and confidence of a scan. */
  method BuildCodeContexts(files: seq<FileIntelligence>, config: ScanConfig)
      returns (graph: ContextGraph, edges: seq<DependencyEdge>, confidence: real)
    requires DistinctPaths(files)
    ensures fresh(graph)
    ensures edges == GraphEdges(files, |files|, EnvOf(files, config))
    ensures graph.contexts.Keys == set f | f in files :: f.path
    ensures ListsConfirmedEdges(graph.contexts, edges)
    ensures CallersTransposed(graph.contexts)
    ensures FlaggedByEntrypoints(graph.contexts, files)
    ensures confidence == Confidence(ConfirmedCount(edges), StaticCount(edges))
    ensures 0.0 <= confidence <= 1.0
  {
    hide Linked, Unlinked, ListsConfirmedEdges, CallersTransposed, FlaggedByEntrypoints, EntryReaches, FileContext,
      Confidence, DistinctPaths;
    var index := BuildFileIndex(files);
    var env := Env(index, set f | f in files :: f.path, config);
    graph := new ContextGraph();
    var confirmed, total;
    edges, confirmed, total := ResolveAll(graph, files, env);
    ghost var resolved := graph.contexts;
    ResolvedContexts(resolved, files, env);
    LinkCallers(graph, files);
    ghost var linked := graph.contexts;
    LinkedContexts(resolved, linked, files);
    MarkEntrypoints(graph, files);
    FlaggedContexts(linked, graph.contexts, files);
    SameLists(resolved, linked, edges);
    SameLists(linked, graph.contexts, edges);
    confidence := Confidence(confirmed, total);
    ConfidenceBounds(edges);
  }

  ghost predicate Resolved(contexts: Contexts, files: seq<FileIntelligence>, env: Env) {
    && contexts.Keys == (set f | f in files :: f.path)
    && forall f :: f in files ==> contexts[f.path] == FileContext(f, env)
  }

  lemma {:induction false} TargetsExact(edges: seq<DependencyEdge>)
    ensures forall q :: q in Targets(edges) <==> exists e :: e in edges && e.Confirmed? && e.target == q
  {
    if edges != [] {
      var init, e := edges[..|edges| - 1], edges[|edges| - 1];
      TargetsExact(init);
      assert edges == init + [e];
    }
  }

  lemma {:induction false} FileEdgeSources(file: FileIntelligence, n: nat, env: Env)
    requires n <= |file.imports|
    ensures forall e :: e in FileEdges(file, n, env) ==>
      e.source == file.path && (e.Confirmed? ==> e.target in env.known && e.target != file.path)
  {
    hide Resolve, IsExternal, IsMemberImport, UnresolvedReason;
    if n > 0 {
      FileEdgeSources(file, n - 1, env);
    }
  }

  lemma {:induction false} GraphEdgesOf(files: seq<FileIntelligence>, n: nat, env: Env, e: DependencyEdge)
    requires n <= |files|
    ensures e in GraphEdges(files, n, env)
      <==> exists k :: 0 <= k < n && e in FileEdges(files[k], |files[k].imports|, env)
  {
    hide FileEdges;
    if n > 0 {
      GraphEdgesOf(files, n - 1, env, e);
    }
  }

  /** A confirmed edge joins two different scanned files. */
  lemma ConfirmedEdgesScanned(files: seq<FileIntelligence>, config: ScanConfig, p: Path, q: Path)
    requires ConfirmedEdge(GraphEdges(files, |files|, EnvOf(files, config)), p, q)
    ensures p != q && (exists f :: f in files && f.path == p) && (exists f :: f in files && f.path == q)
  {
    hide FileEdges, GraphEdges;
    var env := EnvOf(files, config);
    var e :| e in GraphEdges(files, |files|, env) && e.Confirmed? && e.source == p && e.target == q;
    GraphEdgesOf(files, |files|, env, e);
    var k :| 0 <= k < |files| && e in FileEdges(files[k], |files[k].imports|, env);
    FileEdgeSources(files[k], |files[k].imports|, env);
  }

  lemma ResolvedContexts(contexts: Contexts, files: seq<FileIntelligence>, env: Env)
    requires DistinctPaths(files) && Resolved(contexts, files, env)
    ensures Unlinked(contexts)
    ensures ListsConfirmedEdges(contexts, GraphEdges(files, |files|, env))
    ensures forall p :: p in contexts ==> (contexts[p].onCriticalPath <==> IsEntrypoint(files, p))
  {
    forall q | q in contexts
      ensures contexts[q].upstream == [] && contexts[q].callerCount == 0 && NoDuplicates(contexts[q].downstream)
    {
      var f :| f in files && f.path == q;
      FirstOccurrencesExact(Targets(FileEdges(f, |f.imports|, env)));
    }
    forall p, q
      ensures Imports(contexts, p, q) <==> ConfirmedEdge(GraphEdges(files, |files|, env), p, q)
    {
      ImportsAreEdges(contexts, files, env, p, q);
    }
  }

  lemma ImportsAreEdges(contexts: Contexts, files: seq<FileIntelligence>, env: Env, p: Path, q: Path)
    requires DistinctPaths(files) && Resolved(contexts, files, env)
    ensures Imports(contexts, p, q) <==> ConfirmedEdge(GraphEdges(files, |files|, env), p, q)
  {
    hide GraphEdges, FileEdges, Targets, FirstOccurrences;
    var edges := GraphEdges(files, |files|, env);
    if Imports(contexts, p, q) {
      var k :| 0 <= k < |files| && files[k].path == p;
      var own := FileEdges(files[k], |files[k].imports|, env);
      assert files[k] in files;
      FirstOccurrencesExact(Targets(own));
      TargetsExact(own);
      var e :| e in own && e.Confirmed? && e.target == q;
      FileEdgeSources(files[k], |files[k].imports|, env);
      GraphEdgesOf(files, |files|, env, e);
    }
    if ConfirmedEdge(edges, p, q) {
      var e :| e in edges && e.Confirmed? && e.source == p && e.target == q;
      GraphEdgesOf(files, |files|, env, e);
      var k :| 0 <= k < |files| && e in FileEdges(files[k], |files[k].imports|, env);
      assert files[k] in files;
      FileEdgeSources(files[k], |files[k].imports|, env);
      TargetsExact(FileEdges(files[k], |files[k].imports|, env));
      FirstOccurrencesExact(Targets(FileEdges(files[k], |files[k].imports|, env)));
    }
  }

  lemma SameLists(a: Contexts, b: Contexts, edges: seq<DependencyEdge>)
    requires SameDependencies(a, b) && ListsConfirmedEdges(a, edges)
    ensures ListsConfirmedEdges(b, edges)
  {
    forall p, q
      ensures Imports(b, p, q) <==> ConfirmedEdge(edges, p, q)
    {
      assert Imports(a, p, q) <==> ConfirmedEdge(edges, p, q);
    }
  }

  lemma LinkedContexts(start: Contexts, now: Contexts, files: seq<FileIntelligence>)
    requires DistinctPaths(files) && Unlinked(start) && Linked(start, now, files, |files|, 0)
    requires start.Keys == set f | f in files :: f.path
    ensures SameDependencies(start, now) && CallersTransposed(now)
    ensures forall p :: p in now ==> now[p].onCriticalPath == start[p].onCriticalPath
  {
    forall q | q in now
      ensures NoDuplicates(now[q].upstream) && forall p :: p in now[q].upstream <==> Imports(now, p, q)
    {
      CallersExact(start, files, |files|, q);
      forall p | Imports(start, p, q)
        ensures exists k :: 0 <= k < |files| && files[k].path == p
      {
        var f :| f in files && f.path == p;
      }
    }
  }

  /** Flags change nothing else, and the entrypoints' own initial flags are reached in no hops. */
  lemma FlaggedContexts(start: Contexts, now: Contexts, files: seq<FileIntelligence>)
    requires now.Keys == start.Keys
    requires forall p :: p in now ==>
      now[p] == start[p].(onCriticalPath := start[p].onCriticalPath || EntryReaches(files, |files|, start, p))
    requires forall p :: p in start ==> (start[p].onCriticalPath <==> IsEntrypoint(files, p))
    requires CallersTransposed(start)
    ensures CallersTransposed(now) && FlaggedByEntrypoints(now, files) && SameDependencies(start, now)
  {
    ReachAgrees(start, now);
    forall p | p in start && start[p].onCriticalPath
      ensures EntryReaches(files, |files|, start, p)
    {
      var k :| 0 <= k < |files| && files[k].isEntrypoint && files[k].path == p;
      WalkStart(start, p);
      assert ReachesWithin(start, p, p, 2);
    }
    assert forall p, q :: Imports(start, p, q) == Imports(now, p, q);
  }

  /** The critical path depends on the confirmed edges and on the set of entrypoints only:
      neither the order of the files nor anything else about them matters. */
  lemma CriticalPathOrderFree(a: Contexts, filesA: seq<FileIntelligence>, b: Contexts, filesB: seq<FileIntelligence>,
                              p: Path)
    requires FlaggedByEntrypoints(a, filesA) && FlaggedByEntrypoints(b, filesB)
    requires forall x, y :: Imports(a, x, y) == Imports(b, x, y)
    requires forall x :: IsEntrypoint(filesA, x) == IsEntrypoint(filesB, x)
    requires p in a && p in b
    ensures a[p].onCriticalPath == b[p].onCriticalPath
  {
    if a[p].onCriticalPath {
      FlagCarriesOver(a, filesA, b, filesB, p);
    }
    if b[p].onCriticalPath {
      FlagCarriesOver(b, filesB, a, filesA, p);
    }
  }

  lemma FlagCarriesOver(a: Contexts, filesA: seq<FileIntelligence>, b: Contexts, filesB: seq<FileIntelligence>, p: Path)
    requires EntryReaches(filesA, |filesA|, a, p)
    requires forall x, y :: Imports(a, x, y) == Imports(b, x, y)
    requires forall x :: IsEntrypoint(filesA, x) ==> IsEntrypoint(filesB, x)
    ensures EntryReaches(filesB, |filesB|, b, p)
  {
    var k :| 0 <= k < |filesA| && filesA[k].isEntrypoint && ReachesWithin(a, filesA[k].path, p, 2);
    var src := filesA[k].path;
    assert IsEntrypoint(filesA, src);
    var f :| f in filesB && f.isEntrypoint && f.path == src;
    var j :| 0 <= j < |filesB| && filesB[j] == f;
    var hops: nat :| hops <= 2 && WalkOf(a, src, p, hops);
    WalksAgree(a, b, src, p, hops);
  }

  // ---------------------------------------------------------------------------
  // Edge accounting
  // ---------------------------------------------------------------------------

  /** How many imports met each fate. */
  datatype Tally = Tally(suppressed: nat, external: nat, hits: nat, misses: nat) {
    function Total(): nat {
      suppressed + external + hits + misses
    }

    function Add(o: ImportOutcome): Tally {
      match o
      case Suppressed => this.(suppressed := suppressed + 1)
      case External => this.(external := external + 1)
      case Hit(_) => this.(hits := hits + 1)
      case Miss(_) => this.(misses := misses + 1)
    }

    function Plus(t: Tally): Tally {
      Tally(suppressed + t.suppressed, external + t.external, hits + t.hits, misses + t.misses)
    }
  }

  function FileTally(file: FileIntelligence, n: nat, env: Env): Tally
    requires n <= |file.imports|
  {
    if n == 0 then Tally(0, 0, 0, 0) else FileTally(file, n - 1, env).Add(Outcome(file, file.imports[n - 1], env))
  }

  function GraphTally(files: seq<FileIntelligence>, n: nat, env: Env): Tally
    requires n <= |files|
  {
    if n == 0 then Tally(0, 0, 0, 0)
    else GraphTally(files, n - 1, env).Plus(FileTally(files[n - 1], |files[n - 1].imports|, env))
  }

  function ImportCount(files: seq<FileIntelligence>): nat {
    if files == [] then 0 else ImportCount(files[..|files| - 1]) + |files[|files| - 1].imports|
  }

  /** The tally covers `n` imports and agrees with the edges they left. */
  ghost predicate Accounts(t: Tally, edges: seq<DependencyEdge>, n: nat) {
    t.Total() == n && |edges| == t.hits + t.misses && ConfirmedCount(edges) == t.hits
  }

  lemma AccountsStep(t: Tally, edges: seq<DependencyEdge>, n: nat, o: ImportOutcome, own: seq<DependencyEdge>)
    requires Accounts(t, edges, n)
    requires |own| == (if o.Hit? || o.Miss? then 1 else 0) && ConfirmedCount(own) == (if o.Hit? then 1 else 0)
    ensures Accounts(t.Add(o), edges + own, n + 1)
  {
    hide ConfirmedCount;
    CountsConcat(edges, own);
  }

  lemma {:induction false} FileAccounting(file: FileIntelligence, n: nat, env: Env)
    requires n <= |file.imports|
    ensures Accounts(FileTally(file, n, env), FileEdges(file, n, env), n)
  {
    hide EdgeOf, Outcome, Accounts;
    if n == 0 {
      assert Accounts(Tally(0, 0, 0, 0), [], 0) by { NothingAccounts(); }
    } else {
      var imp := file.imports[n - 1];
      FileAccounting(file, n - 1, env);
      EdgeAccounting(file, imp, env);
      AccountsStep(FileTally(file, n - 1, env), FileEdges(file, n - 1, env), n - 1, Outcome(file, imp, env),
        EdgeOf(file, imp, env));
    }
  }

  lemma NothingAccounts()
    ensures Accounts(Tally(0, 0, 0, 0), [], 0)
  {
  }

  lemma EdgeAccounting(file: FileIntelligence, imp: string, env: Env)
    ensures var o, edge := Outcome(file, imp, env), EdgeOf(file, imp, env);
      && |edge| == (if o.Hit? || o.Miss? then 1 else 0)
      && ConfirmedCount(edge) == (if o.Hit? then 1 else 0)
  {
    hide Outcome;
  }

  /** Every import meets exactly one fate, each confirmed or unresolved one leaves one edge,
      and no edge comes from anywhere else. */
  lemma {:induction false} GraphAccounting(files: seq<FileIntelligence>, n: nat, env: Env)
    requires n <= |files|
    ensures var t, edges := GraphTally(files, n, env), GraphEdges(files, n, env);
      && t.suppressed + t.external + t.hits + t.misses == ImportCount(files[..n])
      && |edges| == t.hits + t.misses
      && ConfirmedCount(edges) == t.hits
  {
    hide FileTally, FileEdges;
    if n > 0 {
      GraphAccounting(files, n - 1, env);
      assert files[..n][..n - 1] == files[..n - 1];
      FileAccounting(files[n - 1], |files[n - 1].imports|, env);
      CountsConcat(GraphEdges(files, n - 1, env), FileEdges(files[n - 1], |files[n - 1].imports|, env));
    }
  }
}
