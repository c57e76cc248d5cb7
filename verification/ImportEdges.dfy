/** Which edge an import leaves, told from the way the import is written. */
module ImportEdges {
  import opened CodeContexts
  import opened PythonImports
  import opened Repository
  import opened Text
  import opened TsImports
  import opened Wrappers

  // ---------------------------------------------------------------------------
  // External roots
  // ---------------------------------------------------------------------------

  lemma HeadAlone(head: string, tail: string, sep: char)
    requires Free(head, sep) && (tail == "" || tail[0] == sep)
    ensures Split(head + tail, sep)[0] == head
  {
    SplitHead(head, tail, sep);
    assert head + "" == head;
  }

  lemma SplitStart(s: string, sep: char)
    ensures Split(s, sep)[0] == "" || (s != "" && s[0] != sep && Split(s, sep)[0][0] == s[0])
  {
  }

  /** The text before the first dot or slash, leading dots aside, decides whether an import is
      external. */
  lemma RootDecides(n: nat, head: string, tail: string, config: ScanConfig)
    requires head != "" && Free(head, '.') && Free(head, '/') && head[0] != '@'
    requires tail == "" || tail[0] == '.' || tail[0] == '/'
    ensures IsExternal(Repeat('.', n) + head + tail, config) <==> Lower(head) in config.externalRoots
  {
    hide Split, LeadingCount, Lower;
    var s := head + tail;
    assert Repeat('.', n) + head + tail == Repeat('.', n) + s;
    assert s[0] == head[0] != '.';
    StripRepeated('.', n, s);
    SplitHead(head, tail, '.');
    var rest := Split(tail, '.')[0];
    SplitStart(tail, '.');
    HeadAlone(head, rest, '/');
    assert head[..1] == [head[0]];
  }

  /** A scoped import is external by its scope, dots inside the scope included. */
  lemma ScopeDecides(scope: string, tail: string, config: ScanConfig)
    requires Free(scope, '/') && (tail == "" || tail[0] == '/')
    ensures IsExternal("@" + scope + tail, config) <==> Lower("@" + scope) in config.externalRoots
  {
    hide Split, LeadingCount, Lower;
    var s := "@" + scope + tail;
    assert s[0] == '@' && Repeat('.', 0) + s == s;
    StripRepeated('.', 0, s);
    HeadAlone("@" + scope, tail, '/');
    SplitHead("@", scope + tail, '.');
    assert s == "@" + (scope + tail);
    var first := Split(s, '.')[0];
    assert first[0] == '@';
    SplitHead("@", first[1..], '/');
    assert first == "@" + first[1..];
    assert Split(first, '/')[0][..1] == "@";
  }

  // ---------------------------------------------------------------------------
  // Members of a module
  // ---------------------------------------------------------------------------

  /** What a dotted import is a member of: the text before its last dot. */
  lemma MemberExact(file: FileIntelligence, scope: string, name: string, env: Env)
    requires Free(name, '.')
    ensures IsMemberImport(file, scope + "." + name, env) <==>
      && file.language == Python && scope != "" && scope[0] != '.'
      && ResolvePython(scope, file.path, env.index).Some?
  {
    hide Split, ResolvePython;
    var imp := scope + "." + name;
    SplitSnoc(scope, name, '.');
    assert imp == scope + ['.'] + name;
    assert (Split(scope, '.') + [name])[..|Split(scope, '.')|] == Split(scope, '.');
    JoinOfSplit(scope, '.');
    assert Parent(imp) == scope;
    assert imp[|scope|] == '.';
    assert scope != "" ==> imp[0] == scope[0] && imp[..1] == [imp[0]];
  }

  lemma NoDotNoMember(file: FileIntelligence, imp: string, env: Env)
    requires Free(imp, '.')
    ensures !IsMemberImport(file, imp, env)
  {
  }

  // ---------------------------------------------------------------------------
  // Edges of one import
  // ---------------------------------------------------------------------------

  /** How many edges were left by an import text. */
  function RawCount(edges: seq<DependencyEdge>, imp: string): nat {
    if edges == [] then 0
    else RawCount(edges[..|edges| - 1], imp) + if edges[|edges| - 1].rawImport == imp then 1 else 0
  }

  lemma RawAppend(edges: seq<DependencyEdge>, e: DependencyEdge, imp: string)
    ensures RawCount(edges + [e], imp) == RawCount(edges, imp) + if e.rawImport == imp then 1 else 0
  {
    assert (edges + [e])[..|edges|] == edges;
  }

  lemma OwnEdge(file: FileIntelligence, imp: string, env: Env)
    ensures OneOf(EdgeOf(file, imp, env), imp)
  {
    hide Outcome;
  }

  lemma CountLast(imports: seq<string>, n: nat, imp: string)
    requires 0 < n <= |imports|
    ensures multiset(imports[..n])[imp] == multiset(imports[..n - 1])[imp] + if imports[n - 1] == imp then 1 else 0
  {
    assert imports[..n] == imports[..n - 1] + [imports[n - 1]];
  }

  /** At most one edge, and it has the text. */
  predicate OneOf(own: seq<DependencyEdge>, text: string) {
    |own| <= 1 && forall e :: e in own ==> e.rawImport == text
  }

  lemma RawWithOwn(edges: seq<DependencyEdge>, own: seq<DependencyEdge>, text: string, imp: string)
    requires OneOf(own, text)
    ensures RawCount(edges + own, imp) == RawCount(edges, imp) + if own != [] && text == imp then 1 else 0
  {
    if own == [] {
      assert edges + own == edges;
    } else {
      assert own == [own[0]];
      RawAppend(edges, own[0], imp);
    }
  }

  lemma {:induction false} EdgesCounted(file: FileIntelligence, n: nat, imp: string, env: Env)
    requires n <= |file.imports|
    ensures RawCount(FileEdges(file, n, env), imp) ==
      if EdgeOf(file, imp, env) == [] then 0 else multiset(file.imports[..n])[imp]
  {
    hide EdgeOf;
    if n > 0 {
      hide RawCount;
      EdgesCounted(file, n - 1, imp, env);
      CountLast(file.imports, n, imp);
      OwnEdge(file, file.imports[n - 1], env);
      RawWithOwn(FileEdges(file, n - 1, env), EdgeOf(file, file.imports[n - 1], env), file.imports[n - 1], imp);
    }
  }

  lemma {:induction false} EdgesAreOwn(file: FileIntelligence, n: nat, imp: string, env: Env, e: DependencyEdge)
    requires n <= |file.imports| && e in FileEdges(file, n, env) && e.rawImport == imp
    ensures EdgeOf(file, imp, env) == [e]
  {
    hide EdgeOf;
    if n > 0 {
      var own := EdgeOf(file, file.imports[n - 1], env);
      OwnEdge(file, file.imports[n - 1], env);
      if e in FileEdges(file, n - 1, env) {
        EdgesAreOwn(file, n - 1, imp, env, e);
      } else {
        assert e in own;
        assert own == [e];
      }
    }
  }

  /** Each occurrence of `imp` in the file left one edge, and it is `e`. */
  ghost predicate Leaves(file: FileIntelligence, imp: string, env: Env, e: DependencyEdge) {
    var edges := FileEdges(file, |file.imports|, env);
    && RawCount(edges, imp) == multiset(file.imports)[imp]
    && forall x :: x in edges && x.rawImport == imp ==> x == e
  }

  ghost predicate LeavesNothing(file: FileIntelligence, imp: string, env: Env) {
    RawCount(FileEdges(file, |file.imports|, env), imp) == 0
  }

  lemma Fate(file: FileIntelligence, imp: string, env: Env)
    ensures match Outcome(file, imp, env)
      case Hit(target) => Leaves(file, imp, env, Confirmed(file.path, target, imp))
      case Miss(reason) => Leaves(file, imp, env, Unresolved(file.path, imp, reason))
      case Suppressed => LeavesNothing(file, imp, env)
      case External => LeavesNothing(file, imp, env)
  {
    hide Outcome, FileEdges, RawCount;
    EdgesCounted(file, |file.imports|, imp, env);
    assert file.imports[..|file.imports|] == file.imports;
    forall e | e in FileEdges(file, |file.imports|, env) && e.rawImport == imp
      ensures EdgeOf(file, imp, env) == [e]
    {
      EdgesAreOwn(file, |file.imports|, imp, env, e);
    }
  }

  /** What an import finds decides first: another scanned file leaves a confirmed edge to it. */
  lemma FoundLeavesConfirmed(file: FileIntelligence, imp: string, env: Env, target: FilePath)
    requires Resolve(file, imp, env) == Some(target) && target in env.known && target != file.path
    ensures Leaves(file, imp, env, Confirmed(file.path, target, imp))
  {
    hide FileEdges;
    Fate(file, imp, env);
  }

  /** A name imported from a scanned module leaves nothing. */
  lemma MemberLeavesNothing(file: FileIntelligence, scope: string, name: string, env: Env)
    requires file.language == Python && Free(name, '.') && scope != "" && scope[0] != '.'
    requires ResolvePython(scope + "." + name, file.path, env.index).None?
    requires ResolvePython(scope, file.path, env.index).Some?
    ensures LeavesNothing(file, scope + "." + name, env)
  {
    hide FileEdges, ResolvePython, IsMemberImport;
    MemberExact(file, scope, name, env);
    Fate(file, scope + "." + name, env);
  }

  /** An import that finds nothing and is no member leaves nothing exactly when its root is in
      the table of external packages, and else one unresolved edge per occurrence. */
  lemma RootLeaves(file: FileIntelligence, n: nat, head: string, tail: string, env: Env)
    requires head != "" && Free(head, '.') && Free(head, '/') && head[0] != '@'
    requires tail == "" || tail[0] == '.' || tail[0] == '/'
    requires var imp := Repeat('.', n) + head + tail; Resolve(file, imp, env).None? && !IsMemberImport(file, imp, env)
    ensures var imp := Repeat('.', n) + head + tail;
      if Lower(head) in env.config.externalRoots then LeavesNothing(file, imp, env)
      else Leaves(file, imp, env, Unresolved(file.path, imp, UnresolvedReason(imp, file.language, env.config)))
  {
    hide FileEdges, Resolve, IsMemberImport, IsExternal, UnresolvedReason;
    RootDecides(n, head, tail, env.config);
    Fate(file, Repeat('.', n) + head + tail, env);
  }

  lemma ScopeLeaves(file: FileIntelligence, scope: string, tail: string, env: Env)
    requires Free(scope, '/') && (tail == "" || tail[0] == '/')
    requires var imp := "@" + scope + tail; Resolve(file, imp, env).None? && !IsMemberImport(file, imp, env)
    ensures var imp := "@" + scope + tail;
      if Lower("@" + scope) in env.config.externalRoots then LeavesNothing(file, imp, env)
      else Leaves(file, imp, env, Unresolved(file.path, imp, UnresolvedReason(imp, file.language, env.config)))
  {
    hide FileEdges, Resolve, IsMemberImport, IsExternal, UnresolvedReason;
    ScopeDecides(scope, tail, env.config);
    Fate(file, "@" + scope + tail, env);
  }

  // ---------------------------------------------------------------------------
  // Languages
  // ---------------------------------------------------------------------------

  /** JavaScript files are resolved as TypeScript files are. */
  lemma ScriptsAlike(file: FileIntelligence, imp: string, env: Env)
    requires file.language == TypeScript
    ensures EdgeOf(file.(language := JavaScript), imp, env) == EdgeOf(file, imp, env)
  {
    hide ResolveTs, IsExternal, Contains, StripRight;
  }

  /** Files of other languages depend on nothing. */
  lemma {:induction false} OthersConfirmNothing(file: FileIntelligence, n: nat, env: Env)
    requires file.language == Other && n <= |file.imports|
    ensures forall e :: e in FileEdges(file, n, env) ==> e.Unresolved?
  {
    hide IsExternal, UnresolvedReason;
    if n > 0 {
      OthersConfirmNothing(file, n - 1, env);
    }
  }

  /** A Python file that imports a module of the scan by its path depends on it. */
  lemma ModuleImportConfirmed(files: seq<FileIntelligence>, file: FileIntelligence, k: nat, components: seq<string>,
                              config: ScanConfig)
    requires AllPython(files) && DistinctDotted(files) && k < |files| && file in files
    requires components != [] && forall c :: c in components ==> Component(c)
    requires files[k].path == ModuleFile([], components) && files[k].path != file.path
    ensures Leaves(file, Join(components, '.'), EnvOf(files, config),
      Confirmed(file.path, files[k].path, Join(components, '.')))
  {
    hide FileEdges, ResolvePython, IndexOf;
    AbsoluteModuleResolves(files, file.path, k, components);
    assert files[k] in files;
    FoundLeavesConfirmed(file, Join(components, '.'), EnvOf(files, config), files[k].path);
  }

  /** A script that imports another by its relative path depends on it. */
  lemma WrittenImportConfirmed(files: seq<FileIntelligence>, file: FileIntelligence, k: nat, n: nat, rest: FilePath,
                               config: ScanConfig)
    requires AllTs(files) && DistinctStems(files) && k < |files| && file in files
    requires ApplyAliases(RelativeText(n, rest), config.aliases) == RelativeText(n, rest)
    requires PlainPath(rest) && ".." !in Dir(file.path) && Suffix(Name(rest)) == ""
    requires PartsNoExt(files[k].path) == Up(Dir(file.path), n) + rest && files[k].path != file.path
    ensures Leaves(file, RelativeText(n, rest), EnvOf(files, config),
      Confirmed(file.path, files[k].path, RelativeText(n, rest)))
  {
    hide FileEdges, ResolveTs, IndexOf, RelativeText, ApplyAliases, PlainPath, Suffix;
    WrittenImportResolves(files, k, file.path, n, rest, config.aliases);
    assert files[k] in files;
    FoundLeavesConfirmed(file, RelativeText(n, rest), EnvOf(files, config), files[k].path);
  }

  // ---------------------------------------------------------------------------
  // Reasons
  // ---------------------------------------------------------------------------

  /** The text is written around one of the patterns of a computed import. */
  ghost predicate Computed(imp: string) {
    exists a, b ::
      || imp == a + "importlib" + b || imp == a + "__import__" + b || imp == a + "import_module" + b
      || imp == a + "${" + b || imp == a + "` +" + b
  }

  lemma ReasonDynamic(imp: string, language: Language, config: ScanConfig)
    ensures UnresolvedReason(imp, language, config) == DynamicImport <==> Computed(imp)
  {
    hide Contains;
    forall p | p in DYNAMIC_PATTERNS
      ensures Contains(imp, p) <==> exists a, b :: imp == a + p + b
    {
      ContainsExact(imp, p);
    }
    assert DYNAMIC_PATTERNS[0] in DYNAMIC_PATTERNS && DYNAMIC_PATTERNS[1] in DYNAMIC_PATTERNS
      && DYNAMIC_PATTERNS[2] in DYNAMIC_PATTERNS && DYNAMIC_PATTERNS[3] in DYNAMIC_PATTERNS
      && DYNAMIC_PATTERNS[4] in DYNAMIC_PATTERNS;
  }

  lemma StaticPython(imp: string, config: ScanConfig)
    requires !Computed(imp)
    ensures var parts := Split(StripLeft(imp, '.'), '.');
      UnresolvedReason(imp, Python, config) ==
        if |parts| >= 2 && Lower(parts[|parts| - 1]) in config.packageDirs then AmbiguousPackageImport
        else FileNotScanned
  {
    hide Contains, Split, StripLeft, Lower, Computed;
    ReasonDynamic(imp, Python, config);
  }

  /** A Python import of two components or more that ends in the name of a package directory is
      called ambiguous, any other not scanned. */
  lemma ReasonPython(n: nat, components: seq<string>, config: ScanConfig)
    requires components != [] && forall c :: c in components ==> Component(c)
    requires !Computed(Repeat('.', n) + Join(components, '.'))
    ensures UnresolvedReason(Repeat('.', n) + Join(components, '.'), Python, config) ==
      if |components| >= 2 && Lower(components[|components| - 1]) in config.packageDirs then AmbiguousPackageImport
      else FileNotScanned
  {
    hide UnresolvedReason, Computed, Split, StripLeft, Lower, Repeat;
    var text := Join(components, '.');
    StaticPython(Repeat('.', n) + text, config);
    assert Component(components[0]);
    assert text[0] == components[0][0];
    StripRepeated('.', n, text);
    SplitOfJoin(components, '.');
  }

  /** Some configured prefix, its `*` dropped but not its slash, begins the import. */
  ghost predicate AliasKnown(imp: string, config: ScanConfig) {
    exists a, rest :: a in config.aliases && imp == StripRight(a.prefix, '*') + rest
  }

  lemma AliasKnownExact(imp: string, config: ScanConfig)
    ensures AliasKnown(imp, config) <==> exists a :: a in config.aliases && StartsWith(imp, StripRight(a.prefix, '*'))
  {
    hide StripRight, StartsWith;
    if a, rest :| a in config.aliases && imp == StripRight(a.prefix, '*') + rest {
      BeginsExact(imp, StripRight(a.prefix, '*'));
    }
    if a :| a in config.aliases && StartsWith(imp, StripRight(a.prefix, '*')) {
      BeginsExact(imp, StripRight(a.prefix, '*'));
    }
  }

  /** A script import is an unknown alias exactly when it starts with `@` and no configured
      prefix begins it. */
  lemma ReasonScript(imp: string, language: Language, config: ScanConfig)
    requires language == TypeScript || language == JavaScript
    requires !Computed(imp)
    ensures UnresolvedReason(imp, language, config) ==
      if (exists rest :: imp == "@" + rest) && !AliasKnown(imp, config) then AliasUnknown else FileNotScanned
  {
    hide Computed, Contains, StripRight, StartsWith, AliasKnown;
    ReasonDynamic(imp, language, config);
    BeginsExact(imp, "@");
    AliasKnownExact(imp, config);
  }

  lemma BeginsExact(s: string, prefix: string)
    ensures StartsWith(s, prefix) <==> exists rest :: s == prefix + rest
  {
    if StartsWith(s, prefix) {
      assert s == prefix + s[|prefix|..];
    }
  }
}
