/** The file index and the resolver for Python imports. */
module PythonImports {
  import opened Repository
  import opened Text
  import opened Wrappers

  type FileIndex = map<string, FilePath>

  // ---------------------------------------------------------------------------
  // The index
  // ---------------------------------------------------------------------------

  /** Path segments with the extension of the file name dropped. */
  function PartsNoExt(path: FilePath): FilePath {
    Dir(path) + [Stem(Name(path))]
  }

  /** The dotted name made of the segments from `j` on. */
  function SuffixKey(path: FilePath, j: nat): string
    requires j < |path|
  {
    Join(PartsNoExt(path)[j..], '.')
  }

  function Dotted(path: FilePath): string {
    SuffixKey(path, 0)
  }

  /** `key` names the file by a run of its last segments. */
  ghost predicate Carries(path: FilePath, key: string) {
    exists j: nat :: j < |path| && key == SuffixKey(path, j)
  }

  function AddIfAbsent(index: FileIndex, key: string, path: FilePath): FileIndex {
    if key in index then index else index[key := path]
  }

  /** Keys of the suffixes before `n`, each added only where no key stood. */
  function WithSuffixes(index: FileIndex, path: FilePath, n: nat): FileIndex
    requires n <= |path|
  {
    if n == 0 then index else AddIfAbsent(WithSuffixes(index, path, n - 1), SuffixKey(path, n - 1), path)
  }

  function WithPythonFile(index: FileIndex, path: FilePath): FileIndex {
    AddIfAbsent(WithSuffixes(index[Dotted(path) := path], path, |path|), Stem(Name(path)), path)
  }

  /** Slash-joined path without extension, the key TypeScript lookups use. */
  function StemPath(path: FilePath): string {
    Join(PartsNoExt(path), '/')
  }

  function WithTsFile(index: FileIndex, path: FilePath): FileIndex {
    var key := StemPath(path);
    AddIfAbsent(index[key := path]["./" + key := path]["/" + key := path], Stem(Name(path)), path)
  }

  function WithFile(index: FileIndex, file: FileIntelligence): FileIndex {
    match file.language
    case Python => WithPythonFile(index, file.path)
    case TypeScript => WithTsFile(index, file.path)
    case JavaScript => WithTsFile(index, file.path)
    case Other => index
  }

  function IndexOf(files: seq<FileIntelligence>): FileIndex {
    if files == [] then map[] else WithFile(IndexOf(files[..|files| - 1]), files[|files| - 1])
  }

  method BuildFileIndex(files: seq<FileIntelligence>) returns (index: FileIndex)
    ensures index == IndexOf(files)
  {
    index := map[];
    for k := 0 to |files|
      invariant index == IndexOf(files[..k])
    {
      ghost var before := index;
      var file := files[k];
      var path := file.path;
      if file.language == Python {
        var parts := PartsNoExt(path);
        index := index[Join(parts, '.') := path];
        for i := 0 to |parts|
          invariant index == WithSuffixes(before[Dotted(path) := path], path, i)
        {
          var key := Join(parts[i..], '.');
          if key !in index {
            index := index[key := path];
          }
        }
        if Stem(Name(path)) !in index {
          index := index[Stem(Name(path)) := path];
        }
      } else if file.language == TypeScript || file.language == JavaScript {
        var key := StemPath(path);
        index := index[key := path];
        index := index["./" + key := path];
        index := index["/" + key := path];
        if Stem(Name(path)) !in index {
          index := index[Stem(Name(path)) := path];
        }
      }
      assert files[..k + 1][..k] == files[..k];
    }
    assert files[..|files|] == files;
  }

  ghost predicate AllPython(files: seq<FileIntelligence>) {
    forall f :: f in files ==> f.language == Python
  }

  /** Two files of the list never share a dotted name. */
  ghost predicate DistinctDotted(files: seq<FileIntelligence>) {
    forall i, j :: 0 <= i < j < |files| ==> Dotted(files[i].path) != Dotted(files[j].path)
  }

  /** The three keys a script writes whatever stood there. */
  predicate PathKey(key: string, path: FilePath) {
    var s := StemPath(path);
    key == s || key == "./" + s || key == "/" + s
  }

  /** A key of the file that it writes over whatever stood there. */
  predicate Writes(file: FileIntelligence, key: string) {
    match file.language
    case Python => key == Dotted(file.path)
    case TypeScript => PathKey(key, file.path)
    case JavaScript => PathKey(key, file.path)
    case Other => false
  }

  /** A key of the file, written over another or added where none stood. */
  ghost predicate Answers(file: FileIntelligence, key: string) {
    match file.language
    case Python => Carries(file.path, key)
    case TypeScript => PathKey(key, file.path) || key == Stem(Name(file.path))
    case JavaScript => PathKey(key, file.path) || key == Stem(Name(file.path))
    case Other => false
  }

  ghost predicate Answered(files: seq<FileIntelligence>, key: string) {
    exists j :: 0 <= j < |files| && Answers(files[j], key)
  }

  ghost predicate NoWriter(files: seq<FileIntelligence>, key: string, from: int) {
    forall j :: 0 <= from <= j < |files| ==> !Writes(files[j], key)
  }

  /** The key leads to file `i`: the last one that writes it or, when no file does, the first
      one that answers to it. */
  ghost predicate LeadsTo(files: seq<FileIntelligence>, key: string, i: int) {
    && 0 <= i < |files| && Answers(files[i], key)
    && if Writes(files[i], key) then NoWriter(files, key, i + 1)
       else NoWriter(files, key, 0) && forall j :: 0 <= j < i ==> !Answers(files[j], key)
  }

  lemma {:induction false} SuffixKeys(index: FileIndex, path: FilePath, n: nat, key: string)
    requires n <= |path|
    ensures var r := WithSuffixes(index, path, n);
      && (key in r <==> key in index || exists j: nat :: j < n && key == SuffixKey(path, j))
      && (key in r ==> r[key] == if key in index then index[key] else path)
  {
    if n > 0 {
      SuffixKeys(index, path, n - 1, key);
    }
  }

  /** What indexing one Python file does to one key. */
  lemma PythonFileKey(index: FileIndex, path: FilePath, key: string)
    ensures var r := WithPythonFile(index, path);
      && (key in r <==> key in index || Carries(path, key))
      && (key in r ==> r[key] == if key == Dotted(path) || key !in index then path else index[key])
  {
    SuffixKeys(index[Dotted(path) := path], path, |path|, key);
    SuffixKeys(index[Dotted(path) := path], path, |path|, Stem(Name(path)));
    assert Stem(Name(path)) == SuffixKey(path, |path| - 1);
  }

  lemma CarriesOwnName(path: FilePath)
    ensures Carries(path, Dotted(path))
  {
  }

  /** What indexing one script does to one key. */
  lemma ScriptKey(index: FileIndex, path: FilePath, key: string)
    ensures var r := WithTsFile(index, path);
      && (key in r <==> key in index || PathKey(key, path) || key == Stem(Name(path)))
      && (key in r ==> r[key] == if PathKey(key, path) || key !in index then path else index[key])
  {
    hide StemPath, Stem;
  }

  lemma FileKey(index: FileIndex, file: FileIntelligence, key: string)
    ensures var r := WithFile(index, file);
      && (key in r <==> key in index || Answers(file, key))
      && (key in r ==> r[key] == if Writes(file, key) || key !in index then file.path else index[key])
    ensures Writes(file, key) ==> Answers(file, key)
  {
    hide WithPythonFile, WithTsFile, PathKey, Carries, Dotted;
    PythonFileKey(index, file.path, key);
    CarriesOwnName(file.path);
    ScriptKey(index, file.path, key);
  }

  /** The index of any list, key by key: Python files, scripts and others in any order. */
  lemma {:induction false} IndexExact(files: seq<FileIntelligence>, key: string) returns (i: nat)
    ensures key in IndexOf(files) <==> Answered(files, key)
    ensures key in IndexOf(files) ==> i < |files| && LeadsTo(files, key, i) && IndexOf(files)[key] == files[i].path
  {
    hide WithFile, Writes, Answers, LeadsTo;
    if files == [] {
      i := 0;
    } else {
      var n := |files| - 1;
      var init, last := files[..n], files[n];
      i := IndexExact(init, key);
      FileKey(IndexOf(init), last, key);
      AnsweredGrows(files, key);
      if Writes(last, key) || key !in IndexOf(init) {
        if Answers(last, key) {
          LastLeads(files, key);
        }
        i := n;
      } else {
        LeadStays(files, key, i);
      }
    }
  }

  lemma AnsweredGrows(files: seq<FileIntelligence>, key: string)
    requires files != []
    ensures Answered(files, key) <==> Answered(files[..|files| - 1], key) || Answers(files[|files| - 1], key)
  {
    hide Answers;
    var init := files[..|files| - 1];
    assert forall j :: 0 <= j < |init| ==> init[j] == files[j];
    if Answered(init, key) {
      var j :| 0 <= j < |init| && Answers(init[j], key);
      assert Answers(files[j], key);
    }
  }

  lemma WriterAnswers(file: FileIntelligence, key: string)
    requires Writes(file, key)
    ensures Answers(file, key)
  {
    FileKey(map[], file, key);
  }

  lemma LastLeads(files: seq<FileIntelligence>, key: string)
    requires files != [] && Answers(files[|files| - 1], key)
    requires Writes(files[|files| - 1], key) || !Answered(files[..|files| - 1], key)
    ensures LeadsTo(files, key, |files| - 1)
  {
    hide Writes, Answers;
    var init := files[..|files| - 1];
    if !Answered(init, key) {
      forall j | 0 <= j < |init|
        ensures !Answers(files[j], key) && !Writes(files[j], key)
      {
        assert !Answers(init[j], key);
        if Writes(files[j], key) {
          WriterAnswers(files[j], key);
        }
      }
    }
  }

  lemma LeadStays(files: seq<FileIntelligence>, key: string, i: nat)
    requires files != [] && !Writes(files[|files| - 1], key) && LeadsTo(files[..|files| - 1], key, i)
    ensures LeadsTo(files, key, i)
  {
    hide Writes, Answers;
    var init := files[..|files| - 1];
    assert forall j :: 0 <= j < |init| ==> init[j] == files[j];
  }

  /** A key leads to one place only. */
  lemma LeadUnique(files: seq<FileIntelligence>, key: string, i: int, j: int)
    requires LeadsTo(files, key, i) && LeadsTo(files, key, j)
    ensures i == j
  {
    hide Writes, Answers;
  }

  // ---------------------------------------------------------------------------
  // Absolute imports
  // ---------------------------------------------------------------------------

  /** The first indexed name among the component suffixes from `i` on. */
  function FirstHit(parts: seq<string>, index: FileIndex, i: nat): Option<FilePath>
    requires i <= |parts|
    decreases |parts| - i
  {
    if i == |parts| then None
    else if Join(parts[i..], '.') in index then Some(index[Join(parts[i..], '.')])
    else FirstHit(parts, index, i + 1)
  }

  function ResolveAbsolute(imp: string, index: FileIndex): Option<FilePath> {
    if imp in index then Some(index[imp]) else FirstHit(Split(imp, '.'), index, 0)
  }

  // ---------------------------------------------------------------------------
  // Relative imports
  // ---------------------------------------------------------------------------

  const EXTENSIONS: seq<string> := [".py", ".ts", ".js", ".tsx", ".jsx"]

  /** The directory `n` levels up; the root is its own parent. */
  function Up(dir: Path, n: nat): Path {
    if |dir| <= n then [] else dir[..|dir| - n]
  }

  method WalkUp(dir: Path, n: nat) returns (base: Path)
    ensures base == Up(dir, n)
  {
    base := dir;
    for i := 0 to n
      invariant base == Up(dir, i)
    {
      base := if base == [] then [] else base[..|base| - 1];
    }
  }

  function NonEmpty(parts: seq<string>): seq<string> {
    if parts == [] then [] else (if parts[0] == "" then [] else [parts[0]]) + NonEmpty(parts[1..])
  }

  /** The text of `candidate` with `ext` put at its end, as a path. */
  function WithExtension(candidate: Path, ext: string): FilePath {
    if candidate == [] then ["." + ext] else candidate[..|candidate| - 1] + [candidate[|candidate| - 1] + ext]
  }

  function FirstExisting(candidate: Path, exts: seq<string>, index: FileIndex): Option<FilePath> {
    if exts == [] then None
    else if WithExtension(candidate, exts[0]) in index.Values then Some(WithExtension(candidate, exts[0]))
    else FirstExisting(candidate, exts[1..], index)
  }

  /** A module file beside `candidate`, else the package file inside it. */
  function ProbeCandidate(candidate: Path, index: FileIndex): Option<FilePath> {
    var file := FirstExisting(candidate, EXTENSIONS, index);
    if file.Some? then file
    else if candidate + ["__init__.py"] in index.Values then Some(candidate + ["__init__.py"])
    else None
  }

  function RelativeCandidate(imp: string, importer: FilePath): Path
    requires StartsWith(imp, ".")
  {
    var dots := LeadingCount(imp, '.');
    var base := Up(Dir(importer), dots - 1);
    if imp[dots..] == "" then base else base + NonEmpty(Split(imp[dots..], '.'))
  }

  function ResolvePython(imp: string, importer: FilePath, index: FileIndex): Option<FilePath> {
    if StartsWith(imp, ".") then ProbeCandidate(RelativeCandidate(imp, importer), index)
    else ResolveAbsolute(imp, index)
  }

  method ResolvePythonImport(imp: string, importer: FilePath, index: FileIndex) returns (r: Option<FilePath>)
    ensures r == ResolvePython(imp, importer, index)
  {
    hide LeadingCount, NonEmpty, Split, ProbeCandidate, ResolveAbsolute, Up;
    if StartsWith(imp, ".") {
      var dots := LeadingCount(imp, '.');
      var modulePart := imp[dots..];
      var base := WalkUp(Dir(importer), dots - 1);
      var candidate := if modulePart != "" then base + NonEmpty(Split(modulePart, '.')) else base;
      r := ProbeCandidate(candidate, index);
    } else {
      r := ResolveAbsolute(imp, index);
    }
  }

  // ---------------------------------------------------------------------------
  // What resolution promises
  // ---------------------------------------------------------------------------

  /** No other file has the path, and no other Python file the dotted name, of file `k`. */
  ghost predicate Singular(files: seq<FileIntelligence>, k: nat)
    requires k < |files|
  {
    forall j :: 0 <= j < |files| && j != k ==>
      files[j].path != files[k].path && (files[j].language == Python ==> Dotted(files[j].path) != Dotted(files[k].path))
  }

  /** With scripts in the list a full dotted name finds its own file exactly when no later
      script writes that name over it; so the order of the files does matter then. */
  lemma FullNameResolvesExactly(files: seq<FileIntelligence>, k: nat, importer: FilePath)
    requires k < |files| && files[k].language == Python && Singular(files, k)
    requires !StartsWith(Dotted(files[k].path), ".")
    ensures ResolvePython(Dotted(files[k].path), importer, IndexOf(files)) == Some(files[k].path)
      <==> forall j :: k < j < |files| && files[j].language != Python ==> !Writes(files[j], Dotted(files[k].path))
  {
    hide IndexOf, Dotted, Writes;
    OwnNameKept(files, k);
  }

  lemma OwnNameKept(files: seq<FileIntelligence>, k: nat)
    requires k < |files| && files[k].language == Python && Singular(files, k)
    ensures var key, index := Dotted(files[k].path), IndexOf(files);
      && key in index
      && (index[key] == files[k].path
          <==> forall j :: k < j < |files| && files[j].language != Python ==> !Writes(files[j], key))
  {
    hide IndexOf, Dotted, PathKey, Answers;
    var key := Dotted(files[k].path);
    assert Writes(files[k], key);
    WriterAnswers(files[k], key);
    var i := IndexExact(files, key);
    assert Writes(files[i], key);
    assert i >= k;
  }

  /** A full dotted name finds its own file, in any order of the files: a suffix key
      of an earlier file never shadows it. */
  lemma FullNameResolves(files: seq<FileIntelligence>, k: nat, importer: FilePath)
    requires AllPython(files) && DistinctDotted(files) && k < |files|
    requires !StartsWith(Dotted(files[k].path), ".")
    ensures ResolvePython(Dotted(files[k].path), importer, IndexOf(files)) == Some(files[k].path)
  {
    OwnNameOwned(files, k);
  }

  lemma OwnNameOwned(files: seq<FileIntelligence>, k: nat)
    requires AllPython(files) && DistinctDotted(files) && k < |files|
    ensures Dotted(files[k].path) in IndexOf(files) && IndexOf(files)[Dotted(files[k].path)] == files[k].path
  {
    hide IndexOf, Dotted, Writes;
    assert forall j :: 0 <= j < |files| ==> files[j] in files;
    OwnNameKept(files, k);
  }

  /** `key` is the import without its first `i` components. */
  ghost predicate ImportSuffix(imp: string, i: nat, key: string) {
    i < |Split(imp, '.')| && key == Join(Split(imp, '.')[i..], '.')
  }

  /** Any other absolute import, whatever the list, resolves by the longest of its component
      suffixes that some file answers to, to the file that suffix leads to; and fails only when
      no file answers to any of them. */
  lemma LongestSuffixResolves(files: seq<FileIntelligence>, imp: string, importer: FilePath) returns (i: nat)
    requires !StartsWith(imp, ".")
    ensures i <= |Split(imp, '.')|
    ensures forall j: nat, key :: j < i && ImportSuffix(imp, j, key) ==> !Answered(files, key)
    ensures match ResolvePython(imp, importer, IndexOf(files))
      case None => i == |Split(imp, '.')|
      case Some(path) =>
        exists key, k :: ImportSuffix(imp, i, key) && LeadsTo(files, key, k) && files[k].path == path
  {
    hide Answered, LeadsTo;
    var parts := Split(imp, '.');
    JoinOfSplit(imp, '.');
    assert parts[0..] == parts;
    i := FirstHitLongest(parts, files, 0);
    forall j: nat, key | j < i && ImportSuffix(imp, j, key)
      ensures !Answered(files, key)
    {
      var _ := IndexExact(files, key);
    }
    if i < |parts| {
      var k := IndexExact(files, Join(parts[i..], '.'));
      assert ImportSuffix(imp, i, Join(parts[i..], '.'));
    }
  }

  lemma {:induction false} FirstHitLongest(parts: seq<string>, files: seq<FileIntelligence>, from: nat) returns (i: nat)
    requires from <= |parts|
    ensures from <= i <= |parts|
    ensures forall j :: from <= j < i ==> Join(parts[j..], '.') !in IndexOf(files)
    ensures i == |parts| ==> FirstHit(parts, IndexOf(files), from) == None
    ensures i < |parts| ==>
      && Join(parts[i..], '.') in IndexOf(files)
      && FirstHit(parts, IndexOf(files), from) == Some(IndexOf(files)[Join(parts[i..], '.')])
    decreases |parts| - from
  {
    if from < |parts| && Join(parts[from..], '.') !in IndexOf(files) {
      i := FirstHitLongest(parts, files, from + 1);
    } else {
      i := from;
    }
  }

  /** The file's path, extension dropped, ends with the components; a segment with dots counts
      as several. */
  ghost predicate EndsWith(path: FilePath, components: seq<string>) {
    exists j: nat :: j < |path| && SplitAll(PartsNoExt(path)[j..], '.') == components
  }

  lemma CarriesComponents(path: FilePath, components: seq<string>)
    requires components != [] && forall c :: c in components ==> Free(c, '.')
    ensures |PartsNoExt(path)| == |path|
    ensures Carries(path, Join(components, '.')) <==> EndsWith(path, components)
  {
    hide Split, Join, SplitAll, Stem;
    var parts, text := PartsNoExt(path), Join(components, '.');
    SplitOfJoin(components, '.');
    JoinOfSplit(text, '.');
    if j: nat :| j < |path| && text == SuffixKey(path, j) {
      SplitOfAnyJoin(parts[j..], '.');
    }
    if j: nat :| j < |path| && SplitAll(parts[j..], '.') == components {
      SplitOfAnyJoin(parts[j..], '.');
      JoinOfSplit(Join(parts[j..], '.'), '.');
      assert text == SuffixKey(path, j);
    }
  }

  /** An absolute import of a module by its components finds the file at that path, whatever
      other files end in the same names. */
  lemma AbsoluteModuleResolves(files: seq<FileIntelligence>, importer: FilePath, k: nat, components: seq<string>)
    requires AllPython(files) && DistinctDotted(files) && k < |files|
    requires components != [] && forall c :: c in components ==> Component(c)
    requires files[k].path == ModuleFile([], components)
    ensures ResolvePython(Join(components, '.'), importer, IndexOf(files)) == Some(files[k].path)
  {
    hide IndexOf, ResolvePython;
    DottedOfModule(components);
    assert Component(components[0]);
    assert Join(components, '.')[0] == components[0][0];
    FullNameResolves(files, k, importer);
  }

  lemma DottedOfModule(components: seq<string>)
    requires components != [] && forall c :: c in components ==> Component(c)
    ensures Dotted(ModuleFile([], components)) == Join(components, '.')
  {
    hide Stem, Join;
    var last := components[|components| - 1];
    var path := ModuleFile([], components);
    assert Component(last);
    StemAndSuffix(last, "py");
    assert last + ".py" == last + ['.'] + "py";
    assert PartsNoExt(path) == components;
    assert PartsNoExt(path)[0..] == components;
  }

  /** Any absolute import by components goes to a file whose path ends with the longest suffix of
      them that any file ends with, and fails when no file ends with any. */
  lemma AbsoluteSuffixResolves(files: seq<FileIntelligence>, importer: FilePath, components: seq<string>)
      returns (i: nat)
    requires AllPython(files) && components != [] && forall c :: c in components ==> Component(c)
    ensures i <= |components|
    ensures forall j, k :: 0 <= j < i && 0 <= k < |files| ==> !EndsWith(files[k].path, components[j..])
    ensures match ResolvePython(Join(components, '.'), importer, IndexOf(files))
      case None => i == |components|
      case Some(path) => i < |components| && Listed(files, path) && EndsWith(path, components[i..])
  {
    hide IndexOf, ResolvePython, Carries, EndsWith, Split;
    var imp := Join(components, '.');
    assert Component(components[0]);
    assert imp[0] == components[0][0] && imp[..1] == [imp[0]];
    SplitOfJoin(components, '.');
    i := LongestSuffixResolves(files, imp, importer);
    forall j, k | 0 <= j < i && 0 <= k < |files|
      ensures !EndsWith(files[k].path, components[j..])
    {
      assert ImportSuffix(imp, j, Join(components[j..], '.'));
      SuffixAnswered(files, k, components, j);
    }
    if ResolvePython(imp, importer, IndexOf(files)).Some? {
      var path := ResolvePython(imp, importer, IndexOf(files)).value;
      var key, k :| ImportSuffix(imp, i, key) && LeadsTo(files, key, k) && files[k].path == path;
      SuffixAnswered(files, k, components, i);
    }
  }

  lemma SuffixAnswered(files: seq<FileIntelligence>, k: nat, components: seq<string>, j: nat)
    requires AllPython(files) && k < |files| && j < |components|
    requires forall c :: c in components ==> Component(c)
    ensures Answers(files[k], Join(components[j..], '.')) <==> EndsWith(files[k].path, components[j..])
    ensures EndsWith(files[k].path, components[j..]) ==> Answered(files, Join(components[j..], '.'))
  {
    hide Carries, EndsWith, Join;
    assert files[k] in files;
    assert forall c :: c in components[j..] ==> Component(c);
    CarriesComponents(files[k].path, components[j..]);
  }

  ghost predicate Listed(files: seq<FileIntelligence>, path: FilePath) {
    exists k :: 0 <= k < |files| && files[k].path == path
  }

  /** The files an index of a Python-only list can answer with are exactly the files listed. */
  lemma IndexedFiles(files: seq<FileIntelligence>, path: FilePath)
    requires AllPython(files) && DistinctDotted(files)
    ensures path in IndexOf(files).Values <==> Listed(files, path)
  {
    if path in IndexOf(files).Values {
      var key :| key in IndexOf(files) && IndexOf(files)[key] == path;
      var _ := IndexExact(files, key);
    }
    if k :| 0 <= k < |files| && files[k].path == path {
      OwnNameOwned(files, k);
    }
  }

  /** The import text of `n` dots followed by the dotted components. */
  function RelativeImport(n: nat, components: seq<string>): string {
    seq(n, _ => '.') + Join(components, '.')
  }

  predicate Component(s: string) {
    s != "" && Free(s, '.')
  }

  lemma {:induction false} NonEmptyAll(parts: seq<string>)
    requires forall p :: p in parts ==> p != ""
    ensures NonEmpty(parts) == parts
  {
    if parts != [] {
      assert parts[0] in parts && forall p :: p in parts[1..] ==> p in parts;
      NonEmptyAll(parts[1..]);
      assert [parts[0]] + parts[1..] == parts;
    }
  }

  lemma RelativeCandidateOf(n: nat, components: seq<string>, importer: FilePath)
    requires n >= 1 && forall c :: c in components ==> Component(c)
    ensures StartsWith(RelativeImport(n, components), ".")
    ensures RelativeCandidate(RelativeImport(n, components), importer) == Up(Dir(importer), n - 1) + components
  {
    var imp, rest := RelativeImport(n, components), Join(components, '.');
    assert imp[..1] == ".";
    assert imp[n..] == rest;
    assert forall i :: 0 <= i < n ==> imp[i] == '.';
    if components != [] {
      assert Component(components[0]);
      assert rest[0] == components[0][0] != '.';
      assert imp[n] == rest[0];
      SplitOfJoin(components, '.');
      NonEmptyAll(components);
    } else {
      assert LeadingCount(imp, '.') == n;
    }
    assert LeadingCount(imp, '.') == n;
  }

  /** The module file that a relative import names. */
  function ModuleFile(base: Path, components: seq<string>): FilePath
    requires components != []
  {
    base + components[..|components| - 1] + [components[|components| - 1] + ".py"]
  }

  /** A relative import written with the right number of dots finds the module it names. */
  lemma RelativeModuleResolves(files: seq<FileIntelligence>, importer: FilePath, n: nat, components: seq<string>)
    requires AllPython(files) && DistinctDotted(files)
    requires n >= 1 && components != [] && forall c :: c in components ==> Component(c)
    requires Listed(files, ModuleFile(Up(Dir(importer), n - 1), components))
    ensures ResolvePython(RelativeImport(n, components), importer, IndexOf(files))
      == Some(ModuleFile(Up(Dir(importer), n - 1), components))
  {
    RelativeCandidateOf(n, components, importer);
    ProbeFindsModule(files, Up(Dir(importer), n - 1), components);
  }

  lemma ProbeFindsModule(files: seq<FileIntelligence>, base: Path, components: seq<string>)
    requires AllPython(files) && DistinctDotted(files) && components != []
    requires Listed(files, ModuleFile(base, components))
    ensures ProbeCandidate(base + components, IndexOf(files)) == Some(ModuleFile(base, components))
  {
    hide IndexOf;
    assert WithExtension(base + components, EXTENSIONS[0]) == ModuleFile(base, components);
    IndexedFiles(files, ModuleFile(base, components));
  }

  /** A relative import of a package finds its `__init__.py` exactly when the package exists
      and no module file of the same name stands beside it. */
  lemma RelativePackageResolves(files: seq<FileIntelligence>, importer: FilePath, n: nat, components: seq<string>)
    requires AllPython(files) && DistinctDotted(files)
    requires n >= 1 && forall c :: c in components ==> Component(c)
    ensures var target := Up(Dir(importer), n - 1) + components;
      ResolvePython(RelativeImport(n, components), importer, IndexOf(files)) == Some(target + ["__init__.py"])
      <==> Listed(files, target + ["__init__.py"])
           && forall e :: e in EXTENSIONS ==> !Listed(files, WithExtension(target, e))
  {
    RelativeCandidateOf(n, components, importer);
    ProbeFindsPackage(files, Up(Dir(importer), n - 1) + components);
  }

  lemma ProbeFindsPackage(files: seq<FileIntelligence>, target: Path)
    requires AllPython(files) && DistinctDotted(files)
    ensures ProbeCandidate(target, IndexOf(files)) == Some(target + ["__init__.py"])
      <==> Listed(files, target + ["__init__.py"])
           && forall e :: e in EXTENSIONS ==> !Listed(files, WithExtension(target, e))
  {
    hide IndexOf, FirstExisting;
    IndexedFiles(files, target + ["__init__.py"]);
    forall e | e in EXTENSIONS
      ensures WithExtension(target, e) in IndexOf(files).Values <==> Listed(files, WithExtension(target, e))
      ensures WithExtension(target, e) != target + ["__init__.py"]
    {
      IndexedFiles(files, WithExtension(target, e));
      if target == [] {
        assert WithExtension(target, e)[0][0] == '.';
      } else {
        assert |WithExtension(target, e)| == |target|;
      }
    }
    FirstExistingNone(target, EXTENSIONS, IndexOf(files));
  }

  lemma {:induction false} FirstExistingNone(candidate: Path, exts: seq<string>, index: FileIndex)
    ensures FirstExisting(candidate, exts, index).None? <==> forall e :: e in exts ==>
      WithExtension(candidate, e) !in index.Values
    ensures var r := FirstExisting(candidate, exts, index);
      r.Some? ==> exists e :: e in exts && r.value == WithExtension(candidate, e)
  {
    if exts != [] {
      FirstExistingNone(candidate, exts[1..], index);
    }
  }

  /** Every place a relative import looks at, in order. */
  function Places(target: Path): seq<FilePath> {
    if target == [] then [["..py"], ["..ts"], ["..js"], ["..tsx"], ["..jsx"], ["__init__.py"]]
    else
      var dir, name := target[..|target| - 1], target[|target| - 1];
      [dir + [name + ".py"], dir + [name + ".ts"], dir + [name + ".js"], dir + [name + ".tsx"], dir + [name + ".jsx"],
       dir + [name, "__init__.py"]]
  }

  /** A relative import finds the first of its places that is a listed file, and nothing when
      none is. */
  lemma RelativeOrder(files: seq<FileIntelligence>, importer: FilePath, n: nat, components: seq<string>)
      returns (i: nat)
    requires AllPython(files) && DistinctDotted(files)
    requires n >= 1 && forall c :: c in components ==> Component(c)
    ensures var places := Places(Up(Dir(importer), n - 1) + components);
      var r := ResolvePython(RelativeImport(n, components), importer, IndexOf(files));
      && i <= |places| == 6
      && (forall j :: 0 <= j < i ==> !Listed(files, places[j]))
      && (if i == 6 then r == None else Listed(files, places[i]) && r == Some(places[i]))
  {
    hide IndexOf;
    var target := Up(Dir(importer), n - 1) + components;
    RelativeCandidateOf(n, components, importer);
    PlacesProbed(target);
    i := FirstPlace(target, IndexOf(files));
    forall j | 0 <= j < 6
      ensures Places(target)[j] in IndexOf(files).Values <==> Listed(files, Places(target)[j])
    {
      IndexedFiles(files, Places(target)[j]);
    }
  }

  lemma PlacesProbed(target: Path)
    ensures |Places(target)| == 6 && Places(target)[5] == target + ["__init__.py"]
    ensures forall j :: 0 <= j < 5 ==> Places(target)[j] == WithExtension(target, EXTENSIONS[j])
  {
    assert "." + ".py" == "..py" && "." + ".ts" == "..ts" && "." + ".js" == "..js";
    assert "." + ".tsx" == "..tsx" && "." + ".jsx" == "..jsx";
    if target != [] {
      var dir, name := target[..|target| - 1], target[|target| - 1];
      assert dir + [name, "__init__.py"] == target + ["__init__.py"];
    }
  }

  lemma FirstPlace(target: Path, index: FileIndex) returns (i: nat)
    ensures i <= 6 == |Places(target)| && forall j :: 0 <= j < i ==> Places(target)[j] !in index.Values
    ensures i < 6 ==> Places(target)[i] in index.Values
    ensures ProbeCandidate(target, index) == if i == 6 then None else Some(Places(target)[i])
  {
    hide Places, WithExtension;
    PlacesProbed(target);
    var e := FirstExtension(target, EXTENSIONS, index);
    i := if e < 5 then e else if Places(target)[5] in index.Values then 5 else 6;
  }

  lemma {:induction false} FirstExtension(target: Path, exts: seq<string>, index: FileIndex) returns (i: nat)
    ensures i <= |exts| && forall j :: 0 <= j < i ==> WithExtension(target, exts[j]) !in index.Values
    ensures i < |exts| ==> WithExtension(target, exts[i]) in index.Values
    ensures FirstExisting(target, exts, index) == if i == |exts| then None else Some(WithExtension(target, exts[i]))
  {
    if exts == [] || WithExtension(target, exts[0]) in index.Values {
      i := 0;
    } else {
      var rest := FirstExtension(target, exts[1..], index);
      i := rest + 1;
    }
  }

  /** Empty components, as doubled dots leave them, are passed over. */
  lemma EmptyComponentsIgnored(importer: FilePath, n: nat, before: seq<string>, after: seq<string>)
    requires n >= 1 && before != [] && forall c :: c in before + after ==> Component(c)
    ensures RelativeCandidate(RelativeImport(n, before + [""] + after), importer) ==
      Up(Dir(importer), n - 1) + before + after
  {
    hide Split, Join, LeadingCount, NonEmpty, Up;
    var parts := before + [""] + after;
    var text := Join(parts, '.');
    assert Component(before[0]) by { assert before[0] in before + after; }
    JoinStarts(parts, '.');
    assert RelativeImport(n, parts) == Repeat('.', n) + text;
    StripRepeated('.', n, text);
    assert RelativeImport(n, parts)[n..] == text && RelativeImport(n, parts)[..1] == ".";
    assert forall p :: p in parts ==> p == "" || p in before + after;
    SplitOfJoin(parts, '.');
    NonEmptySkips(before, after);
    assert Up(Dir(importer), n - 1) + (before + after) == Up(Dir(importer), n - 1) + before + after;
  }

  lemma NonEmptySkips(before: seq<string>, after: seq<string>)
    requires forall c :: c in before + after ==> Component(c)
    ensures NonEmpty(before + [""] + after) == before + after
  {
    assert before + [""] + after == before + ([""] + after);
    NonEmptyApart(before, [""] + after);
    NonEmptyApart([""], after);
    assert forall c :: c in before ==> c in before + after;
    assert forall c :: c in after ==> c in before + after;
    NonEmptyAll(before);
    NonEmptyAll(after);
    assert NonEmpty([""]) == [] by { assert [""][1..] == []; }
    assert [] + after == after;
  }

  lemma JoinStarts(parts: seq<string>, sep: char)
    requires parts != [] && parts[0] != ""
    ensures Join(parts, sep) != "" && Join(parts, sep)[0] == parts[0][0]
  {
  }

  lemma {:induction false} NonEmptyApart(a: seq<string>, b: seq<string>)
    ensures NonEmpty(a + b) == NonEmpty(a) + NonEmpty(b)
  {
    if a == [] {
      assert a + b == b;
    } else {
      assert (a + b)[1..] == a[1..] + b;
      NonEmptyApart(a[1..], b);
    }
  }
}
