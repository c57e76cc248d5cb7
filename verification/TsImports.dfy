/** The resolver for TypeScript and JavaScript imports. */
module TsImports {
  import opened Repository
  import opened Text
  import opened Wrappers
  import opened PythonImports

  /** A path alias and the prefix it stands for, in configuration order. */
  datatype Alias = Alias(prefix: string, target: string)

  const DEFAULT_ALIASES: seq<Alias> := [
    Alias("@/", "src/"), Alias("~/", "src/"),
    Alias("@components/", "components/"), Alias("@lib/", "lib/"), Alias("@utils/", "utils/")
  ]

  // ---------------------------------------------------------------------------
  // Aliases
  // ---------------------------------------------------------------------------

  /** What a glob pattern is trimmed to before it is compared: no `*`, no slash at the end. */
  function Trimmed(pattern: string): string {
    StripRight(StripRight(pattern, '*'), '/')
  }

  function ApplyAliases(imp: string, aliases: seq<Alias>): string {
    if aliases == [] then imp
    else if StartsWith(imp, Trimmed(aliases[0].prefix)) then
      Trimmed(aliases[0].target) + imp[|Trimmed(aliases[0].prefix)|..]
    else ApplyAliases(imp, aliases[1..])
  }

  method RewriteAlias(imp: string, aliases: seq<Alias>) returns (resolved: string)
    ensures resolved == ApplyAliases(imp, aliases)
  {
    resolved := imp;
    for i := 0 to |aliases|
      invariant resolved == imp
      invariant ApplyAliases(imp, aliases) == ApplyAliases(imp, aliases[i..])
    {
      var prefix := Trimmed(aliases[i].prefix);
      if StartsWith(imp, prefix) {
        resolved := Trimmed(aliases[i].target) + imp[|prefix|..];
        break;
      }
    }
  }

  /** What the alias table documents: the first alias whose whole prefix, slash included,
      begins the import is replaced by its target. */
  function DocumentedAlias(imp: string, aliases: seq<Alias>): string {
    if aliases == [] then imp
    else if StartsWith(imp, aliases[0].prefix) then aliases[0].target + imp[|aliases[0].prefix|..]
    else DocumentedAlias(imp, aliases[1..])
  }

  lemma {:induction false} StripRightKeepsHead(s: string, c: char)
    requires s != "" && s[0] != c
    ensures StripRight(s, c) != "" && StripRight(s, c)[0] == s[0]
  {
    if s[|s| - 1] == c {
      StripRightKeepsHead(s[..|s| - 1], c);
    }
  }

  lemma TrimSlash(s: string)
    requires s != "" && s[|s| - 1] != '/' && s[|s| - 1] != '*'
    ensures Trimmed(s + "/") == s
  {
    var t := s + "/";
    assert t[|t| - 1] == '/' && t[..|t| - 1] == s;
    assert StripRight(t, '*') == t;
    assert StripRight(s, '/') == s;
  }

  /** An import whose first character begins no alias is left alone. */
  /** A pattern is trimmed of its stars and then of the slashes before them. */
  lemma TrimmedExact(base: string, m: nat, n: nat)
    requires base != "" && base[|base| - 1] != '/' && (m > 0 || base[|base| - 1] != '*')
    ensures Trimmed(base + Repeat('/', m) + Repeat('*', n)) == base
  {
    hide StripRight;
    var text := base + Repeat('/', m);
    assert text[|text| - 1] != '*';
    StripRightRepeated(text, '*', n);
    StripRightRepeated(base, '/', m);
  }

  lemma {:induction false} NoRewrite(imp: string, aliases: seq<Alias>)
    requires forall a :: a in aliases ==> a.prefix != "" && a.prefix[0] !in "*/" && (imp == "" || imp[0] != a.prefix[0])
    ensures ApplyAliases(imp, aliases) == imp
  {
    if aliases != [] {
      var a := aliases[0];
      assert a in aliases;
      StripRightKeepsHead(a.prefix, '*');
      StripRightKeepsHead(StripRight(a.prefix, '*'), '/');
      assert imp == "" || imp[0] != Trimmed(a.prefix)[0];
      NoRewrite(imp, aliases[1..]);
    }
  }

  lemma FirstAliasRewrites(imp: string, aliases: seq<Alias>)
    requires aliases != [] && StartsWith(imp, Trimmed(aliases[0].prefix))
    ensures ApplyAliases(imp, aliases) == Trimmed(aliases[0].target) + imp[|Trimmed(aliases[0].prefix)|..]
  {
  }

  lemma SkipAlias(imp: string, aliases: seq<Alias>)
    requires aliases != [] && !StartsWith(imp, Trimmed(aliases[0].prefix))
    ensures ApplyAliases(imp, aliases) == ApplyAliases(imp, aliases[1..])
  {
  }

  lemma TrimmedDefaults()
    ensures Trimmed("@/") == "@" && Trimmed("~/") == "~" && Trimmed("src/") == "src"
  {
    TrimSlash("@");
    TrimSlash("~");
    TrimSlash("src");
    assert "@/" == "@" + "/" && "~/" == "~" + "/" && "src/" == "src" + "/";
  }

  lemma DefaultPrefixes(a: Alias)
    requires a in DEFAULT_ALIASES
    ensures a.prefix != "" && (a.prefix[0] == '@' || a.prefix[0] == '~')
  {
    var i :| 0 <= i < |DEFAULT_ALIASES| && DEFAULT_ALIASES[i] == a;
  }

  /** With the default table the trimmed prefix `@` takes every import that starts with `@`,
      so the three aliases after the first two are never reached. */
  lemma DefaultRewrites(imp: string)
    ensures ApplyAliases(imp, DEFAULT_ALIASES) ==
      if imp != "" && (imp[0] == '@' || imp[0] == '~') then "src" + imp[1..] else imp
  {
    hide ApplyAliases, Trimmed, StripRight;
    var table := DEFAULT_ALIASES;
    TrimmedDefaults();
    if imp == "" || (imp[0] != '@' && imp[0] != '~') {
      forall a | a in table { DefaultPrefixes(a); }
      NoRewrite(imp, table);
    } else if imp[0] == '@' {
      assert imp[..1] == "@";
      FirstAliasRewrites(imp, table);
    } else {
      assert imp[..1] == "~" && imp[0] != "@"[0];
      SkipAlias(imp, table);
      FirstAliasRewrites(imp, table[1..]);
    }
  }

  /** The default table does what it documents exactly for the imports that start with
      neither `@` nor `~`, and for those where a slash follows. */
  lemma DefaultAliasesAsDocumented(imp: string)
    ensures ApplyAliases(imp, DEFAULT_ALIASES) == DocumentedAlias(imp, DEFAULT_ALIASES)
      <==> imp == "" || (imp[0] != '@' && imp[0] != '~') || (|imp| >= 2 && imp[1] == '/')
  {
    hide ApplyAliases, DocumentedAlias;
    DefaultRewrites(imp);
    if imp == "" || (imp[0] != '@' && imp[0] != '~') {
      DocumentedUnmarked(imp);
    } else if |imp| >= 2 && imp[1] == '/' {
      DocumentedSlash(imp);
    } else {
      DocumentedNoSlash(imp);
    }
  }

  lemma DocumentedUnmarked(imp: string)
    requires imp == "" || (imp[0] != '@' && imp[0] != '~')
    ensures DocumentedAlias(imp, DEFAULT_ALIASES) == imp
  {
    hide DocumentedAlias;
    forall a | a in DEFAULT_ALIASES { DefaultPrefixes(a); }
    DocumentedNone(imp, DEFAULT_ALIASES);
  }

  lemma DocumentedSlash(imp: string)
    requires |imp| >= 2 && (imp[0] == '@' || imp[0] == '~') && imp[1] == '/'
    ensures DocumentedAlias(imp, DEFAULT_ALIASES) == "src" + imp[1..]
  {
    hide DocumentedAlias;
    DocumentedStep(imp, DEFAULT_ALIASES);
    DocumentedStep(imp, DEFAULT_ALIASES[1..]);
    if imp[0] == '@' {
      assert imp[..2] == "@/";
    } else {
      assert imp[..2] == "~/" && imp[0] != "@/"[0];
    }
    SlashMoves(imp);
  }

  lemma SlashMoves(imp: string)
    requires |imp| >= 2 && imp[1] == '/'
    ensures "src/" + imp[2..] == "src" + imp[1..]
  {
    assert imp[1..] == "/" + imp[2..];
  }

  lemma DocumentedNoSlash(imp: string)
    requires imp != "" && (imp[0] == '@' || imp[0] == '~') && !(|imp| >= 2 && imp[1] == '/')
    ensures |DocumentedAlias(imp, DEFAULT_ALIASES)| <= |imp|
  {
    hide DocumentedAlias;
    DocumentedStep(imp, DEFAULT_ALIASES);
    DocumentedStep(imp, DEFAULT_ALIASES[1..]);
    DocumentedLength(imp, DEFAULT_ALIASES[1..][1..]);
  }

  /** `@lib/x` is documented to mean `lib/x` and becomes `srclib/x`. */
  lemma LibAliasLost()
    ensures ApplyAliases("@lib/x", DEFAULT_ALIASES) == "srclib/x"
    ensures ApplyAliases("@lib/x", DEFAULT_ALIASES) != DocumentedAlias("@lib/x", DEFAULT_ALIASES)
  {
    DefaultRewrites("@lib/x");
    DefaultAliasesAsDocumented("@lib/x");
    assert "@lib/x"[1] == 'l';
  }

  lemma DocumentedStep(imp: string, aliases: seq<Alias>)
    requires aliases != []
    ensures DocumentedAlias(imp, aliases) ==
      if StartsWith(imp, aliases[0].prefix) then aliases[0].target + imp[|aliases[0].prefix|..]
      else DocumentedAlias(imp, aliases[1..])
  {
  }

  lemma {:induction false} DocumentedNone(imp: string, aliases: seq<Alias>)
    requires forall a :: a in aliases ==> a.prefix != "" && (imp == "" || imp[0] != a.prefix[0])
    ensures DocumentedAlias(imp, aliases) == imp
  {
    if aliases != [] {
      assert aliases[0] in aliases;
      DocumentedNone(imp, aliases[1..]);
    }
  }

  lemma {:induction false} DocumentedLength(imp: string, aliases: seq<Alias>)
    requires forall a :: a in aliases ==> |a.target| <= |a.prefix|
    ensures |DocumentedAlias(imp, aliases)| <= |imp|
  {
    if aliases != [] {
      assert aliases[0] in aliases;
      DocumentedLength(imp, aliases[1..]);
    }
  }

  // ---------------------------------------------------------------------------
  // Relative imports
  // ---------------------------------------------------------------------------

  const TS_EXTENSIONS: seq<string> := [".ts", ".tsx", ".js", ".jsx"]

  /** The segments of a slash-separated text; empty and `.` segments carry no meaning. */
  function Segments(s: string): seq<string> {
    Meaningful(Split(s, '/'))
  }

  function Meaningful(parts: seq<string>): seq<string> {
    if parts == [] then []
    else (if parts[0] == "" || parts[0] == "." then [] else [parts[0]]) + Meaningful(parts[1..])
  }

  /** Each `..` takes away the segment kept before it; at the root it does nothing. */
  function Collapse(parts: seq<string>): Path {
    if parts == [] then []
    else Climb(Collapse(parts[..|parts| - 1]), parts[|parts| - 1])
  }

  function Climb(kept: Path, part: string): Path {
    if part != ".." then kept + [part] else if kept == [] then [] else kept[..|kept| - 1]
  }

  method NormalizeDots(parts: seq<string>) returns (kept: Path)
    ensures kept == Collapse(parts)
  {
    kept := [];
    for i := 0 to |parts|
      invariant kept == Collapse(parts[..i])
    {
      assert parts[..i + 1][..i] == parts[..i];
      if parts[i] == ".." {
        if kept != [] {
          kept := kept[..|kept| - 1];
        }
      } else {
        kept := kept + [parts[i]];
      }
    }
    assert parts[..|parts|] == parts;
  }

  function PathText(path: Path): string {
    if path == [] then "." else Join(path, '/')
  }

  /** The lookup text of a candidate: its last extension, if it has one, is dropped. */
  function StemText(candidate: Path): string {
    if candidate != [] && Suffix(Name(candidate)) != "" then PathText(PartsNoExt(candidate)) else PathText(candidate)
  }

  function Or(a: Option<FilePath>, b: Option<FilePath>): Option<FilePath> {
    if a.Some? then a else b
  }

  function Lookup(key: string, index: FileIndex): Option<FilePath> {
    if key in index then Some(index[key]) else None
  }

  /** The name itself, then the name with each extension. */
  function KeysFrom(base: string): seq<string> {
    [base] + seq(|TS_EXTENSIONS|, i requires 0 <= i < |TS_EXTENSIONS| => base + TS_EXTENSIONS[i])
  }

  /** What is looked up for a candidate, in order: the file, then the index file of a directory. */
  function ProbeKeys(candidate: Path): seq<string> {
    KeysFrom(StemText(candidate)) + KeysFrom(PathText(candidate + ["index"]))
  }

  function FirstOf(keys: seq<string>, index: FileIndex): Option<FilePath> {
    if keys == [] then None else Or(Lookup(keys[0], index), FirstOf(keys[1..], index))
  }

  function ProbeTs(candidate: Path, index: FileIndex): Option<FilePath> {
    FirstOf(ProbeKeys(candidate), index)
  }

  lemma {:induction false} FirstOfAppend(a: seq<string>, b: seq<string>, index: FileIndex)
    ensures FirstOf(a + b, index) == Or(FirstOf(a, index), FirstOf(b, index))
  {
    if a == [] {
      assert a + b == b;
    } else {
      assert (a + b)[1..] == a[1..] + b;
      FirstOfAppend(a[1..], b, index);
    }
  }

  /** One name: as it is, then with the extensions in turn. */
  method LookupWithExtensions(base: string, index: FileIndex) returns (r: Option<FilePath>)
    ensures r == FirstOf(KeysFrom(base), index)
  {
    hide Lookup;
    var keys := KeysFrom(base);
    FirstOfOne(base, index);
    assert keys[..1] == [base];
    r := Lookup(base, index);
    for i := 0 to |TS_EXTENSIONS|
      invariant r == FirstOf(keys[..i + 1], index)
    {
      assert keys[i + 1] == base + TS_EXTENSIONS[i];
      FirstOfOne(keys[i + 1], index);
      FirstOfAppend(keys[..i + 1], [keys[i + 1]], index);
      assert keys[..i + 2] == keys[..i + 1] + [keys[i + 1]];
      if r.None? {
        r := Lookup(base + TS_EXTENSIONS[i], index);
      }
    }
    assert keys[..|TS_EXTENSIONS| + 1] == keys;
  }

  lemma FirstOfOne(key: string, index: FileIndex)
    ensures FirstOf([key], index) == Lookup(key, index)
  {
    assert [key][1..] == [];
    assert FirstOf([key][1..], index) == None;
  }

  function ResolveTs(imp: string, importer: FilePath, aliases: seq<Alias>, index: FileIndex): Option<FilePath> {
    var resolved := ApplyAliases(imp, aliases);
    if StartsWith(resolved, ".") then ProbeTs(Collapse(Dir(importer) + Segments(resolved)), index)
    else Or(Lookup(resolved, index), Lookup(StripLeft(resolved, '/'), index))
  }

  method ResolveTsImport(imp: string, importer: FilePath, aliases: seq<Alias>, index: FileIndex)
      returns (r: Option<FilePath>)
    ensures r == ResolveTs(imp, importer, aliases, index)
  {
    hide FirstOf, KeysFrom, StemText, PathText, Segments, ApplyAliases, Collapse;
    var resolved := RewriteAlias(imp, aliases);
    if StartsWith(resolved, ".") {
      var candidate := NormalizeDots(Dir(importer) + Segments(resolved));
      FirstOfAppend(KeysFrom(StemText(candidate)), KeysFrom(PathText(candidate + ["index"])), index);
      r := LookupWithExtensions(StemText(candidate), index);
      if r.None? {
        r := LookupWithExtensions(PathText(candidate + ["index"]), index);
      }
    } else {
      r := Or(Lookup(resolved, index), Lookup(StripLeft(resolved, '/'), index));
    }
  }

  // ---------------------------------------------------------------------------
  // What normalisation promises
  // ---------------------------------------------------------------------------

  lemma {:induction false} CollapseAppend(a: seq<string>, b: seq<string>)
    requires ".." !in b
    ensures Collapse(a + b) == Collapse(a) + b
  {
    if b == [] {
      assert a + b == a;
    } else {
      var n := |b| - 1;
      CollapseAppend(a, b[..n]);
      assert (a + b)[..|a + b| - 1] == a + b[..n];
    }
  }

  function Ups(n: nat): seq<string> {
    seq(n, _ => "..")
  }

  lemma {:induction false} CollapseUps(dir: seq<string>, n: nat)
    requires ".." !in dir
    ensures Collapse(dir + Ups(n)) == Up(dir, n)
  {
    if n == 0 {
      CollapseAppend([], dir);
      assert dir + Ups(0) == dir && [] + dir == dir;
    } else {
      CollapseUps(dir, n - 1);
      var parts := dir + Ups(n);
      assert parts[..|parts| - 1] == dir + Ups(n - 1);
    }
  }

  /** Nothing that climbs is left. */
  lemma {:induction false} CollapseHasNoDots(parts: seq<string>)
    ensures ".." !in Collapse(parts)
  {
    if parts != [] {
      CollapseHasNoDots(parts[..|parts| - 1]);
    }
  }

  lemma UpIsPrefix(dir: Path, n: nat)
    requires n <= |dir|
    ensures Up(dir, n) == dir[..|dir| - n]
  {
  }

  /** Climbing from a directory to a common ancestor and descending again arrives at the target. */
  lemma CollapseArrives(dir: Path, target: Path, n: nat)
    requires ".." !in dir && ".." !in target
    requires n <= |dir| && |dir| - n <= |target| && dir[..|dir| - n] == target[..|dir| - n]
    ensures Collapse(dir + (Ups(n) + target[|dir| - n..])) == target
  {
    hide Collapse, Ups, Up;
    var c := |dir| - n;
    CollapseUps(dir, n);
    CollapseAppend(dir + Ups(n), target[c..]);
    assert Up(dir, n) == dir[..c] by { UpIsPrefix(dir, n); }
    assert dir + (Ups(n) + target[c..]) == dir + Ups(n) + target[c..];
  }

  // ---------------------------------------------------------------------------
  // What relative resolution promises
  // ---------------------------------------------------------------------------

  ghost predicate AllTs(files: seq<FileIntelligence>) {
    forall f :: f in files ==> (f.language == TypeScript || f.language == JavaScript) && PlainPath(PartsNoExt(f.path))
  }

  ghost predicate DistinctStems(files: seq<FileIntelligence>) {
    forall i, j :: 0 <= i < j < |files| ==> StemPath(files[i].path) != StemPath(files[j].path)
  }

  /** Text of a plain path: does not begin like a rooted or dot-prefixed key. */
  lemma PlainText(path: FilePath)
    requires PlainPath(path)
    ensures var s := Join(path, '/'); s != "" && s[0] != '/' && !StartsWith(s, "./")
  {
    var head := path[0];
    assert PlainSegment(head);
    var s := Join(path, '/');
    assert s[0] == head[0];
    assert head[0] in head;
    if |head| >= 2 {
      assert s[1] == head[1] && head[1] in head;
      assert "./"[1] == '/';
    } else {
      assert head == [head[0]] && "./"[0] == '.';
    }
  }

  predicate KeyFor(key: string, path: FilePath) {
    PathKey(key, path) || key == Stem(Name(path))
  }

  lemma StemOwned(files: seq<FileIntelligence>, k: nat)
    requires AllTs(files) && DistinctStems(files) && k < |files|
    ensures LeadsTo(files, StemPath(files[k].path), k)
  {
    hide StemPath, Stem, Carries, Dotted;
    var key := StemPath(files[k].path);
    assert files[k] in files;
    forall j | k + 1 <= j < |files|
      ensures !Writes(files[j], key)
    {
      assert files[j] in files;
      NotRooted(files, k, StemPath(files[j].path));
    }
  }

  lemma NotRooted(files: seq<FileIntelligence>, k: nat, s: string)
    requires AllTs(files) && k < |files|
    ensures StemPath(files[k].path) != "./" + s && StemPath(files[k].path) != "/" + s
  {
    hide Join, Stem;
    assert files[k] in files;
    PlainText(PartsNoExt(files[k].path));
    assert StartsWith("./" + s, "./") && ("/" + s)[0] == '/';
  }

  /** No earlier key of the ten is answered by any file, and this one leads to file `k`. */
  ghost predicate FirstAnswer(files: seq<FileIntelligence>, keys: seq<string>, i: int, k: nat) {
    0 <= i < |keys| && LeadsTo(files, keys[i], k) && forall j :: 0 <= j < i ==> !Answered(files, keys[j])
  }

  lemma {:induction false} FirstOfHit(keys: seq<string>, index: FileIndex) returns (i: nat)
    ensures i <= |keys| && forall j :: 0 <= j < i ==> keys[j] !in index
    ensures FirstOf(keys, index) == if i == |keys| then None else Lookup(keys[i], index)
    ensures i < |keys| ==> keys[i] in index
  {
    if keys == [] || keys[0] in index {
      i := 0;
    } else {
      var j := FirstOfHit(keys[1..], index);
      i := j + 1;
    }
  }

  /** What the lookup of keys in order finds, told from the files alone. */
  lemma FirstOfExact(files: seq<FileIntelligence>, keys: seq<string>, k: nat)
    requires DistinctPaths(files) && k < |files|
    ensures FirstOf(keys, IndexOf(files)) == Some(files[k].path) <==> exists i :: FirstAnswer(files, keys, i, k)
  {
    hide IndexOf, FirstOf, LeadsTo, Answered;
    forall key
      ensures key in IndexOf(files) <==> Answered(files, key)
    {
      var _ := IndexExact(files, key);
    }
    var i := FirstOfHit(keys, IndexOf(files));
    forall j | FirstAnswer(files, keys, j, k)
      ensures j == i
    {
      OwnedIsAnswered(files, keys[j], k);
    }
    if i < |keys| {
      var o := IndexExact(files, keys[i]);
      if files[o].path == files[k].path {
        assert o == k;
        assert FirstAnswer(files, keys, i, k);
      }
      if LeadsTo(files, keys[i], k) {
        LeadUnique(files, keys[i], o, k);
      }
    }
  }

  lemma OwnedIsAnswered(files: seq<FileIntelligence>, key: string, i: int)
    requires LeadsTo(files, key, i)
    ensures Answered(files, key)
  {
    hide Writes, Answers;
  }

  lemma StemsApart(files: seq<FileIntelligence>)
    requires DistinctStems(files)
    ensures DistinctPaths(files)
  {
    hide StemPath;
  }

  /** What stands under the path of file `k` without its extension. */
  lemma StemIndexed(files: seq<FileIntelligence>, k: nat)
    requires AllTs(files) && DistinctStems(files) && k < |files|
    ensures var key := StemPath(files[k].path); key in IndexOf(files) && IndexOf(files)[key] == files[k].path
  {
    hide StemPath, IndexOf, LeadsTo, Answered;
    var key := StemPath(files[k].path);
    StemOwned(files, k);
    OwnedIsAnswered(files, key, k);
    var i := IndexExact(files, key);
    LeadUnique(files, key, i, k);
  }

  /** One of the extensions is `suffix`, and no file answers to `cut` or to `cut` with an
      earlier one. */
  ghost predicate ReachedByExtension(files: seq<FileIntelligence>, cut: string, suffix: string) {
    exists m :: 0 <= m < |TS_EXTENSIONS| && TS_EXTENSIONS[m] == suffix
      && forall i :: 0 <= i <= m ==> !Answered(files, KeysFrom(cut)[i])
  }

  /** An import that spells the path from the importer to a file, without the file's own
      extension, finds that file exactly when what remains of the name has no extension of its
      own, or one of the four that are tried while no file answers to an earlier name:
      `./foo` finds foo.ts, `./foo.service` does not find foo.service.ts. */
  lemma TsRelativeResolves(files: seq<FileIntelligence>, k: nat, importer: FilePath, imp: string, n: nat,
                           aliases: seq<Alias>)
    requires AllTs(files) && DistinctStems(files) && k < |files|
    requires ApplyAliases(imp, aliases) == imp && StartsWith(imp, ".")
    requires ".." !in Dir(importer)
    requires var parts, dir := PartsNoExt(files[k].path), Dir(importer);
      && n <= |dir| && |dir| - n < |parts| && dir[..|dir| - n] == parts[..|dir| - n]
      && Segments(imp) == Ups(n) + parts[|dir| - n..]
    ensures var parts := PartsNoExt(files[k].path);
      ResolveTs(imp, importer, aliases, IndexOf(files)) == Some(files[k].path)
      <==> Suffix(Name(parts)) == "" || ReachedByExtension(files, StemText(parts), Suffix(Name(parts)))
  {
    hide Collapse, IndexOf, Segments, ApplyAliases, Suffix, Stem, FirstOf;
    var parts := PartsNoExt(files[k].path);
    assert files[k] in files;
    assert ".." !in parts;
    CollapseArrives(Dir(importer), parts, n);
    ProbeOfStem(files, k);
  }

  lemma ProbeOfStem(files: seq<FileIntelligence>, k: nat)
    requires AllTs(files) && DistinctStems(files) && k < |files|
    ensures var parts := PartsNoExt(files[k].path);
      ProbeTs(parts, IndexOf(files)) == Some(files[k].path)
      <==> Suffix(Name(parts)) == "" || ReachedByExtension(files, StemText(parts), Suffix(Name(parts)))
  {
    hide IndexOf, Suffix, Stem, FirstOf, StemText, KeysFrom, ProbeKeys, AllTs, DistinctStems, FirstAnswer,
      ReachedByExtension;
    StemsApart(files);
    var parts := PartsNoExt(files[k].path);
    var keys := ProbeKeys(parts);
    FirstOfExact(files, keys, k);
    if Suffix(Name(parts)) == "" {
      WholeStemFirst(files, k);
    } else {
      forall i | FirstAnswer(files, keys, i, k)
        ensures ReachedByExtension(files, StemText(parts), Suffix(Name(parts)))
      {
        OnlyByExtension(files, k, i);
      }
      if ReachedByExtension(files, StemText(parts), Suffix(Name(parts))) {
        var i := ByExtension(files, k);
      }
    }
  }

  lemma WholeStemFirst(files: seq<FileIntelligence>, k: nat)
    requires AllTs(files) && DistinctStems(files) && k < |files| && Suffix(Name(PartsNoExt(files[k].path))) == ""
    ensures FirstAnswer(files, ProbeKeys(PartsNoExt(files[k].path)), 0, k)
  {
    hide Suffix, Stem, StemText, LeadsTo, Join;
    var parts := PartsNoExt(files[k].path);
    StemOwned(files, k);
    ProbeKeysAt(parts);
    StemTextWhole(parts);
  }

  lemma OnlyByExtension(files: seq<FileIntelligence>, k: nat, i: int)
    requires AllTs(files) && k < |files| && Suffix(Name(PartsNoExt(files[k].path))) != ""
    requires FirstAnswer(files, ProbeKeys(PartsNoExt(files[k].path)), i, k)
    ensures var parts := PartsNoExt(files[k].path); ReachedByExtension(files, StemText(parts), Suffix(Name(parts)))
  {
    hide Suffix, Stem, StemText, KeysFrom, ProbeKeys, LeadsTo, Answered;
    var parts := PartsNoExt(files[k].path);
    ProbeKeysAt(parts);
    OwnKeyAmong(files, k, i);
    assert TS_EXTENSIONS[i - 1] == Suffix(Name(parts));
  }

  lemma ByExtension(files: seq<FileIntelligence>, k: nat) returns (i: int)
    requires AllTs(files) && DistinctStems(files) && k < |files|
    requires Suffix(Name(PartsNoExt(files[k].path))) != ""
    requires var parts := PartsNoExt(files[k].path); ReachedByExtension(files, StemText(parts), Suffix(Name(parts)))
    ensures FirstAnswer(files, ProbeKeys(PartsNoExt(files[k].path)), i, k)
  {
    hide Suffix, Stem, StemText, ProbeKeys, LeadsTo, Answered, Join;
    var parts := PartsNoExt(files[k].path);
    ProbeKeysAt(parts);
    StemTextCut(parts);
    StemOwned(files, k);
    var m :| 0 <= m < |TS_EXTENSIONS| && TS_EXTENSIONS[m] == Suffix(Name(parts))
      && forall i :: 0 <= i <= m ==> !Answered(files, KeysFrom(StemText(parts))[i]);
    i := m + 1;
  }

  lemma ProbeKeysAt(candidate: Path)
    ensures var keys, stem, indexStem := ProbeKeys(candidate), StemText(candidate), PathText(candidate + ["index"]);
      && |keys| == 10 && keys[0] == stem && keys[5] == indexStem
      && (forall i :: 0 <= i < 5 ==> keys[i] == KeysFrom(stem)[i])
      && (forall i :: 1 <= i < 5 ==> keys[i] == stem + TS_EXTENSIONS[i - 1])
      && (forall i :: 6 <= i < 10 ==> keys[i] == indexStem + TS_EXTENSIONS[i - 6])
  {
    hide StemText, PathText;
  }

  lemma StemTextWhole(candidate: FilePath)
    requires Suffix(Name(candidate)) == ""
    ensures StemText(candidate) == Join(candidate, '/')
  {
  }

  lemma StemTextCut(candidate: FilePath)
    requires Suffix(Name(candidate)) != ""
    ensures StemText(candidate) + Suffix(Name(candidate)) == Join(candidate, '/')
    ensures StemText(candidate) == Join(Dir(candidate) + [Stem(Name(candidate))], '/')
  {
    hide Join;
    var name := Name(candidate);
    assert name == Stem(name) + Suffix(name);
    JoinLast(Dir(candidate), Stem(name), Suffix(name));
    assert candidate == Dir(candidate) + [name];
  }

  /** Among the ten keys only the one with the inner extension put back can be one of the file. */
  lemma OwnKeyAmong(files: seq<FileIntelligence>, k: nat, i: int)
    requires AllTs(files) && k < |files|
    requires var parts := PartsNoExt(files[k].path);
      0 <= i < |ProbeKeys(parts)| && LeadsTo(files, ProbeKeys(parts)[i], k) && Suffix(Name(parts)) != ""
    ensures 1 <= i < 5 && TS_EXTENSIONS[i - 1] == Suffix(Name(PartsNoExt(files[k].path)))
  {
    hide Suffix, Stem, StemText, Join, PathKey;
    var target := files[k].path;
    var parts := PartsNoExt(target);
    var keys, suffix, cut, indexStem := ProbeKeys(parts), Suffix(Name(parts)), StemText(parts),
      PathText(parts + ["index"]);
    assert files[k] in files;
    ProbeKeysAt(parts);
    StemTextCut(parts);
    OwnedIsKey(files, keys[i], k);
    if i >= 5 {
      JoinSnoc(parts, "index");
      LongKeyMisses(keys[i], target);
    } else {
      CutHasSlash(parts);
      var e := if i == 0 then "" else TS_EXTENSIONS[i - 1];
      assert keys[i] == cut + e;
      if e != suffix {
        CutKeyMisses(cut, suffix, e, target);
      }
    }
  }

  lemma CutHasSlash(parts: FilePath)
    requires PlainPath(parts) && Suffix(Name(parts)) != ""
    ensures StemText(parts) != "" && (|parts| > 1 ==> '/' in StemText(parts))
  {
    hide Stem, StemText, Join, Suffix;
    var cut, name := StemText(parts), Name(parts);
    StemTextCut(parts);
    if |parts| > 1 {
      JoinSnoc(Dir(parts), Stem(name));
      assert cut[|Join(Dir(parts), '/')|] == '/';
    } else {
      assert Dir(parts) + [Stem(name)] == [Stem(name)];
      OneSegment([Stem(name)]);
      assert Stem(name) != "" by { StemOfSuffixed(name); }
    }
  }

  lemma StemOfSuffixed(name: string)
    requires Suffix(name) != ""
    ensures Stem(name) != ""
  {
  }

  /** An import that keeps the extension of a file finds that file. */
  lemma KeptExtensionResolves(files: seq<FileIntelligence>, k: nat, importer: FilePath, imp: string,
                              aliases: seq<Alias>)
    requires AllTs(files) && DistinctStems(files) && k < |files|
    requires ApplyAliases(imp, aliases) == imp && StartsWith(imp, ".")
    requires Collapse(Dir(importer) + Segments(imp)) == files[k].path
    ensures ResolveTs(imp, importer, aliases, IndexOf(files)) == Some(files[k].path)
  {
    hide Collapse, IndexOf, Segments, ApplyAliases, FirstOf, LeadsTo;
    var keys := ProbeKeys(files[k].path);
    StemsApart(files);
    FirstOfExact(files, keys, k);
    ProbeKeysAt(files[k].path);
    StemOwned(files, k);
    assert keys[0] == StemPath(files[k].path) by { StemTextOfFile(files[k].path); }
    assert FirstAnswer(files, keys, 0, k);
  }

  lemma StemTextOfFile(path: FilePath)
    ensures StemText(path) == StemPath(path)
  {
    if Suffix(Name(path)) == "" {
      assert PartsNoExt(path) == path;
    }
  }

  /** `n` times `../`. */
  function UpText(n: nat): string {
    if n == 0 then "" else "../" + UpText(n - 1)
  }

  /** A relative import as it is written: `n` directories up and down along `rest`. */
  function RelativeText(n: nat, rest: Path): string {
    (if n == 0 then "./" else UpText(n)) + Join(rest, '/')
  }

  lemma {:induction false} UpTextJoins(n: nat, rest: FilePath)
    ensures UpText(n) + Join(rest, '/') == Join(Ups(n) + rest, '/')
  {
    hide Join;
    if n == 0 {
      assert Ups(0) + rest == rest && "" + Join(rest, '/') == Join(rest, '/');
    } else {
      UpTextJoins(n - 1, rest);
      assert Ups(n) + rest == [".."] + (Ups(n - 1) + rest);
      JoinFirst("..", Ups(n - 1) + rest);
      assert UpText(n) + Join(rest, '/') == "../" + (UpText(n - 1) + Join(rest, '/'));
      assert "../" == ".." + "/";
    }
  }

  lemma JoinFirst(head: string, rest: FilePath)
    ensures Join([head] + rest, '/') == head + "/" + Join(rest, '/')
  {
    assert ([head] + rest)[1..] == rest;
  }

  lemma {:induction false} AllMeaningful(parts: seq<string>)
    requires forall p :: p in parts ==> p != "" && p != "."
    ensures Meaningful(parts) == parts
  {
    if parts != [] {
      assert parts[0] in parts && forall p :: p in parts[1..] ==> p in parts;
      AllMeaningful(parts[1..]);
      assert parts == [parts[0]] + parts[1..];
    }
  }

  /** The segments of a written import: one `..` per step up, then the names. */
  lemma SegmentsWritten(n: nat, rest: FilePath)
    requires PlainPath(rest)
    ensures Segments(RelativeText(n, rest)) == Ups(n) + rest
    ensures StartsWith(RelativeText(n, rest), ".")
  {
    hide Join, Split;
    assert forall p :: p in rest ==> PlainSegment(p);
    var parts := (if n == 0 then ["."] else Ups(n)) + rest;
    if n == 0 {
      JoinFirst(".", rest);
      assert "./" == "." + "/";
      assert Ups(0) + rest == rest;
    } else {
      UpTextJoins(n, rest);
      assert UpText(n)[..1] == ".";
    }
    assert RelativeText(n, rest) == Join(parts, '/');
    assert RelativeText(n, rest)[..1] == ".";
    SplitOfJoin(parts, '/');
    if n == 0 {
      assert parts[1..] == rest;
      AllMeaningful(rest);
    } else {
      AllMeaningful(parts);
    }
  }

  /** What a written import looks for: up from the directory of the importer, then down. */
  lemma WrittenCandidate(importer: FilePath, n: nat, rest: FilePath)
    requires PlainPath(rest) && ".." !in Dir(importer)
    ensures Collapse(Dir(importer) + Segments(RelativeText(n, rest))) == Up(Dir(importer), n) + rest
  {
    hide Segments, Collapse;
    SegmentsWritten(n, rest);
    CollapseUps(Dir(importer), n);
    assert ".." !in rest by { assert forall p :: p in rest ==> PlainSegment(p); }
    CollapseAppend(Dir(importer) + Ups(n), rest);
    assert Dir(importer) + (Ups(n) + rest) == Dir(importer) + Ups(n) + rest;
  }

  /** A text has the segments of its parts; empty parts and single dots have none. */
  lemma SegmentsThrough(a: string, b: string)
    ensures Segments(a + "/" + b) == Segments(a) + Segments(b)
    ensures Segments("") == Segments(".") == [] && Segments("..") == [".."]
    ensures PlainSegment(a) ==> Segments(a) == [a]
  {
    hide Split;
    SplitThrough(a, b, '/');
    assert a + "/" + b == a + ['/'] + b;
    MeaningfulApart(Split(a, '/'), Split(b, '/'));
    SplitFree("", '/');
    SplitFree(".", '/');
    SplitFree("..", '/');
    OneMeaningful("");
    OneMeaningful(".");
    OneMeaningful("..");
    if PlainSegment(a) {
      SplitFree(a, '/');
      OneMeaningful(a);
    }
  }

  lemma OneMeaningful(p: string)
    ensures Meaningful([p]) == if p == "" || p == "." then [] else [p]
  {
    assert [p][1..] == [] && Meaningful([]) == [];
  }

  lemma {:induction false} MeaningfulApart(a: seq<string>, b: seq<string>)
    ensures Meaningful(a + b) == Meaningful(a) + Meaningful(b)
  {
    if a == [] {
      assert a + b == b;
    } else {
      assert (a + b)[1..] == a[1..] + b;
      MeaningfulApart(a[1..], b);
    }
  }

  /** A name and the extensions it is tried with, in order. */
  function Tried(base: string): seq<string> {
    [base, base + ".ts", base + ".tsx", base + ".js", base + ".jsx"]
  }

  lemma TriedInOrder(base: string)
    ensures KeysFrom(base) == Tried(base)
  {
  }

  /** The ten names a relative import is looked up by: its path without the last extension, then
      the index file of the directory. */
  lemma LookupOrder(candidate: FilePath)
    ensures StemText(candidate) + Suffix(candidate[|candidate| - 1]) == Join(candidate, '/')
    ensures ProbeKeys(candidate) == Tried(StemText(candidate)) + Tried(Join(candidate, '/') + "/index")
  {
    hide Join, Suffix, StemText, KeysFrom, Tried;
    CutWhole(candidate);
    IndexText(candidate);
    TriedInOrder(StemText(candidate));
    TriedInOrder(Join(candidate, '/') + "/index");
  }

  /** At the root the dot itself is looked up, and then the index file there. */
  lemma RootLookup()
    ensures ProbeKeys([]) == Tried(".") + Tried("index")
  {
    hide KeysFrom, Tried;
    TriedInOrder(".");
    TriedInOrder("index");
  }

  lemma CutWhole(candidate: FilePath)
    ensures StemText(candidate) + Suffix(Name(candidate)) == Join(candidate, '/')
  {
    hide Join, Suffix, StemText;
    if Suffix(Name(candidate)) == "" {
      StemTextWhole(candidate);
      assert StemText(candidate) + "" == StemText(candidate);
    } else {
      StemTextCut(candidate);
    }
  }

  lemma IndexText(candidate: FilePath)
    ensures PathText(candidate + ["index"]) == Join(candidate, '/') + "/index"
  {
    hide Join;
    JoinSnoc(candidate, "index");
    assert Join(candidate, '/') + "/" + "index" == Join(candidate, '/') + "/index";
  }

  /** `TsRelativeResolves` for the import as it is written. */
  lemma WrittenImportResolves(files: seq<FileIntelligence>, k: nat, importer: FilePath, n: nat, rest: FilePath,
                              aliases: seq<Alias>)
    requires AllTs(files) && DistinctStems(files) && k < |files|
    requires ApplyAliases(RelativeText(n, rest), aliases) == RelativeText(n, rest)
    requires PlainPath(rest) && ".." !in Dir(importer)
    requires PartsNoExt(files[k].path) == Up(Dir(importer), n) + rest
    ensures ResolveTs(RelativeText(n, rest), importer, aliases, IndexOf(files)) == Some(files[k].path)
      <==> Suffix(Name(rest)) == ""
           || ReachedByExtension(files, StemText(Up(Dir(importer), n) + rest), Suffix(Name(rest)))
  {
    hide Collapse, IndexOf, Segments, ApplyAliases, Suffix, Stem, FirstOf, StemText, RelativeText, ReachedByExtension;
    SegmentsWritten(n, rest);
    WrittenCandidate(importer, n, rest);
    ProbeOfStem(files, k);
  }

  lemma {:induction false} JoinLast(dir: Path, x: string, y: string)
    ensures Join(dir + [x + y], '/') == Join(dir + [x], '/') + y
  {
    if dir != [] {
      assert (dir + [x + y])[1..] == dir[1..] + [x + y] && (dir + [x])[1..] == dir[1..] + [x];
      JoinLast(dir[1..], x, y);
    }
  }

  lemma {:induction false} JoinSnoc(dir: FilePath, x: string)
    ensures Join(dir + [x], '/') == Join(dir, '/') + "/" + x
  {
    if |dir| > 1 {
      assert (dir + [x])[1..] == dir[1..] + [x];
      JoinSnoc(dir[1..], x);
    }
  }

  /** A key longer than every key of the file, or with a slash no key but the rooted ones has. */
  lemma LongKeyMisses(key: string, target: FilePath)
    requires |key| > |StemPath(target)| + 2
    ensures !KeyFor(key, target)
  {
    var parts := PartsNoExt(target);
    if |parts| > 1 {
      JoinSnoc(Dir(parts), Name(parts));
      assert Dir(parts) + [Name(parts)] == parts;
    }
  }

  /** The text cut before the inner extension, with anything but that extension put back, is no key of the file. */
  lemma CutKeyMisses(cut: string, suffix: string, e: string, target: FilePath)
    requires PlainPath(PartsNoExt(target))
    requires cut != "" && StemPath(target) == cut + suffix && suffix != ""
    requires e != suffix && (e == "" || e[0] == '.')
    requires |PartsNoExt(target)| > 1 ==> '/' in cut
    ensures !KeyFor(cut + e, target)
  {
    hide Join, Stem;
    var parts, key, s := PartsNoExt(target), cut + e, StemPath(target);
    PlainText(parts);
    assert PlainSegment(Name(parts));
    assert key[0] == cut[0] == s[0];
    assert key != s by {
      assert key[|cut|..] == e && s[|cut|..] == suffix;
    }
    assert ("./" + s)[1] == '/' && ("/" + s)[0] == '/';
    assert |cut| >= 2 ==> key[..2] == s[..2];
    assert ("./" + s)[..2] == "./";
    if |parts| == 1 {
      OneSegment(parts);
    }
    assert '/' in cut ==> '/' in key;
  }

  lemma OneSegment(parts: FilePath)
    requires |parts| == 1
    ensures Join(parts, '/') == Name(parts)
  {
  }

  /** `./foo.service` does not find lib/foo.service.ts from a file beside it. */
  lemma ServiceFileMissed(importer: FilePath, imp: string)
    requires Dir(importer) == ["lib"] && Segments(imp) == ["foo.service"] && StartsWith(imp, ".")
    ensures var files := [FileIntelligence(["lib", "foo.service.ts"], TypeScript, [], false)];
      ResolveTs(imp, importer, [], IndexOf(files)) != Some(["lib", "foo.service.ts"])
  {
    hide ResolveTs, IndexOf, Stem, Suffix, Segments, StemText, Answered, PlainSegment, StemPath;
    var path: FilePath := ["lib", "foo.service.ts"];
    var files := [FileIntelligence(path, TypeScript, [], false)];
    ServiceNames();
    assert PartsNoExt(path) == ["lib", "foo.service"];
    assert Ups(0) + PartsNoExt(path)[1..] == ["foo.service"];
    TsRelativeResolves(files, 0, importer, imp, 0, []);
  }

  lemma ServiceNames()
    ensures Stem("foo.service.ts") == "foo.service" && Suffix("foo.service") == ".service"
    ensures PlainSegment("lib") && PlainSegment("foo.service") && ".service" !in TS_EXTENSIONS
  {
    ServiceStem();
    ServiceSuffix();
    NotAnExtension(".service");
  }

  lemma ServiceStem()
    ensures Stem("foo.service.ts") == "foo.service"
  {
    hide Stem, Suffix;
    StemAndSuffix("foo.service", "ts");
    assert "foo.service.ts" == "foo.service" + ['.'] + "ts";
  }

  lemma ServiceSuffix()
    ensures Suffix("foo.service") == ".service"
  {
    hide Stem, Suffix;
    StemAndSuffix("foo", "service");
    assert "foo.service" == "foo" + ['.'] + "service";
    assert ['.'] + "service" == ".service";
  }

  lemma NotAnExtension(suffix: string)
    requires |suffix| > 4
    ensures suffix !in TS_EXTENSIONS
  {
  }

  /** The names under which a script is indexed: its path without extension, as it is, with
      `./` and with `/` in front. */
  lemma ScriptKeys(files: seq<FileIntelligence>, k: nat)
    requires AllTs(files) && DistinctStems(files) && k < |files|
    ensures var s, index := StemPath(files[k].path), IndexOf(files);
      && s in index && index[s] == files[k].path
      && "./" + s in index && index["./" + s] == files[k].path
      && "/" + s in index && index["/" + s] == files[k].path
  {
    hide StemPath, IndexOf;
    var s := StemPath(files[k].path);
    PathKeyLeads(files, k, s);
    PathKeyLeads(files, k, "./" + s);
    PathKeyLeads(files, k, "/" + s);
  }

  lemma PathKeyLeads(files: seq<FileIntelligence>, k: nat, key: string)
    requires AllTs(files) && DistinctStems(files) && k < |files| && PathKey(key, files[k].path)
    ensures key in IndexOf(files) && IndexOf(files)[key] == files[k].path
  {
    hide PathKey, IndexOf, AllTs, DistinctStems;
    forall j | 0 <= j < |files| && PathKey(key, files[j].path)
      ensures j == k
    {
      SameStem(files, j, k, key);
    }
    KeyOfScript(files, k, key);
  }

  lemma KeyOfScript(files: seq<FileIntelligence>, k: nat, key: string)
    requires AllTs(files) && k < |files| && PathKey(key, files[k].path)
    requires forall j :: 0 <= j < |files| && PathKey(key, files[j].path) ==> j == k
    ensures key in IndexOf(files) && IndexOf(files)[key] == files[k].path
  {
    hide IndexOf, LeadsTo, Answered;
    assert LeadsTo(files, key, k) by { OnlyWriterLeads(files, k, key); }
    OwnedIsAnswered(files, key, k);
    var i := IndexExact(files, key);
    LeadUnique(files, key, i, k);
  }

  lemma OnlyWriterLeads(files: seq<FileIntelligence>, k: nat, key: string)
    requires AllTs(files) && k < |files| && PathKey(key, files[k].path)
    requires forall j :: 0 <= j < |files| && PathKey(key, files[j].path) ==> j == k
    ensures LeadsTo(files, key, k)
  {
    hide PathKey, Stem, Carries, Dotted, PlainPath;
    assert forall j :: 0 <= j < |files| ==> files[j] in files;
  }

  /** Plain paths written with and without a prefix never meet another plain path. */
  lemma SameStem(files: seq<FileIntelligence>, j: nat, k: nat, key: string)
    requires AllTs(files) && DistinctStems(files) && j < |files| && k < |files|
    requires PathKey(key, files[j].path) && PathKey(key, files[k].path)
    ensures j == k
  {
    hide StemPath, Stem;
    var a, b := StemPath(files[j].path), StemPath(files[k].path);
    NotRooted(files, j, b);
    NotRooted(files, k, a);
    assert ("./" + a)[0] != ("/" + b)[0] && ("/" + a)[0] != ("./" + b)[0];
    assert "./" + a == "./" + b ==> a == b by { assert ("./" + a)[2..] == a && ("./" + b)[2..] == b; }
    assert "/" + a == "/" + b ==> a == b by { assert ("/" + a)[1..] == a && ("/" + b)[1..] == b; }
    assert forall x, y :: 0 <= x < y < |files| ==> StemPath(files[x].path) != StemPath(files[y].path);
  }

  /** An import from the root, with any number of slashes in front, finds the file whose path
      without extension it spells. */
  lemma RootedImportResolves(files: seq<FileIntelligence>, k: nat, importer: FilePath, n: nat, aliases: seq<Alias>)
    requires AllTs(files) && DistinctStems(files) && k < |files|
    requires var imp := Repeat('/', n) + StemPath(files[k].path);
      ApplyAliases(imp, aliases) == imp && !StartsWith(imp, ".")
    ensures var imp := Repeat('/', n) + StemPath(files[k].path);
      ResolveTs(imp, importer, aliases, IndexOf(files)) == Some(files[k].path)
  {
    hide StemPath, IndexOf, ApplyAliases, StartsWith, ProbeTs;
    var s := StemPath(files[k].path);
    var imp := Repeat('/', n) + s;
    NotRooted(files, k, s[if |s| > 0 then 1 else 0..]);
    assert s != "" && s[0] != '/' by { StemIsPlain(files, k); }
    StripRepeated('/', n, s);
    ScriptKeys(files, k);
    if n == 0 {
      assert imp == s;
    } else if n == 1 {
      assert Repeat('/', 1) == "/";
    } else {
      assert imp[0] == imp[1] == '/';
      DoubleSlashMisses(files, imp);
    }
  }

  lemma StemIsPlain(files: seq<FileIntelligence>, k: nat)
    requires AllTs(files) && k < |files|
    ensures var s := StemPath(files[k].path); s != "" && s[0] != '/'
  {
    hide Join, Stem;
    assert files[k] in files;
    PlainText(PartsNoExt(files[k].path));
  }

  lemma DoubleSlashMisses(files: seq<FileIntelligence>, key: string)
    requires AllTs(files) && |key| >= 2 && key[0] == key[1] == '/'
    ensures key !in IndexOf(files)
  {
    hide IndexOf, StemPath, Stem, Carries;
    var i := IndexExact(files, key);
    forall j | 0 <= j < |files|
      ensures !Answers(files[j], key)
    {
      assert files[j] in files;
      StemIsPlain(files, j);
      var s := StemPath(files[j].path);
      assert ("/" + s)[1] == s[0] && ("./" + s)[0] == '.';
      NameIsPlain(files[j].path);
    }
  }

  lemma NameIsPlain(path: FilePath)
    requires PlainPath(PartsNoExt(path))
    ensures '/' !in Stem(Name(path))
  {
    hide Stem;
    assert Stem(Name(path)) in PartsNoExt(path);
    assert PlainSegment(Stem(Name(path)));
  }

  // ---------------------------------------------------------------------------
  // What aliased resolution promises
  // ---------------------------------------------------------------------------

  /** `@/x` finds the file whose path without extension is src/x. */
  lemma AliasedImportResolves(files: seq<FileIntelligence>, k: nat, importer: FilePath, rest: string)
    requires AllTs(files) && DistinctStems(files) && k < |files|
    requires StemPath(files[k].path) == "src/" + rest
    ensures ResolveTs("@/" + rest, importer, DEFAULT_ALIASES, IndexOf(files)) == Some(files[k].path)
  {
    hide IndexOf, StemPath, ProbeTs;
    AliasedKey(rest);
    StemIndexed(files, k);
  }

  lemma AliasedKey(rest: string)
    ensures ApplyAliases("@/" + rest, DEFAULT_ALIASES) == "src/" + rest
    ensures !StartsWith("src/" + rest, ".") && StripLeft("src/" + rest, '/') == "src/" + rest
  {
    hide ApplyAliases;
    DefaultRewrites("@/" + rest);
    assert ("@/" + rest)[1..] == "/" + rest && "src" + ("/" + rest) == "src/" + rest;
    assert ("src/" + rest)[0] == 's' && "."[0] == '.';
  }

  ghost predicate AnsweredByOther(files: seq<FileIntelligence>, key: string, k: nat) {
    exists j :: 0 <= j < |files| && j != k && Answers(files[j], key)
  }

  /** A relative import of a directory finds the index file in it exactly when no other file
      answers to the name of the directory, with or without an extension. (The one exception
      is a directory that is itself called index, whose name is also a key of the file.) */
  lemma RelativeDirectoryResolves(files: seq<FileIntelligence>, k: nat, importer: FilePath, imp: string,
                                  aliases: seq<Alias>, dir: FilePath)
    requires AllTs(files) && DistinctStems(files) && k < |files|
    requires ApplyAliases(imp, aliases) == imp && StartsWith(imp, ".")
    requires Collapse(Dir(importer) + Segments(imp)) == dir
    requires PartsNoExt(files[k].path) == dir + ["index"]
    ensures ResolveTs(imp, importer, aliases, IndexOf(files)) == Some(files[k].path)
      <==> (StemText(dir) == "index" && LeadsTo(files, "index", k))
           || forall i :: 0 <= i < 5 ==> !AnsweredByOther(files, KeysFrom(StemText(dir))[i], k)
  {
    hide IndexOf, ApplyAliases, Collapse, Segments, StemText, FirstOf, LeadsTo, Answered, AnsweredByOther, StemPath;
    var keys := ProbeKeys(dir);
    StemsApart(files);
    FirstOfExact(files, keys, k);
    ProbeKeysAt(dir);
    StemOwned(files, k);
    assert keys[5] == StemPath(files[k].path) by { IndexKey(files[k].path, dir); }
    forall i | 0 <= i < 5
      ensures KeyFor(keys[i], files[k].path) ==> i == 0 && keys[0] == "index"
      ensures Answered(files, keys[i]) <==> AnsweredByOther(files, keys[i], k) || KeyFor(keys[i], files[k].path)
    {
      OwnDirectoryKey(files[k].path, dir, i);
      SelfOrOther(files, keys[i], k);
    }
    forall i | FirstAnswer(files, keys, i, k) && i > 0
      ensures i >= 5
    {
      OwnedIsKey(files, keys[i], k);
    }
    if FirstAnswer(files, keys, 0, k) {
      OwnedIsKey(files, keys[0], k);
    }
    if !AnsweredByOther(files, keys[0], k) && KeyFor(keys[0], files[k].path) {
      OnlyOneAnswers(files, keys[0], k);
      assert FirstAnswer(files, keys, 0, k);
    }
    if forall i :: 0 <= i < 5 ==> !Answered(files, keys[i]) {
      assert FirstAnswer(files, keys, 5, k);
    }
  }

  lemma IndexKey(target: FilePath, dir: FilePath)
    requires PartsNoExt(target) == dir + ["index"]
    ensures PathText(dir + ["index"]) == StemPath(target)
  {
  }

  lemma SelfOrOther(files: seq<FileIntelligence>, key: string, k: nat)
    requires AllTs(files) && k < |files|
    ensures Answered(files, key) <==> AnsweredByOther(files, key, k) || KeyFor(key, files[k].path)
  {
    hide PathKey, Stem, Carries;
    assert files[k] in files;
    assert Answers(files[k], key) <==> KeyFor(key, files[k].path);
  }

  lemma OwnedIsKey(files: seq<FileIntelligence>, key: string, k: nat)
    requires AllTs(files) && LeadsTo(files, key, k)
    ensures KeyFor(key, files[k].path)
  {
    hide PathKey, Stem, Carries, PlainPath;
    assert files[k] in files;
  }

  lemma OnlyOneAnswers(files: seq<FileIntelligence>, key: string, k: nat)
    requires AllTs(files) && k < |files| && KeyFor(key, files[k].path) && !AnsweredByOther(files, key, k)
    ensures LeadsTo(files, key, k)
  {
    hide PathKey, Stem, Carries, Dotted;
    assert files[k] in files;
    forall j | 0 <= j < |files| && j != k
      ensures !Answers(files[j], key) && !Writes(files[j], key)
    {
      assert files[j] in files;
    }
  }

  /** Of the names tried for a directory, its index file answers to at most the plain `index`. */
  lemma OwnDirectoryKey(target: FilePath, dir: FilePath, i: int)
    requires PartsNoExt(target) == dir + ["index"] && 0 <= i < 5
    ensures KeyFor(KeysFrom(StemText(dir))[i], target) ==> i == 0 && StemText(dir) == "index"
  {
    hide StemText, Stem, Join;
    var stem := StemText(dir);
    JoinSnoc(dir, "index");
    StemTextShort(dir);
    assert |KeysFrom(stem)[i]| <= |Join(dir, '/')| + 4 < |StemPath(target)|;
    assert Name(PartsNoExt(target)) == "index";
    if i > 0 {
      var key := KeysFrom(stem)[i];
      assert key[|stem|] == '.';
      assert forall c :: c in "index" ==> c != '.';
    }
  }

  lemma StemTextShort(dir: FilePath)
    ensures |StemText(dir)| <= |Join(dir, '/')|
  {
    hide Join, Stem, Suffix;
    if Suffix(Name(dir)) == "" {
      StemTextWhole(dir);
    } else {
      StemTextCut(dir);
    }
  }

  /** An aliased import of a directory is documented to find its index file and never does:
      the aliased branch asks for the name itself only. */
  lemma AliasedDirectoryMissed(files: seq<FileIntelligence>, k: nat, importer: FilePath, rest: string)
    requires AllTs(files) && k < |files|
    requires StemPath(files[k].path) == "src/" + rest + "/index" && Stem(Name(files[k].path)) == "index"
    ensures ResolveTs("@/" + rest, importer, DEFAULT_ALIASES, IndexOf(files)) != Some(files[k].path)
  {
    hide IndexOf, StemPath, ProbeTs, Stem, KeyFor;
    AliasedKey(rest);
    var key := "src/" + rest;
    DirectoryIsNoKey(key, files[k].path);
    if key in IndexOf(files) && IndexOf(files)[key] == files[k].path {
      var i := IndexExact(files, key);
      OwnedIsKey(files, key, i);
    }
  }

  lemma DirectoryIsNoKey(key: string, path: FilePath)
    requires |StemPath(path)| > |key| && Stem(Name(path)) == "index" && |key| >= 4 && key[3] == '/'
    ensures !KeyFor(key, path)
  {
    hide StemPath, Stem;
    assert "index"[3] == 'e';
  }
}
