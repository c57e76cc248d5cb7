/** Which files a scan fetches, in what batches, and what it reports. */
module ScanBatches {

  datatype Role = Entrypoint | Service | Schema | Config | CodeModule | Utility | Infra | Migration | Test | Unknown

  /** A tree item with the path checks already made: `inSkipDir` for a skipped directory,
      `skipExtension` and `assetExtension` for the two (different) extension lists. */
  datatype TreeItem = TreeItem(
    path: string, isBlob: bool, size: nat, role: Role,
    inSkipDir: bool, skipExtension: bool, assetExtension: bool, generated: bool
  )

  // ---------------------------------------------------------------------------
  // Priority
  // ---------------------------------------------------------------------------

  datatype Key = Key(major: int, minor: int)

  predicate AtMost(a: Key, b: Key) {
    a.major < b.major || (a.major == b.major && a.minor <= b.minor)
  }

  function RolePriority(r: Role): int {
    match r
    case Entrypoint => 1
    case Service => 2
    case Schema => 3
    case Config => 4
    case CodeModule => 5
    case Utility => 6
    case Infra => 7
    case Migration => 8
    case Test => 9
    case Unknown => 10
  }

  function KeyOf(item: TreeItem): Key {
    if !item.isBlob then Key(999, 0)
    else if item.inSkipDir then Key(998, 0)
    else if item.assetExtension then Key(997, 0)
    else Key(RolePriority(item.role), if item.size / 10000 <= 5 then item.size / 10000 else 5)
  }

  function Insert(x: TreeItem, s: seq<TreeItem>): seq<TreeItem> {
    if s == [] || AtMost(KeyOf(x), KeyOf(s[0])) then [x] + s else [s[0]] + Insert(x, s[1..])
  }

  /** Stable sort by key. */
  function Prioritize(s: seq<TreeItem>): seq<TreeItem> {
    if s == [] then [] else Insert(s[0], Prioritize(s[1..]))
  }

  ghost predicate SortedByKey(s: seq<TreeItem>) {
    forall i, j :: 0 <= i < j < |s| ==> AtMost(KeyOf(s[i]), KeyOf(s[j]))
  }

  function WithKey(s: seq<TreeItem>, k: Key): seq<TreeItem> {
    if s == [] then [] else (if KeyOf(s[0]) == k then [s[0]] else []) + WithKey(s[1..], k)
  }

  lemma {:induction false} InsertKeeps(x: TreeItem, s: seq<TreeItem>)
    ensures multiset(Insert(x, s)) == multiset(s) + multiset{x}
    ensures forall y :: y in Insert(x, s) <==> y == x || y in s
  {
    hide KeyOf, AtMost;
    if s != [] && !AtMost(KeyOf(x), KeyOf(s[0])) {
      InsertKeeps(x, s[1..]);
      assert s == [s[0]] + s[1..];
    }
  }

  lemma {:induction false} InsertSorted(x: TreeItem, s: seq<TreeItem>)
    requires SortedByKey(s)
    ensures SortedByKey(Insert(x, s))
  {
    hide KeyOf;
    if s == [] {
    } else if AtMost(KeyOf(x), KeyOf(s[0])) {
      forall j | 0 <= j < |s|
        ensures AtMost(KeyOf(x), KeyOf(s[j]))
      {
      }
    } else {
      var r := Insert(x, s[1..]);
      InsertSorted(x, s[1..]);
      InsertKeeps(x, s[1..]);
      forall j | 0 <= j < |r|
        ensures AtMost(KeyOf(s[0]), KeyOf(r[j]))
      {
        assert r[j] in r;
        assert r[j] == x || r[j] in s[1..];
      }
    }
  }

  lemma {:induction false} InsertStable(x: TreeItem, s: seq<TreeItem>, k: Key)
    ensures WithKey(Insert(x, s), k) == WithKey([x] + s, k)
  {
    hide KeyOf;
    assert ([x] + s)[1..] == s;
    if s != [] && !AtMost(KeyOf(x), KeyOf(s[0])) {
      InsertStable(x, s[1..], k);
      assert s == [s[0]] + s[1..];
      assert ([x] + s[1..])[1..] == s[1..];
    }
  }

  /** Sorted by key, nothing lost or added, and items of one key in their old order. */
  lemma {:induction false} PrioritizeExact(s: seq<TreeItem>, k: Key)
    ensures SortedByKey(Prioritize(s))
    ensures multiset(Prioritize(s)) == multiset(s)
    ensures WithKey(Prioritize(s), k) == WithKey(s, k)
  {
    if s != [] {
      PrioritizeExact(s[1..], k);
      InsertKeeps(s[0], Prioritize(s[1..]));
      InsertSorted(s[0], Prioritize(s[1..]));
      InsertStable(s[0], Prioritize(s[1..]), k);
      assert s == [s[0]] + s[1..];
      assert ([s[0]] + Prioritize(s[1..]))[1..] == Prioritize(s[1..]);
    }
  }

  // ---------------------------------------------------------------------------
  // Selection
  // ---------------------------------------------------------------------------

  predicate Scannable(item: TreeItem) {
    item.isBlob && !(item.inSkipDir || item.skipExtension) && !item.generated
  }

  function ScannableOf(tree: seq<TreeItem>): seq<TreeItem> {
    if tree == [] then []
    else ScannableOf(tree[..|tree| - 1]) + if Scannable(tree[|tree| - 1]) then [tree[|tree| - 1]] else []
  }

  /** Slice up to `n`; a negative bound counts from the end. */
  function UpTo(s: seq<TreeItem>, n: int): seq<TreeItem> {
    if n >= 0 then (if n <= |s| then s[..n] else s)
    else if |s| + n >= 0 then s[..|s| + n] else []
  }

  const MAX_FILES := 800
  const MAX_FILE_CHARS := 150000
  const MAX_TOTAL_BYTES := 50000000
  const BATCH := 30

  function Attempted(tree: seq<TreeItem>, maxFiles: int): seq<TreeItem> {
    UpTo(Prioritize(ScannableOf(tree)), if maxFiles <= MAX_FILES then maxFiles else MAX_FILES)
  }

  // ---------------------------------------------------------------------------
  // Fetching
  // ---------------------------------------------------------------------------

  /** How many bytes of UTF-8 a character takes. */
  datatype Width = One | Two | Three | Four

  function WidthOf(w: Width): nat {
    match w
    case One => 1
    case Two => 2
    case Three => 3
    case Four => 4
  }

  function Utf8Length(text: seq<Width>): nat {
    if text == [] then 0 else WidthOf(text[0]) + Utf8Length(text[1..])
  }

  lemma {:induction false} Utf8AtMostFour(text: seq<Width>)
    ensures |text| <= Utf8Length(text) <= 4 * |text|
  {
    if text != [] {
      Utf8AtMostFour(text[1..]);
    }
  }

  datatype Fetched = Content(text: seq<Width>) | NoContent

  datatype FileRecord = FileRecord(path: string, failed: bool, stored: nat)

  function StoredBytes(text: seq<Width>): (n: nat)
    ensures n <= 4 * MAX_FILE_CHARS
  {
    var kept := if |text| <= MAX_FILE_CHARS then text else text[..MAX_FILE_CHARS];
    Utf8AtMostFour(kept);
    Utf8Length(kept)
  }

  function RecordFor(path: string, fetch: string -> Fetched): FileRecord {
    match fetch(path)
    case Content(text) => FileRecord(path, false, StoredBytes(text))
    case NoContent => FileRecord(path, true, 0)
  }

  function Paths(items: seq<TreeItem>): seq<string> {
    seq(|items|, i requires 0 <= i < |items| => items[i].path)
  }

  function RecordPaths(records: seq<FileRecord>): seq<string> {
    seq(|records|, i requires 0 <= i < |records| => records[i].path)
  }

  function FailedCount(records: seq<FileRecord>): nat {
    if records == [] then 0 else FailedCount(records[..|records| - 1]) + if records[|records| - 1].failed then 1 else 0
  }

  function TotalStored(records: seq<FileRecord>): nat {
    if records == [] then 0 else TotalStored(records[..|records| - 1]) + records[|records| - 1].stored
  }

  lemma {:induction false} RecordsConcat(a: seq<FileRecord>, b: seq<FileRecord>)
    ensures FailedCount(a + b) == FailedCount(a) + FailedCount(b)
    ensures TotalStored(a + b) == TotalStored(a) + TotalStored(b)
    ensures RecordPaths(a + b) == RecordPaths(a) + RecordPaths(b)
  {
    if b == [] {
      assert a + b == a;
    } else {
      RecordsConcat(a, b[..|b| - 1]);
      assert (a + b)[..|a + b| - 1] == a + b[..|b| - 1];
    }
  }

  lemma {:induction false} FailedAtMostAll(records: seq<FileRecord>)
    ensures FailedCount(records) <= |records|
  {
    if records != [] {
      FailedAtMostAll(records[..|records| - 1]);
    }
  }

  ghost predicate FetchedBy(records: seq<FileRecord>, fetch: string -> Fetched) {
    forall r :: r in records ==> r == RecordFor(r.path, fetch)
  }

  lemma RecordsAppend(records: seq<FileRecord>, r: FileRecord)
    ensures FailedCount(records + [r]) == FailedCount(records) + if r.failed then 1 else 0
    ensures TotalStored(records + [r]) == TotalStored(records) + r.stored
    ensures multiset(RecordPaths(records + [r])) == multiset(RecordPaths(records)) + multiset{r.path}
  {
    assert (records + [r])[..|records|] == records;
    assert RecordPaths(records + [r]) == RecordPaths(records) + [r.path];
  }

  function Without(left: seq<string>, k: nat): seq<string>
    requires k < |left|
  {
    left[..k] + left[k + 1..]
  }

  lemma WithoutExact(left: seq<string>, k: nat)
    requires k < |left|
    ensures multiset(left) == multiset(Without(left, k)) + multiset{left[k]} && |Without(left, k)| == |left| - 1
  {
    assert left == left[..k] + [left[k]] + left[k + 1..];
  }

  /** One batch: its files complete in any order, each with one record. */
  method FetchBatch(batch: seq<TreeItem>, fetch: string -> Fetched)
      returns (records: seq<FileRecord>, failed: nat, bytes: nat)
    ensures multiset(RecordPaths(records)) == multiset(Paths(batch)) && |records| == |batch|
    ensures FetchedBy(records, fetch)
    ensures failed == FailedCount(records) && bytes == TotalStored(records)
    ensures bytes <= |batch| * 4 * MAX_FILE_CHARS
  {
    hide StoredBytes, FailedCount, TotalStored, RecordPaths, Paths, Without;
    records, failed, bytes := [], 0, 0;
    StartBatch();
    var left := Paths(batch);
    assert |left| == |batch| by { PathsLength(batch); }
    while left != []
      invariant multiset(RecordPaths(records)) + multiset(left) == multiset(Paths(batch))
      invariant |records| + |left| == |batch|
      invariant FetchedBy(records, fetch)
      invariant failed == FailedCount(records) && bytes == TotalStored(records)
      invariant bytes <= |records| * 4 * MAX_FILE_CHARS
      decreases |left|
    {
      var k :| 0 <= k < |left|;
      var path := left[k];
      WithoutExact(left, k);
      RecordsAppend(records, RecordFor(path, fetch));
      match fetch(path) {
        case NoContent =>
          failed := failed + 1;
          records := records + [FileRecord(path, true, 0)];
        case Content(text) =>
          var stored := StoredBytes(text);
          bytes := bytes + stored;
          records := records + [FileRecord(path, false, stored)];
      }
      left := Without(left, k);
    }
    assert multiset(left) == multiset{};
  }

  lemma StartBatch()
    ensures FailedCount([]) == 0 && TotalStored([]) == 0 && RecordPaths([]) == []
  {
  }

  lemma PathsLength(items: seq<TreeItem>)
    ensures |Paths(items)| == |items|
  {
  }

  // ---------------------------------------------------------------------------
  // The scan
  // ---------------------------------------------------------------------------

  datatype ScanReport = ScanReport(
    records: seq<FileRecord>, totalFiles: nat, filesScanned: int, filesSkipped: int, filesFailed: nat, bytesFetched: nat
  )

  /** The first `done` files of the plan were fetched, no other, and each has one record. */
  ghost predicate Fetches(records: seq<FileRecord>, plan: seq<TreeItem>, done: nat, fetch: string -> Fetched) {
    && done <= |plan|
    && |records| == done
    && multiset(RecordPaths(records)) == multiset(Paths(plan[..done]))
    && FetchedBy(records, fetch)
  }

  method FilterTree(tree: seq<TreeItem>) returns (scannable: seq<TreeItem>, skippedGenerated: nat)
    ensures scannable == ScannableOf(tree)
    ensures skippedGenerated <= |tree| - |scannable|
  {
    scannable, skippedGenerated := [], 0;
    for i := 0 to |tree|
      invariant scannable == ScannableOf(tree[..i]) && skippedGenerated + |scannable| <= i
    {
      assert tree[..i + 1][..i] == tree[..i];
      var item := tree[i];
      if item.isBlob {
        if (item.inSkipDir || item.skipExtension) || item.generated {
          skippedGenerated := skippedGenerated + 1;
        } else {
          scannable := scannable + [item];
        }
      }
    }
    assert tree[..|tree|] == tree;
  }

  /** Bytes a list of files adds to what is stored, in whatever order they complete. */
  function StoredFor(items: seq<TreeItem>, fetch: string -> Fetched): nat {
    if items == [] then 0
    else StoredFor(items[..|items| - 1], fetch) + RecordFor(items[|items| - 1].path, fetch).stored
  }

  /** The boundary after batch `b` lies inside the plan, and there the clock has run out or
      the files before it are over the byte budget. */
  predicate StopsAt(plan: seq<TreeItem>, fetch: string -> Fetched, late: nat -> bool, b: nat) {
    0 < b && b * BATCH < |plan| && (late(b) || StoredFor(plan[..b * BATCH], fetch) > MAX_TOTAL_BYTES)
  }

  /** Where the loop ends: at the first boundary that stops it, else at the end of the plan. */
  ghost predicate EndsAt(plan: seq<TreeItem>, fetch: string -> Fetched, late: nat -> bool, done: nat) {
    && done <= |plan|
    && (done < |plan| ==> done % BATCH == 0 && StopsAt(plan, fetch, late, done / BATCH))
    && forall b: nat :: b * BATCH < done ==> !StopsAt(plan, fetch, late, b)
  }

  /** `late(b)` says whether the clock has run out after batch `b`. */
  method Scan(tree: seq<TreeItem>, maxFiles: int, fetch: string -> Fetched, late: nat -> bool)
      returns (report: ScanReport, ghost done: nat)
    ensures var plan := Attempted(tree, maxFiles);
      && EndsAt(plan, fetch, late, done)
      && Fetches(report.records, plan, done, fetch)
      && report.filesSkipped + |plan| == |tree|
      && report.filesScanned == |plan| - report.filesFailed
      && (report.filesScanned == ParsedCount(report.records) <==> forall b: nat :: !StopsAt(plan, fetch, late, b))
    ensures report.totalFiles == |tree|
    ensures report.filesFailed == FailedCount(report.records)
    ensures report.bytesFetched == TotalStored(report.records)
    ensures report.bytesFetched <= 50000000 + 30 * 4 * 150000
  {
    hide Fetches, FailedCount, TotalStored, ScannableOf, Prioritize, UpTo, StoredFor;
    var scannable, _ := FilterTree(tree);
    var plan := UpTo(Prioritize(scannable), if maxFiles <= MAX_FILES then maxFiles else MAX_FILES);
    var attempted := |plan|;
    var records: seq<FileRecord>, failed, bytes, start, ran := [], 0, 0, 0, 0;
    StartScan(plan, fetch);
    while start < attempted
      invariant start == if ran * BATCH <= attempted then ran * BATCH else attempted
      invariant Fetches(records, plan, start, fetch)
      invariant failed == FailedCount(records) && bytes == TotalStored(records)
      invariant bytes <= MAX_TOTAL_BYTES
      invariant forall b: nat :: b <= ran ==> !StopsAt(plan, fetch, late, b)
      decreases attempted - start
    {
      var stop := if start + BATCH <= attempted then start + BATCH else attempted;
      var more, f, b := FetchBatch(plan[start..stop], fetch);
      NextBatch(records, more, plan, start, stop, fetch);
      records, failed, bytes := records + more, failed + f, bytes + b;
      StoredWhateverOrder(records, plan[..stop], fetch);
      start, ran := stop, ran + 1;
      if late(ran) || bytes > MAX_TOTAL_BYTES {
        break;
      }
    }
    done := start;
    report := ScanReport(
      records, |tree|, attempted - failed, (|tree| - |scannable|) + (|scannable| - attempted), failed, bytes);
    ScannedCountExact(report, plan, done, fetch, late);
  }

  /** The stored bytes do not depend on the order in which the files completed. */
  lemma {:induction false} StoredWhateverOrder(records: seq<FileRecord>, items: seq<TreeItem>,
                                               fetch: string -> Fetched)
    requires multiset(RecordPaths(records)) == multiset(Paths(items)) && FetchedBy(records, fetch)
    ensures TotalStored(records) == StoredFor(items, fetch)
  {
    hide RecordFor, StoredFor, TotalStored, FailedCount, RecordPaths, Paths;
    assert |records| == |items| by { SameLength(records, items); }
    if records == [] {
      StartBatch();
      StoredNone(fetch);
    } else {
      var init, last := records[..|records| - 1], records[|records| - 1];
      assert records == init + [last];
      assert last in records && FetchedBy(init, fetch);
      RecordsAppend(init, last);
      var k := PathAt(items, last.path);
      StoredTake(items, k, fetch);
      var rest := items[..k] + items[k + 1..];
      CancelOne(multiset(RecordPaths(init)), multiset(Paths(rest)), last.path);
      StoredWhateverOrder(init, rest, fetch);
    }
  }

  lemma PathAt(items: seq<TreeItem>, path: string) returns (k: nat)
    requires path in multiset(Paths(items))
    ensures k < |items| && items[k].path == path
  {
    assert path in Paths(items);
    k :| 0 <= k < |Paths(items)| && Paths(items)[k] == path;
  }

  lemma CancelOne<T>(a: multiset<T>, b: multiset<T>, x: T)
    requires a + multiset{x} == b + multiset{x}
    ensures a == b
  {
    assert a == a + multiset{x} - multiset{x} == b + multiset{x} - multiset{x};
  }

  lemma SameLength(records: seq<FileRecord>, items: seq<TreeItem>)
    requires multiset(RecordPaths(records)) == multiset(Paths(items))
    ensures |records| == |items|
  {
    assert |records| == |RecordPaths(records)| == |multiset(RecordPaths(records))|;
    assert |items| == |Paths(items)| == |multiset(Paths(items))|;
  }

  lemma StoredNone(fetch: string -> Fetched)
    ensures StoredFor([], fetch) == 0
  {
  }

  lemma StoredTake(items: seq<TreeItem>, k: nat, fetch: string -> Fetched)
    requires k < |items|
    ensures var rest := items[..k] + items[k + 1..];
      && multiset(Paths(items)) == multiset(Paths(rest)) + multiset{items[k].path}
      && StoredFor(items, fetch) == StoredFor(rest, fetch) + RecordFor(items[k].path, fetch).stored
  {
    hide RecordFor;
    var before, after := items[..k], items[k + 1..];
    assert items == before + [items[k]] + after;
    assert Paths(items) == Paths(before) + [items[k].path] + Paths(after);
    assert Paths(before + after) == Paths(before) + Paths(after);
    StoredConcat(before, after, fetch);
    StoredConcat(before + [items[k]], after, fetch);
    assert (before + [items[k]])[..k] == before;
  }

  lemma {:induction false} StoredConcat(a: seq<TreeItem>, b: seq<TreeItem>, fetch: string -> Fetched)
    ensures StoredFor(a + b, fetch) == StoredFor(a, fetch) + StoredFor(b, fetch)
  {
    if b == [] {
      assert a + b == a;
    } else {
      StoredConcat(a, b[..|b| - 1], fetch);
      assert (a + b)[..|a + b| - 1] == a + b[..|b| - 1];
    }
  }

  lemma StartScan(plan: seq<TreeItem>, fetch: string -> Fetched)
    ensures Fetches([], plan, 0, fetch)
    ensures FailedCount([]) == 0 && TotalStored([]) == 0
  {
    assert RecordPaths([]) == [] && Paths(plan[..0]) == [];
  }

  lemma NextBatch(records: seq<FileRecord>, more: seq<FileRecord>, plan: seq<TreeItem>, start: nat, stop: nat,
                  fetch: string -> Fetched)
    requires Fetches(records, plan, start, fetch) && start <= stop <= |plan|
    requires multiset(RecordPaths(more)) == multiset(Paths(plan[start..stop])) && |more| == stop - start
      && FetchedBy(more, fetch)
    ensures Fetches(records + more, plan, stop, fetch)
    ensures FailedCount(records + more) == FailedCount(records) + FailedCount(more)
    ensures TotalStored(records + more) == TotalStored(records) + TotalStored(more)
  {
    RecordsConcat(records, more);
    assert plan[..stop] == plan[..start] + plan[start..stop];
    assert Paths(plan[..stop]) == Paths(plan[..start]) + Paths(plan[start..stop]);
  }

  /** No file left out ranks strictly before a file that was fetched: not among the files
      cut off by the limit, not among those of batches never run. */
  lemma FetchedFirst(tree: seq<TreeItem>, maxFiles: int, done: nat, i: nat, item: TreeItem)
    requires done <= |Attempted(tree, maxFiles)| && i < done
    requires item in multiset(ScannableOf(tree)) - multiset(Attempted(tree, maxFiles)[..done])
    ensures AtMost(KeyOf(Attempted(tree, maxFiles)[i]), KeyOf(item))
  {
    hide KeyOf, AtMost, Prioritize, ScannableOf;
    var sorted := Prioritize(ScannableOf(tree));
    PrioritizeExact(ScannableOf(tree), Key(0, 0));
    assert Attempted(tree, maxFiles)[..done] == sorted[..done];
    var j := LeftOver(sorted, done, item);
    assert AtMost(KeyOf(sorted[i]), KeyOf(sorted[j]));
  }

  lemma LeftOver(sorted: seq<TreeItem>, done: nat, item: TreeItem) returns (j: nat)
    requires done <= |sorted| && item in multiset(sorted) - multiset(sorted[..done])
    ensures done <= j < |sorted| && sorted[j] == item
  {
    assert sorted == sorted[..done] + sorted[done..];
    assert item in multiset(sorted[done..]);
    var k :| 0 <= k < |sorted[done..]| && sorted[done..][k] == item;
    j := done + k;
  }

  /** The roles from the most important to the least. */
  const ROLES: seq<Role> := [Entrypoint, Service, Schema, Config, CodeModule, Utility, Infra, Migration, Test, Unknown]

  /** No file is fetched while one of a more important role is left out, and within a role none
      of the larger sizes while a smaller one is; sizes are told apart by ten thousand bytes, up
      to fifty thousand. */
  lemma RolesFirst(tree: seq<TreeItem>, maxFiles: int, done: nat, i: nat, item: TreeItem, a: nat, b: nat)
    requires done <= |Attempted(tree, maxFiles)| && i < done
    requires item in multiset(ScannableOf(tree)) - multiset(Attempted(tree, maxFiles)[..done])
    requires !item.assetExtension
    requires a < 10 && b < 10 && Attempted(tree, maxFiles)[i].role == ROLES[a] && item.role == ROLES[b]
    ensures var fetched := Attempted(tree, maxFiles)[i];
      && a <= b && !fetched.assetExtension
      && (a == b && item.size < 50000 ==> fetched.size / 10000 <= item.size / 10000)
  {
    hide Attempted, ScannableOf;
    FetchedFirst(tree, maxFiles, done, i, item);
    ScannableItems(tree, item);
    FetchedScannable(tree, maxFiles, i);
    RanksByRole(Attempted(tree, maxFiles)[i], item, a, b);
  }

  lemma RanksByRole(f: TreeItem, g: TreeItem, a: nat, b: nat)
    requires Scannable(f) && Scannable(g) && !g.assetExtension && AtMost(KeyOf(f), KeyOf(g))
    requires a < 10 && b < 10 && f.role == ROLES[a] && g.role == ROLES[b]
    ensures a <= b && !f.assetExtension && (a == b && g.size < 50000 ==> f.size / 10000 <= g.size / 10000)
  {
    assert forall i :: 0 <= i < 10 ==> RolePriority(ROLES[i]) == i + 1;
  }

  /** Which files can be fetched, and that all of them are within the limits. */
  lemma PlanExact(tree: seq<TreeItem>, maxFiles: int, item: TreeItem)
    ensures item in Attempted(tree, maxFiles) ==>
      item in tree && item.isBlob && !item.inSkipDir && !item.skipExtension && !item.generated
    ensures (&& |tree| <= 800 && |tree| <= maxFiles
             && item in tree && item.isBlob && !item.inSkipDir && !item.skipExtension && !item.generated)
      ==> item in Attempted(tree, maxFiles)
  {
    hide Prioritize, ScannableOf;
    PrioritizeExact(ScannableOf(tree), Key(0, 0));
    ScannableItems(tree, item);
    NoMoreThanTree(tree);
    var sorted := Prioritize(ScannableOf(tree));
    assert |sorted| == |multiset(sorted)| == |multiset(ScannableOf(tree))|;
    assert item in sorted <==> item in multiset(sorted);
    assert item in ScannableOf(tree) <==> item in multiset(ScannableOf(tree));
    assert item in Attempted(tree, maxFiles) ==> item in sorted;
  }

  lemma {:induction false} NoMoreThanTree(tree: seq<TreeItem>)
    ensures |ScannableOf(tree)| <= |tree|
  {
    if tree != [] {
      NoMoreThanTree(tree[..|tree| - 1]);
    }
  }

  /** Files of one role are told apart by size only below fifty thousand bytes; larger ones keep
      the order of the tree. */
  lemma LargeFilesTie(f: TreeItem, g: TreeItem)
    requires Scannable(f) && Scannable(g) && !f.assetExtension && !g.assetExtension
    ensures KeyOf(f) == KeyOf(g) <==>
      f.role == g.role && (f.size / 10000 == g.size / 10000 || (f.size >= 50000 && g.size >= 50000))
  {
  }

  lemma {:induction false} ScannableItems(tree: seq<TreeItem>, item: TreeItem)
    ensures item in ScannableOf(tree) <==> item in tree && Scannable(item)
  {
    hide Scannable;
    if tree != [] {
      ScannableItems(tree[..|tree| - 1], item);
      assert tree == tree[..|tree| - 1] + [tree[|tree| - 1]];
    }
  }

  lemma FetchedScannable(tree: seq<TreeItem>, maxFiles: int, i: nat)
    requires i < |Attempted(tree, maxFiles)|
    ensures Scannable(Attempted(tree, maxFiles)[i])
  {
    hide Prioritize, ScannableOf, Scannable;
    var item := Attempted(tree, maxFiles)[i];
    PrioritizeExact(ScannableOf(tree), Key(0, 0));
    assert item in Prioritize(ScannableOf(tree));
    assert item in multiset(Prioritize(ScannableOf(tree)));
    assert item in multiset(ScannableOf(tree));
    ScannableItems(tree, item);
  }

  /** The ceiling on the number of files binds every caller but one that passes a negative
      count, which the slice reads from the end of the list. */
  lemma CeilingExact(tree: seq<TreeItem>, maxFiles: int)
    ensures |Attempted(tree, maxFiles)| <= 800
      <==> maxFiles >= 0 || |ScannableOf(tree)| + maxFiles <= 800
  {
    hide Prioritize, ScannableOf;
    PrioritizeExact(ScannableOf(tree), Key(0, 0));
    assert |Prioritize(ScannableOf(tree))| == |multiset(Prioritize(ScannableOf(tree)))| ==
      |multiset(ScannableOf(tree))|;
  }

  /** The end of the loop is settled by the plan, the fetched contents and the clock. */
  lemma EndUnique(plan: seq<TreeItem>, fetch: string -> Fetched, late: nat -> bool, done: nat, other: nat)
    requires EndsAt(plan, fetch, late, done) && EndsAt(plan, fetch, late, other)
    ensures done == other
  {
  }

  /** Where a scan ends, with the numbers it goes by: thirty files a batch, fifty million bytes. */
  lemma EndExact(plan: seq<TreeItem>, fetch: string -> Fetched, late: nat -> bool, done: nat)
    requires EndsAt(plan, fetch, late, done)
    ensures done < |plan| ==>
      done > 0 && done % 30 == 0 && (late(done / 30) || StoredFor(plan[..done], fetch) > 50000000)
    ensures forall b: nat :: 0 < b && b * 30 < done ==> !late(b) && StoredFor(plan[..b * 30], fetch) <= 50000000
  {
    hide StoredFor;
    assert done < |plan| ==> done / BATCH * BATCH == done;
    forall b: nat | 0 < b && b * 30 < done
      ensures !late(b) && StoredFor(plan[..b * 30], fetch) <= 50000000
    {
      assert !StopsAt(plan, fetch, late, b);
    }
  }

  /** What a file adds to the bytes stored: the UTF-8 length of its first 150000 characters. */
  lemma RecordExact(path: string, fetch: string -> Fetched)
    ensures var r := RecordFor(path, fetch);
      && r.path == path && (r.failed <==> fetch(path).NoContent?)
      && r.stored == match fetch(path)
           case NoContent => 0
           case Content(text) => Utf8Length(if |text| <= 150000 then text else text[..150000])
  {
  }

  /** The UTF-8 length of a text is one, two, three or four bytes for each of its characters. */
  lemma {:induction false} Utf8Exact(text: seq<Width>)
    ensures Utf8Length(text) ==
      multiset(text)[One] + 2 * multiset(text)[Two] + 3 * multiset(text)[Three] + 4 * multiset(text)[Four]
  {
    if text != [] {
      Utf8Exact(text[1..]);
      assert text == [text[0]] + text[1..];
    }
  }

  /** What the report calls scanned is the number of files that were fetched and parsed exactly
      when no boundary inside the plan finds the clock run out or the files before it over the
      byte budget; otherwise files never fetched are counted too. */
  lemma ScannedCountExact(report: ScanReport, plan: seq<TreeItem>, done: nat,
                          fetch: string -> Fetched, late: nat -> bool)
    requires EndsAt(plan, fetch, late, done) && Fetches(report.records, plan, done, fetch)
    requires report.filesFailed == FailedCount(report.records)
    requires report.filesScanned == |plan| - report.filesFailed
    ensures report.filesScanned == ParsedCount(report.records)
      <==> forall b: nat :: !StopsAt(plan, fetch, late, b)
    ensures report.filesScanned == ParsedCount(report.records) + (|plan| - done)
  {
    hide FailedCount, ParsedCount;
    ParsedAndFailed(report.records);
    if done == |plan| {
      forall b: nat
        ensures !StopsAt(plan, fetch, late, b)
      {
        assert b * BATCH < done || b * BATCH >= |plan|;
      }
    }
  }

  function ParsedCount(records: seq<FileRecord>): nat {
    if records == [] then 0 else ParsedCount(records[..|records| - 1]) + if records[|records| - 1].failed then 0 else 1
  }

  lemma {:induction false} ParsedAndFailed(records: seq<FileRecord>)
    ensures ParsedCount(records) + FailedCount(records) == |records|
  {
    if records != [] {
      ParsedAndFailed(records[..|records| - 1]);
    }
  }
}
