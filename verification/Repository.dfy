/** What the scanner knows about a file before any import is resolved. */
module Repository {

  /** A repository-relative path, one string per segment; the root is `[]`. */
  type Path = seq<string>

  /** The path of a file: it has a name. */
  type FilePath = p: Path | p != [] witness [""]

  datatype Language = Python | TypeScript | JavaScript | Other

  datatype FileIntelligence = FileIntelligence(
    path: FilePath,
    language: Language,
    imports: seq<string>,
    isEntrypoint: bool
  )

  function Dir(path: FilePath): Path {
    path[..|path| - 1]
  }

  function Name(path: FilePath): string {
    path[|path| - 1]
  }

  /** Paths as the scanner receives them: no empty segment, no `.` or `..`, no slash inside. */
  predicate PlainSegment(s: string) {
    s != "" && s != "." && s != ".." && '/' !in s
  }

  predicate PlainPath(path: Path) {
    forall s :: s in path ==> PlainSegment(s)
  }

  ghost predicate DistinctPaths(files: seq<FileIntelligence>) {
    forall i, j :: 0 <= i < j < |files| ==> files[i].path != files[j].path
  }
}
