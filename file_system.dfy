/**
 * The filesystem as the import-graph builder sees it during one run, as a
 * value: the answers `canonicalize`, `exists`, `WalkDir` and
 * `read_to_string` would give.  The real calls are foreign I/O; here they are
 * looked up.
 */
module FileSystem {
  import opened Paths

  /** One item of the directory walk; `WalkError` is an entry `WalkDir` could not read. */
  datatype WalkEntry = WalkError | Entry(path: Path, isFile: bool)

  datatype Fs = Fs(
    canonical: map<Path, Path>,  // paths for which `canonicalize` succeeds, and its result
    existing: set<Path>,         // paths for which `exists` is true (files and directories)
    walk: seq<WalkEntry>,        // `WalkDir::new(project_path)`, in walk order
    contents: map<Path, string>  // files `read_to_string` can read, and their text
  )

  /** `p.canonicalize().unwrap_or_else(|_| p)` */
  function CanonicalizeOr(fs: Fs, p: Path): Path
  {
    if p in fs.canonical then fs.canonical[p] else p
  }
}
