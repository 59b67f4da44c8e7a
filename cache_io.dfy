/** The failures of the compile cache and the shape of its effects: each
    operation on the filesystem is specified by a function from the tree
    before to its result and the tree after. */
module CacheIo {
  import opened Results
  import opened Paths
  import opened FileSystem

  /** A thrown error: one from `fs`, the refusal of `symLinkForce`, or one
      of the two errors of `compileConfigIfNecessary`. */
  datatype Error =
    | Fs(fsError: FsError)
    | RefusingToUnlink(link: Path)
    | ConfigNotFound(tsFile: string)
    | CompileFailed(tsFile: string)

  /** The result of an operation and the filesystem it leaves. */
  datatype Io<T> = Io(result: Result<T, Error>, tree: Tree)

  /** `existsAsync(s)` for a path string resolved against `cwd`; the empty
      string names nothing. */
  predicate ExistsName(t: Tree, cwd: Path, s: string)
    requires ValidPath(cwd)
  {
    s != "" && Exists(t, Resolve(cwd, s))
  }
}
