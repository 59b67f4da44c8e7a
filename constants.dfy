/** The fixed names of the compile cache (src/constants.ts). */
module Constants {
  import opened Paths

  /** Name of the cache directory. */
  const DefaultCacheDir: string := ".ts-config-file-cache"

  /** The filesystem root: `path.parse(cwd).root`, "/" on POSIX systems. */
  const FsRoot: Path := []
}
