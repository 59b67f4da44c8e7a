/** The records exchanged by the compile cache (src/types.ts). */
module Types {
  import opened Results
  import opened Paths

  /** `ICompileOptions`: the strictness flag is optional, and the module
      system (the `module` property) is a name: "CommonJS" or "NodeNext" by
      declaration, any string at run time. */
  datatype CompileOptions = CompileOptions(strict: Option<bool>, moduleSystem: string)

  /** `ICompileIfNecessaryResult` */
  datatype CompileOutcome = CompileOutcome(success: bool, compiled: bool, output: Option<Path>)

  /** `CompileResult`: what one run of the TypeScript compiler reports. */
  datatype CompileResult = CompileResult(localSources: seq<string>, compiled: bool)

  /** `CacheConfig` as declared: a union tagged by its `cacheType` property. */
  datatype CacheConfig =
    | GlobalCache(programName: string)
    | LocalCache(cacheDir: Option<string>)

  /** A cache configuration object as `getOutDir` reads it: the property it
      switches on is `type` (here `kind`), while the declared union carries
      its tag in `cacheType`. */
  datatype ConfigObject = ConfigObject(
    kind: Option<string>,
    cacheType: Option<string>,
    programName: string,
    cacheDir: Option<string>)

  /** The object a caller builds from a declared `CacheConfig`: it has a
      `cacheType` property and no `type` property. */
  function ObjectOf(c: CacheConfig): (o: ConfigObject)
    ensures o.kind == None
    ensures o.cacheType == Some(if c.GlobalCache? then "global" else "local")
    ensures c.GlobalCache? ==> o.programName == c.programName
    ensures c.LocalCache? ==> o.cacheDir == c.cacheDir
  {
    match c
    case GlobalCache(name) => ConfigObject(None, Some("global"), name, None)
    case LocalCache(dir) => ConfigObject(None, Some("local"), "", dir)
  }
}
