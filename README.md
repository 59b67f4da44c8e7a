# Compile cache of config-file-ts-async, in Dafny

config-file-ts-async loads configuration files written in TypeScript. The
part modelled here is the compile cache. A config file is compiled to
JavaScript once. After that, the cached output is reused for as long as it is
at least as new as its source.

The model covers five parts:

- **Cache directory** (`getOutDir`, module `LoadTsConfig`).
  - The global policy places the cache at home / `.ts-config-file-cache` /
    sanitised program name / the config file's directory.
  - The local policy places it at cwd / cache directory / the config file's
    directory with the working directory cut out.
- **Output paths** (`jsOutFile`, `changeSuffix`, `compilationPairs`, module
  `OutputPaths`).
  - The compiler runs with the filesystem root as `rootDir`, so the output
    tree mirrors each source's absolute directory below the output directory.
  - `.ts`, `.mts` and `.cts` become `.js`, `.mjs` and `.cjs`.
- **Staleness** (`anyOutDated`, `needsCompile`, module `Staleness`). The
  output is stale when it is missing or older than its source.
- **Compilation on demand** (`compileIfNecessary`, `compileConfigIfNecessary`,
  the `_sources` record, the `node_modules` link; modules `CompileUtil`,
  `SourcesRecord`, `Links`).
  - After a successful compilation, the local sources it loaded are recorded
    in `outDir/_sources`.
  - Those recorded sources become candidates in the next staleness check.
  - A link to the nearest `node_modules` is placed in the output directory.
- **Compiler options** (`getTsCompileOptions`,
  `getNearestTsConfigCompilerOptions`, modules `GetCompileOptions` and
  `NearestTsConfig`).

## How the model is built

- **Paths** are sequences of segments below the filesystem root, so
  `path.join` is concatenation (module `Paths`).
  - A path string is split on `/`, and empty and `.` parts are dropped.
  - A relative string is resolved against a working directory that is passed
    in as an input.
- **The filesystem** is a map from paths to entries: a file with an integer
  modification time and its text, a directory, or a symbolic link (module
  `FileSystem`).
  - `existsAsync` follows links, at most 40 hops, so a dangling link counts
    as absent.
  - The filesystem is the `entries` field of the `Disk` class. Its methods
    `Unlink`, `Symlink`, `WriteFile` and `Emit` are the state-changing `fs`
    calls the source makes.
  - The calls that only read (`access` behind `existsAsync`, `stat`, `lstat`
    and `readFile`) are the functions `Exists`, `Stat`, `IsSymLink` and
    `ExtendedSources` of the tree.
- **Filesystem operations.** Each operation of `src/compileUtil.ts` that
  changes the filesystem, or that keeps the source's loop, is a method that
  takes the `Disk`. The operations that only read it (`extendedSources`,
  `isSymLink`, `nearestNodeModules`) are functions of the tree.
  - Its postcondition ties the result and the new `entries` to an *effect*
    function of the old ones, e.g.
    `ensures Io(r, disk.entries) == ForceLinkEffect(old(disk.entries), existing, link)`.
  - Each effect function returns the result together with the filesystem it
    leaves (`Io`), and the lemmas are stated about these functions.
  - `anyOutDated` keeps its `for` loop with the early return.
- **Errors.** A thrown error is an `Err` of module `CacheIo`'s `Error`.
- **The TypeScript compiler** is a function-typed parameter (`TsProgram`).
  - It maps the root names, the options and the filesystem to the names of
    the files it loaded, whether emitting was skipped, and the files it
    wrote.
  - `tsCompile` is the contract around it: the local sources are the loaded
    names without `node_modules`, and `compiled` is `!emitSkipped`.
- **Glob expansion.** A pattern matches itself when it names an existing
  entry, and nothing otherwise.
- **Inputs.** The working directory, the home directory, the platform and
  the time written into the record are inputs.

### What the code does, as opposed to what its types and comments suggest

- **`getOutDir` rejects the declared configuration type.**
  - `getOutDir` switches on a `type` property (src/loadTsConfig.ts:51 and
    :60).
  - The declared `CacheConfig` union carries its tag in `cacheType`
    (src/types.ts:6 and :20).
  - Any configuration built as declared is therefore rejected as an unknown
    policy. The test in src/__tests__/compileUtils.test.ts:62 builds such a
    configuration.
  - `ConfigObject` has both properties. `DeclaredConfigRejected` proves the
    rejection for every declared configuration.
- **`anyOutDated` examines only the first pair.** It returns inside the first
  iteration of its loop (`OutDatedFirstPair`, `SecondPairNotExamined`).
- **A failed compilation returns `{success: false, compiled: false}`.** The
  record and the link are then left as they were (`FailedCompileKeepsRecord`).
  The doc comment of `compileConfigIfNecessary` says it returns `undefined`
  on failure; the code throws instead (`FailedConfigThrows`).
- **The local policy cuts out the working directory as text.**
  - The working directory is cut out of the config file's directory as a
    plain string, at its first occurrence, with no check at a segment
    boundary.
  - So with cwd `/u`, a file in `/us` and a file in `/u/s` share one cache
    directory (`LocalOutDirsCanCollide`).
- **Sanitising keeps letter case.** Only runs of characters outside
  `[A-Za-z0-9]` become a single dash.
- **Upper-case extensions are not stripped.**
  - `changeSuffix` looks the extension up in lower case but strips it with
    its original case.
  - So `a.TS` becomes `a.TS.js` (`ChangeSuffixKeepsUpperCase`,
    `ChangeSuffixUpperCaseExample`).
  - An extension outside the map is removed when it is already in lower
    case, and the text `undefined` takes its place: `a.json` becomes
    `aundefined` (`ChangeSuffixJsonExample`). When its case differs it stays,
    and `undefined` is appended (`ChangeSuffixUnmapped`).
- **Forcing a link twice is not always idempotent.** A second
  `symLinkForce` equals the first exactly when the new link resolves. Over a
  dangling link, `existsAsync` is false and `symlink` then fails
  (`ForceLinkTwice`).
- **`existsAsync("")` is false.** So `compileConfigIfNecessary("")` throws
  "not found" (`ExistsName`).

## Model

| member | source | states |
|---|---|---|
| Types.ObjectOf | src/types.ts:1-28 | a configuration built as the declared union has no `type` property; its `cacheType` is `global` or `local` by variant, and it carries that variant's `programName` or `cacheDir` |
| GetCompileOptions.GetTsCompileOptions | src/getCompileOptions.ts:5-19 | `outDir` passes through and `rootDir` is the root; "NodeNext" gives NodeNext, "CommonJS" and any unknown name give CommonJS, and the kind is never `None`; `strict` and `noImplicitAny` equal the input's `strict`; `allowJs`, `skipLibCheck` and `noEmitOnError` are always on |
| GetCompileOptions.KindNamed | src/getCompileOptions.ts:12 | the `ModuleKind` member a name looks up has that name |
| GetCompileOptions.ModuleForName | src/getCompileOptions.ts:12 | every member other than the falsy `None` is selected by its own name |
| NearestTsConfig.GetNearestTsConfigCompilerOptions | src/getNearestTsConfigCompilerOptions.ts:19-43 | no tsconfig gives the defaults; a found path is reported; the module system is always NodeNext or CommonJS and `strict` is always set; a tsconfig without `compilerOptions` is a TypeError |
| NearestTsConfig.NoTsConfigGivesDefaults | src/getNearestTsConfigCompilerOptions.ts:23-25 | no tsconfig, or an empty path, gives `{strict: false, module: 'CommonJS'}` and no path |
| NearestTsConfig.StrictOnlyWhenTrue | src/getNearestTsConfigCompilerOptions.ts:36 | `strict` is on exactly when the tsconfig's `strict` is the boolean `true` |
| NearestTsConfig.NodeNextExactly | src/getNearestTsConfigCompilerOptions.ts:37-40 | NodeNext exactly when the chosen option, lowercased, is "nodenext" or "node16"; CommonJS otherwise |
| NearestTsConfig.ModuleBeforeResolution | src/getNearestTsConfigCompilerOptions.ts:28-32 | a non-empty `module` decides alone, whatever `moduleResolution` holds |
| NearestTsConfig.AnyCaseOfNodeNext | src/getNearestTsConfigCompilerOptions.ts:28-40 | every spelling of NodeNext or Node16, in any letter case, selects NodeNext |
| NearestTsConfig.ModuleKindFromTsConfig | src/getNearestTsConfigCompilerOptions.ts:37-40 | fed to `getTsCompileOptions`, the options found compile to NodeNext exactly when the tsconfig asks for it, and to CommonJS otherwise |
| LoadTsConfig.SkipRun | src/loadTsConfig.ts:57 | removes exactly the leading run of characters outside [A-Za-z0-9]: what is removed holds no letter or digit, and what is left is a suffix that starts with a letter or digit |
| LoadTsConfig.Sanitize | src/loadTsConfig.ts:57 | empty exactly when the name is empty, and never longer than the name |
| LoadTsConfig.SanitizeShape | src/loadTsConfig.ts:57 | the sanitised name holds only letters, digits and dashes, never two dashes in a row, the name's letters and digits in order, and starts with a dash exactly when the name starts with other characters |
| LoadTsConfig.SkipRunOfRun | src/loadTsConfig.ts:57 | the run ends where a letter, a digit or the end of the name begins |
| LoadTsConfig.SanitizeLeadingRun | src/loadTsConfig.ts:57 | a leading maximal run of other characters becomes exactly one dash |
| LoadTsConfig.SanitizeRun | src/loadTsConfig.ts:57 | a word, a maximal run, then the rest: the word is kept with its case, the whole run becomes one dash, and the rest is sanitised on its own |
| LoadTsConfig.SanitizeWord | src/loadTsConfig.ts:57 | a word of letters and digits passes through unchanged |
| LoadTsConfig.SanitizeFixes | src/loadTsConfig.ts:57 | letters, digits and single dashes are left as they are |
| LoadTsConfig.SanitizeIdempotent | src/loadTsConfig.ts:57 | sanitising twice is sanitising once |
| LoadTsConfig.SegmentsOfSanitized | src/loadTsConfig.ts:54-59 | a sanitised program name is exactly one path segment, or none when empty |
| LoadTsConfig.FirstLineLength | src/loadTsConfig.ts:53 | the length of the prefix with no line terminator, followed by a terminator or the end |
| LoadTsConfig.StripsLastColon | src/loadTsConfig.ts:53 | the greedy `^(.+):` removes the last colon of the first line when a character precedes it |
| LoadTsConfig.StripWithoutColon | src/loadTsConfig.ts:53 | without a colon the directory is left as it is |
| LoadTsConfig.StripDriveExample | src/loadTsConfig.ts:53 | on Windows `/C:/a` becomes `/C/a`: the drive letter stays, its colon goes |
| LoadTsConfig.GetOutDir | src/loadTsConfig.ts:48-71 | no contract of its own: `GlobalOutDirLayout`, `LocalOutDirUnderCwd`, `AbsoluteCacheDirRejected`, `UnknownPolicyRejected` and `DeclaredConfigRejected` state what it returns |
| LoadTsConfig.GlobalOutDir | src/loadTsConfig.ts:52-59 | no contract of its own: `GlobalOutDirSegments`, `GlobalOutDirLayout` and `GlobalOutDirsDistinct` state its layout and that distinct directories get distinct caches |
| LoadTsConfig.LocalOutDir | src/loadTsConfig.ts:60-68 | no contract of its own: `EmptyCacheDirIsDefault`, `AbsoluteCacheDirRejected`, `LocalOutDirUnderCwd` and `LocalOutDirsCanCollide` state its cases |
| LoadTsConfig.GlobalOutDirSegments | src/loadTsConfig.ts:52-59 | the global directory is home / cache namespace / sanitised name / the segments of the config file's directory |
| LoadTsConfig.GlobalOutDirLayout | src/loadTsConfig.ts:49-59 | with the `global` tag, the result is home + [namespace, sanitised name] + the resolved config file's directory |
| LoadTsConfig.GlobalOutDirsDistinct | src/loadTsConfig.ts:51-59 | config files in different directories never share a global cache directory |
| LoadTsConfig.AbsoluteCacheDirRejected | src/loadTsConfig.ts:62-66 | an absolute cache directory is an error naming it and the working directory |
| LoadTsConfig.EmptyCacheDirIsDefault | src/loadTsConfig.ts:61 | an absent and an empty cache directory both mean `.ts-config-file-cache` |
| LoadTsConfig.StripAncestor | src/loadTsConfig.ts:67 | removing the working directory's text from a directory below it leaves the relative segments |
| LoadTsConfig.LocalOutDirUnderCwd | src/loadTsConfig.ts:67-68 | for a config file below cwd the result is cwd / cache directory / the file's directory relative to cwd |
| LoadTsConfig.LocalOutDirsCanCollide | src/loadTsConfig.ts:67-68 | files in `/us` and `/u/s`, with cwd `/u`, get the same local cache directory |
| LoadTsConfig.UnknownPolicyRejected | src/loadTsConfig.ts:70 | any tag other than `global` and `local`, or none, is the unknown-type error |
| LoadTsConfig.DeclaredConfigRejected | src/loadTsConfig.ts:51-70 | every configuration built as the declared `CacheConfig` is rejected as an unknown type |
| FileSystem.Follow | src/util.ts:9-16 | a lookup lands on a present entry that is not a link, finds a plain entry where it is, and fails for a missing path |
| FileSystem.Stat | src/compileUtil.ts:264-265 | `stat` reports the entry behind the links, never a link |
| FileSystem.LinkToPlainResolves | src/util.ts:9-16 | a link to a plain entry exists once it is made |
| FileSystem.ExistsPlain | src/util.ts:9-16 | a plain entry exists and `stat` reports it |
| FileSystem.Disk.Unlink | src/compileUtil.ts:177 | removes exactly the link |
| FileSystem.Disk.Symlink | src/compileUtil.ts:179-183 | fails with EEXIST and no change when any entry is at the path, or adds exactly the link |
| FileSystem.Disk.WriteFile | src/compileUtil.ts:124 | fails with EISDIR and no change on a directory, or puts exactly the new file at the path |
| FileSystem.Disk.Emit | src/tsCompile.ts:21 | the files the compiler emits overwrite what was at their paths |
| OutputPaths.StripSuffix | src/compileUtil.ts:288 | a matching non-empty suffix is removed exactly, letter case included, leaving "" when it is the whole name; otherwise the name is unchanged |
| OutputPaths.ChangeSuffix | src/compileUtil.ts:284-290 | no contract of its own: the `ChangeSuffix…` lemmas below state its result for mapped, differently cased and unmapped extensions, and its ending |
| OutputPaths.ChangeSuffixMapped | src/compileUtil.ts:284-290 | `base.ts`, `base.mts` and `base.cts` become `base.js`, `base.mjs` and `base.cjs` |
| OutputPaths.ExtNameOfMapped | src/compileUtil.ts:286 | the extension of `base + ext`, for a mapped extension in any letter case, is `ext` |
| OutputPaths.ChangeSuffixKeepsUpperCase | src/compileUtil.ts:286-289 | a mapped extension in another letter case is looked up in lower case, kept, and followed by the new suffix |
| OutputPaths.ChangeSuffixUpperCaseExample | src/compileUtil.ts:286-289 | `a.TS` becomes `a.TS.js` |
| OutputPaths.ChangeSuffixUnmapped | src/compileUtil.ts:287-289 | when the lower-cased extension is outside the map: if the name ends in it, that ending is cut and `undefined` takes its place; otherwise `undefined` is appended to the whole name |
| OutputPaths.ChangeSuffixJsonExample | src/compileUtil.ts:287-289 | `a.json` becomes `aundefined` |
| OutputPaths.ChangeSuffixEnding | src/compileUtil.ts:284-290 | every new name ends in `js`, or in `ed` after a missed lookup |
| OutputPaths.ChangeSuffixNotReserved | src/compileUtil.ts:284-290 | no new name is `_sources` or `node_modules` |
| OutputPaths.ChangeSuffixValid | src/compileUtil.ts:284-290 | the new name of a segment is a segment |
| OutputPaths.JsOutFile | src/compileUtil.ts:34-41 | no contract of its own: `JsOutFileLayout`, `JsOutFileOfResolved` and `JsOutFileUnderOutDir` state where the output goes |
| OutputPaths.JsOutFileLayout | src/compileUtil.ts:34-41 | the output is outDir + the resolved source's directory + its renamed base name |
| OutputPaths.JsOutFileOfResolved | src/compileUtil.ts:34-41 | the output depends on the source only through its resolved path |
| OutputPaths.JsOutFileUnderOutDir | src/compileUtil.ts:34-41 | the output is a valid path strictly below outDir, and is neither the record nor the link |
| OutputPaths.CompilationPairs | src/compileUtil.ts:246-251 | one pair per file, in order: the resolved file and its output |
| Transpiler.LocalSources | src/tsCompile.ts:17-20 | exactly the loaded names that do not contain `node_modules` |
| Transpiler.Report | src/tsCompile.ts:24 | `compiled` exactly when emitting was not skipped; no reported source is under `node_modules` |
| Transpiler.TsCompile | src/tsCompile.ts:10-25 | one compiler run: its files are written and its report returned |
| Staleness.ExpandGlobs | src/compileUtil.ts:20-22 | exactly the patterns that name existing entries, no more of them than patterns, led by the first pattern when it exists |
| Staleness.ExpandGlobsAppend | src/compileUtil.ts:20-22 | expansion keeps the patterns' order: expanding a concatenation is concatenating the expansions |
| Staleness.OutDated | src/compileUtil.ts:258-269 | no contract of its own: `AnyOutDated` computes it with the source's loop, and `OutDatedFirstPair`, `OutDatedIgnoresRest`, `EqualTimesNotStale` and `SecondPairNotExamined` state its answer |
| Staleness.CompileNeeded | src/compileUtil.ts:16-25 | no contract of its own: `NeedsCompile` computes it, and `CompileNeededNeverFails` and `CompileNeededFirstSource` state its answer |
| Staleness.AnyOutDated | src/compileUtil.ts:258-269 | the loop's result is the first pair's staleness, an error for a missing source, or false for no pairs |
| Staleness.NeedsCompile | src/compileUtil.ts:16-25 | the staleness of the expanded sources' pairs |
| Staleness.OutDatedFirstPair | src/compileUtil.ts:258-269 | no pairs is up to date; otherwise stale exactly when the first output is missing or strictly older |
| Staleness.OutDatedIgnoresRest | src/compileUtil.ts:259-267 | pairs after the first do not affect the answer |
| Staleness.EqualTimesNotStale | src/compileUtil.ts:264-266 | equal modification times mean up to date |
| Staleness.SecondPairNotExamined | src/compileUtil.ts:259-267 | a stale second pair goes unnoticed behind an up-to-date first one |
| Staleness.CompileNeededNeverFails | src/compileUtil.ts:16-25 | since glob yields only existing files, the check never fails on a missing source |
| Staleness.CompileNeededFirstSource | src/compileUtil.ts:16-25 | when the first candidate exists, the answer is that candidate's staleness |
| SourcesRecord.ExtendedSources | src/compileUtil.ts:95-104 | no contract of its own: `AbsentRecordIsEmpty`, `SaveThenRead` and `SaveEmptyThenRead` state what the record reads as |
| SourcesRecord.SaveSourcesEffect | src/compileUtil.ts:119-125 | no contract of its own: `SaveExtendedSources` performs it, and `SaveTouchesOnlyRecord`, `SaveOverDirectoryFails` and `SaveThenRead` state its effect |
| SourcesRecord.SaveExtendedSources | src/compileUtil.ts:119-125 | writes the names joined by newlines to `outDir/_sources` |
| SourcesRecord.AbsentRecordIsEmpty | src/compileUtil.ts:95-99 | a missing record, or a dangling link in its place, reads as no names |
| SourcesRecord.SaveTouchesOnlyRecord | src/compileUtil.ts:119-125 | saving changes nothing but the record file |
| SourcesRecord.SaveThenRead | src/compileUtil.ts:95-125 | a non-empty list of names without newlines reads back unchanged |
| SourcesRecord.SaveEmptyThenRead | src/compileUtil.ts:95-125 | an empty list reads back as one empty name |
| SourcesRecord.SaveOverDirectoryFails | src/compileUtil.ts:119-125 | a directory in the record's place fails the save and changes nothing |
| SourcesRecord.Dedup | src/compileUtil.ts:74-75 | `[...new Set(s)]` has no duplicates, the same members as `s`, and no more elements |
| SourcesRecord.DedupPrefix | src/compileUtil.ts:74-75 | de-duplicating a longer list keeps the shorter one's de-duplication as its prefix |
| SourcesRecord.DedupOfDistinct | src/compileUtil.ts:74-75 | a list without duplicates is its own de-duplication |
| SourcesRecord.CandidatesStartWithSources | src/compileUtil.ts:73-76 | the candidates start with the caller's distinct sources, have no duplicates, and include every recorded name |
| SourcesRecord.SingleSourceFirst | src/compileUtil.ts:73-76 | a single caller source is always the first candidate |
| Links.ForceLinkEffect | src/compileUtil.ts:169-184 | no contract of its own: `SymLinkForce` performs it, and the `ForceLink…` lemmas below state its cases, its frame and a second call |
| Links.SymLinkForce | src/compileUtil.ts:169-184 | refuse a file or directory, replace a link, fail over a dangling one |
| Links.ForceLinkFrame | src/compileUtil.ts:169-184 | nothing but the link's path changes, whatever the outcome |
| Links.ForceLinkRefuses | src/compileUtil.ts:173-176 | a file or directory at the link is refused and nothing changes |
| Links.ForceLinkLinks | src/compileUtil.ts:173-183 | with nothing there or a resolving link, the call succeeds and the path becomes a link to `existing` |
| Links.ForceLinkDangling | src/compileUtil.ts:173-183 | a dangling link makes `symlink` fail with EEXIST and nothing changes |
| Links.ForceLinkTwice | src/compileUtil.ts:169-184 | after a success, a second call equals the first exactly when the new link resolves |
| Links.ForceLinkTwiceToPlain | src/__tests__/compileUtils.test.ts:45-57 | with nothing at the link and a plain target, the first call makes the link and a second call changes nothing and succeeds |
| Links.NearestNodeModules | src/compileUtil.ts:193-209 | the `node_modules` of the nearest searched ancestor holding one, or none when no searched ancestor holds one |
| Links.RootModulesOnlyFromRoot | src/compileUtil.ts:202-207 | the root's `node_modules` is found only when the walk starts at the root |
| Links.LinkModulesEffect | src/compileUtil.ts:132-150 | no contract of its own: `LinkNodeModules` performs it, and `LinkModulesResult` states its effect |
| Links.LinkNodeModules | src/compileUtil.ts:132-150 | links the output directory's `node_modules` to the one found from cwd, if any |
| Links.LinkModulesResult | src/compileUtil.ts:145-149 | only the link changes; after a success it points at the one found; with none found nothing changes |
| CompileUtil.CompileEffect | src/compileUtil.ts:68-88 | no contract of its own: `CompileIfNecessary` performs it, and the lemmas below, from `UpToDateSkipsCompiler` to `NotNeededIsFresh`, state its outcomes and the tree it leaves |
| CompileUtil.CompileIfNecessary | src/compileUtil.ts:68-88 | read the record, check staleness of the merged candidates, compile on demand, then record and link |
| CompileUtil.UpToDateSkipsCompiler | src/compileUtil.ts:76-87 | an up-to-date cache returns `{success: true, compiled: false}`, changes nothing, and does not depend on the compiler |
| CompileUtil.CompilerSeesCallerSources | src/compileUtil.ts:77-80 | the compiler is given the caller's sources and options, not the merged candidates |
| CompileUtil.FailedCompileKeepsRecord | src/compileUtil.ts:81-85 | a skipped emit returns `{success: false, compiled: false}`, keeps what the compiler wrote and leaves the record alone |
| CompileUtil.StaleOutcome | src/compileUtil.ts:81-85 | a success on the stale path means emitting was not skipped, and reports success and compiled |
| CompileUtil.RecordAndLinkResult | src/compileUtil.ts:81-84 | recording and linking set the record and the link, leave the link path as it was when no `node_modules` is found, and change nothing else |
| CompileUtil.CompiledSavesAndLinks | src/compileUtil.ts:77-85 | a successful compilation overwrites the record with the local sources, links `node_modules` (or leaves the link path as the compiler left it when none is found), and changes nothing else beyond the compiler's files |
| CompileUtil.RecordAfterCompile | src/compileUtil.ts:81-82 | the record then reads back as that compilation's local sources, none under `node_modules` |
| CompileUtil.CompiledTreeAt | src/compileUtil.ts:77-84 | after compiling, every path but the record and the link holds what the compiler left, and the record is a file |
| CompileUtil.NotNeededIsFresh | src/compileUtil.ts:76-87 | a call that succeeds without compiling found the cache up to date |
| CompileUtil.ConfigCompileEffect | src/compileUtil.ts:221-238 | no contract of its own: `CompileConfigIfNecessary` performs it, and the lemmas below, from `MissingConfigThrows` to `SecondCallReusesCache`, state its outcomes |
| CompileUtil.CompileConfigIfNecessary | src/compileUtil.ts:221-238 | the existence check, then `compileIfNecessary` of the one file, then the failure check or the output path |
| CompileUtil.MissingConfigThrows | src/compileUtil.ts:226-228 | a missing config file throws before anything is read or written |
| CompileUtil.FailedConfigThrows | src/compileUtil.ts:231-233 | a compilation without success throws "failed to compile" |
| CompileUtil.ConfigOutputIsJsOutFile | src/compileUtil.ts:234-237 | a success reports `jsOutFile(tsFile, outDir)`, and `compiled` exactly when the cache was stale |
| CompileUtil.StaleConfigOutcome | src/compileUtil.ts:230-237 | on a stale cache a success compiled, and keeps the compiler's tree |
| CompileUtil.FreshConfigOutcome | src/compileUtil.ts:230-237 | on an up-to-date cache the call reports the output with `compiled: false` and changes nothing |
| CompileUtil.CompiledConfigUpToDate | src/compileUtil.ts:221-238 | compiling a well-behaved config file leaves a cache that is up to date for it |
| CompileUtil.FreshFirstUpToDate | src/compileUtil.ts:258-266 | candidates led by a config file whose output is no older need no compile |
| CompileUtil.FreshOutputUpToDate | src/compileUtil.ts:73-76 | a config file, an output no older than it and a record file mean no compile |
| CompileUtil.SecondCallReusesCache | src/__tests__/compileUtils.test.ts:72-89 | after a successful first call, a second call reports `compiled: false` with the same output, changes nothing and ignores the compiler |

## Left out

- `loadTsConfig` itself: it loads the compiled output with a dynamic `require`, and passes a boolean where options are expected (src/loadTsConfig.ts:24-41).
- Finding and parsing `tsconfig.json` are done by the `tsconfig` package. Their outcome is the `FoundTsConfig` input of `GetNearestTsConfigCompilerOptions`.
- The TypeScript compiler's own behaviour: it is a parameter. Its diagnostics logging is not modelled.
- Glob expansion (a foreign library): a pattern matches itself when it exists, and nothing otherwise. The empty name from an empty record therefore matches nothing.
- Path normalisation of `..` and of a trailing `.`, and Windows path syntax.
  - A `.` segment is dropped everywhere, so the base name of `a/.` is `a`, where Node's `path.basename` gives `.`.
  - Paths are POSIX segment lists.
  - On Windows only the drive-colon removal of the global policy is kept, applied to the POSIX form.
- The `junction` link type used on Windows.
- Symbolic links among the parent directories of a path: only a link named by the whole path is followed.
- `writeFile` and `symlink` into a missing parent directory (ENOENT): parent directories are not tracked.
- `writeFile` through a link at `_sources`: the link itself is replaced by the file.
- Modification times are integers, not `Date`s. The time is an input, and so are `process.cwd()`, `os.homedir()` and `os.platform()`.
- Asynchrony and concurrent processes: the calls run in sequence.
- `toLowerCase` is ASCII only: letters outside A–Z are left as they are.
- The reverse mapping of TypeScript's numeric `ModuleKind` enum, and members of other TypeScript versions.
- A global configuration without `programName`, which makes the source throw a `TypeError`: `ConfigObject` always carries a name.
- The `path.resolve(dir)` at the start of `nearestNodeModules`: the walk starts from the working directory, which is already a resolved path.
