/** Compile on demand (`compileIfNecessary` and `compileConfigIfNecessary`
    in src/compileUtil.ts): recompile when the output of the first
    candidate source is missing or older, and then record the local
    sources of the compilation and link `node_modules` into the output
    directory. */
module CompileUtil {
  import opened Results
  import opened Strings
  import opened Paths
  import opened Types
  import GetCompileOptions
  import opened FileSystem
  import opened OutputPaths
  import opened Transpiler
  import opened CacheIo
  import opened Staleness
  import opened SourcesRecord
  import opened Links

  /** The compiler run on a stale cache: it is given the caller's sources
      and the options derived for the output directory. */
  function RunOf(t: Tree, sources: seq<string>, outDir: Path, options: CompileOptions, program: TsProgram): ProgramRun
  {
    program(sources, GetCompileOptions.GetTsCompileOptions(outDir, options), t)
  }

  /** After a successful compilation: save the record, then link
      `node_modules`; the first failure is the result. */
  function RecordAndLink(emitted: Tree, cwd: Path, outDir: Path, localSources: seq<string>, now: int): Io<CompileOutcome>
  {
    var saved := SaveSourcesEffect(emitted, outDir, localSources, now);
    if saved.result.Err? then Io(Err(saved.result.error), saved.tree)
    else
      var linked := LinkModulesEffect(saved.tree, cwd, outDir);
      if linked.result.Err? then Io(Err(linked.result.error), linked.tree)
      else Io(Ok(CompileOutcome(true, true, None)), linked.tree)
  }

  /** The stale branch: compile, and on success record and link. The
      result is `{success: compiled, compiled: compiled}`. */
  function CompileStale(t: Tree, cwd: Path, sources: seq<string>, outDir: Path, options: CompileOptions,
                        program: TsProgram, now: int): Io<CompileOutcome>
  {
    var run := RunOf(t, sources, outDir, options, program);
    var res := Report(run);
    if !res.compiled then Io(Ok(CompileOutcome(false, false, None)), t + run.written)
    else RecordAndLink(t + run.written, cwd, outDir, res.localSources, now)
  }

  /** `compileIfNecessary(sources, outDir, compileOptions)`, with `cwd` as
      the working directory, `program` as the compiler and `now` as the
      time the record is written. */
  function CompileEffect(t: Tree, cwd: Path, sources: seq<string>, outDir: Path, options: CompileOptions,
                         program: TsProgram, now: int): Io<CompileOutcome>
    requires ValidPath(cwd)
  {
    match ExtendedSources(t, outDir)
    case Err(e) => Io(Err(e), t)
    case Ok(recorded) =>
      match CompileNeeded(t, cwd, Dedup(sources + recorded), outDir)
      case Err(e) => Io(Err(e), t)
      case Ok(needed) =>
        if !needed then Io(Ok(CompileOutcome(true, false, None)), t)
        else CompileStale(t, cwd, sources, outDir, options, program, now)
  }

  method CompileIfNecessary(disk: Disk, cwd: Path, sources: seq<string>, outDir: Path, options: CompileOptions,
                            program: TsProgram, now: int) returns (r: Result<CompileOutcome, Error>)
    requires ValidPath(cwd)
    modifies disk
    ensures Io(r, disk.entries) == CompileEffect(old(disk.entries), cwd, sources, outDir, options, program, now)
  {
    var extendedSourceList := ExtendedSources(disk.entries, outDir);
    if extendedSourceList.Err? {
      return Err(extendedSourceList.error);
    }
    var allSources := Dedup(sources + extendedSourceList.value);
    var needed := NeedsCompile(disk, cwd, allSources, outDir);
    if needed.Err? {
      return Err(needed.error);
    }
    if !needed.value {
      return Ok(CompileOutcome(true, false, None));
    }
    var res := TsCompile(disk, program, sources, GetCompileOptions.GetTsCompileOptions(outDir, options));
    if res.compiled {
      var saved := SaveExtendedSources(disk, outDir, res.localSources, now);
      if saved.Err? {
        return Err(saved.error);
      }
      var linked := LinkNodeModules(disk, cwd, outDir);
      if linked.Err? {
        return Err(linked.error);
      }
    }
    return Ok(CompileOutcome(res.compiled, res.compiled, None));
  }

  /** `compileConfigIfNecessary(tsFile, outDir, compileOptions)` */
  function ConfigCompileEffect(t: Tree, cwd: Path, tsFile: string, outDir: Path, options: CompileOptions,
                               program: TsProgram, now: int): Io<CompileOutcome>
    requires ValidPath(cwd)
  {
    if !ExistsName(t, cwd, tsFile) then Io(Err(ConfigNotFound(tsFile)), t)
    else
      var c := CompileEffect(t, cwd, [tsFile], outDir, options, program, now);
      if c.result.Err? then c
      else if !c.result.value.success then Io(Err(CompileFailed(tsFile)), c.tree)
      else Io(Ok(c.result.value.(output := Some(JsOutFile(tsFile, outDir, cwd)))), c.tree)
  }

  method CompileConfigIfNecessary(disk: Disk, cwd: Path, tsFile: string, outDir: Path, options: CompileOptions,
                                  program: TsProgram, now: int) returns (r: Result<CompileOutcome, Error>)
    requires ValidPath(cwd)
    modifies disk
    ensures Io(r, disk.entries) == ConfigCompileEffect(old(disk.entries), cwd, tsFile, outDir, options, program, now)
  {
    if !ExistsName(disk.entries, cwd, tsFile) {
      return Err(ConfigNotFound(tsFile));
    }
    var result := CompileIfNecessary(disk, cwd, [tsFile], outDir, options, program, now);
    if result.Err? {
      return result;
    }
    if !result.value.success {
      return Err(CompileFailed(tsFile));
    }
    return Ok(result.value.(output := Some(JsOutFile(tsFile, outDir, cwd))));
  }

  /** The output is stale according to the recorded candidate list. */
  predicate Needed(t: Tree, cwd: Path, sources: seq<string>, outDir: Path)
    requires ValidPath(cwd)
  {
    ExtendedSources(t, outDir).Ok?
    && CompileNeeded(t, cwd, Dedup(sources + ExtendedSources(t, outDir).value), outDir) == Ok(true)
  }

  /** An up-to-date cache reports success without compiling, leaves the
      filesystem as it is, and does not depend on the compiler at all. */
  lemma UpToDateSkipsCompiler(t: Tree, cwd: Path, sources: seq<string>, outDir: Path, options: CompileOptions,
                              p1: TsProgram, p2: TsProgram, now: int)
    requires ValidPath(cwd) && ExtendedSources(t, outDir).Ok?
    requires CompileNeeded(t, cwd, Dedup(sources + ExtendedSources(t, outDir).value), outDir) == Ok(false)
    ensures CompileEffect(t, cwd, sources, outDir, options, p1, now) == Io(Ok(CompileOutcome(true, false, None)), t)
    ensures CompileEffect(t, cwd, sources, outDir, options, p1, now) == CompileEffect(t, cwd, sources, outDir, options, p2, now)
  {
  }

  /** The compiler is given the caller's sources, not the merged candidate
      list: two compilers that agree on those sources give the same result. */
  lemma CompilerSeesCallerSources(t: Tree, cwd: Path, sources: seq<string>, outDir: Path, options: CompileOptions,
                                  p1: TsProgram, p2: TsProgram, now: int)
    requires ValidPath(cwd)
    requires RunOf(t, sources, outDir, options, p1) == RunOf(t, sources, outDir, options, p2)
    ensures CompileEffect(t, cwd, sources, outDir, options, p1, now) == CompileEffect(t, cwd, sources, outDir, options, p2, now)
  {
  }

  /** A failed compilation reports `success: false, compiled: false`, keeps
      what the compiler wrote, and leaves the record as it was unless the
      compiler itself wrote it. */
  lemma FailedCompileKeepsRecord(t: Tree, cwd: Path, sources: seq<string>, outDir: Path, options: CompileOptions,
                                 program: TsProgram, now: int)
    requires ValidPath(cwd) && Needed(t, cwd, sources, outDir)
    requires RunOf(t, sources, outDir, options, program).emitSkipped
    ensures var run := RunOf(t, sources, outDir, options, program);
      CompileEffect(t, cwd, sources, outDir, options, program, now)
        == Io(Ok(CompileOutcome(false, false, None)), t + run.written)
    ensures var run := RunOf(t, sources, outDir, options, program);
      var t' := CompileEffect(t, cwd, sources, outDir, options, program, now).tree;
      SourcesFile(outDir) !in run.written ==>
        (SourcesFile(outDir) in t' <==> SourcesFile(outDir) in t)
        && (SourcesFile(outDir) in t ==> t'[SourcesFile(outDir)] == t[SourcesFile(outDir)])
  {
  }

  lemma RecordIsNotLink(outDir: Path)
    ensures SourcesFile(outDir) != ModulesLink(outDir)
  {
    assert SourcesFile(outDir)[|outDir|] == "_sources";
    assert ModulesLink(outDir)[|outDir|] == "node_modules";
  }

  /** Two updates, each confined to one path, are together confined to the two. */
  lemma FrameCompose(a: Tree, b: Tree, c: Tree, x: Path, y: Path)
    requires b - {x} == a - {x} && c - {y} == b - {y}
    ensures c - {x, y} == a - {x, y}
  {
    forall k | k != x && k != y
      ensures (k in c <==> k in a) && (k in c ==> c[k] == a[k])
    {
      assert k in c <==> k in c - {y};
      assert k in b <==> k in b - {x};
      assert k in c ==> c[k] == (c - {y})[k];
      assert k in b ==> b[k] == (b - {x})[k];
    }
  }

  /** Recording and linking: both succeed, the record holds the names, the
      link points at the `node_modules` found after the record is written,
      and nothing else changes. */
  lemma RecordAndLinkResult(emitted: Tree, cwd: Path, outDir: Path, localSources: seq<string>, now: int)
    requires RecordAndLink(emitted, cwd, outDir, localSources, now).result.Ok?
    ensures var io := RecordAndLink(emitted, cwd, outDir, localSources, now);
      var record := File(now, Join(localSources, '\n'));
      var saved := emitted[SourcesFile(outDir) := record];
      io.result == Ok(CompileOutcome(true, true, None))
      && SourcesFile(outDir) in io.tree && io.tree[SourcesFile(outDir)] == record
      && (NearestNodeModules(saved, cwd).Some? ==>
            ModulesLink(outDir) in io.tree
            && io.tree[ModulesLink(outDir)] == Symlink(NearestNodeModules(saved, cwd).value))
      && (NearestNodeModules(saved, cwd).None? ==>
            (ModulesLink(outDir) in io.tree <==> ModulesLink(outDir) in emitted)
            && (ModulesLink(outDir) in emitted ==> io.tree[ModulesLink(outDir)] == emitted[ModulesLink(outDir)]))
      && io.tree - {SourcesFile(outDir), ModulesLink(outDir)} == emitted - {SourcesFile(outDir), ModulesLink(outDir)}
  {
    var saved := SaveSourcesEffect(emitted, outDir, localSources, now);
    var io := RecordAndLink(emitted, cwd, outDir, localSources, now);
    LinkModulesResult(saved.tree, cwd, outDir);
    SaveTouchesOnlyRecord(emitted, outDir, localSources, now);
    RecordIsNotLink(outDir);
    FrameCompose(emitted, saved.tree, io.tree, SourcesFile(outDir), ModulesLink(outDir));
    assert SourcesFile(outDir) in io.tree - {ModulesLink(outDir)};
  }

  /** A stale cache goes to the compiler. */
  lemma NeededCompiles(t: Tree, cwd: Path, sources: seq<string>, outDir: Path, options: CompileOptions,
                       program: TsProgram, now: int)
    requires ValidPath(cwd) && Needed(t, cwd, sources, outDir)
    ensures CompileEffect(t, cwd, sources, outDir, options, program, now)
         == CompileStale(t, cwd, sources, outDir, options, program, now)
  {
  }

  /** A successful compilation overwrites the record with the local
      sources, links the `node_modules` found from the working directory,
      and changes nothing else beyond what the compiler wrote. */
  lemma CompiledSavesAndLinks(t: Tree, cwd: Path, sources: seq<string>, outDir: Path, options: CompileOptions,
                              program: TsProgram, now: int)
    requires ValidPath(cwd) && Needed(t, cwd, sources, outDir)
    requires !RunOf(t, sources, outDir, options, program).emitSkipped
    requires CompileEffect(t, cwd, sources, outDir, options, program, now).result.Ok?
    ensures var run := RunOf(t, sources, outDir, options, program);
      var io := CompileEffect(t, cwd, sources, outDir, options, program, now);
      var record := File(now, Join(LocalSources(run.sourceFileNames), '\n'));
      var saved := (t + run.written)[SourcesFile(outDir) := record];
      io.result == Ok(CompileOutcome(true, true, None))
      && SourcesFile(outDir) in io.tree && io.tree[SourcesFile(outDir)] == record
      && (NearestNodeModules(saved, cwd).Some? ==>
            ModulesLink(outDir) in io.tree
            && io.tree[ModulesLink(outDir)] == Symlink(NearestNodeModules(saved, cwd).value))
      && (NearestNodeModules(saved, cwd).None? ==>
            (ModulesLink(outDir) in io.tree <==> ModulesLink(outDir) in t + run.written)
            && (ModulesLink(outDir) in t + run.written ==> io.tree[ModulesLink(outDir)] == (t + run.written)[ModulesLink(outDir)]))
      && io.tree - {SourcesFile(outDir), ModulesLink(outDir)}
           == (t + run.written) - {SourcesFile(outDir), ModulesLink(outDir)}
  {
    var run := RunOf(t, sources, outDir, options, program);
    NeededCompiles(t, cwd, sources, outDir, options, program, now);
    RecordAndLinkResult(t + run.written, cwd, outDir, LocalSources(run.sourceFileNames), now);
  }

  /** After a successful compilation the record reads back as the local
      sources of that compilation, none of them under `node_modules`. */
  lemma RecordAfterCompile(t: Tree, cwd: Path, sources: seq<string>, outDir: Path, options: CompileOptions,
                           program: TsProgram, now: int)
    requires ValidPath(cwd) && Needed(t, cwd, sources, outDir)
    requires !RunOf(t, sources, outDir, options, program).emitSkipped
    requires CompileEffect(t, cwd, sources, outDir, options, program, now).result.Ok?
    requires var local := LocalSources(RunOf(t, sources, outDir, options, program).sourceFileNames);
      local != [] && NoNewlines(local)
    ensures var local := LocalSources(RunOf(t, sources, outDir, options, program).sourceFileNames);
      var io := CompileEffect(t, cwd, sources, outDir, options, program, now);
      ExtendedSources(io.tree, outDir) == Ok(local)
      && forall x :: x in local ==> !Contains(x, "node_modules")
  {
    var local := LocalSources(RunOf(t, sources, outDir, options, program).sourceFileNames);
    var io := CompileEffect(t, cwd, sources, outDir, options, program, now);
    CompiledSavesAndLinks(t, cwd, sources, outDir, options, program, now);
    ExistsPlain(io.tree, SourcesFile(outDir));
    SplitJoin(local, '\n');
  }

  /** A missing config file is reported before anything else happens. */
  lemma MissingConfigThrows(t: Tree, cwd: Path, tsFile: string, outDir: Path, options: CompileOptions,
                            program: TsProgram, now: int)
    requires ValidPath(cwd) && !ExistsName(t, cwd, tsFile)
    ensures ConfigCompileEffect(t, cwd, tsFile, outDir, options, program, now) == Io(Err(ConfigNotFound(tsFile)), t)
  {
  }

  /** A compilation that does not succeed is reported as a failure of the
      config file. */
  lemma FailedConfigThrows(t: Tree, cwd: Path, tsFile: string, outDir: Path, options: CompileOptions,
                           program: TsProgram, now: int)
    requires ValidPath(cwd) && ExistsName(t, cwd, tsFile)
    requires var c := CompileEffect(t, cwd, [tsFile], outDir, options, program, now);
      c.result.Ok? && !c.result.value.success
    ensures ConfigCompileEffect(t, cwd, tsFile, outDir, options, program, now).result == Err(CompileFailed(tsFile))
  {
  }

  /** A successful result names the output file of the config file,
      whether or not it was recompiled. */
  lemma ConfigOutputIsJsOutFile(t: Tree, cwd: Path, tsFile: string, outDir: Path, options: CompileOptions,
                                program: TsProgram, now: int)
    requires ValidPath(cwd)
    requires ConfigCompileEffect(t, cwd, tsFile, outDir, options, program, now).result.Ok?
    ensures var o := ConfigCompileEffect(t, cwd, tsFile, outDir, options, program, now).result.value;
      ExistsName(t, cwd, tsFile) && o.success && o.output == Some(JsOutFile(tsFile, outDir, cwd))
      && o.compiled == Needed(t, cwd, [tsFile], outDir)
  {
    assert ExistsName(t, cwd, tsFile);
    if Needed(t, cwd, [tsFile], outDir) {
      StaleConfigOutcome(t, cwd, tsFile, outDir, options, program, now);
    } else {
      NotNeededIsFresh(t, cwd, [tsFile], outDir, options, program, now);
      FreshConfigOutcome(t, cwd, tsFile, outDir, options, program, now);
    }
  }

  /** When the cache is stale, a successful call compiled, and reports so. */
  lemma StaleConfigOutcome(t: Tree, cwd: Path, tsFile: string, outDir: Path, options: CompileOptions,
                           program: TsProgram, now: int)
    requires ValidPath(cwd) && ExistsName(t, cwd, tsFile) && Needed(t, cwd, [tsFile], outDir)
    requires ConfigCompileEffect(t, cwd, tsFile, outDir, options, program, now).result.Ok?
    ensures var first := ConfigCompileEffect(t, cwd, tsFile, outDir, options, program, now);
      var stale := CompileStale(t, cwd, [tsFile], outDir, options, program, now);
      !RunOf(t, [tsFile], outDir, options, program).emitSkipped && stale.result.Ok? && first.tree == stale.tree
      && first.result == Ok(CompileOutcome(true, true, Some(JsOutFile(tsFile, outDir, cwd))))
  {
    NeededCompiles(t, cwd, [tsFile], outDir, options, program, now);
    var c := CompileEffect(t, cwd, [tsFile], outDir, options, program, now);
    assert c.result.Ok? && c.result.value.success;
    StaleOutcome(t, cwd, [tsFile], outDir, options, program, now);
  }

  /** A compilation reported as a success ran the compiler without its
      emit being skipped, and reports `success` and `compiled`. */
  lemma StaleOutcome(t: Tree, cwd: Path, sources: seq<string>, outDir: Path, options: CompileOptions,
                     program: TsProgram, now: int)
    requires var stale := CompileStale(t, cwd, sources, outDir, options, program, now);
      stale.result.Ok? && stale.result.value.success
    ensures !RunOf(t, sources, outDir, options, program).emitSkipped
    ensures CompileStale(t, cwd, sources, outDir, options, program, now).result == Ok(CompileOutcome(true, true, None))
  {
  }

  /** A call that succeeds without compiling found the cache up to date. */
  lemma NotNeededIsFresh(t: Tree, cwd: Path, sources: seq<string>, outDir: Path, options: CompileOptions,
                         program: TsProgram, now: int)
    requires ValidPath(cwd) && !Needed(t, cwd, sources, outDir)
    requires CompileEffect(t, cwd, sources, outDir, options, program, now).result.Ok?
    ensures ExtendedSources(t, outDir).Ok?
    ensures CompileNeeded(t, cwd, Dedup(sources + ExtendedSources(t, outDir).value), outDir) == Ok(false)
  {
    if ExtendedSources(t, outDir).Ok? {
      CompileNeededNeverFails(t, cwd, Dedup(sources + ExtendedSources(t, outDir).value), outDir);
    }
  }

  /** With the config file present and the cache up to date, the call
      reports its output without compiling and changes nothing. */
  lemma FreshConfigOutcome(t: Tree, cwd: Path, tsFile: string, outDir: Path, options: CompileOptions,
                           program: TsProgram, now: int)
    requires ValidPath(cwd) && ExistsName(t, cwd, tsFile) && ExtendedSources(t, outDir).Ok?
    requires CompileNeeded(t, cwd, Dedup([tsFile] + ExtendedSources(t, outDir).value), outDir) == Ok(false)
    ensures ConfigCompileEffect(t, cwd, tsFile, outDir, options, program, now)
         == Io(Ok(CompileOutcome(true, false, Some(JsOutFile(tsFile, outDir, cwd)))), t)
  {
    UpToDateSkipsCompiler(t, cwd, [tsFile], outDir, options, program, program, now);
  }

  /** What the first call in `SecondCallReusesCache` must be able to
      rely on: the config file is a plain file outside the output
      directory that the compiler does not overwrite, and a successful
      compilation writes its output as a file no older than the source. */
  predicate WellBehaved(t: Tree, cwd: Path, tsFile: string, outDir: Path, options: CompileOptions, program: TsProgram)
    requires ValidPath(cwd)
  {
    var src := Resolve(cwd, tsFile);
    var out := JsOutFile(tsFile, outDir, cwd);
    var run := RunOf(t, [tsFile], outDir, options, program);
    src in t && t[src].File? && !(outDir <= src) && src !in run.written
    && (!run.emitSkipped ==> out in run.written && run.written[out].File? && run.written[out].mtime >= t[src].mtime)
  }

  /** After a successful compilation every path other than the record
      and the module link holds what the compiler left there, and the
      record is a file. */
  lemma CompiledTreeAt(t: Tree, cwd: Path, sources: seq<string>, outDir: Path, options: CompileOptions,
                       program: TsProgram, now: int, k: Path)
    requires !RunOf(t, sources, outDir, options, program).emitSkipped
    requires CompileStale(t, cwd, sources, outDir, options, program, now).result.Ok?
    requires k != SourcesFile(outDir) && k != ModulesLink(outDir)
    ensures var emitted := t + RunOf(t, sources, outDir, options, program).written;
      var t' := CompileStale(t, cwd, sources, outDir, options, program, now).tree;
      (k in t' <==> k in emitted) && (k in t' ==> t'[k] == emitted[k])
      && SourcesFile(outDir) in t' && t'[SourcesFile(outDir)].File?
  {
    var run := RunOf(t, sources, outDir, options, program);
    var emitted := t + run.written;
    var t' := CompileStale(t, cwd, sources, outDir, options, program, now).tree;
    RecordAndLinkResult(emitted, cwd, outDir, LocalSources(run.sourceFileNames), now);
    FrameLookup(t', emitted, {SourcesFile(outDir), ModulesLink(outDir)}, k);
  }

  /** A compilation of a well-behaved config file leaves a cache that is
      up to date for it. */
  lemma CompiledConfigUpToDate(t: Tree, cwd: Path, tsFile: string, outDir: Path, options: CompileOptions,
                               program: TsProgram, now: int)
    requires ValidPath(cwd) && ValidPath(outDir) && tsFile != ""
    requires WellBehaved(t, cwd, tsFile, outDir, options, program)
    requires !RunOf(t, [tsFile], outDir, options, program).emitSkipped
    requires CompileStale(t, cwd, [tsFile], outDir, options, program, now).result.Ok?
    ensures var t' := CompileStale(t, cwd, [tsFile], outDir, options, program, now).tree;
      ExistsName(t', cwd, tsFile) && ExtendedSources(t', outDir).Ok?
      && CompileNeeded(t', cwd, Dedup([tsFile] + ExtendedSources(t', outDir).value), outDir) == Ok(false)
  {
    var src := Resolve(cwd, tsFile);
    var out := JsOutFile(tsFile, outDir, cwd);
    var t' := CompileStale(t, cwd, [tsFile], outDir, options, program, now).tree;
    assert src != SourcesFile(outDir) && src != ModulesLink(outDir) by {
      assert outDir <= SourcesFile(outDir) && outDir <= ModulesLink(outDir);
    }
    JsOutFileUnderOutDir(tsFile, outDir, cwd);
    CompiledTreeAt(t, cwd, [tsFile], outDir, options, program, now, src);
    CompiledTreeAt(t, cwd, [tsFile], outDir, options, program, now, out);
    ExistsPlain(t', src);
    FreshOutputUpToDate(t', cwd, tsFile, outDir);
  }

  /** A candidate list led by a config file whose output is no older than
      it needs no compilation. */
  lemma FreshFirstUpToDate(t: Tree, cwd: Path, tsFile: string, outDir: Path, all: seq<string>)
    requires ValidPath(cwd) && tsFile != "" && all != [] && all[0] == tsFile
    requires var src := Resolve(cwd, tsFile);
      var out := JsOutFile(tsFile, outDir, cwd);
      src in t && t[src].File? && out in t && t[out].File? && t[out].mtime >= t[src].mtime
    ensures CompileNeeded(t, cwd, all, outDir) == Ok(false)
  {
    var src := Resolve(cwd, tsFile);
    var out := JsOutFile(tsFile, outDir, cwd);
    FreshPair(t, src, out);
    CompileNeededFirstSource(t, cwd, all, outDir);
  }

  /** Two plain files, the second no older than the first: not stale. */
  lemma FreshPair(t: Tree, src: Path, out: Path)
    requires src in t && t[src].File? && out in t && t[out].File? && t[out].mtime >= t[src].mtime
    ensures Exists(t, src) && !Stale(t, Pair(src, out))
  {
    ExistsPlain(t, src);
    ExistsPlain(t, out);
  }

  /** A tree holding the config file, an output no older than it and a
      record file needs no compilation of the config file. */
  lemma FreshOutputUpToDate(t: Tree, cwd: Path, tsFile: string, outDir: Path)
    requires ValidPath(cwd) && tsFile != ""
    requires var src := Resolve(cwd, tsFile);
      var out := JsOutFile(tsFile, outDir, cwd);
      src in t && t[src].File? && out in t && t[out].File? && t[out].mtime >= t[src].mtime
    requires SourcesFile(outDir) in t && t[SourcesFile(outDir)].File?
    ensures ExtendedSources(t, outDir).Ok?
    ensures CompileNeeded(t, cwd, Dedup([tsFile] + ExtendedSources(t, outDir).value), outDir) == Ok(false)
  {
    ExistsPlain(t, SourcesFile(outDir));
    var recorded := ExtendedSources(t, outDir).value;
    SingleSourceFirst(tsFile, recorded);
    FreshFirstUpToDate(t, cwd, tsFile, outDir, Dedup([tsFile] + recorded));
  }

  /** Outside the paths an update is confined to, lookups agree. */
  lemma FrameLookup(a: Tree, b: Tree, keep: set<Path>, k: Path)
    requires a - keep == b - keep && k !in keep
    ensures (k in a <==> k in b) && (k in a ==> a[k] == b[k])
  {
    assert k in a <==> k in a - keep;
    assert k in b <==> k in b - keep;
    assert k in a ==> a[k] == (a - keep)[k];
    assert k in b ==> b[k] == (b - keep)[k];
  }

  /** Loading a config file twice does not recompile: once the first call
      succeeds, a second call with nothing changed in between reports
      `compiled: false` with the same output, leaves the filesystem as it
      is, and does not involve the compiler. */
  lemma SecondCallReusesCache(t: Tree, cwd: Path, tsFile: string, outDir: Path, options: CompileOptions,
                              program: TsProgram, other: TsProgram, now: int, later: int)
    requires ValidPath(cwd) && ValidPath(outDir) && WellBehaved(t, cwd, tsFile, outDir, options, program)
    requires ConfigCompileEffect(t, cwd, tsFile, outDir, options, program, now).result.Ok?
    ensures var first := ConfigCompileEffect(t, cwd, tsFile, outDir, options, program, now);
      ConfigCompileEffect(first.tree, cwd, tsFile, outDir, options, other, later)
        == Io(Ok(CompileOutcome(true, false, Some(JsOutFile(tsFile, outDir, cwd)))), first.tree)
  {
    var first := ConfigCompileEffect(t, cwd, tsFile, outDir, options, program, now);
    var t' := first.tree;
    assert ExistsName(t, cwd, tsFile);
    if Needed(t, cwd, [tsFile], outDir) {
      StaleConfigOutcome(t, cwd, tsFile, outDir, options, program, now);
      CompiledConfigUpToDate(t, cwd, tsFile, outDir, options, program, now);
    } else {
      NotNeededIsFresh(t, cwd, [tsFile], outDir, options, program, now);
      FreshConfigOutcome(t, cwd, tsFile, outDir, options, program, now);
    }
    FreshConfigOutcome(t', cwd, tsFile, outDir, options, other, later);
  }
}
