/** The TypeScript compiler as the compile cache uses it (`tsCompile` in
    src/tsCompile.ts). The compiler itself is a parameter: a run is any
    function of the root file names, the options and the filesystem. */
module Transpiler {
  import opened Strings
  import opened Types
  import opened GetCompileOptions
  import opened FileSystem

  /** What one `createProgram` plus `emit` produces: the names of every
      source file the program loaded (root files and their imports), whether
      emitting was skipped, and the files it wrote. */
  datatype ProgramRun = ProgramRun(sourceFileNames: seq<string>, emitSkipped: bool, written: Tree)

  type TsProgram = (seq<string>, TsCompilerOptions, Tree) -> ProgramRun

  /** The loaded files that are not under a `node_modules` directory, in order. */
  function LocalSources(names: seq<string>): (r: seq<string>)
    ensures forall x :: x in r <==> x in names && !Contains(x, "node_modules")
    ensures |r| <= |names|
  {
    if names == [] then []
    else (if Contains(names[0], "node_modules") then [] else [names[0]]) + LocalSources(names[1..])
  }

  /** The report of one run: its local sources, and `compiled` exactly
      when emitting was not skipped. */
  function Report(run: ProgramRun): (r: CompileResult)
    ensures r.compiled <==> !run.emitSkipped
    ensures forall x :: x in r.localSources ==> !Contains(x, "node_modules")
  {
    CompileResult(LocalSources(run.sourceFileNames), !run.emitSkipped)
  }

  /** `tsCompile(fileNames, options)`: run the program once, write what it
      emits, and report. Diagnostics printing is not modelled. */
  method TsCompile(disk: Disk, program: TsProgram, fileNames: seq<string>, options: TsCompilerOptions)
    returns (r: CompileResult)
    modifies disk
    ensures var run := program(fileNames, options, old(disk.entries));
      r == Report(run) && disk.entries == old(disk.entries) + run.written
  {
    var run := program(fileNames, options, disk.entries);
    disk.Emit(run.written);
    r := Report(run);
  }
}
