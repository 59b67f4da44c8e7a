/** Whether the cached output is stale (`needsCompile`, `anyOutDated` in
    src/compileUtil.ts). Glob expansion is a foreign library; here a
    pattern matches itself when it names an existing entry and matches
    nothing otherwise. */
module Staleness {
  import opened Results
  import opened Paths
  import opened FileSystem
  import opened OutputPaths
  import opened CacheIo

  /** `glob.glob(pattern)` */
  function Glob(t: Tree, cwd: Path, pattern: string): seq<string>
    requires ValidPath(cwd)
  {
    if ExistsName(t, cwd, pattern) then [pattern] else []
  }

  /** `srcGlobs.flatMap(glob)`, flattened: the patterns that name existing
      entries, in order. */
  function ExpandGlobs(t: Tree, cwd: Path, patterns: seq<string>): (r: seq<string>)
    requires ValidPath(cwd)
    ensures forall x :: x in r <==> x in patterns && ExistsName(t, cwd, x)
    ensures |r| <= |patterns|
    ensures patterns != [] && ExistsName(t, cwd, patterns[0]) ==> r != [] && r[0] == patterns[0]
  {
    if patterns == [] then [] else Glob(t, cwd, patterns[0]) + ExpandGlobs(t, cwd, patterns[1..])
  }

  /** Expansion keeps the order of the patterns: expanding two lists one
      after the other is expanding their concatenation. */
  lemma {:induction false} ExpandGlobsAppend(t: Tree, cwd: Path, a: seq<string>, b: seq<string>)
    requires ValidPath(cwd)
    ensures ExpandGlobs(t, cwd, a + b) == ExpandGlobs(t, cwd, a) + ExpandGlobs(t, cwd, b)
  {
    if a == [] {
      assert a + b == b;
    } else {
      assert (a + b)[0] == a[0] && (a + b)[1..] == a[1..] + b;
      ExpandGlobsAppend(t, cwd, a[1..], b);
    }
  }

  /** `anyOutDated(filePairs)`: the loop returns in its first iteration, so
      only the first pair is examined. A missing output is stale; otherwise
      the source is stale when strictly newer. `stat` of a missing source
      throws. */
  function OutDated(t: Tree, pairs: seq<Pair>): Result<bool, Error>
  {
    if pairs == [] then Ok(false)
    else if !Exists(t, pairs[0].output) then Ok(true)
    else if !Exists(t, pairs[0].source) then Err(Fs(NotFound(pairs[0].source)))
    else Ok(MTime(t, pairs[0].source) > MTime(t, pairs[0].output))
  }

  /** One pair is stale: its output is missing or older than its source. */
  predicate Stale(t: Tree, pair: Pair)
    requires Exists(t, pair.source)
  {
    !Exists(t, pair.output) || MTime(t, pair.source) > MTime(t, pair.output)
  }

  method AnyOutDated(disk: Disk, pairs: seq<Pair>) returns (r: Result<bool, Error>)
    ensures r == OutDated(disk.entries, pairs)
  {
    for i := 0 to |pairs|
      invariant i == 0
    {
      var pair := pairs[i];
      if !Exists(disk.entries, pair.output) {
        return Ok(true);
      }
      if !Exists(disk.entries, pair.source) {
        return Err(Fs(NotFound(pair.source)));
      }
      var srcTime := MTime(disk.entries, pair.source);
      var outTime := MTime(disk.entries, pair.output);
      return Ok(srcTime > outTime);
    }
    return Ok(false);
  }

  /** `needsCompile(srcGlobs, outDir)` as a function of the filesystem. */
  function CompileNeeded(t: Tree, cwd: Path, srcGlobs: seq<string>, outDir: Path): Result<bool, Error>
    requires ValidPath(cwd)
  {
    OutDated(t, CompilationPairs(ExpandGlobs(t, cwd, srcGlobs), outDir, cwd))
  }

  method NeedsCompile(disk: Disk, cwd: Path, srcGlobs: seq<string>, outDir: Path) returns (r: Result<bool, Error>)
    requires ValidPath(cwd)
    ensures r == CompileNeeded(disk.entries, cwd, srcGlobs, outDir)
  {
    var files := ExpandGlobs(disk.entries, cwd, srcGlobs);
    var pairs := CompilationPairs(files, outDir, cwd);
    r := AnyOutDated(disk, pairs);
  }

  /** With existing sources the answer is "stale" exactly when the first
      pair is stale; no pair means nothing to do. */
  lemma OutDatedFirstPair(t: Tree, pairs: seq<Pair>)
    requires pairs != [] ==> Exists(t, pairs[0].source)
    ensures pairs == [] ==> OutDated(t, pairs) == Ok(false)
    ensures pairs != [] ==> OutDated(t, pairs) == Ok(Stale(t, pairs[0]))
  {
  }

  /** Pairs after the first are never looked at. */
  lemma OutDatedIgnoresRest(t: Tree, p: Pair, rest1: seq<Pair>, rest2: seq<Pair>)
    ensures OutDated(t, [p] + rest1) == OutDated(t, [p] + rest2)
  {
    assert ([p] + rest1)[0] == p && ([p] + rest2)[0] == p;
  }

  /** Equal modification times mean up to date. */
  lemma EqualTimesNotStale(t: Tree, p: Pair, rest: seq<Pair>)
    requires Exists(t, p.source) && Exists(t, p.output)
    requires MTime(t, p.source) == MTime(t, p.output)
    ensures OutDated(t, [p] + rest) == Ok(false)
  {
    assert ([p] + rest)[0] == p;
  }

  /** As written, a stale second pair goes unnoticed when the first pair is
      up to date. */
  lemma SecondPairNotExamined()
    ensures var t: Tree := map[[] := Dir(0), ["a"] := File(1, ""), ["b"] := File(5, ""), ["o"] := File(1, "")];
      var pairs := [Pair(["a"], ["o"]), Pair(["b"], ["o"])];
      Exists(t, ["b"]) && Stale(t, pairs[1]) && OutDated(t, pairs) == Ok(false)
  {
    var t: Tree := map[[] := Dir(0), ["a"] := File(1, ""), ["b"] := File(5, ""), ["o"] := File(1, "")];
    ExistsPlain(t, ["a"]);
    ExistsPlain(t, ["b"]);
    ExistsPlain(t, ["o"]);
  }

  /** Since glob yields only existing files, `needsCompile` never fails on
      a missing source. */
  lemma CompileNeededNeverFails(t: Tree, cwd: Path, srcGlobs: seq<string>, outDir: Path)
    requires ValidPath(cwd)
    ensures CompileNeeded(t, cwd, srcGlobs, outDir).Ok?
  {
    var files := ExpandGlobs(t, cwd, srcGlobs);
    if files != [] {
      assert files[0] in files;
    }
  }

  /** When the first name is an existing file, only its own output decides. */
  lemma CompileNeededFirstSource(t: Tree, cwd: Path, srcGlobs: seq<string>, outDir: Path)
    requires ValidPath(cwd) && srcGlobs != [] && ExistsName(t, cwd, srcGlobs[0])
    ensures CompileNeeded(t, cwd, srcGlobs, outDir)
         == Ok(Stale(t, Pair(Resolve(cwd, srcGlobs[0]), JsOutFile(srcGlobs[0], outDir, cwd))))
  {
    var files := ExpandGlobs(t, cwd, srcGlobs);
    var pairs := CompilationPairs(files, outDir, cwd);
    assert pairs[0] == Pair(Resolve(cwd, srcGlobs[0]), JsOutFile(srcGlobs[0], outDir, cwd));
  }
}
