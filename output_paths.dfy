/** Where the compiler writes the JavaScript for a TypeScript file
    (`jsOutFile`, `changeSuffix`, `compilationPairs` in src/compileUtil.ts).
    The compiler runs with the filesystem root as `rootDir`, so the output
    tree mirrors the absolute directory of each source below the output
    directory. */
module OutputPaths {
  import opened Results
  import opened Strings
  import opened Paths
  import opened Constants

  /** `suffixMap` */
  const SuffixMap: map<string, string> := map[".mts" := ".mjs", ".cts" := ".cjs", ".ts" := ".js"]

  /** The suffix the output gets: a lookup that misses yields `undefined`,
      which string concatenation spells out. */
  function NewSuffix(cur: string): (r: string)
    ensures cur in SuffixMap ==> r == SuffixMap[cur]
    ensures cur !in SuffixMap ==> r == "undefined"
  {
    if cur in SuffixMap then SuffixMap[cur] else "undefined"
  }

  predicate EndsWith(s: string, suffix: string)
  {
    |suffix| <= |s| && s[|s| - |suffix|..] == suffix
  }

  /** `path.basename(name, suffix)` for a name without separators: the
      suffix is removed when it matches exactly, letter case included. */
  function StripSuffix(name: string, suffix: string): (r: string)
    ensures suffix != "" && EndsWith(name, suffix) ==> r + suffix == name
    ensures suffix == "" || !EndsWith(name, suffix) ==> r == name
  {
    if suffix == "" || |suffix| > |name| then name
    else if suffix == name then ""
    else if EndsWith(name, suffix) then name[..|name| - |suffix|]
    else name
  }

  /** `changeSuffix(name)` for a base name: the extension is looked up in
      lower case, but only an extension already in lower case is removed. */
  function ChangeSuffix(name: string): string
  {
    var cur := ToLower(ExtName(name));
    StripSuffix(name, cur) + NewSuffix(cur)
  }

  /** `jsOutFile(tsFile, outDir)` with `cwd` as the working directory. */
  function JsOutFile(tsFile: string, outDir: Path, cwd: Path): Path
    requires ValidPath(cwd)
  {
    var tsAbsoluteDir := DirName(Resolve(cwd, tsFile));
    var dirFromRoot := Relative(FsRoot, tsAbsoluteDir);
    outDir + dirFromRoot + [ChangeSuffix(BaseName(tsFile))]
  }

  /** A source, resolved, and the output it compiles to. */
  datatype Pair = Pair(source: Path, output: Path)

  /** `compilationPairs(srcFiles, outDir)`: one pair per file, in order. */
  function CompilationPairs(srcFiles: seq<string>, outDir: Path, cwd: Path): (r: seq<Pair>)
    requires ValidPath(cwd)
    ensures |r| == |srcFiles|
    ensures forall i :: 0 <= i < |r| ==>
      r[i] == Pair(Resolve(cwd, srcFiles[i]), JsOutFile(srcFiles[i], outDir, cwd))
  {
    seq(|srcFiles|, i requires 0 <= i < |srcFiles| =>
      Pair(Resolve(cwd, srcFiles[i]), JsOutFile(srcFiles[i], outDir, cwd)))
  }

  /** The extension of `base + ext`, for an extension that is a mapped one
      in some letter case. */
  lemma ExtNameOfMapped(base: string, ext: string)
    requires base != "" && ToLower(ext) in SuffixMap
    ensures ExtName(base + ext) == ext
  {
    var m := ToLower(ext);
    assert |ext| == |m|;
    assert LowerChar(ext[0]) == m[0] == '.';
    assert ext[0] == '.';
    forall j | 1 <= j < |ext|
      ensures ext[j] != '.'
    {
      assert LowerChar(ext[j]) == m[j];
      assert m[j] != '.';
    }
    var name := base + ext;
    assert name[|base|] == '.';
    assert name[|base| + 1..] == ext[1..];
    assert '.' !in ext[1..];
    LastIndexOfIs(name, '.', |base|);
    assert name[|base|..] == ext;
  }

  lemma ToLowerOfMapped(ext: string)
    requires ext in SuffixMap
    ensures ToLower(ext) == ext
  {
  }

  /** `.ts`, `.mts` and `.cts` become `.js`, `.mjs` and `.cjs`. */
  lemma ChangeSuffixMapped(base: string, ext: string)
    requires base != "" && ext in SuffixMap
    ensures ChangeSuffix(base + ext) == base + SuffixMap[ext]
  {
    ToLowerOfMapped(ext);
    ExtNameOfMapped(base, ext);
    var name := base + ext;
    assert name[|name| - |ext|..] == ext;
    assert name[..|name| - |ext|] == base;
  }

  /** A mapped extension in another letter case is looked up in lower case
      but not removed, and the new suffix is appended after it. */
  lemma ChangeSuffixKeepsUpperCase(base: string, ext: string)
    requires base != "" && ToLower(ext) in SuffixMap && ext != ToLower(ext)
    ensures ChangeSuffix(base + ext) == base + ext + SuffixMap[ToLower(ext)]
  {
    ExtNameOfMapped(base, ext);
    var name := base + ext;
    var cur := ToLower(ext);
    assert |cur| == |ext|;
    assert name[|name| - |cur|..] == ext;
    assert !EndsWith(name, cur);
  }

  /** "a.TS" becomes "a.TS.js". */
  lemma ChangeSuffixUpperCaseExample(name: string)
    requires name == "a.TS"
    ensures ChangeSuffix(name) == "a.TS.js"
  {
    assert name == "a" + ".TS";
    assert ToLower(".TS") == ".ts";
    ChangeSuffixKeepsUpperCase("a", ".TS");
  }

  /** An extension outside the map loses its characters only when it already
      matches in lower case, and `undefined` takes their place; otherwise
      `undefined` is appended to the whole name. */
  lemma ChangeSuffixUnmapped(name: string)
    requires ToLower(ExtName(name)) !in SuffixMap
    ensures var cur := ToLower(ExtName(name));
      cur != "" && EndsWith(name, cur) ==> ChangeSuffix(name) == name[..|name| - |cur|] + "undefined"
    ensures var cur := ToLower(ExtName(name));
      cur == "" || !EndsWith(name, cur) ==> ChangeSuffix(name) == name + "undefined"
  {
    var cur := ToLower(ExtName(name));
    if cur != "" && EndsWith(name, cur) {
      var r := StripSuffix(name, cur);
      assert r + cur == name;
      assert r == name[..|name| - |cur|];
    }
  }

  /** "a.json" becomes "aundefined". */
  lemma ChangeSuffixJsonExample(name: string)
    requires name == "a.json"
    ensures ChangeSuffix(name) == "aundefined"
  {
    assert name[2..] == "json";
    LastIndexOfIs(name, '.', 1);
    assert ExtName(name) == ".json";
    assert ToLower(".json") == ".json";
    assert ".json" !in SuffixMap;
    ChangeSuffixUnmapped(name);
    assert name[|name| - 5..] == ".json";
    assert name[..1] == "a";
  }

  /** The last two characters of a suffix of at least two. */
  lemma LastTwoOfConcat(a: string, b: string)
    requires |b| >= 2
    ensures (a + b)[|a + b| - 2..] == b[|b| - 2..]
  {
  }

  lemma NewSuffixEnding(cur: string)
    ensures var suf := NewSuffix(cur);
      |suf| >= 2 && (suf[|suf| - 2..] == "js" || suf[|suf| - 2..] == "ed")
  {
    var suf := NewSuffix(cur);
    if cur == ".mts" {
      assert suf == ".mjs";
    } else if cur == ".cts" {
      assert suf == ".cjs";
    } else if cur == ".ts" {
      assert suf == ".js";
    } else {
      assert suf == "undefined";
    }
  }

  /** The new name ends in "js" or, after a missed lookup, in "ed". */
  lemma ChangeSuffixEnding(name: string)
    ensures var r := ChangeSuffix(name);
      |r| >= 2 && (r[|r| - 2..] == "js" || r[|r| - 2..] == "ed")
  {
    var cur := ToLower(ExtName(name));
    NewSuffixEnding(cur);
    LastTwoOfConcat(StripSuffix(name, cur), NewSuffix(cur));
  }

  /** Output names never collide with the record file or the module link
      kept in the output directory. */
  lemma ChangeSuffixNotReserved(name: string)
    ensures ChangeSuffix(name) != "_sources" && ChangeSuffix(name) != "node_modules"
  {
    ChangeSuffixEnding(name);
    assert "_sources"[6..] == "es";
    assert "node_modules"[10..] == "es";
  }

  /** Removing a suffix leaves a prefix. */
  lemma StripSuffixPrefix(name: string, suffix: string)
    ensures StripSuffix(name, suffix) <= name
  {
  }

  lemma NoSepInPrefix(a: string, b: string)
    requires a <= b && Sep !in b
    ensures Sep !in a
  {
    forall i | 0 <= i < |a| ensures a[i] != Sep { assert a[i] == b[i]; }
  }

  lemma NoSepInConcat(a: string, b: string)
    requires Sep !in a && Sep !in b
    ensures Sep !in a + b
  {
    forall i | 0 <= i < |a + b| ensures (a + b)[i] != Sep {
      if i < |a| { assert (a + b)[i] == a[i]; } else { assert (a + b)[i] == b[i - |a|]; }
    }
  }

  lemma NewSuffixNoSep(cur: string)
    ensures Sep !in NewSuffix(cur)
  {
  }

  /** The new name of a segment is a segment. */
  lemma ChangeSuffixValid(name: string)
    requires Sep !in name
    ensures ValidSegment(ChangeSuffix(name))
  {
    var cur := ToLower(ExtName(name));
    var stem := StripSuffix(name, cur);
    StripSuffixPrefix(name, cur);
    NoSepInPrefix(stem, name);
    NewSuffixNoSep(cur);
    NoSepInConcat(stem, NewSuffix(cur));
    ChangeSuffixEnding(name);
  }

  /** The output of a file is the output directory, then the segments of
      the file's absolute directory, then its renamed base name. */
  lemma JsOutFileLayout(tsFile: string, outDir: Path, cwd: Path)
    requires ValidPath(cwd) && Segments(tsFile) != []
    ensures var abs := Resolve(cwd, tsFile);
      JsOutFile(tsFile, outDir, cwd) == outDir + abs[..|abs| - 1] + [ChangeSuffix(abs[|abs| - 1])]
  {
    var abs := Resolve(cwd, tsFile);
    BaseNameOfResolved(cwd, tsFile);
    assert DirName(abs) == abs[..|abs| - 1];
    assert Relative(FsRoot, DirName(abs)) == DirName(abs);
  }

  /** The output depends on the file only through its resolved path: the
      same file named from two working directories maps to one output. */
  lemma JsOutFileOfResolved(f1: string, cwd1: Path, f2: string, cwd2: Path, outDir: Path)
    requires ValidPath(cwd1) && ValidPath(cwd2)
    requires Segments(f1) != [] && Segments(f2) != []
    requires Resolve(cwd1, f1) == Resolve(cwd2, f2)
    ensures JsOutFile(f1, outDir, cwd1) == JsOutFile(f2, outDir, cwd2)
  {
    JsOutFileLayout(f1, outDir, cwd1);
    JsOutFileLayout(f2, outDir, cwd2);
  }

  /** The output is a valid path strictly below the output directory, and
      it is neither the record file nor the module link there. */
  lemma JsOutFileUnderOutDir(tsFile: string, outDir: Path, cwd: Path)
    requires ValidPath(cwd) && ValidPath(outDir)
    ensures var out := JsOutFile(tsFile, outDir, cwd);
      ValidPath(out) && |out| > |outDir| && out[..|outDir|] == outDir
      && out != outDir + ["_sources"] && out != outDir + ["node_modules"]
  {
    var abs := Resolve(cwd, tsFile);
    var dir := DirName(abs);
    var name := ChangeSuffix(BaseName(tsFile));
    assert BaseName(tsFile) == "" || Sep !in BaseName(tsFile) by {
      var segs := Segments(tsFile);
      if segs != [] { assert ValidSegment(segs[|segs| - 1]); }
    }
    ChangeSuffixValid(BaseName(tsFile));
    ChangeSuffixNotReserved(BaseName(tsFile));
    assert ValidPath(dir) by {
      forall i | 0 <= i < |dir| ensures ValidSegment(dir[i]) { assert dir[i] == abs[i]; }
    }
    EntryUnderDir(outDir, dir, name);
  }

  /** A segment other than the reserved names, below a directory of
      `outDir`, is strictly below `outDir` and not a reserved entry. */
  lemma EntryUnderDir(outDir: Path, dir: Path, name: string)
    requires ValidPath(outDir) && ValidPath(dir) && ValidSegment(name)
    requires name != "_sources" && name != "node_modules"
    ensures var out := outDir + dir + [name];
      ValidPath(out) && |out| > |outDir| && out[..|outDir|] == outDir
      && out != outDir + ["_sources"] && out != outDir + ["node_modules"]
  {
    var out := outDir + dir + [name];
    ValidAppend(outDir, dir, name);
    assert out[..|outDir|] == outDir;
    if dir == [] {
      assert out == outDir + [name];
    }
  }
}
