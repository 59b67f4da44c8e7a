/** Where the compiled output of a config file is cached: `getOutDir`
    (src/loadTsConfig.ts). The working directory, the home directory and the
    platform are inputs instead of process state. */
module LoadTsConfig {
  import opened Results
  import opened Strings
  import opened Paths
  import opened Constants
  import opened Types

  datatype Platform = Win32 | OtherPlatform

  /** `process.cwd()`, `os.homedir()` and `os.platform()`. */
  datatype Env = Env(cwd: Path, home: Path, platform: Platform)

  predicate ValidEnv(env: Env)
  {
    ValidPath(env.cwd) && ValidPath(env.home)
  }

  datatype ConfigError =
    | CacheDirNotRelative(subDir: string, projectRoot: string)
    | UnknownCacheConfigType

  predicate IsAlnum(c: char)
  {
    'a' <= c <= 'z' || 'A' <= c <= 'Z' || '0' <= c <= '9'
  }

  /** `s` with its leading run of characters outside [A-Za-z0-9] removed. */
  function SkipRun(s: string): (r: string)
    ensures r == [] || IsAlnum(r[0])
    ensures |r| <= |s| && (s != [] && !IsAlnum(s[0]) ==> |r| < |s|)
    ensures r == s[|s| - |r|..]
    ensures forall i :: 0 <= i < |s| - |r| ==> !IsAlnum(s[i])
  {
    if s != [] && !IsAlnum(s[0]) then SkipRun(s[1..]) else s
  }

  /** The letters and digits of `s`, in order. */
  function Alnums(s: string): string
  {
    if s == [] then [] else (if IsAlnum(s[0]) then [s[0]] else []) + Alnums(s[1..])
  }

  /** No two adjacent dashes. */
  predicate NoDoubleDash(s: string)
  {
    forall i :: 0 <= i < |s| - 1 ==> !(s[i] == '-' && s[i + 1] == '-')
  }

  /** `name.replace(/[^a-z0-9]+/gi, '-')`: each maximal run of characters
      other than ASCII letters and digits becomes one dash; letter case is kept. */
  function Sanitize(s: string): (r: string)
    ensures r == [] <==> s == []
    ensures |r| <= |s|
    decreases |s|
  {
    if s == [] then []
    else if IsAlnum(s[0]) then [s[0]] + Sanitize(s[1..])
    else "-" + Sanitize(SkipRun(s))
  }

  /** What `Sanitize` promises of its result `r` for input `s`: only
      letters, digits and single dashes, the letters and digits of `s` in
      order, and a leading dash exactly when `s` starts with a run. */
  predicate Sanitized(s: string, r: string)
  {
    (forall i :: 0 <= i < |r| ==> IsAlnum(r[i]) || r[i] == '-')
    && NoDoubleDash(r)
    && Alnums(r) == Alnums(s)
    && (r != [] ==> s != [] && (r[0] == '-' <==> !IsAlnum(s[0])))
  }

  lemma {:induction false} SanitizeShape(s: string)
    ensures Sanitized(s, Sanitize(s))
    decreases |s|
  {
    if s != [] {
      if IsAlnum(s[0]) {
        SanitizeShape(s[1..]);
        KeptShape(s);
      } else {
        SanitizeShape(SkipRun(s));
        DashShape(s);
      }
    }
  }

  lemma KeptShape(s: string)
    requires s != [] && IsAlnum(s[0]) && Sanitized(s[1..], Sanitize(s[1..]))
    ensures Sanitized(s, Sanitize(s))
  {
    var rest := Sanitize(s[1..]);
    assert Sanitize(s) == [s[0]] + rest;
    ConsShape(s[0], rest);
    AlnumsCons(s[0], s[1..]);
    assert [s[0]] + s[1..] == s;
  }

  lemma DashShape(s: string)
    requires s != [] && !IsAlnum(s[0]) && Sanitized(SkipRun(s), Sanitize(SkipRun(s)))
    ensures Sanitized(s, Sanitize(s))
  {
    var rest := Sanitize(SkipRun(s));
    assert Sanitize(s) == "-" + rest;
    ConsShape('-', rest);
    AlnumsOfRun(s);
  }

  /** Putting a letter, a digit or a dash not followed by a dash in front
      of a sanitised string gives a sanitised string. */
  lemma ConsShape(c: char, rest: string)
    requires IsAlnum(c) || c == '-'
    requires forall i :: 0 <= i < |rest| ==> IsAlnum(rest[i]) || rest[i] == '-'
    requires NoDoubleDash(rest) && (c == '-' && rest != [] ==> rest[0] != '-')
    ensures var r := [c] + rest;
      (forall i :: 0 <= i < |r| ==> IsAlnum(r[i]) || r[i] == '-') && NoDoubleDash(r)
      && Alnums(r) == (if IsAlnum(c) then [c] else []) + Alnums(rest)
  {
    var r := [c] + rest;
    forall i | 0 <= i < |r| ensures IsAlnum(r[i]) || r[i] == '-' {
      if i > 0 { assert r[i] == rest[i - 1]; }
    }
    forall i | 0 <= i < |r| - 1 ensures !(r[i] == '-' && r[i + 1] == '-') {
      assert r[i + 1] == rest[i];
      if i > 0 { assert r[i] == rest[i - 1]; }
    }
    AlnumsCons(c, rest);
  }

  lemma AlnumsCons(c: char, t: string)
    ensures Alnums([c] + t) == (if IsAlnum(c) then [c] else []) + Alnums(t)
  {
    assert ([c] + t)[0] == c && ([c] + t)[1..] == t;
  }

  /** A removed run holds no letters or digits. */
  lemma {:induction false} AlnumsOfRun(s: string)
    ensures Alnums(SkipRun(s)) == Alnums(s)
  {
    if s != [] && !IsAlnum(s[0]) {
      AlnumsOfRun(s[1..]);
    }
  }

  /** A string of letters, digits and single dashes is left as it is. */
  lemma {:induction false} SanitizeFixes(t: string)
    requires forall i :: 0 <= i < |t| ==> IsAlnum(t[i]) || t[i] == '-'
    requires NoDoubleDash(t)
    ensures Sanitize(t) == t
    decreases |t|
  {
    if t != [] {
      if IsAlnum(t[0]) {
        SanitizeFixes(t[1..]);
        assert [t[0]] + t[1..] == t;
      } else {
        assert t[0] == '-';
        assert SkipRun(t) == t[1..] by {
          assert t[1..] == [] || IsAlnum(t[1]);
          if t[1..] != [] { assert SkipRun(t[1..]) == t[1..]; }
        }
        SanitizeFixes(t[1..]);
        assert "-" + t[1..] == t;
      }
    }
  }

  /** Sanitising twice is sanitising once. */
  lemma SanitizeIdempotent(s: string)
    ensures Sanitize(Sanitize(s)) == Sanitize(s)
  {
    SanitizeShape(s);
    SanitizeFixes(Sanitize(s));
  }

  /** One step of `Sanitize` on a leading letter or digit. */
  lemma UnfoldAlnumHead(s: string)
    requires s != [] && IsAlnum(s[0])
    ensures Sanitize(s) == [s[0]] + Sanitize(s[1..])
  {
  }

  /** A word of letters and digits passes through unchanged. */
  lemma {:induction false} SanitizeWord(w: string, rest: string)
    requires forall i :: 0 <= i < |w| ==> IsAlnum(w[i])
    ensures Sanitize(w + rest) == w + Sanitize(rest)
  {
    if w != [] {
      var s := w + rest;
      assert s[0] == w[0] && s[1..] == w[1..] + rest;
      UnfoldAlnumHead(s);
      SanitizeWord(w[1..], rest);
      calc {
        Sanitize(s);
        [w[0]] + Sanitize(w[1..] + rest);
        [w[0]] + (w[1..] + Sanitize(rest));
        { assert [w[0]] + w[1..] == w; }
        w + Sanitize(rest);
      }
    } else {
      assert w + rest == rest;
    }
  }

  /** Removing the leading run of a run followed by a letter, a digit or
      nothing leaves exactly what follows the run. */
  lemma {:induction false} SkipRunOfRun(run: string, rest: string)
    requires forall i :: 0 <= i < |run| ==> !IsAlnum(run[i])
    requires rest == [] || IsAlnum(rest[0])
    ensures SkipRun(run + rest) == rest
  {
    if run == [] {
      assert run + rest == rest;
    } else {
      var s := run + rest;
      assert s[0] == run[0] && s[1..] == run[1..] + rest;
      SkipRunOfRun(run[1..], rest);
    }
  }

  /** A word, then a maximal run of other characters, then the rest: the
      word is kept, the whole run becomes one dash, and the rest is
      sanitised on its own. */
  lemma SanitizeRun(w: string, run: string, rest: string)
    requires forall i :: 0 <= i < |w| ==> IsAlnum(w[i])
    requires run != [] && forall i :: 0 <= i < |run| ==> !IsAlnum(run[i])
    requires rest == [] || IsAlnum(rest[0])
    ensures Sanitize(w + run + rest) == w + "-" + Sanitize(rest)
  {
    var t := run + rest;
    assert w + run + rest == w + t;
    SanitizeWord(w, t);
    SanitizeLeadingRun(run, rest);
    var x := Sanitize(rest);
    assert w + ("-" + x) == w + "-" + x;
  }

  /** A leading maximal run becomes one dash. */
  lemma SanitizeLeadingRun(run: string, rest: string)
    requires run != [] && forall i :: 0 <= i < |run| ==> !IsAlnum(run[i])
    requires rest == [] || IsAlnum(rest[0])
    ensures Sanitize(run + rest) == "-" + Sanitize(rest)
  {
    var t := run + rest;
    assert t[0] == run[0];
    SkipRunOfRun(run, rest);
  }


  /** A sanitised name is one path segment, or nothing when the name is empty. */
  lemma SegmentsOfSanitized(name: string)
    ensures Segments(Sanitize(name)) == if name == "" then [] else [Sanitize(name)]
  {
    var t := Sanitize(name);
    SanitizeShape(name);
    if name != "" {
      assert Sep !in t by {
        forall i | 0 <= i < |t| ensures t[i] != Sep {
          assert IsAlnum(t[i]) || t[i] == '-';
        }
      }
      SplitWithoutSeparator(t, Sep);
      assert t != "." by { assert t[0] != '.'; }
      assert ValidPath([t]);
      NamesOfValid([t]);
    } else {
      assert Split("", Sep) == [""];
    }
  }

  /** The characters `.` does not match in a JavaScript regular expression. */
  predicate LineTerminator(c: char)
  {
    c == '\n' || c == '\r' || c == '\U{2028}' || c == '\U{2029}'
  }

  /** The length of the first line of `s`. */
  function FirstLineLength(s: string): (n: nat)
    ensures n <= |s|
    ensures forall i :: 0 <= i < n ==> !LineTerminator(s[i])
    ensures n < |s| ==> LineTerminator(s[n])
  {
    if s == [] || LineTerminator(s[0]) then 0 else 1 + FirstLineLength(s[1..])
  }

  /** `s.replace(/^(.+):/, '$1')`: the greedy group reaches the last colon
      of the first line, and that colon is removed provided at least one
      character precedes it. */
  function StripDriveColon(s: string): string
  {
    match LastIndexOf(s[..FirstLineLength(s)], ':')
    case None => s
    case Some(k) => if k >= 1 then s[..k] + s[k + 1..] else s
  }

  /** The colon removed is the last one of the first line. */
  lemma StripsLastColon(s: string, k: nat)
    requires 1 <= k < FirstLineLength(s) && s[k] == ':'
    requires ':' !in s[k + 1..FirstLineLength(s)]
    ensures StripDriveColon(s) == s[..k] + s[k + 1..]
  {
    var first := s[..FirstLineLength(s)];
    assert first[k + 1..] == s[k + 1..FirstLineLength(s)];
    LastIndexOfIs(first, ':', k);
  }

  /** Without a colon nothing is removed. */
  lemma StripWithoutColon(s: string)
    requires ':' !in s
    ensures StripDriveColon(s) == s
  {
    var first := s[..FirstLineLength(s)];
    assert ':' !in first by {
      forall i | 0 <= i < |first| ensures first[i] != ':' { assert first[i] == s[i]; }
    }
  }

  /** A string without line terminators is a single line. */
  lemma {:induction false} SingleLine(s: string)
    requires forall i :: 0 <= i < |s| ==> !LineTerminator(s[i])
    ensures FirstLineLength(s) == |s|
  {
    if s != [] {
      SingleLine(s[1..]);
    }
  }

  lemma DriveExampleFacts(s: string)
    requires s == "/C:/a"
    ensures FirstLineLength(s) == 5 && s[2] == ':' && ':' !in s[3..5]
    ensures s[..2] + s[3..] == "/C/a"
  {
    assert forall i :: 0 <= i < |s| ==> !LineTerminator(s[i]);
    SingleLine(s);
    assert s[3..5] == [s[3], s[4]];
    assert s[..2] + s[3..] == [s[0], s[1], s[3], s[4]];
  }

  /** On Windows the drive letter's colon is dropped and the letter kept. */
  lemma StripDriveExample(dir: string)
    requires dir == "/C:/a"
    ensures StripDriveColon(dir) == "/C/a"
  {
    DriveExampleFacts(dir);
    StripsLastColon(dir, 2);
  }

  /** The directory of the resolved config file, as a string. */
  function ConfigDir(cwd: Path, tsFile: string): string
    requires ValidPath(cwd)
  {
    Render(DirName(Resolve(cwd, tsFile)))
  }

  /** The global policy: home / cache namespace / sanitised program name /
      the config file's directory (its drive colon removed on Windows). */
  function GlobalOutDir(tsFileDir: string, programName: string, env: Env): Path
  {
    var safePath := if env.platform == Win32 then StripDriveColon(tsFileDir) else tsFileDir;
    env.home + [DefaultCacheDir] + Segments(Sanitize(programName)) + Segments(safePath)
  }

  /** The local policy: cwd / cache directory / the config file's directory
      with the first occurrence of cwd removed. */
  function LocalOutDir(tsFileDir: string, cacheDir: Option<string>, env: Env): Result<Path, ConfigError>
  {
    var subDir := if cacheDir.None? || cacheDir.value == "" then DefaultCacheDir else cacheDir.value;
    if IsAbsolute(subDir) then
      Err(CacheDirNotRelative(subDir, Render(env.cwd)))
    else
      var relativePath := ReplaceFirst(tsFileDir, Render(env.cwd), "");
      Ok(env.cwd + Segments(subDir) + Segments(relativePath))
  }

  /** `getOutDir(tsFile, cacheConfig)`: it switches on the `type` property. */
  function GetOutDir(tsFile: string, config: ConfigObject, env: Env): Result<Path, ConfigError>
    requires ValidEnv(env)
  {
    var tsFileDir := ConfigDir(env.cwd, tsFile);
    if config.kind == Some("global") then Ok(GlobalOutDir(tsFileDir, config.programName, env))
    else if config.kind == Some("local") then LocalOutDir(tsFileDir, config.cacheDir, env)
    else Err(UnknownCacheConfigType)
  }

  /** The global cache directory on platforms other than Windows. */
  lemma GlobalOutDirSegments(tsFileDir: string, name: string, env: Env)
    requires env.platform != Win32 && name != ""
    ensures GlobalOutDir(tsFileDir, name, env) == env.home + [DefaultCacheDir, Sanitize(name)] + Segments(tsFileDir)
  {
    SegmentsOfSanitized(name);
    assert env.home + [DefaultCacheDir] + [Sanitize(name)] == env.home + [DefaultCacheDir, Sanitize(name)];
  }

  /** Global policy: home directory, cache namespace, sanitised program
      name, then the config file's whole directory; on platforms other
      than Windows that directory is kept segment for segment. */
  lemma GlobalOutDirLayout(tsFile: string, name: string, cacheDir: Option<string>, env: Env)
    requires ValidEnv(env) && env.platform != Win32 && name != ""
    ensures GetOutDir(tsFile, ConfigObject(Some("global"), None, name, cacheDir), env)
         == Ok(env.home + [DefaultCacheDir, Sanitize(name)] + DirName(Resolve(env.cwd, tsFile)))
  {
    var tsFileDir := ConfigDir(env.cwd, tsFile);
    GlobalOutDirSegments(tsFileDir, name, env);
    SegmentsOfRender(DirName(Resolve(env.cwd, tsFile)));
  }

  /** Global policy: the cache directory encodes the source directory in
      full, so config files in different directories never share one. */
  lemma GlobalOutDirsDistinct(f1: string, f2: string, name: string, env: Env)
    requires ValidEnv(env) && env.platform != Win32 && name != ""
    requires DirName(Resolve(env.cwd, f1)) != DirName(Resolve(env.cwd, f2))
    ensures GetOutDir(f1, ConfigObject(Some("global"), None, name, None), env)
         != GetOutDir(f2, ConfigObject(Some("global"), None, name, None), env)
  {
    GlobalOutDirLayout(f1, name, None, env);
    GlobalOutDirLayout(f2, name, None, env);
    var prefix := env.home + [DefaultCacheDir, Sanitize(name)];
    var d1, d2 := DirName(Resolve(env.cwd, f1)), DirName(Resolve(env.cwd, f2));
    assert (prefix + d1)[|prefix|..] == d1 && (prefix + d2)[|prefix|..] == d2;
  }

  /** Local policy: an absolute cache directory is rejected. */
  lemma AbsoluteCacheDirRejected(tsFile: string, d: string, env: Env, name: string)
    requires ValidEnv(env) && IsAbsolute(d)
    ensures GetOutDir(tsFile, ConfigObject(Some("local"), None, name, Some(d)), env)
         == Err(CacheDirNotRelative(d, Render(env.cwd)))
  {
  }

  /** Local policy: an absent and an empty cache directory both mean the default one. */
  lemma EmptyCacheDirIsDefault(tsFile: string, env: Env, name: string)
    requires ValidEnv(env)
    ensures GetOutDir(tsFile, ConfigObject(Some("local"), None, name, None), env)
         == GetOutDir(tsFile, ConfigObject(Some("local"), None, name, Some("")), env)
         == GetOutDir(tsFile, ConfigObject(Some("local"), None, name, Some(DefaultCacheDir)), env)
  {
  }

  /** Removing the rendering of an ancestor from the rendering of a
      directory leaves the rest of that directory. */
  lemma StripAncestor(cwd: Path, rest: Path)
    requires ValidPath(cwd + rest)
    ensures Segments(ReplaceFirst(Render(cwd + rest), Render(cwd), "")) == rest
  {
    assert ValidPath(rest) by {
      forall i | 0 <= i < |rest| ensures ValidSegment(rest[i]) { assert rest[i] == (cwd + rest)[|cwd| + i]; }
    }
    if cwd == [] {
      assert cwd + rest == rest;
      RemovePrefix([Sep], Join(rest, Sep));
      SegmentsOfJoin(rest);
    } else if rest == [] {
      assert cwd + rest == cwd;
      RemovePrefix(Render(cwd), "");
      assert Render(cwd) + "" == Render(cwd);
      assert Split("", Sep) == [""];
    } else {
      RenderExtends(cwd, rest);
      assert Render(cwd + rest) == Render(cwd) + Render(rest);
      RemovePrefix(Render(cwd), Render(rest));
      SegmentsOfRender(rest);
    }
  }

  /** Local policy: for a config file below the working directory the cache
      directory is cwd / cacheDir / (the file's directory relative to cwd). */
  lemma LocalOutDirUnderCwd(tsFile: string, d: string, env: Env, name: string)
    requires ValidEnv(env) && !IsAbsolute(d) && d != ""
    requires env.cwd <= DirName(Resolve(env.cwd, tsFile))
    ensures var dir := DirName(Resolve(env.cwd, tsFile));
      GetOutDir(tsFile, ConfigObject(Some("local"), None, name, Some(d)), env)
        == Ok(env.cwd + Segments(d) + dir[|env.cwd|..])
  {
    var dir := DirName(Resolve(env.cwd, tsFile));
    var rest := dir[|env.cwd|..];
    assert env.cwd + rest == dir;
    assert ValidPath(dir) by {
      var abs := Resolve(env.cwd, tsFile);
      forall i | 0 <= i < |dir| ensures ValidSegment(dir[i]) { assert dir[i] == abs[i]; }
    }
    StripAncestor(env.cwd, rest);
  }

  /** The directories of the two config files of the collision example. */
  lemma CollidingDirs(f1: string, f2: string)
    requires f1 == "/us/a.ts" && f2 == "/u/s/a.ts"
    ensures ConfigDir(["u"], f1) == "/u" + "s"
    ensures ConfigDir(["u"], f2) == "/u" + "/s"
  {
    FirstCollidingDir(f1);
    SecondCollidingDir(f2);
  }

  lemma FirstCollidingDir(f: string)
    requires f == "/us/a.ts"
    ensures ConfigDir(["u"], f) == "/u" + "s"
  {
    var p := ["us", "a.ts"];
    assert f == Render(p);
    ConfigDirOfRendered(["u"], p);
    assert p[..1] == ["us"];
    assert Render(["us"]) == "/u" + "s";
  }

  lemma SecondCollidingDir(f: string)
    requires f == "/u/s/a.ts"
    ensures ConfigDir(["u"], f) == "/u" + "/s"
  {
    var p := ["u", "s", "a.ts"];
    assert f == Render(p);
    ConfigDirOfRendered(["u"], p);
    assert p[..2] == ["u", "s"];
    assert Render(["u", "s"]) == "/u" + "/s";
  }


  /** The directory of a file named by its absolute path. */
  lemma ConfigDirOfRendered(cwd: Path, p: Path)
    requires ValidPath(cwd) && ValidPath(p) && p != []
    ensures ConfigDir(cwd, Render(p)) == Render(p[..|p| - 1])
  {
    SegmentsOfRender(p);
    assert IsAbsolute(Render(p));
  }

  /** Both directories lose their "/u" prefix and map to the same place. */
  lemma CollidingOutDirs(env: Env)
    requires env.cwd == ["u"]
    ensures LocalOutDir("/u" + "s", Some("c"), env) == Ok(["u", "c", "s"])
    ensures LocalOutDir("/u" + "/s", Some("c"), env) == Ok(["u", "c", "s"])
  {
    assert Render(["u"]) == "/u";
    RemovePrefix("/u", "s");
    RemovePrefix("/u", "/s");
    assert Segments("s") == ["s"] by { SplitWithoutSeparator("s", Sep); }
    assert Segments("/s") == ["s"] by { assert "/s" == Render(["s"]); SegmentsOfRender(["s"]); }
    assert Segments("c") == ["c"] by { SplitWithoutSeparator("c", Sep); }
    assert !IsAbsolute("c");
    assert ["u"] + ["c"] + ["s"] == ["u", "c", "s"];
  }

  /** Local policy, as written: the working directory is removed as a plain
      string wherever it first occurs, so a directory "/us" next to a working
      directory "/u" is treated as if it were "/u/s", and the two share one
      cache directory. */
  lemma LocalOutDirsCanCollide(f1: string, f2: string)
    requires f1 == "/us/a.ts" && f2 == "/u/s/a.ts"
    ensures var env := Env(["u"], ["h"], OtherPlatform);
      var config := ConfigObject(Some("local"), None, "", Some("c"));
      GetOutDir(f1, config, env) == GetOutDir(f2, config, env) == Ok(["u", "c", "s"])
  {
    var env := Env(["u"], ["h"], OtherPlatform);
    var config := ConfigObject(Some("local"), None, "", Some("c"));
    CollidingDirs(f1, f2);
    CollidingOutDirs(env);
    LocalPolicy(f1, config, env);
    LocalPolicy(f2, config, env);
  }

  /** A "local" tag selects the local cache directory of the config file's
      directory. */
  lemma LocalPolicy(tsFile: string, config: ConfigObject, env: Env)
    requires ValidEnv(env) && config.kind == Some("local")
    ensures GetOutDir(tsFile, config, env) == LocalOutDir(ConfigDir(env.cwd, tsFile), config.cacheDir, env)
  {
    assert "local" != "global";
  }

  /** A policy tag other than "global" and "local" is rejected. */
  lemma UnknownPolicyRejected(tsFile: string, config: ConfigObject, env: Env)
    requires ValidEnv(env) && config.kind != Some("global") && config.kind != Some("local")
    ensures GetOutDir(tsFile, config, env) == Err(UnknownCacheConfigType)
  {
  }

  /** A configuration built as the declared `CacheConfig` type describes it
      carries its tag in `cacheType`, which `getOutDir` does not read: every
      such configuration is rejected as an unknown policy. */
  lemma DeclaredConfigRejected(tsFile: string, c: CacheConfig, env: Env)
    requires ValidEnv(env)
    ensures GetOutDir(tsFile, ObjectOf(c), env) == Err(UnknownCacheConfigType)
  {
  }
}
