/** The `_sources` record in the output directory: the local source files
    of the last successful compilation, one per line (`sourcesFile`,
    `extendedSources`, `saveExtendedSources` in src/compileUtil.ts), and the
    merged candidate list `compileIfNecessary` builds from it. */
module SourcesRecord {
  import opened Results
  import opened Strings
  import opened Paths
  import opened FileSystem
  import opened CacheIo

  /** `sourcesFile(outDir)` */
  function SourcesFile(outDir: Path): Path
  {
    outDir + ["_sources"]
  }

  /** `extendedSources(outDir)`: no record reads as no names; otherwise the
      file's text split on newlines. Reading a directory throws. */
  function ExtendedSources(t: Tree, outDir: Path): Result<seq<string>, Error>
  {
    var file := SourcesFile(outDir);
    if !Exists(t, file) then Ok([])
    else match Stat(t, file)
      case File(_, content) => Ok(Split(content, '\n'))
      case Dir(_) => Err(Fs(IsADirectory(file)))
  }

  /** `saveExtendedSources(outDir, names)` at time `now`. */
  function SaveSourcesEffect(t: Tree, outDir: Path, names: seq<string>, now: int): Io<()>
  {
    var file := SourcesFile(outDir);
    if file in t && t[file].Dir? then Io(Err(Fs(IsADirectory(file))), t)
    else Io(Ok(()), t[file := File(now, Join(names, '\n'))])
  }

  method SaveExtendedSources(disk: Disk, outDir: Path, names: seq<string>, now: int)
    returns (r: Result<(), Error>)
    modifies disk
    ensures Io(r, disk.entries) == SaveSourcesEffect(old(disk.entries), outDir, names, now)
  {
    var file := SourcesFile(outDir);
    var w := disk.WriteFile(file, Join(names, '\n'), now);
    r := if w.Ok? then Ok(()) else Err(Fs(w.error));
  }

  predicate NoNewlines(names: seq<string>)
  {
    forall i :: 0 <= i < |names| ==> '\n' !in names[i]
  }

  /** A missing record, or a dangling link in its place, reads as no names. */
  lemma AbsentRecordIsEmpty(t: Tree, outDir: Path)
    requires !Exists(t, SourcesFile(outDir))
    ensures ExtendedSources(t, outDir) == Ok([])
  {
  }

  /** Saving changes the record file and nothing else. */
  lemma SaveTouchesOnlyRecord(t: Tree, outDir: Path, names: seq<string>, now: int)
    ensures var io := SaveSourcesEffect(t, outDir, names, now);
      io.tree - {SourcesFile(outDir)} == t - {SourcesFile(outDir)}
  {
  }

  /** What is saved reads back, for any non-empty list of names without
      newlines. */
  lemma SaveThenRead(t: Tree, outDir: Path, names: seq<string>, now: int)
    requires names != [] && NoNewlines(names)
    requires SaveSourcesEffect(t, outDir, names, now).result.Ok?
    ensures ExtendedSources(SaveSourcesEffect(t, outDir, names, now).tree, outDir) == Ok(names)
  {
    var t' := SaveSourcesEffect(t, outDir, names, now).tree;
    ExistsPlain(t', SourcesFile(outDir));
    SplitJoin(names, '\n');
  }

  /** An empty list is saved as empty text, which reads back as one empty name. */
  lemma SaveEmptyThenRead(t: Tree, outDir: Path, now: int)
    requires SaveSourcesEffect(t, outDir, [], now).result.Ok?
    ensures ExtendedSources(SaveSourcesEffect(t, outDir, [], now).tree, outDir) == Ok([""])
  {
    var t' := SaveSourcesEffect(t, outDir, [], now).tree;
    ExistsPlain(t', SourcesFile(outDir));
    assert Split("", '\n') == [""];
  }

  /** A directory in the record's place makes saving fail and leaves the
      filesystem as it was. */
  lemma SaveOverDirectoryFails(t: Tree, outDir: Path, names: seq<string>, now: int)
    requires SourcesFile(outDir) in t && t[SourcesFile(outDir)].Dir?
    ensures SaveSourcesEffect(t, outDir, names, now) == Io(Err(Fs(IsADirectory(SourcesFile(outDir)))), t)
  {
  }

  predicate NoDuplicates(s: seq<string>)
  {
    forall i, j :: 0 <= i < j < |s| ==> s[i] != s[j]
  }

  /** `[...new Set(s)]`: each name once, at its first occurrence. */
  function Dedup(s: seq<string>): (r: seq<string>)
    ensures NoDuplicates(r)
    ensures forall x :: x in r <==> x in s
    ensures |r| <= |s|
  {
    if s == [] then []
    else
      var init := Dedup(s[..|s| - 1]);
      var last := s[|s| - 1];
      assert forall x :: x in s <==> x in s[..|s| - 1] || x == last by {
        assert s == s[..|s| - 1] + [last];
      }
      if last in init then init else init + [last]
  }

  /** De-duplicating a longer list keeps the de-duplicated shorter one as
      its prefix. */
  lemma {:induction false} DedupPrefix(a: seq<string>, b: seq<string>)
    ensures Dedup(a) <= Dedup(a + b)
    decreases |b|
  {
    if b != [] {
      var b' := b[..|b| - 1];
      assert a + b' == (a + b)[..|a + b| - 1];
      DedupPrefix(a, b');
    } else {
      assert a + b == a;
    }
  }

  /** A list without duplicates is its own de-duplication. */
  lemma {:induction false} DedupOfDistinct(s: seq<string>)
    requires NoDuplicates(s)
    ensures Dedup(s) == s
  {
    if s != [] {
      var init := s[..|s| - 1];
      assert NoDuplicates(init);
      DedupOfDistinct(init);
      assert s[|s| - 1] !in init by {
        forall i | 0 <= i < |init| ensures init[i] != s[|s| - 1] { assert init[i] == s[i]; }
      }
      assert init + [s[|s| - 1]] == s;
    }
  }

  /** The candidate list starts with the sources named by the caller, when
      those are distinct, and each recorded name appears in it once. */
  lemma CandidatesStartWithSources(sources: seq<string>, recorded: seq<string>)
    requires NoDuplicates(sources)
    ensures sources <= Dedup(sources + recorded)
    ensures NoDuplicates(Dedup(sources + recorded))
    ensures forall x :: x in recorded ==> x in Dedup(sources + recorded)
  {
    DedupOfDistinct(sources);
    DedupPrefix(sources, recorded);
  }

  /** One source named by the caller always comes first. */
  lemma SingleSourceFirst(source: string, recorded: seq<string>)
    ensures var all := Dedup([source] + recorded); all != [] && all[0] == source
  {
    CandidatesStartWithSources([source], recorded);
  }
}
