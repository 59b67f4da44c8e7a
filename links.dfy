/** The link from the output directory to the nearest `node_modules`
    (`symLinkForce`, `isSymLink`, `nearestNodeModules`, `linkNodeModules` in
    src/compileUtil.ts), so that compiled output resolves the project's
    packages. The Windows `junction` link type is not modelled. */
module Links {
  import opened Results
  import opened Paths
  import opened FileSystem
  import opened CacheIo

  /** `symLinkForce(existing, link)`: an existing link is replaced, an
      existing file or directory is refused, and a dangling link (which
      does not count as existing) makes `symlink` fail. */
  function ForceLinkEffect(t: Tree, existing: Path, link: Path): Io<()>
  {
    if Exists(t, link) && !IsSymLink(t, link) then Io(Err(RefusingToUnlink(link)), t)
    else if !Exists(t, link) && link in t then Io(Err(Fs(AlreadyExists(link))), t)
    else Io(Ok(()), t[link := Symlink(existing)])
  }

  method SymLinkForce(disk: Disk, existing: Path, link: Path) returns (r: Result<(), Error>)
    modifies disk
    ensures Io(r, disk.entries) == ForceLinkEffect(old(disk.entries), existing, link)
  {
    if Exists(disk.entries, link) {
      if !IsSymLink(disk.entries, link) {
        return Err(RefusingToUnlink(link));
      }
      disk.Unlink(link);
    }
    var s := disk.Symlink(existing, link);
    r := if s.Ok? then Ok(()) else Err(Fs(s.error));
  }

  /** Nothing but `link` is touched, whatever the outcome. */
  lemma ForceLinkFrame(t: Tree, existing: Path, link: Path)
    ensures ForceLinkEffect(t, existing, link).tree - {link} == t - {link}
  {
  }

  /** A file or directory at `link` is refused and nothing changes. */
  lemma ForceLinkRefuses(t: Tree, existing: Path, link: Path)
    requires link in t && !t[link].Symlink?
    ensures ForceLinkEffect(t, existing, link) == Io(Err(RefusingToUnlink(link)), t)
  {
    ExistsPlain(t, link);
  }

  /** With nothing at `link`, or a link that resolves, the call succeeds
      and `link` afterwards is a link to `existing`. */
  lemma ForceLinkLinks(t: Tree, existing: Path, link: Path)
    requires link !in t || (t[link].Symlink? && Exists(t, link))
    ensures var io := ForceLinkEffect(t, existing, link);
      io.result == Ok(()) && io.tree == t[link := Symlink(existing)]
  {
  }

  /** A dangling link at `link` makes the call fail with nothing changed. */
  lemma ForceLinkDangling(t: Tree, existing: Path, link: Path)
    requires link in t && t[link].Symlink? && !Exists(t, link)
    ensures ForceLinkEffect(t, existing, link) == Io(Err(Fs(AlreadyExists(link))), t)
  {
  }

  /** After a successful call, a second identical call changes nothing
      exactly when the new link resolves; otherwise it fails on the
      dangling link it finds. */
  lemma ForceLinkTwice(t: Tree, existing: Path, link: Path)
    requires ForceLinkEffect(t, existing, link).result.Ok?
    ensures var once := ForceLinkEffect(t, existing, link);
      var twice := ForceLinkEffect(once.tree, existing, link);
      (twice == once <==> Exists(once.tree, link))
      && (!Exists(once.tree, link) ==> twice == Io(Err(Fs(AlreadyExists(link))), once.tree))
  {
    var once := ForceLinkEffect(t, existing, link);
    assert once.tree[link] == Symlink(existing);
    assert once.tree[link := Symlink(existing)] == once.tree;
  }

  /** With nothing at `link`, forcing a link to a plain entry twice is
      forcing it once: the first call makes the link, the second replaces
      it by the same link. */
  lemma ForceLinkTwiceToPlain(t: Tree, existing: Path, link: Path)
    requires link !in t && existing in t && !t[existing].Symlink?
    ensures var once := ForceLinkEffect(t, existing, link);
      once == Io(Ok(()), t[link := Symlink(existing)])
      && ForceLinkEffect(once.tree, existing, link) == once
  {
    ForceLinkLinks(t, existing, link);
    LinkToPlainResolves(t, link, existing);
    ForceLinkTwice(t, existing, link);
  }

  /** The `node_modules` entry a directory would hold. */
  function ModulesIn(dir: Path): Path
  {
    dir + ["node_modules"]
  }

  /** Whether the walk up from `dir` looks in the ancestor `dir[..k]`: it
      visits `dir` and its ancestors down to the top-level directory, and
      the root only when it starts there. */
  predicate Searched(dir: Path, k: nat)
  {
    k <= |dir| && (1 <= k || dir == [])
  }

  /** `nearestNodeModules(dir)`: the `node_modules` of the nearest searched
      ancestor where one exists. */
  function NearestNodeModules(t: Tree, dir: Path): (r: Option<Path>)
    ensures r.Some? ==>
      exists k: nat :: Searched(dir, k) && r.value == ModulesIn(dir[..k]) && Exists(t, r.value)
        && (forall j: nat :: k < j <= |dir| ==> !Exists(t, ModulesIn(dir[..j])))
    ensures r.None? ==> forall k: nat :: Searched(dir, k) ==> !Exists(t, ModulesIn(dir[..k]))
    decreases |dir|
  {
    if Exists(t, ModulesIn(dir)) then
      assert dir[..|dir|] == dir;
      Some(ModulesIn(dir))
    else if |dir| >= 2 then
      var parent := dir[..|dir| - 1];
      var r := NearestNodeModules(t, parent);
      assert forall j: nat :: j <= |parent| ==> parent[..j] == dir[..j];
      assert dir[..|dir|] == dir;
      r
    else
      assert dir[..|dir|] == dir;
      None
  }

  /** The search never reports the root's `node_modules` unless it started
      at the root. */
  lemma RootModulesOnlyFromRoot(t: Tree, dir: Path)
    requires dir != []
    ensures NearestNodeModules(t, dir) != Some(ModulesIn([]))
  {
    var r := NearestNodeModules(t, dir);
    if r.Some? {
      var k: nat :| Searched(dir, k) && r.value == ModulesIn(dir[..k]);
      assert |r.value| == k + 1;
    }
  }

  /** The link `linkNodeModules` maintains in the output directory. */
  function ModulesLink(outDir: Path): Path
  {
    outDir + ["node_modules"]
  }

  /** `linkNodeModules(outDir)`, searching from the working directory. */
  function LinkModulesEffect(t: Tree, cwd: Path, outDir: Path): Io<()>
  {
    match NearestNodeModules(t, cwd)
    case None => Io(Ok(()), t)
    case Some(nodeModules) => ForceLinkEffect(t, nodeModules, ModulesLink(outDir))
  }

  method LinkNodeModules(disk: Disk, cwd: Path, outDir: Path) returns (r: Result<(), Error>)
    modifies disk
    ensures Io(r, disk.entries) == LinkModulesEffect(old(disk.entries), cwd, outDir)
  {
    var nodeModules := NearestNodeModules(disk.entries, cwd);
    if nodeModules.Some? {
      var linkToModules := ModulesLink(outDir);
      r := SymLinkForce(disk, nodeModules.value, linkToModules);
    } else {
      r := Ok(());
    }
  }

  /** Linking touches only the link, and when it succeeds with some
      `node_modules` found, the link points there. */
  lemma LinkModulesResult(t: Tree, cwd: Path, outDir: Path)
    ensures var io := LinkModulesEffect(t, cwd, outDir);
      io.tree - {ModulesLink(outDir)} == t - {ModulesLink(outDir)}
      && (io.result.Ok? && NearestNodeModules(t, cwd).Some? ==>
            io.tree[ModulesLink(outDir)] == Symlink(NearestNodeModules(t, cwd).value))
      && (NearestNodeModules(t, cwd).None? ==> io == Io(Ok(()), t))
  {
    var nearest := NearestNodeModules(t, cwd);
    if nearest.Some? {
      ForceLinkFrame(t, nearest.value, ModulesLink(outDir));
    }
  }
}
