/** The part of the filesystem the compile cache touches, as a map from
    absolute paths to entries, and the Node `fs` calls it makes on it.
    Only symbolic links named by a whole path are followed; a link among
    the parent directories of a path is not resolved. */
module FileSystem {
  import opened Results
  import opened Paths

  /** A directory entry; modification times are integers. */
  datatype Entry =
    | File(mtime: int, content: string)
    | Dir(mtime: int)
    | Symlink(target: Path)

  type Tree = map<Path, Entry>

  /** The number of links a lookup follows before it gives up (ELOOP),
      as on Linux. */
  const MaxSymlinkHops: nat := 40

  /** The failures of the `fs` calls that the model keeps. */
  datatype FsError =
    | NotFound(path: Path)       // ENOENT
    | AlreadyExists(path: Path)  // EEXIST
    | IsADirectory(path: Path)   // EISDIR

  /** The entry a lookup of `p` lands on after following links, or None
      when the path is missing, a link dangles or there are too many links. */
  function Follow(t: Tree, p: Path, hops: nat): (r: Option<Path>)
    ensures r.Some? ==> r.value in t && !t[r.value].Symlink?
    ensures p in t && !t[p].Symlink? ==> r == Some(p)
    ensures p !in t ==> r.None?
    decreases hops
  {
    if p !in t then None
    else match t[p]
      case Symlink(target) => if hops == 0 then None else Follow(t, target, hops - 1)
      case _ => Some(p)
  }

  /** `existsAsync` (`fs.access` with `F_OK`): it follows links, so a
      dangling link counts as absent. */
  predicate Exists(t: Tree, p: Path)
  {
    Follow(t, p, MaxSymlinkHops).Some?
  }

  /** `fs.stat`: the entry behind `p`, links followed. */
  function Stat(t: Tree, p: Path): (e: Entry)
    requires Exists(t, p)
    ensures !e.Symlink?
  {
    t[Follow(t, p, MaxSymlinkHops).value]
  }

  /** `stat(p).mtime` */
  function MTime(t: Tree, p: Path): int
    requires Exists(t, p)
  {
    Stat(t, p).mtime
  }

  /** `lstat(p).isSymbolicLink()`: the entry itself, links not followed. */
  predicate IsSymLink(t: Tree, p: Path)
    requires p in t
  {
    t[p].Symlink?
  }

  /** A plain entry is found where it is. */
  lemma ExistsPlain(t: Tree, p: Path)
    requires p in t && !t[p].Symlink?
    ensures Exists(t, p) && Stat(t, p) == t[p]
  {
  }

  /** A link to a plain entry resolves. */
  lemma LinkToPlainResolves(t: Tree, link: Path, e: Path)
    requires e in t && !t[e].Symlink? && e != link
    ensures Exists(t[link := Symlink(e)], link)
  {
    var t' := t[link := Symlink(e)];
    assert t'[link] == Symlink(e) && e in t' && t'[e] == t[e];
    assert Follow(t', e, MaxSymlinkHops - 1) == Some(e);
  }

  /** The filesystem, state that the primitive calls below update in place. */
  class Disk {
    var entries: Tree

    constructor (t: Tree)
      ensures entries == t
    {
      entries := t;
    }

    /** `fs.unlink` of an entry that is not a directory. */
    method Unlink(p: Path)
      requires p in entries && !entries[p].Dir?
      modifies this
      ensures entries == old(entries) - {p}
    {
      entries := entries - {p};
    }

    /** `fs.symlink(target, p)`: fails when any entry, even a dangling
      link, is already at `p`. */
    method Symlink(target: Path, p: Path) returns (r: Result<(), FsError>)
      modifies this
      ensures old(p in entries) ==> r == Err(AlreadyExists(p)) && entries == old(entries)
      ensures old(p !in entries) ==> r == Ok(()) && entries == old(entries)[p := Entry.Symlink(target)]
    {
      if p in entries {
        return Err(AlreadyExists(p));
      }
      entries := entries[p := Entry.Symlink(target)];
      return Ok(());
    }

    /** `fs.writeFile(p, content)` at time `now`: replaces whatever is at
      `p` by a file, unless `p` is a directory. */
    method WriteFile(p: Path, content: string, now: int) returns (r: Result<(), FsError>)
      modifies this
      ensures old(p in entries && entries[p].Dir?) ==> r == Err(IsADirectory(p)) && entries == old(entries)
      ensures old(p !in entries || !entries[p].Dir?) ==> r == Ok(()) && entries == old(entries)[p := File(now, content)]
    {
      if p in entries && entries[p].Dir? {
        return Err(IsADirectory(p));
      }
      entries := entries[p := File(now, content)];
      return Ok(());
    }

    /** The files a compiler run emits, written over what was there. */
    method Emit(written: Tree)
      modifies this
      ensures entries == old(entries) + written
    {
      entries := entries + written;
    }
  }
}
