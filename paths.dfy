/** Node's POSIX `path` functions, on already-normalised paths.
    An absolute path is the sequence of its segments below the filesystem
    root, so `path.join` of absolute and relative parts is concatenation and
    the root itself is the empty sequence. */
module Paths {
  import opened Results
  import opened Strings

  const Sep: char := '/'

  /** Absolute path, as its segments below the filesystem root. */
  type Path = seq<string>

  /** A segment of a normalised path: it names an entry and holds no separator. */
  predicate ValidSegment(x: string)
  {
    x != "" && x != "." && Sep !in x
  }

  predicate ValidPath(p: Path)
  {
    forall i :: 0 <= i < |p| ==> ValidSegment(p[i])
  }

  /** The parts of a split path string that name something: empty parts
      (from repeated or trailing separators) and "." are dropped, as
      normalisation does. */
  function Names(parts: seq<string>): (r: Path)
    requires forall i :: 0 <= i < |parts| ==> Sep !in parts[i]
    ensures ValidPath(r)
    ensures |r| <= |parts|
  {
    if parts == [] then []
    else (if parts[0] == "" || parts[0] == "." then [] else [parts[0]]) + Names(parts[1..])
  }

  /** The segments a path string denotes once normalised. */
  function Segments(s: string): (r: Path)
    ensures ValidPath(r)
  {
    Names(Split(s, Sep))
  }

  /** `path.isAbsolute` */
  predicate IsAbsolute(s: string)
  {
    |s| > 0 && s[0] == Sep
  }

  /** `path.resolve(s)` with `cwd` as the working directory. */
  function Resolve(cwd: Path, s: string): (r: Path)
    requires ValidPath(cwd)
    ensures ValidPath(r)
  {
    if IsAbsolute(s) then Segments(s) else cwd + Segments(s)
  }

  /** The string form of an absolute path: "/" for the root, "/a/b" otherwise. */
  function Render(p: Path): string
  {
    [Sep] + Join(p, Sep)
  }

  /** `path.dirname` of an absolute path; the root is its own parent. */
  function DirName(p: Path): Path
  {
    if p == [] then [] else p[..|p| - 1]
  }

  /** `path.basename`: the last segment, or "" for the root or the empty string. */
  function BaseName(s: string): string
  {
    var segs := Segments(s);
    if segs == [] then "" else segs[|segs| - 1]
  }

  /** `path.relative(from, to)` when `from` is an ancestor of `to`. */
  function Relative(from: Path, to: Path): Path
    requires from <= to
  {
    to[|from|..]
  }

  /** `path.extname` of a single segment: from the last "." to the end,
      unless that dot starts the name or the name is "..". */
  function ExtName(name: string): string
  {
    match LastIndexOf(name, '.')
    case None => ""
    case Some(d) => if d == 0 || name == ".." then "" else name[d..]
  }

  /** The base name of a path string is the last segment it resolves to. */
  lemma BaseNameOfResolved(cwd: Path, s: string)
    requires ValidPath(cwd) && Segments(s) != []
    ensures var abs := Resolve(cwd, s);
      abs != [] && BaseName(s) == abs[|abs| - 1]
  {
    var segs := Segments(s);
    var abs := Resolve(cwd, s);
    assert abs[|abs| - 1] == segs[|segs| - 1];
  }

  /** Appending a segment to two valid paths gives a valid path. */
  lemma ValidAppend(a: Path, b: Path, name: string)
    requires ValidPath(a) && ValidPath(b) && ValidSegment(name)
    ensures ValidPath(a + b + [name])
  {
    var p := a + b + [name];
    forall i | 0 <= i < |p| ensures ValidSegment(p[i]) {
      if i < |a| { assert p[i] == a[i]; }
      else if i < |a| + |b| { assert p[i] == b[i - |a|]; }
      else { assert p[i] == name; }
    }
  }

  /** Normalising a sequence of valid segments keeps all of them. */
  lemma {:induction false} NamesOfValid(p: Path)
    requires ValidPath(p)
    ensures Names(p) == p
  {
    if p != [] {
      NamesOfValid(p[1..]);
      assert [p[0]] + p[1..] == p;
    }
  }

  /** The segments of the joined segments of a path are that path. */
  lemma SegmentsOfJoin(p: Path)
    requires ValidPath(p)
    ensures Segments(Join(p, Sep)) == p
  {
    if p == [] {
      assert Split("", Sep) == [""];
    } else {
      SplitJoin(p, Sep);
      NamesOfValid(p);
    }
  }

  /** Parsing the rendered form of an absolute path gives the path back. */
  lemma SegmentsOfRender(p: Path)
    requires ValidPath(p)
    ensures Segments(Render(p)) == p
  {
    SplitAtFirstSeparator("", Join(p, Sep), Sep);
    assert Render(p) == "" + [Sep] + Join(p, Sep);
    var parts := Split(Join(p, Sep), Sep);
    assert ([""] + parts)[1..] == parts;
    SegmentsOfJoin(p);
  }

  /** Rendering a path that extends `p` extends the rendering of `p`. */
  lemma RenderExtends(p: Path, rest: Path)
    requires p != [] && rest != []
    ensures Render(p + rest) == Render(p) + [Sep] + Join(rest, Sep)
  {
    JoinAppend(p, rest);
  }

  lemma {:induction false} JoinAppend(a: Path, b: Path)
    requires a != [] && b != []
    ensures Join(a + b, Sep) == Join(a, Sep) + [Sep] + Join(b, Sep)
  {
    if |a| == 1 {
      assert (a + b)[1..] == b;
    } else {
      assert (a + b)[1..] == a[1..] + b;
      JoinAppend(a[1..], b);
    }
  }
}
