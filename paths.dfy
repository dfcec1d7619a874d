/**
 * Paths as the template watcher sees them, and the relative path resolver
 * `get_relative_path` of src/utils.rs.
 */
module Paths {
  import opened Results

  /**
   * A path in normal form: whether it begins at the root directory, then its
   * named components in order. This is what `Path::components()` yields for a
   * path without a `.` component, and what it yields after the root for any
   * absolute path. Repeated and trailing separators leave no trace here; a
   * leading `.` (a `CurDir` component, which `components()` keeps) is not
   * represented.
   */
  datatype Path = Path(absolute: bool, parts: seq<string>)

  /** A named component: non-empty, no separator, not `.`. */
  predicate ValidComponent(c: string) {
    c != "" && '/' !in c && c != "."
  }

  predicate WellFormed(p: Path) {
    forall i :: 0 <= i < |p.parts| ==> ValidComponent(p.parts[i])
  }

  /**
   * `PathBuf::join`: an absolute argument replaces the base, a relative one is
   * appended. The result ends with the components of `p`, and is absolute when
   * either path is.
   */
  function Join(base: Path, p: Path): (r: Path)
    ensures r.absolute == (base.absolute || p.absolute)
    ensures |p.parts| <= |r.parts| && r.parts[|r.parts| - |p.parts|..] == p.parts
    ensures !p.absolute ==> base.parts <= r.parts && |r.parts| == |base.parts| + |p.parts|
  {
    if p.absolute then p else Path(base.absolute, base.parts + p.parts)
  }

  /**
   * `Path::strip_prefix`: the components left after `base`. It succeeds
   * exactly when both paths agree on the root and the components of `base`
   * begin those of `p`, and then `base` followed by the rest is `p`.
   */
  function StripPrefix(p: Path, base: Path): (r: Option<seq<string>>)
    ensures r.Some? <==> p.absolute == base.absolute && base.parts <= p.parts
    ensures r.Some? ==> base.parts + r.value == p.parts
  {
    if p.absolute == base.absolute && |base.parts| <= |p.parts| && p.parts[..|base.parts|] == base.parts
    then Some(p.parts[|base.parts|..])
    else None
  }

  /** `strip_prefix` succeeds with `rest` exactly when joining `rest` back onto `base` gives `p`. */
  lemma StripPrefixInvertsJoin(p: Path, base: Path, rest: seq<string>)
    ensures StripPrefix(p, base) == Some(rest) <==> Join(base, Path(false, rest)) == p
  {
    if Join(base, Path(false, rest)) == p {
      assert p.parts[..|base.parts|] == base.parts;
      assert p.parts[|base.parts|..] == rest;
    }
  }

  /** The components joined with `/`, as `to_string_lossy` renders a relative path. */
  function Render(parts: seq<string>): (r: string)
    ensures parts != [] && parts[0] != "" ==> |r| > 0 && r[0] == parts[0][0]
  {
    if |parts| == 0 then ""
    else if |parts| == 1 then parts[0]
    else parts[0] + "/" + Render(parts[1..])
  }

  /**
   * `path.display().to_string()` of a path in normal form: a leading `/` for
   * an absolute path, then its components joined with `/`. For well-formed
   * components, the display starts with `/` exactly when the path is absolute.
   */
  function Display(p: Path): (r: string)
    ensures WellFormed(p) ==> (p.absolute <==> |r| > 0 && r[0] == '/')
    ensures WellFormed(p) && p.parts != [] ==> |r| > 0
  {
    RenderStart(p);
    if p.absolute then "/" + Render(p.parts) else Render(p.parts)
  }

  /** The rendering of well-formed components, when there are any, does not start with `/`. */
  lemma RenderStart(p: Path)
    ensures WellFormed(p) && p.parts != [] ==> |Render(p.parts)| > 0 && Render(p.parts)[0] != '/'
  {
    if WellFormed(p) && p.parts != [] {
      assert ValidComponent(p.parts[0]) && p.parts[0][0] in p.parts[0];
    }
  }

  /** Length of the leading run of `s` before the first separator. */
  function SegmentLength(s: string): (n: nat)
    ensures n <= |s|
    ensures '/' !in s[..n]
    ensures n < |s| ==> s[n] == '/'
  {
    if s == [] || s[0] == '/' then 0 else 1 + SegmentLength(s[1..])
  }

  /** Reading a string back as a relative path: its non-empty `/`-separated segments. */
  function Split(s: string): seq<string>
    decreases |s|
  {
    if s == [] then []
    else if s[0] == '/' then Split(s[1..])
    else [s[..SegmentLength(s)]] + Split(s[SegmentLength(s)..])
  }

  lemma {:induction false} SegmentLengthOf(c: string, rest: string)
    requires '/' !in c
    requires rest == [] || rest[0] == '/'
    ensures SegmentLength(c + rest) == |c|
  {
    if c != [] {
      assert (c + rest)[1..] == c[1..] + rest;
      SegmentLengthOf(c[1..], rest);
    }
  }

  lemma {:induction false} SplitSegment(c: string, rest: string)
    requires ValidComponent(c)
    requires rest == [] || rest[0] == '/'
    ensures Split(c + rest) == [c] + Split(rest)
  {
    var s := c + rest;
    SegmentLengthOf(c, rest);
    assert s[0] == c[0];
    assert s[..|c|] == c;
    assert s[|c|..] == rest;
  }

  /** Rendering well-formed components and reading them back gives the same components. */
  lemma {:induction false} SplitRender(parts: seq<string>)
    requires forall i :: 0 <= i < |parts| ==> ValidComponent(parts[i])
    ensures Split(Render(parts)) == parts
  {
    if |parts| == 1 {
      assert parts[0] + "" == parts[0];
      SplitSegment(parts[0], "");
    } else if |parts| > 1 {
      var tail := "/" + Render(parts[1..]);
      assert Render(parts) == parts[0] + tail;
      SplitSegment(parts[0], tail);
      assert tail[1..] == Render(parts[1..]);
      SplitRender(parts[1..]);
    }
  }

  // ---------------------------------------------------------------------------
  // get_relative_path

  datatype RelativePathError =
    | CurrentDirUnavailable   // `env::current_dir()` failed
    | NotUnderTemplateDir     // `strip_prefix` failed

  /**
   * A relative template directory is anchored at the working directory; an
   * absolute one is kept. Either way the anchored directory is absolute when
   * the working directory is.
   */
  function Anchor(cwd: Path, templateDir: Path): (r: Path)
    ensures !templateDir.absolute ==> r == Join(cwd, templateDir)
    ensures templateDir.absolute ==> r == templateDir
    ensures cwd.absolute ==> r.absolute
  {
    if !templateDir.absolute then Join(cwd, templateDir) else templateDir
  }

  /**
   * `get_relative_path(template_dir, path)`. The working directory is fetched
   * first (`None` when that fails), so its failure is an error even when
   * `templateDir` is already absolute.
   */
  function GetRelativePath(cwd: Option<Path>, templateDir: Path, path: Path): (r: Result<string, RelativePathError>)
    ensures cwd.None? ==> r == Err(CurrentDirUnavailable)
    ensures r.Ok? ==> cwd.Some? && StripPrefix(path, Anchor(cwd.value, templateDir)).Some?
  {
    match cwd
    case None => Err(CurrentDirUnavailable)
    case Some(dir) =>
      match StripPrefix(path, Anchor(dir, templateDir))
      case None => Err(NotUnderTemplateDir)
      case Some(rest) => Ok(Render(rest))
  }

  /** A path below the anchored directory resolves to the rendering of the components below it. */
  lemma UnderDirResolves(cwd: Path, templateDir: Path, rest: seq<string>)
    ensures GetRelativePath(Some(cwd), templateDir, Join(Anchor(cwd, templateDir), Path(false, rest)))
            == Ok(Render(rest))
  {
    StripPrefixInvertsJoin(Join(Anchor(cwd, templateDir), Path(false, rest)), Anchor(cwd, templateDir), rest);
  }

  /** Resolution succeeds exactly for the paths that lie below the anchored directory. */
  lemma ResolvesIffUnderDir(cwd: Path, templateDir: Path, path: Path)
    ensures GetRelativePath(Some(cwd), templateDir, path).Ok?
            <==> exists rest :: Join(Anchor(cwd, templateDir), Path(false, rest)) == path
  {
    var base := Anchor(cwd, templateDir);
    if GetRelativePath(Some(cwd), templateDir, path).Ok? {
      var rest := StripPrefix(path, base).value;
      StripPrefixInvertsJoin(path, base, rest);
    }
    if exists rest :: Join(base, Path(false, rest)) == path {
      var rest :| Join(base, Path(false, rest)) == path;
      UnderDirResolves(cwd, templateDir, rest);
    }
  }

  /**
   * Joining the anchored directory with the returned relative path, read back
   * as components, gives the original path.
   */
  lemma RelativePathRoundTrip(cwd: Path, templateDir: Path, path: Path)
    requires WellFormed(path)
    requires GetRelativePath(Some(cwd), templateDir, path).Ok?
    ensures Join(Anchor(cwd, templateDir), Path(false, Split(GetRelativePath(Some(cwd), templateDir, path).value)))
            == path
  {
    var base := Anchor(cwd, templateDir);
    var rest := StripPrefix(path, base).value;
    assert forall i :: 0 <= i < |rest| ==> rest[i] == path.parts[|base.parts| + i];
    SplitRender(rest);
    StripPrefixInvertsJoin(path, base, rest);
  }

  /** The prefix test is by component: `/t/ab` is not below `/t/a`, and `/t/a` itself resolves to "". */
  lemma ComponentwisePrefix(cwd: Option<Path>)
    requires cwd.Some?
    ensures GetRelativePath(cwd, Path(true, ["t", "a"]), Path(true, ["t", "ab"])) == Err(NotUnderTemplateDir)
    ensures GetRelativePath(cwd, Path(true, ["t", "a"]), Path(true, ["t", "a"])) == Ok("")
  {
    assert ["t", "ab"][..2] != ["t", "a"] by {
      assert ["t", "ab"][1] != ["t", "a"][1];
    }
    assert ["t", "a"][..2] == ["t", "a"];
  }

  // ---------------------------------------------------------------------------
  // Path::extension, used by the watcher's filter

  /**
   * `Path::file_name`: a file name exists exactly when there is a last
   * component other than `..`, and it is that component.
   */
  function FileName(p: Path): (r: Option<string>)
    ensures r.Some? <==> |p.parts| > 0 && p.parts[|p.parts| - 1] != ".."
    ensures r.Some? ==> r.value == p.parts[|p.parts| - 1]
  {
    if |p.parts| == 0 || p.parts[|p.parts| - 1] == ".." then None else Some(p.parts[|p.parts| - 1])
  }

  /** Index of the last `.` in `s`. */
  function LastDot(s: string): (r: Option<nat>)
    ensures r.Some? ==> r.value < |s| && s[r.value] == '.' && '.' !in s[r.value + 1..]
    ensures r.None? ==> '.' !in s
  {
    if s == [] then None
    else if s[|s| - 1] == '.' then Some(|s| - 1)
    else
      var r := LastDot(s[..|s| - 1]);
      assert s == s[..|s| - 1] + [s[|s| - 1]];
      r
  }

  /**
   * `Path::extension`: what follows the last `.` of the file name, unless that
   * `.` is the name's first character (a hidden file such as `.mjml`).
   */
  function Extension(p: Path): Option<string> {
    match FileName(p)
    case None => None
    case Some(name) =>
      match LastDot(name)
      case None => None
      case Some(i) => if i == 0 then None else Some(name[i + 1..])
  }

  /**
   * An extension has no `.` and is what follows a `.` of the file name that
   * is not its first character.
   */
  lemma ExtensionAfterDot(p: Path)
    ensures Extension(p).Some? ==> FileName(p).Some? && '.' !in Extension(p).value
    ensures Extension(p).Some? ==>
              var name, ext := FileName(p).value, Extension(p).value;
              |ext| + 1 < |name| && name[|name| - |ext| - 1..] == "." + ext
  {
  }

  /** The watcher's filter: `path.extension() == Some("mjml")`. */
  predicate IsMjml(p: Path) {
    Extension(p) == Some("mjml")
  }

  /** A file name ending in `.mjml` with at least one character before the dot. */
  predicate MjmlName(name: string) {
    |name| > 5 && name[|name| - 5..] == ".mjml"
  }

  lemma {:induction false} LastDotAt(s: string, i: nat)
    requires i < |s| && s[i] == '.'
    requires '.' !in s[i + 1..]
    ensures LastDot(s) == Some(i)
  {
    if i < |s| - 1 {
      assert s[i + 1..][|s| - 2 - i] == s[|s| - 1];
      var t := s[..|s| - 1];
      assert t[i + 1..] == s[i + 1..|s| - 1];
      LastDotAt(t, i);
    }
  }

  /** The filter accepts exactly the paths whose file name is `<stem>.mjml` with a non-empty stem. */
  lemma IsMjmlIff(p: Path)
    ensures IsMjml(p) <==> |p.parts| > 0 && MjmlName(p.parts[|p.parts| - 1])
  {
    if |p.parts| > 0 {
      var name := p.parts[|p.parts| - 1];
      if MjmlName(name) {
        var i := |name| - 5;
        assert name[i..] == ".mjml";
        assert name[i + 1..] == "mjml";
        LastDotAt(name, i);
      }
      if IsMjml(p) {
        var d := LastDot(name).value;
        assert name[d + 1..] == "mjml";
        assert name[d..] == [name[d]] + name[d + 1..];
      }
    }
  }
}
