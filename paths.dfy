/**
 * A model of the part of Rust's `std::path` that the converter relies on.
 *
 * A path is held in its parsed form, as the sequence of components that
 * `Path::components` yields; a file name is an OS string. OS strings are
 * sequences of units: a `Ch` is a character that decodes as UTF-8, a `Raw`
 * is a byte (always at least 0x80) that is not part of any valid UTF-8
 * encoding. `OsStr::to_str` succeeds exactly when there is no `Raw` unit.
 */
module Paths {
  import opened Wrappers

  newtype HighByte = x: int | 0x80 <= x < 0x100 witness 0x80

  datatype Unit = Ch(c: char) | Raw(b: HighByte)

  type OsStr = seq<Unit>

  const Dot: Unit := Ch('.')

  /** `OsStr::to_str`: the text of `o`, if all of it is valid UTF-8. */
  function ToStr(o: OsStr): Option<string> {
    if o == [] then Some([])
    else match o[0]
      case Raw(_) => None
      case Ch(c) =>
        match ToStr(o[1..])
        case Some(rest) => Some([c] + rest)
        case None => None
  }

  /** The OS string holding the text `s` (`OsStr::new` on a `&str`). */
  function FromStr(s: string): OsStr {
    seq(|s|, i requires 0 <= i < |s| => Ch(s[i]))
  }

  lemma {:induction false} ToStrFromStr(s: string)
    ensures ToStr(FromStr(s)) == Some(s)
  {
    if s != [] {
      ToStrFromStr(s[1..]);
      assert FromStr(s)[1..] == FromStr(s[1..]);
      assert [s[0]] + s[1..] == s;
    }
  }

  lemma {:induction false} FromStrToStr(o: OsStr)
    ensures ToStr(o).Some? ==> FromStr(ToStr(o).value) == o
  {
    if o != [] && o[0].Ch? && ToStr(o).Some? {
      FromStrToStr(o[1..]);
      var rest := ToStr(o[1..]).value;
      assert ([o[0].c] + rest)[1..] == rest;
    }
  }

  lemma FromStrConcat(a: string, b: string)
    ensures FromStr(a + b) == FromStr(a) + FromStr(b)
  {
  }

  /** Text without a '.' gives an OS string without a dot. */
  lemma FromStrNoDot(s: string)
    requires forall i :: 0 <= i < |s| ==> s[i] != '.'
    ensures NoDot(FromStr(s))
  {
  }

  datatype Component = RootDir | CurDir | ParentDir | Normal(name: OsStr)

  datatype Path = Path(components: seq<Component>)

  /** `Path::new(".")`. */
  const CurrentDir: Path := Path([CurDir])

  /** `Path::file_name`: the last component, when it is a normal one. */
  function FileName(p: Path): Option<OsStr> {
    if p.components == [] then None
    else match p.components[|p.components| - 1]
      case Normal(n) => Some(n)
      case _ => None
  }

  /** `Path::parent`: the path without its last component, unless that is a root. */
  function Parent(p: Path): Option<Path> {
    if p.components == [] then None
    else match p.components[|p.components| - 1]
      case RootDir => None
      case _ => Some(Path(p.components[..|p.components| - 1]))
  }

  /** `Path::join` with a single file name (one that holds no separator). */
  function Join(dir: Path, name: OsStr): Path {
    Path(dir.components + [Normal(name)])
  }

  /** The index of the last dot of `name`, if it has one. */
  function LastDot(name: OsStr): (r: Option<nat>)
    ensures r.Some? ==> r.value < |name| && name[r.value] == Dot
    ensures r.Some? ==> forall j :: r.value < j < |name| ==> name[j] != Dot
    ensures r.None? ==> forall j :: 0 <= j < |name| ==> name[j] != Dot
  {
    if name == [] then None
    else if name[|name| - 1] == Dot then Some(|name| - 1)
    else LastDot(name[..|name| - 1])
  }

  /**
   * `rsplit_file_at_dot`: the part before and the part after the last dot;
   * a name whose only dot is its first unit, and the name "..", have no
   * part after.
   */
  function SplitAtLastDot(name: OsStr): (Option<OsStr>, Option<OsStr>) {
    if name == [Dot, Dot] then (Some(name), None)
    else match LastDot(name)
      case None => (None, Some(name))
      case Some(i) =>
        if i == 0 then (Some(name), None)
        else (Some(name[..i]), Some(name[i + 1..]))
  }

  /** `Path::file_stem`: `before.or(after)` of the split file name. */
  function FileStem(p: Path): Option<OsStr> {
    match FileName(p)
    case None => None
    case Some(n) =>
      var (before, after) := SplitAtLastDot(n);
      if before.Some? then before else after
  }

  /** `Path::extension`: `before.and(after)` of the split file name. */
  function Extension(p: Path): Option<OsStr> {
    match FileName(p)
    case None => None
    case Some(n) =>
      var (before, after) := SplitAtLastDot(n);
      if before.Some? then after else None
  }

  predicate NoDot(s: OsStr) {
    forall j :: 0 <= j < |s| ==> s[j] != Dot
  }

  /**
   * Stem and extension put back together give the file name: with an
   * extension, the name is `<stem>.<extension>` where the stem is not empty
   * and the extension holds no dot; without one, the stem is the whole name.
   */
  lemma StemAndExtension(p: Path)
    ensures FileName(p).None? ==> FileStem(p).None? && Extension(p).None?
    ensures Extension(p).Some? ==>
      && FileStem(p).Some?
      && FileStem(p).value != []
      && NoDot(Extension(p).value)
      && FileName(p) == Some(FileStem(p).value + [Dot] + Extension(p).value)
    ensures FileName(p).Some? && Extension(p).None? ==> FileStem(p) == FileName(p)
  {
    if FileName(p).Some? {
      var n := FileName(p).value;
      match LastDot(n)
      case None =>
      case Some(i) =>
        if n != [Dot, Dot] && i != 0 {
          assert n == n[..i] + [Dot] + n[i + 1..];
        }
    }
  }

  /**
   * A name with no dot after its first unit (no dot at all, or a single
   * leading one) has no extension, and its stem is the whole name.
   */
  lemma NoExtensionWithoutInnerDot(p: Path)
    requires FileName(p).Some?
    requires forall j :: 0 < j < |FileName(p).value| ==> FileName(p).value[j] != Dot
    ensures Extension(p).None?
    ensures FileStem(p) == FileName(p)
  {
  }

  /**
   * The split of `b.e`, for a non-empty `b` and an `e` without a dot,
   * is `b` and `e`.
   */
  lemma SplitOfDotted(b: OsStr, e: OsStr)
    requires b != [] && NoDot(e)
    requires b != [Dot] || e != []
    ensures SplitAtLastDot(b + [Dot] + e) == (Some(b), Some(e))
  {
    var n := b + [Dot] + e;
    var i := |b|;
    assert n[i] == Dot;
    match LastDot(n)
    case None =>
      assert false;
    case Some(k) =>
      assert k == i;
      assert n[..i] == b;
      assert n[i + 1..] == e;
      assert n != [Dot, Dot] by {
        if |n| == 2 {
          assert |b| == 1 && e == [];
        }
      }
  }

  /** So a file named `b.e` has stem `b` and extension `e`, under the same conditions. */
  lemma StemOfDotted(b: OsStr, e: OsStr)
    requires b != [] && NoDot(e)
    requires b != [Dot] || e != []
    ensures FileStem(Path([Normal(b + [Dot] + e)])) == Some(b)
    ensures Extension(Path([Normal(b + [Dot] + e)])) == Some(e)
  {
    SplitOfDotted(b, e);
  }

  /** Joining a name onto a directory gives a path with that name and parent. */
  lemma JoinThenSplit(dir: Path, name: OsStr)
    ensures FileName(Join(dir, name)) == Some(name)
    ensures Parent(Join(dir, name)) == Some(dir)
  {
    assert Join(dir, name).components[..|dir.components|] == dir.components;
  }
}
