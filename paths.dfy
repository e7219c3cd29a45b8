/**
 * POSIX path handling as `pathlib` does it lexically: `Path(s).parts`, `name`, `suffix`,
 * `stem`, `is_absolute()`, `(root / p).resolve()` and `relative_to(root)`. Symbolic links
 * are not followed: `resolve()` only collapses `.` and `..`.
 */
module Paths {
  import opened Wrappers
  import opened Text

  predicate IsAbsolute(s: string) { s != [] && s[0] == '/' }

  /** Keep the segments that are not empty and not `.`. */
  function DropTrivial(segs: seq<string>): (r: seq<string>)
    ensures forall i :: 0 <= i < |r| ==> r[i] != "" && r[i] != "."
    ensures forall x :: x in r <==> x in segs && x != "" && x != "."
  {
    if segs == [] then []
    else
      var rest := DropTrivial(segs[1..]);
      assert forall x :: x in segs <==> x == segs[0] || x in segs[1..];
      if segs[0] == "" || segs[0] == "." then rest else [segs[0]] + rest
  }

  /** `Path(s).parts` without the root marker of an absolute path. */
  function Parts(s: string): (r: seq<string>)
    ensures forall i :: 0 <= i < |r| ==> r[i] != "" && r[i] != "." && '/' !in r[i]
  {
    var segs := Split(s, '/');
    SplitPieces(s, '/');
    var r := DropTrivial(segs);
    assert forall i :: 0 <= i < |r| ==> r[i] in segs;
    r
  }

  /** `".." in Path(s).parts`. */
  predicate HasParentRef(s: string) { ".." in Parts(s) }

  /** `Path(s).name`: the last part, or "" for a path with no parts. */
  function Name(s: string): string
  {
    var p := Parts(s);
    if p == [] then "" else p[|p| - 1]
  }

  /** `name.rfind(".")` when it lies strictly inside the name (0 < i < len - 1), if it does. */
  function SuffixDot(name: string): (r: Option<nat>)
    ensures r.Some? ==> 0 < r.value < |name| - 1 && name[r.value] == '.'
    ensures r.Some? ==> forall j :: r.value < j < |name| ==> name[j] != '.'
  {
    if |name| < 3 || name[|name| - 1] == '.' then None
    else LastDot(name, |name| - 2)
  }

  function LastDot(name: string, i: nat): (r: Option<nat>)
    requires i < |name|
    ensures r.Some? ==> 0 < r.value <= i && name[r.value] == '.'
    ensures r.Some? ==> forall j :: r.value < j <= i ==> name[j] != '.'
    decreases i
  {
    if i == 0 then None
    else if name[i] == '.' then Some(i)
    else LastDot(name, i - 1)
  }

  /** `Path(name).suffix`: from the last `.` when it is neither the first nor the last character. */
  function Suffix(name: string): (r: string)
    ensures r != [] ==> r[0] == '.' && EndsWith(name, r)
  {
    match SuffixDot(name)
    case None => ""
    case Some(i) => name[i..]
  }

  /** `Path(name).stem`: the name without its suffix. */
  function Stem(name: string): (r: string)
    ensures r + Suffix(name) == name
  {
    match SuffixDot(name)
    case None => name
    case Some(i) => assert name == name[..i] + name[i..]; name[..i]
  }

  /** `Path.resolve()` on absolute segments: `..` climbs one level (never above `/`). */
  function Collapse(segs: seq<string>): (r: seq<string>)
    ensures |r| <= |segs|
  {
    if segs == [] then []
    else
      var p := Collapse(segs[..|segs| - 1]);
      var last := segs[|segs| - 1];
      if last == ".." then (if p == [] then [] else p[..|p| - 1]) else p + [last]
  }

  /** Segments without `..` are left as they are. */
  lemma {:induction false} CollapseNoParent(segs: seq<string>)
    requires ".." !in segs
    ensures Collapse(segs) == segs
  {
    if segs != [] {
      assert segs == segs[..|segs| - 1] + [segs[|segs| - 1]];
      CollapseNoParent(segs[..|segs| - 1]);
    }
  }

  /** `(root / dir / arg).resolve()` as absolute segments; an absolute `arg` replaces the base. */
  function Resolve(root: seq<string>, dir: seq<string>, arg: string): seq<string>
  {
    Collapse((if IsAbsolute(arg) then [] else root + dir) + Parts(arg))
  }

  /** `p.relative_to(root)`: the rest of `p` when `root` is a prefix of it. */
  function RelativeTo(p: seq<string>, root: seq<string>): (r: Option<seq<string>>)
    ensures r.Some? ==> p == root + r.value
    ensures r.None? ==> !(|root| <= |p| && p[..|root|] == root)
  {
    if |root| <= |p| && p[..|root|] == root then
      assert p == root + p[|root|..];
      Some(p[|root|..])
    else None
  }

  /** `Path(*parts).as_posix()` for a relative path; the empty path prints as `.`. */
  function Posix(parts: seq<string>): string { if parts == [] then "." else Join(parts, "/") }

  /**
   * A relative path without `..` below a directory without `..` always resolves inside the
   * root: lexically, "escapes the root" can only come from `..` or an absolute path.
   */
  lemma StaysInside(root: seq<string>, dir: seq<string>, arg: string)
    requires ".." !in root && ".." !in dir
    requires !IsAbsolute(arg) && !HasParentRef(arg)
    ensures RelativeTo(Resolve(root, dir, arg), root) == Some(dir + Parts(arg))
  {
    var all := root + dir + Parts(arg);
    assert ".." !in all;
    CollapseNoParent(all);
    assert all[..|root|] == root;
    assert all[|root|..] == dir + Parts(arg);
  }
}
