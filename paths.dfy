/** POSIX pure paths, as `pathlib.PurePosixPath` and `os.path.normpath`
    treat them.

    A path is an optional root and a sequence of components.  Parsing a
    string drops empty components and `.` components, as `PurePath` does;
    `..` components are kept until `Normalize` (the model of
    `PurePath(normpath(str(p)))`) collapses them. */
module Paths {
  import opened Common
  import Strings

  datatype Path = Path(rooted: bool, parts: seq<string>)

  /** Components `PurePath` never keeps. */
  predicate Dropped(c: string) {
    c == "" || c == "."
  }

  /** Every component is a real name (no empty or `.` component) and none
      contains a separator. */
  predicate WellFormed(p: Path) {
    forall i :: 0 <= i < |p.parts| ==> !Dropped(p.parts[i]) && '/' !in p.parts[i]
  }

  function KeepParts(cs: seq<string>): (r: seq<string>)
    ensures forall i :: 0 <= i < |r| ==> r[i] in cs && !Dropped(r[i])
    ensures forall c :: c in cs && !Dropped(c) ==> c in r
  {
    if |cs| == 0 then []
    else if Dropped(cs[0]) then KeepParts(cs[1..])
    else [cs[0]] + KeepParts(cs[1..])
  }

  /** `PurePath(s)`. */
  function FromString(s: string): (p: Path)
    ensures WellFormed(p)
    ensures p.rooted <==> Strings.StartsWith(s, "/")
  {
    Strings.SplitShape(s, '/');
    Path(|s| > 0 && s[0] == '/', KeepParts(Strings.Split(s, '/')))
  }

  /** `str(p)`. */
  function ToString(p: Path): string {
    if p.rooted then "/" + Strings.Join(p.parts, '/')
    else if |p.parts| == 0 then "."
    else Strings.Join(p.parts, '/')
  }

  /** Printing then parsing a well-formed path gives it back. */
  lemma ToStringFromString(p: Path)
    requires WellFormed(p)
    ensures FromString(ToString(p)) == p
  {
    if |p.parts| == 0 {
      if p.rooted {
        assert ToString(p) == "/";
        assert Strings.IndexOf("/", '/') == 0;
        assert "/"[1..] == "";
        assert Strings.Split("", '/') == [""];
        assert Strings.Split("/", '/') == ["", ""];
        assert KeepParts(["", ""]) == [];
      } else {
        assert Strings.Split(".", '/') == ["."];
      }
    } else {
      var j := Strings.Join(p.parts, '/');
      Strings.SplitJoin(p.parts, '/');
      KeepAll(p.parts);
      if p.rooted {
        Strings.FirstSeparator("", j, '/');
        assert "/" + j == [] + ['/'] + j;
        assert Strings.Split("/" + j, '/') == [""] + p.parts;
        assert KeepParts([""] + p.parts) == KeepParts(p.parts);
      } else {
        assert j[0] != '/' by {
          assert p.parts[0] != "";
          JoinHead(p.parts);
        }
      }
    }
  }

  lemma {:induction false} KeepAll(cs: seq<string>)
    requires forall i :: 0 <= i < |cs| ==> !Dropped(cs[i])
    ensures KeepParts(cs) == cs
  {
    if |cs| > 0 {
      KeepAll(cs[1..]);
    }
  }

  lemma JoinHead(parts: seq<string>)
    requires |parts| > 0 && |parts[0]| > 0
    ensures |Strings.Join(parts, '/')| > 0 && Strings.Join(parts, '/')[0] == parts[0][0]
  {
  }

  /** `a / b`: a rooted right operand replaces the left one. */
  function Concat(a: Path, b: Path): (r: Path)
    ensures b.rooted ==> r == b
    ensures !b.rooted ==> r.rooted == a.rooted && r.parts == a.parts + b.parts
    ensures WellFormed(a) && WellFormed(b) ==> WellFormed(r)
  {
    if b.rooted then b else Path(a.rooted, a.parts + b.parts)
  }

  /** `p / name` for a single component. */
  function Child(p: Path, name: string): Path {
    Concat(p, Path(false, if Dropped(name) then [] else [name]))
  }

  /** `p.name`: the last component, or the empty string. */
  function Name(p: Path): string {
    if |p.parts| == 0 then "" else p.parts[|p.parts| - 1]
  }

  /** `p.parent`. */
  function Parent(p: Path): (r: Path)
    ensures |p.parts| > 0 ==> Child(r, Name(p)) == p || Dropped(Name(p))
  {
    if |p.parts| == 0 then p else Path(p.rooted, p.parts[..|p.parts| - 1])
  }

  // ---------------------------------------------------------------- normpath

  /** One step of `os.path.normpath`: skip empty and `.` components, let
      `..` remove the previous real component, keep a leading `..` only in
      a relative path. */
  function NormStep(rooted: bool, acc: seq<string>, c: string): seq<string> {
    if Dropped(c) then acc
    else if c != ".." || (!rooted && |acc| == 0) || (|acc| > 0 && acc[|acc| - 1] == "..") then acc + [c]
    else if |acc| > 0 then acc[..|acc| - 1]
    else acc
  }

  function NormParts(rooted: bool, acc: seq<string>, cs: seq<string>): seq<string>
    decreases |cs|
  {
    if |cs| == 0 then acc else NormParts(rooted, NormStep(rooted, acc, cs[0]), cs[1..])
  }

  /** The shape of a `normpath` result: real components, with `..` only as
      a prefix of a relative path. */
  predicate Normal(rooted: bool, ps: seq<string>) {
    forall i :: 0 <= i < |ps| ==> !Dropped(ps[i]) && (ps[i] == ".." ==> !rooted && forall j :: 0 <= j < i ==> ps[j] == "..")
  }

  /** `PurePath(normpath(str(p)))`. */
  function Normalize(p: Path): (r: Path)
    ensures r.rooted == p.rooted
    ensures Normal(r.rooted, r.parts)
  {
    NormPartsNormal(p.rooted, [], p.parts);
    Path(p.rooted, NormParts(p.rooted, [], p.parts))
  }

  lemma NormStepNormal(rooted: bool, acc: seq<string>, c: string)
    requires Normal(rooted, acc)
    ensures Normal(rooted, NormStep(rooted, acc, c))
  {
    var r := NormStep(rooted, acc, c);
    if !Dropped(c) && c == ".." && ((!rooted && |acc| == 0) || (|acc| > 0 && acc[|acc| - 1] == "..")) {
      forall i | 0 <= i < |r| && r[i] == ".." ensures !rooted && forall j :: 0 <= j < i ==> r[j] == ".." {
        if i == |acc| {
          forall j | 0 <= j < i ensures r[j] == ".." {
            assert acc[|acc| - 1] == "..";
          }
        }
      }
    }
  }

  lemma {:induction false} NormPartsNormal(rooted: bool, acc: seq<string>, cs: seq<string>)
    requires Normal(rooted, acc)
    ensures Normal(rooted, NormParts(rooted, acc, cs))
    decreases |cs|
  {
    if |cs| > 0 {
      NormStepNormal(rooted, acc, cs[0]);
      NormPartsNormal(rooted, NormStep(rooted, acc, cs[0]), cs[1..]);
    }
  }

  /** `normpath` leaves an already normal sequence of components alone. */
  lemma {:induction false} NormPartsOfNormal(rooted: bool, acc: seq<string>, cs: seq<string>)
    requires Normal(rooted, acc + cs)
    ensures NormParts(rooted, acc, cs) == acc + cs
    decreases |cs|
  {
    if |cs| > 0 {
      var c := cs[0];
      assert (acc + cs)[|acc|] == c;
      if c == ".." {
        if |acc| > 0 {
          assert (acc + cs)[|acc| - 1] == acc[|acc| - 1];
        }
      }
      assert NormStep(rooted, acc, c) == acc + [c];
      assert (acc + [c]) + cs[1..] == acc + cs;
      NormPartsOfNormal(rooted, acc + [c], cs[1..]);
    }
  }

  /** Normalising twice is normalising once. */
  lemma NormalizeIdempotent(p: Path)
    ensures Normalize(Normalize(p)) == Normalize(p)
  {
    var q := Normalize(p);
    assert [] + q.parts == q.parts;
    NormPartsOfNormal(q.rooted, [], q.parts);
  }

  /** A path whose components are real names is its own normal form. */
  lemma NormalizeNames(p: Path)
    requires forall i :: 0 <= i < |p.parts| ==> !Dropped(p.parts[i]) && p.parts[i] != ".."
    ensures Normalize(p) == p
  {
    assert [] + p.parts == p.parts;
    NormPartsOfNormal(p.rooted, [], p.parts);
  }

  // ---------------------------------------------------------------- suffixes

  /** Index of the last `c` in `s`, or -1. */
  function RFind(s: string, c: char): (r: int)
    ensures -1 <= r < |s|
    ensures r >= 0 ==> s[r] == c
    ensures forall i :: r < i < |s| ==> s[i] != c
  {
    if |s| == 0 then -1
    else if s[|s| - 1] == c then |s| - 1
    else RFind(s[..|s| - 1], c)
  }

  /** `p.suffix` of a name: from its last dot, unless that dot is the first
      or the last character. */
  function Suffix(name: string): (r: string)
    ensures |r| <= |name| && name[|name| - |r|..] == r
    ensures r != [] ==> r[0] == '.' && |r| >= 2 && '.' !in r[1..]
  {
    var i := RFind(name, '.');
    if 0 < i < |name| - 1 then name[i..] else ""
  }

  /** `p.with_suffix(suffix)`: fails on an invalid suffix or an empty name,
      otherwise replaces the last suffix of the name (or appends one). */
  function WithSuffix(p: Path, suffix: string): (r: Result<Path>)
    ensures r.Err? <==> '/' in suffix || (suffix != "" && suffix[0] != '.') || suffix == "." || |p.parts| == 0
    ensures r.Ok? ==> r.value.rooted == p.rooted && |r.value.parts| == |p.parts|
                      && r.value.parts[..|p.parts| - 1] == p.parts[..|p.parts| - 1]
    ensures r.Ok? ==> var n := Name(p); var sfx := Suffix(n);
                      Name(r.value) == n[..|n| - |sfx|] + suffix
  {
    if '/' in suffix || (suffix != "" && suffix[0] != '.') || suffix == "." then
      Err(ValueError("Invalid suffix"))
    else if |p.parts| == 0 then
      Err(ValueError("has an empty name"))
    else
      var n := Name(p);
      var sfx := Suffix(n);
      Ok(Path(p.rooted, p.parts[..|p.parts| - 1] + [n[..|n| - |sfx|] + suffix]))
  }

  /** Setting a suffix keeps the parent. */
  lemma WithSuffixParent(p: Path, suffix: string)
    requires WithSuffix(p, suffix).Ok?
    ensures Parent(WithSuffix(p, suffix).value) == Parent(p)
  {
  }

  // ------------------------------------------------------------ relative_to

  predicate IsPrefix(a: seq<string>, b: seq<string>) {
    |a| <= |b| && b[..|a|] == a
  }

  /** `p.is_relative_to(base)`. */
  predicate IsRelativeTo(p: Path, base: Path) {
    p.rooted == base.rooted && IsPrefix(base.parts, p.parts)
  }

  /** `p.relative_to(base)`, `None` where Python raises `ValueError`. */
  function RelativeTo(p: Path, base: Path): (r: Option<Path>)
    ensures r.Some? <==> IsRelativeTo(p, base)
    ensures r.Some? ==> !r.value.rooted && Concat(base, r.value) == p
  {
    if IsRelativeTo(p, base) then
      assert base.parts + p.parts[|base.parts|..] == p.parts;
      Some(Path(false, p.parts[|base.parts|..]))
    else None
  }
}
