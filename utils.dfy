/** General helpers: copying a file only when its copy is out of date, the
    directories between two paths, the configuration directories of a
    working directory, and loading several YAML files at once. */
module Utils {
  import opened Common
  import Paths
  import Yaml

  /** The text of an absolute path given as its components. */
  function Show(p: seq<string>): string {
    Paths.ToString(Paths.Path(true, p))
  }

  /** The root is a directory, nothing is both a file and a directory,
      the entries are exactly what has a modification time and every
      proper ancestor of an entry is a directory. */
  ghost predicate Consistent(files: map<seq<string>, string>, dirs: set<seq<string>>, mtimes: map<seq<string>, int>) {
    && [] in dirs
    && files.Keys !! dirs
    && files.Keys + dirs == mtimes.Keys
    && (forall q, k :: q in files && 0 <= k < |q| ==> q[..k] in dirs)
    && (forall q, k :: q in dirs && 0 <= k < |q| ==> q[..k] in dirs)
  }

  /** Making a directory whose ancestors are directories keeps the file
      system consistent. */
  lemma AddDir(files: map<seq<string>, string>, dirs: set<seq<string>>, mtimes: map<seq<string>, int>,
               d: seq<string>, now: int)
    requires Consistent(files, dirs, mtimes)
    requires d !in files && d !in dirs
    requires forall j :: 0 <= j < |d| ==> d[..j] in dirs
    ensures Consistent(files, dirs + {d}, mtimes[d := now])
  {
  }

  /** Writing a file whose ancestors are directories keeps the file
      system consistent. */
  lemma AddFile(files: map<seq<string>, string>, dirs: set<seq<string>>, mtimes: map<seq<string>, int>,
                f: seq<string>, content: string, now: int)
    requires Consistent(files, dirs, mtimes)
    requires f !in dirs
    requires forall j :: 0 <= j < |f| ==> f[..j] in dirs
    ensures Consistent(files[f := content], dirs, mtimes[f := now])
  {
  }

  /** Every time in `mtimes` is the one in `mtimes0` or, for an entry
      that `mtimes0` lacks, `now`. */
  ghost predicate Stamped(mtimes0: map<seq<string>, int>, mtimes: map<seq<string>, int>, now: int) {
    forall q :: q in mtimes ==> mtimes[q] == if q in mtimes0 then mtimes0[q] else now
  }

  lemma StampedStep(mtimes0: map<seq<string>, int>, mtimes: map<seq<string>, int>, d: seq<string>, now: int)
    requires Stamped(mtimes0, mtimes, now)
    requires d in mtimes0 ==> d in mtimes
    ensures Stamped(mtimes0, if d in mtimes then mtimes else mtimes[d := now], now)
  {
  }

  /** `copy` exists and is strictly more recent than an existing
      `original`, the timestamps being those of `mtimes`. */
  ghost predicate Newer(mtimes: map<seq<string>, int>, copy: seq<string>, original: seq<string>) {
    copy in mtimes && original in mtimes && mtimes[copy] > mtimes[original]
  }

  /** The first `n` prefixes of `p`, from the empty one. */
  ghost function Prefixes(p: seq<string>, n: nat): set<seq<string>> {
    set j | 0 <= j < n && j <= |p| :: p[..j]
  }

  lemma PrefixesStep(p: seq<string>, n: nat)
    requires n <= |p|
    ensures Prefixes(p, n + 1) == Prefixes(p, n) + {p[..n]}
  {
  }

  /** Some proper prefix of `p` is a regular file: looking `p` up meets a
      component that is not a directory. */
  ghost predicate BelowFile(files: map<seq<string>, string>, p: seq<string>) {
    exists k :: 0 <= k < |p| && p[..k] in files
  }

  /** The error that `stat` or `open` raises on a path `p` that is not an
      entry: `NotADirectoryError` when a regular file stands on the way,
      `FileNotFoundError` when a component is missing. */
  ghost function MissingError(files: map<seq<string>, string>, p: seq<string>): Error {
    if BelowFile(files, p) then NotADirectoryError(Show(p)) else FileNotFoundError(Show(p))
  }

  /** The components of the parent of `p`; the root is its own parent. */
  function ParentOf(p: seq<string>): seq<string> {
    if |p| == 0 then [] else p[..|p| - 1]
  }

  /** The first regular file met on the way down to `p`, at length `k`,
      is `p` itself when `k == |p|`, and stands above `p` otherwise. */
  lemma FirstFileKind(files: map<seq<string>, string>, dirs: set<seq<string>>, mtimes: map<seq<string>, int>,
                      p: seq<string>, k: nat)
    requires Consistent(files, dirs, mtimes)
    requires 0 < k <= |p| && p[..k] in files
    ensures k == |p| ==> p in files
    ensures k < |p| ==> p !in files && BelowFile(files, p)
  {
    if k < |p| {
      assert p[..k] !in dirs;
    } else {
      assert p[..k] == p;
    }
  }

  /** The error that `copy.parent.mkdir(parents=True, exist_ok=True)`
      followed by `copyfile(original, copy)` raises, `dirs` being the
      directories once the parents exist: the parent is a file, or a file
      stands above it; then the two paths are the same entry; then the
      original is a directory or is missing; then the copy is a directory. */
  ghost function CopyError(files: map<seq<string>, string>, dirs: set<seq<string>>,
                           original: seq<string>, copy: seq<string>): Error {
    var parent := ParentOf(copy);
    if parent in files then FileExistsError(Show(parent))
    else if BelowFile(files, parent) then NotADirectoryError(Show(parent))
    else if original == copy && (original in files || original in dirs) then SameFileError(Show(original))
    else if original in dirs then IsADirectoryError(Show(original))
    else if original !in files then MissingError(files, original)
    else IsADirectoryError(Show(copy))
  }

  /** A writable file system: the content of each regular file, the set of
      directories, and the modification time of every entry. */
  class Disk {
    var files: map<seq<string>, string>
    var dirs: set<seq<string>>
    var mtimes: map<seq<string>, int>

    /** The file system is consistent. */
    ghost predicate Valid()
      reads this
    {
      Consistent(files, dirs, mtimes)
    }

    /** `p.exists()`. */
    predicate Exists(p: seq<string>)
      reads this
    {
      p in files || p in dirs
    }

    /** An empty disk made at time `now`. */
    constructor (now: int)
      ensures Valid()
      ensures files == map[] && dirs == {[]} && mtimes == map[[] := now]
    {
      files := map[];
      dirs := {[]};
      mtimes := map[[] := now];
    }

    /** The length of the first prefix of `p` that is a regular file,
        the root aside, or `|p| + 1` when there is none. */
    method FirstFileOn(p: seq<string>) returns (k: nat)
      requires Valid()
      ensures 1 <= k <= |p| + 1
      ensures forall j :: 0 <= j < k && j <= |p| ==> p[..j] !in files
      ensures k <= |p| ==> p[..k] in files
    {
      k := 1;
      while k <= |p| && p[..k] !in files
        invariant 1 <= k <= |p| + 1
        invariant forall j :: 0 <= j < k ==> p[..j] !in files
      {
        k := k + 1;
      }
    }

    /** The error of looking up `p`, which is not an entry. */
    method LookupError(p: seq<string>) returns (e: Error)
      requires Valid()
      ensures e == MissingError(files, p)
    {
      var k := FirstFileOn(p);
      if k < |p| {
        return NotADirectoryError(Show(p));
      }
      assert !BelowFile(files, p);
      return FileNotFoundError(Show(p));
    }

    /** Making the directory `d`, whose ancestors are directories, at time
        `now`; an existing directory is left as it is. */
    method MakeDir(d: seq<string>, now: int)
      requires Valid()
      requires d !in files
      requires forall j :: 0 <= j < |d| ==> d[..j] in dirs
      modifies this
      ensures Valid()
      ensures files == old(files) && dirs == old(dirs) + {d}
      ensures mtimes == if d in old(dirs) then old(mtimes) else old(mtimes)[d := now]
    {
      if d !in dirs {
        AddDir(files, dirs, mtimes, d, now);
        dirs := dirs + {d};
        mtimes := mtimes[d := now];
      }
    }

    /** `p.mkdir(parents=True, exist_ok=True)` at time `now`: every missing
        directory from the root down to `p` is created, and the first
        regular file met on the way stops it, as an existing `p`
        (`FileExistsError`) or as an ancestor that is not a directory
        (`NotADirectoryError`). */
    method MakeDirs(p: seq<string>, now: int) returns (r: Result<()>)
      requires Valid()
      modifies this
      ensures Valid()
      ensures files == old(files)
      ensures r.Ok? <==> forall k :: 0 <= k <= |p| ==> p[..k] !in old(files)
      ensures r.Ok? ==> dirs == old(dirs) + set k | 0 <= k <= |p| :: p[..k]
      ensures r.Ok? ==> mtimes.Keys == old(mtimes).Keys + set k | 0 <= k <= |p| :: p[..k]
      ensures r.Ok? ==> forall q :: q in mtimes ==> mtimes[q] == if q in old(mtimes) then old(mtimes)[q] else now
      ensures r.Err? ==> dirs == old(dirs) && mtimes == old(mtimes)
      ensures r.Err? ==>
                exists k :: 0 < k <= |p| && p[..k] in old(files)
                            && (forall j :: 0 <= j < k ==> p[..j] !in old(files))
                            && r.error == if k == |p| then FileExistsError(Show(p)) else NotADirectoryError(Show(p))
    {
      var k := FirstFileOn(p);
      if k <= |p| {
        return Err(if k == |p| then FileExistsError(Show(p)) else NotADirectoryError(Show(p)));
      }
      ghost var dirs0 := dirs;
      ghost var mtimes0 := mtimes;
      var i := 1;
      while i <= |p|
        invariant 1 <= i <= |p| + 1
        invariant files == old(files)
        invariant dirs == dirs0 + Prefixes(p, i)
        invariant Stamped(mtimes0, mtimes, now)
        invariant Valid()
      {
        var d := p[..i];
        PrefixesStep(p, i);
        forall j | 0 <= j < |d| ensures d[..j] in dirs {
          assert d[..j] == p[..j];
        }
        ghost var before := mtimes;
        MakeDir(d, now);
        StampedStep(mtimes0, before, d, now);
        i := i + 1;
      }
      assert Prefixes(p, i) == set j | 0 <= j <= |p| :: p[..j];
      return Ok(());
    }

    /** The copy itself, once `copy` is known to be out of date: the
        parents of `copy` are created, then the content of the regular file
        `original` is written to `copy`, which must be neither `original`
        nor a directory. */
    method WriteCopy(original: seq<string>, copy: seq<string>, now: int) returns (r: Result<()>)
      requires Valid()
      modifies this
      ensures Valid()
      ensures r.Ok? <==>
                original in old(files) && original != copy && copy !in old(dirs)
                && forall k :: 0 <= k < |copy| ==> copy[..k] !in old(files)
      ensures r.Ok? ==> files == old(files)[copy := old(files)[original]]
      ensures r.Ok? ==> dirs == old(dirs) + Prefixes(copy, |copy|)
      ensures r.Ok? ==> forall q :: q in mtimes ==> mtimes[q] == if q in old(mtimes) && q != copy then old(mtimes)[q] else now
      ensures r.Err? ==> files == old(files)
      ensures r.Err? ==> r.error == CopyError(files, dirs, original, copy)
    {
      var parent := ParentOf(copy);
      var made := MakeDirs(parent, now);
      if made.Err? {
        forall k | 0 <= k <= |parent| ensures parent[..k] == copy[..k] {}
        ghost var k :| 0 < k <= |parent| && parent[..k] in files
                 && (forall j :: 0 <= j < k ==> parent[..j] !in files)
                 && made.error == if k == |parent| then FileExistsError(Show(parent)) else NotADirectoryError(Show(parent));
        FirstFileKind(files, dirs, mtimes, parent, k);
        return Err(made.error);
      }
      assert parent[..|parent|] == parent;
      assert parent !in files && !BelowFile(files, parent);
      forall k | 0 <= k < |copy| ensures copy[..k] !in old(files) {
        assert copy[..k] == parent[..k];
      }
      if original == copy && Exists(original) {
        return Err(SameFileError(Show(original)));
      }
      if original in dirs {
        return Err(IsADirectoryError(Show(original)));
      }
      if original !in files {
        var e := LookupError(original);
        return Err(e);
      }
      if copy in dirs {
        return Err(IsADirectoryError(Show(copy)));
      }
      forall k | 0 <= k < |copy| ensures copy[..k] in dirs {
        assert copy[..k] == parent[..k];
      }
      assert dirs == old(dirs) + Prefixes(copy, |copy|) by {
        forall q ensures q in Prefixes(copy, |copy|) ==> q in dirs {
          if q in Prefixes(copy, |copy|) {
            var j :| 0 <= j < |copy| && j <= |copy| && q == copy[..j];
            assert q == parent[..j];
          }
        }
        forall k | 0 <= k <= |parent| ensures parent[..k] in old(dirs) + Prefixes(copy, |copy|) {
          assert parent[..k] == copy[..k];
        }
      }
      AddFile(files, dirs, mtimes, copy, files[original], now);
      files := files[copy := files[original]];
      mtimes := mtimes[copy := now];
      return Ok(());
    }

    /** `copy_file_if_newer(original, copy)` at time `now`: nothing happens
        (`Ok(false)`) exactly when `copy` exists and is strictly more recent
        than an existing `original`; otherwise the parents of `copy` are
        created and the content of the regular file `original` is written
        to `copy` (`Ok(true)`). */
    method CopyFileIfNewer(original: seq<string>, copy: seq<string>, now: int) returns (r: Result<bool>)
      requires Valid()
      modifies this
      ensures Valid()
      ensures r == Ok(false) <==>
                old(Exists(copy)) && old(Exists(original)) && old(mtimes)[copy] > old(mtimes)[original]
      ensures r.Ok? <==>
                (old(Exists(copy)) && old(Exists(original)) && old(mtimes)[copy] > old(mtimes)[original])
                || (original in old(files) && original != copy && copy !in old(dirs)
                    && forall k :: 0 <= k < |copy| ==> copy[..k] !in old(files))
      ensures r == Ok(false) ==> files == old(files) && dirs == old(dirs) && mtimes == old(mtimes)
      ensures r == Ok(false) <==> Newer(old(mtimes), copy, original)
      ensures r == Ok(true) ==> files == old(files)[copy := old(files)[original]] && mtimes[copy] == now
      ensures r == Ok(true) ==> dirs == old(dirs) + Prefixes(copy, |copy|)
      ensures r == Ok(true) ==>
                forall q :: q in mtimes ==> mtimes[q] == if q in old(mtimes) && q != copy then old(mtimes)[q] else now
      ensures r.Err? ==> files == old(files)
      ensures r.Err? && !old(Exists(original)) && old(Exists(copy)) ==> r.error == MissingError(files, original)
      ensures r.Err? && !(!old(Exists(original)) && old(Exists(copy))) ==> r.error == CopyError(files, dirs, original, copy)
      ensures r.Ok? ==> old(files).Keys <= files.Keys && (r.value ==> copy in files)
    {
      if Exists(copy) {
        if !Exists(original) {
          var e := LookupError(original);
          return Err(e);
        }
        if mtimes[copy] > mtimes[original] {
          return Ok(false);
        }
      }
      var copied := WriteCopy(original, copy, now);
      return if copied.Ok? then Ok(true) else Err(copied.error);
    }
  }

  // ------------------------------------------------------ intermediate_dirs

  /** The `ValueError` of `p.relative_to(base)` when `p` is not below
      `base`. */
  function NotInSubpath(p: Paths.Path, base: Paths.Path): Error {
    ValueError("'" + Paths.ToString(p) + "' is not in the subpath of '" + Paths.ToString(base) + "'")
  }

  /** `intermediate_dirs(start, end)`: `start`, then each directory on the
      way down to `end`, one component at a time, or the `ValueError` of
      `relative_to` when `end` is not below `start`. */
  function IntermediateDirsOf(start: Paths.Path, end: Paths.Path): (r: Result<seq<Paths.Path>>)
    ensures r.Ok? <==> Paths.IsRelativeTo(end, start)
  {
    match Paths.RelativeTo(end, start)
    case None =>
      Err(NotInSubpath(end, start))
    case Some(rel) =>
      Ok(seq(|rel.parts| + 1, i requires 0 <= i <= |rel.parts| => Paths.Path(start.rooted, start.parts + rel.parts[..i])))
  }

  /** The directories run from `start` to `end`, one more component at each
      step: each is the parent of the next. */
  lemma IntermediateDirsChain(start: Paths.Path, end: Paths.Path)
    requires Paths.IsRelativeTo(end, start)
    ensures var ds := IntermediateDirsOf(start, end).value;
            && |ds| == |end.parts| - |start.parts| + 1
            && ds[0] == start && ds[|ds| - 1] == end
            && (forall i :: 0 <= i < |ds| ==> Paths.IsRelativeTo(end, ds[i]) && Paths.IsRelativeTo(ds[i], start))
            && (forall i :: 0 <= i < |ds| - 1 ==> Paths.Parent(ds[i + 1]) == ds[i])
  {
    var rel := Paths.RelativeTo(end, start).value;
    var ds := IntermediateDirsOf(start, end).value;
    assert start.parts + rel.parts == end.parts;
    assert rel.parts[..0] == [];
    assert rel.parts[..|rel.parts|] == rel.parts;
    forall i | 0 <= i < |ds| ensures Paths.IsRelativeTo(end, ds[i]) && Paths.IsRelativeTo(ds[i], start) {
      assert end.parts[..|ds[i].parts|] == start.parts + rel.parts[..i];
      assert ds[i].parts[..|start.parts|] == start.parts;
    }
    forall i | 0 <= i < |ds| - 1 ensures Paths.Parent(ds[i + 1]) == ds[i] {
      assert (start.parts + rel.parts[..i + 1])[..|start.parts| + i] == start.parts + rel.parts[..i];
    }
  }

  /** The loop of `intermediate_dirs`, joining one component at a time. */
  method IntermediateDirs(start: Paths.Path, end: Paths.Path) returns (r: Result<seq<Paths.Path>>)
    ensures r == IntermediateDirsOf(start, end)
  {
    var rel := Paths.RelativeTo(end, start);
    if rel.None? {
      return Err(NotInSubpath(end, start));
    }
    assert IntermediateDirsOf(start, end).Ok?;
    var parts := rel.value.parts;
    var current := start;
    var ds := [start];
    var i := 0;
    while i < |parts|
      invariant 0 <= i <= |parts|
      invariant current == Paths.Path(start.rooted, start.parts + parts[..i])
      invariant |ds| == i + 1
      invariant forall j :: 0 <= j <= i ==> ds[j] == Paths.Path(start.rooted, start.parts + parts[..j])
    {
      assert parts[..i + 1] == parts[..i] + [parts[i]];
      current := Paths.Concat(current, Paths.Path(false, [parts[i]]));
      ds := ds + [current];
      i := i + 1;
    }
    ghost var spec := IntermediateDirsOf(start, end).value;
    assert spec == seq(|parts| + 1, j requires 0 <= j <= |parts| => Paths.Path(start.rooted, start.parts + parts[..j]));
    assert |ds| == |spec|;
    assert forall j :: 0 <= j < |ds| ==> ds[j] == spec[j];
    assert ds == spec;
    return Ok(ds);
  }

  // -------------------------------------------------------- dirs_hierarchy

  /** `dirs_hierarchy(git_dir, user_config_dir, current_dir)`: the git
      directory, the user configuration directory, then every directory
      below the git directory down to the current one, or only the current
      one when it is not below the git directory. */
  function DirsHierarchy(git: Paths.Path, user: Paths.Path, current: Paths.Path): (r: seq<Paths.Path>)
    ensures |r| >= 2 && r[0] == git && r[1] == user
    ensures Paths.IsRelativeTo(current, git) ==> |r| == |current.parts| - |git.parts| + 2
    ensures Paths.IsRelativeTo(current, git) && |r| > 2 ==> r[|r| - 1] == current && Paths.Parent(r[2]) == git
    ensures Paths.IsRelativeTo(current, git) ==> forall i :: 3 <= i < |r| ==> Paths.Parent(r[i]) == r[i - 1]
    ensures Paths.IsRelativeTo(current, git) ==>
              forall i :: 2 <= i < |r| ==> Paths.IsRelativeTo(r[i], git) && Paths.IsRelativeTo(current, r[i])
    ensures !Paths.IsRelativeTo(current, git) ==> r == [git, user, current]
  {
    if Paths.IsRelativeTo(current, git) then
      IntermediateDirsChain(git, current);
      [git, user] + IntermediateDirsOf(git, current).value[1..]
    else [git, user, current]
  }

  // -------------------------------------------------------- load_all_yamls

  /** The paths that name something in `fs`, in order. */
  function Existing(fs: Yaml.FileSystem, paths: seq<Paths.Path>): (r: seq<Paths.Path>)
    ensures |r| <= |paths|
    ensures forall i :: 0 <= i < |r| ==> r[i].parts in fs && r[i] in paths
  {
    if |paths| == 0 then []
    else if paths[0].parts in fs then [paths[0]] + Existing(fs, paths[1..])
    else Existing(fs, paths[1..])
  }

  /** `load_all_yamls(paths)`: the documents of the files, in order,
      skipping the paths where nothing exists; any other failure stops
      the iteration. */
  function LoadAllYamls(fs: Yaml.FileSystem, paths: seq<Paths.Path>): (r: Result<seq<Yaml.Value>>)
  {
    if |paths| == 0 then Ok([])
    else
      var first := Yaml.Load(fs, paths[0]);
      if first.Err? && first.error.FileNotFoundError? then LoadAllYamls(fs, paths[1..])
      else
        var v :- first;
        var rest :- LoadAllYamls(fs, paths[1..]);
        Ok([v] + rest)
  }

  /** Loading all files skips exactly the missing ones: it is loading each
      of the existing paths in turn. */
  lemma {:induction false} LoadAllYamlsExisting(fs: Yaml.FileSystem, paths: seq<Paths.Path>)
    ensures LoadAllYamls(fs, paths) == MapAll(Existing(fs, paths), p => Yaml.Load(fs, p))
  {
    if |paths| > 0 {
      LoadAllYamlsExisting(fs, paths[1..]);
      if paths[0].parts in fs {
        var e := Existing(fs, paths);
        assert e[0] == paths[0] && e[1..] == Existing(fs, paths[1..]);
      }
    }
  }
}
