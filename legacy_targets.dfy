/** The targets of the first deckz tree (`deckz/targets.py`): each target
    of `targets.yml` lists sections, each found as a local directory, a
    local `.tex` file, a shared directory or a shared `.tex` file, first
    match wins; a directory section lists the inputs of one of its
    flavors.  Dependencies record the `.tex` files used, the names that
    could not be found and the local `.tex` files left unused. */
module LegacyTargets {
  import opened Common
  import opened Strings
  import Dicts
  import Paths
  import Yaml

  type Config = Dicts.Dict<string, Yaml.Value>

  // --------------------------------------------------------- dependencies

  /** The three sets of a `Dependencies`, as a value. */
  datatype Deps = Deps(used: set<Paths.Path>, missing: set<string>, unused: set<Paths.Path>)

  const NoDeps := Deps({}, {}, {})

  /** One round of the loop of `merge`: the argument's used and missing
      sets join the result's; its unused paths join too, except those used
      by now. */
  function MergeStep(acc: Deps, d: Deps): Deps {
    var used := acc.used + d.used;
    Deps(used, acc.missing + d.missing, acc.unused + (d.unused - used))
  }

  /** `merge(*ds)` on values. */
  function Merged(ds: seq<Deps>): Deps {
    if |ds| == 0 then NoDeps else MergeStep(Merged(ds[..|ds| - 1]), ds[|ds| - 1])
  }

  /** A merge uses what some argument uses and misses what some argument
      misses. */
  lemma {:induction false} MergedUsed(ds: seq<Deps>, p: Paths.Path, m: string)
    ensures p in Merged(ds).used <==> exists i :: 0 <= i < |ds| && p in ds[i].used
    ensures m in Merged(ds).missing <==> exists i :: 0 <= i < |ds| && m in ds[i].missing
  {
    if |ds| > 0 {
      var init := ds[..|ds| - 1];
      var n := |ds| - 1;
      MergedUsed(init, p, m);
      assert forall i :: 0 <= i < |init| ==> init[i] == ds[i];
      if exists i :: 0 <= i < |ds| && p in ds[i].used {
        var i :| 0 <= i < |ds| && p in ds[i].used;
        if i < n { assert p in init[i].used; }
      }
      if exists i :: 0 <= i < |ds| && m in ds[i].missing {
        var i :| 0 <= i < |ds| && m in ds[i].missing;
        if i < n { assert m in init[i].missing; }
      }
    }
  }

  /** A path is left unused by a merge when some argument leaves it unused
      and no argument up to that one uses it.  Later arguments never
      remove it. */
  lemma {:induction false} MergedUnused(ds: seq<Deps>, p: Paths.Path)
    ensures p in Merged(ds).unused <==>
              exists i :: 0 <= i < |ds| && p in ds[i].unused && forall j :: 0 <= j <= i ==> p !in ds[j].used
  {
    if |ds| > 0 {
      var init := ds[..|ds| - 1];
      var n := |ds| - 1;
      MergedUsed(init, p, "");
      MergedUnused(init, p);
      if p in Merged(ds).unused && p !in Merged(init).unused {
        assert p in ds[n].unused && forall j :: 0 <= j <= n ==> p !in ds[j].used by {
          forall j | 0 <= j < n ensures p !in ds[j].used {
            assert p !in Merged(init).used;
            assert init[j] == ds[j];
          }
        }
      }
      if exists i :: 0 <= i < |ds| && p in ds[i].unused && forall j :: 0 <= j <= i ==> p !in ds[j].used {
        var i :| 0 <= i < |ds| && p in ds[i].unused && forall j :: 0 <= j <= i ==> p !in ds[j].used;
        if i < n {
          assert forall j :: 0 <= j <= i ==> init[j] == ds[j];
          assert p in init[i].unused && forall j :: 0 <= j <= i ==> p !in init[j].used;
        }
      }
      if p in Merged(init).unused {
        var i :| 0 <= i < |init| && p in init[i].unused && forall j :: 0 <= j <= i ==> p !in init[j].used;
        assert forall j :: 0 <= j <= i ==> init[j] == ds[j];
      }
    }
  }

  /** Unlike the later `update`, a merge does not purge a path left unused
      by one argument and used by a later one: it ends up both used and
      unused. */
  lemma MergeKeepsStale(p: Paths.Path)
    ensures var r := Merged([Deps({}, {}, {p}), Deps({p}, {}, {})]);
            p in r.used && p in r.unused
  {
    PairMerged(Deps({}, {}, {p}), Deps({p}, {}, {}));
  }

  /** `Dependencies.merge`, its loop over the arguments. */
  method Merge(ds: seq<Deps>) returns (r: Deps)
    ensures r == Merged(ds)
  {
    r := NoDeps;
    var i := 0;
    while i < |ds|
      invariant i <= |ds|
      invariant r == Merged(ds[..i])
    {
      assert ds[..i + 1][..i] == ds[..i];
      r := Deps(r.used + ds[i].used, r.missing + ds[i].missing, r.unused + (ds[i].unused - (r.used + ds[i].used)));
      i := i + 1;
    }
    assert ds[..i] == ds;
  }

  /** How a target's dependencies grow, section after section:
      `self.dependencies = merge(self.dependencies, d)`. */
  function Accumulated(start: Deps, ds: seq<Deps>): Deps {
    if |ds| == 0 then start else Merged([Accumulated(start, ds[..|ds| - 1]), ds[|ds| - 1]])
  }

  /** When the start uses nothing and the sections leave nothing unused,
      the accumulated dependencies use and miss what some section does,
      and leave unused the start's paths that no section but the last
      uses: each merge purges the paths used BEFORE it, never those the
      last section uses. */
  lemma {:induction false} AccumulatedSpec(start: Deps, ds: seq<Deps>, p: Paths.Path, m: string)
    requires start.used == {} && forall i :: 0 <= i < |ds| ==> ds[i].unused == {}
    ensures p in Accumulated(start, ds).used <==> exists i :: 0 <= i < |ds| && p in ds[i].used
    ensures m in Accumulated(start, ds).missing <==> m in start.missing || exists i :: 0 <= i < |ds| && m in ds[i].missing
    ensures p in Accumulated(start, ds).unused <==> p in start.unused && forall i :: 0 <= i < |ds| - 1 ==> p !in ds[i].used
  {
    if |ds| > 0 {
      var init := ds[..|ds| - 1];
      var n := |ds| - 1;
      var a := Accumulated(start, init);
      AccumulatedSpec(start, init, p, m);
      assert forall i :: 0 <= i < |init| ==> init[i] == ds[i];
      PairMerged(a, ds[n]);
      if exists i :: 0 <= i < |ds| && p in ds[i].used {
        var i :| 0 <= i < |ds| && p in ds[i].used;
        if i < n { assert p in init[i].used; }
      }
      if exists i :: 0 <= i < |ds| && m in ds[i].missing {
        var i :| 0 <= i < |ds| && m in ds[i].missing;
        if i < n { assert m in init[i].missing; }
      }
      if p in start.unused && forall i :: 0 <= i < n ==> p !in ds[i].used {
        if n > 0 {
          assert forall i :: 0 <= i < |init| - 1 ==> p !in init[i].used;
          assert p in a.unused;
          assert p !in a.used by {
            forall i | 0 <= i < |init| ensures p !in init[i].used { assert init[i] == ds[i]; }
          }
        }
      }
      if p in Accumulated(start, ds).unused && n > 0 {
        assert p in a.unused && p !in a.used;
        forall i | 0 <= i < n ensures p !in ds[i].used {
          assert init[i] == ds[i];
        }
      }
    }
  }

  /** A merge of two: the first one's unused paths lose its own used paths. */
  lemma PairMerged(a: Deps, b: Deps)
    ensures Merged([a, b]) == Deps(a.used + b.used, a.missing + b.missing,
                                   (a.unused - a.used) + (b.unused - (a.used + b.used)))
  {
    assert [a, b][..1] == [a];
    assert [a][..0] == [];
    assert Merged([a]) == MergeStep(NoDeps, a);
    assert Merged([a, b]) == MergeStep(Merged([a]), b);
  }

  /** So a local `.tex` file that only the last section of a target uses
      is reported both used and unused. */
  lemma LastSectionStale(start: Deps, d: Deps, p: Paths.Path)
    requires start.used == {} && d.unused == {}
    requires p in start.unused && p in d.used
    ensures p in Accumulated(start, [d]).used && p in Accumulated(start, [d]).unused
  {
    AccumulatedSpec(start, [d], p, "");
  }

  // ---------------------------------------------------- finding a section

  /** Where a section was found. */
  datatype Found =
    | LocalDir(dir: Paths.Path)
    | LocalFile(file: Paths.Path)
    | SharedDir(dir: Paths.Path)
    | SharedFile(file: Paths.Path)
    | NotFound

  /** `latex_dir / section_path`. */
  function SectionDir(latexDir: Paths.Path, sectionPath: string): Paths.Path {
    Paths.Concat(latexDir, Paths.FromString(sectionPath))
  }

  /** `latex_dir / f"{section_path}.tex"`. */
  function SectionTex(latexDir: Paths.Path, sectionPath: string): Paths.Path {
    Paths.Concat(latexDir, Paths.FromString(sectionPath + ".tex"))
  }

  /** The section of `section_path`: the local directory, the local `.tex`
      file, the shared directory, then the shared `.tex` file, the first
      that exists as that kind. */
  function Locate(fs: Yaml.FileSystem, localLatexDir: Paths.Path, sharedLatexDir: Paths.Path, sectionPath: string)
    : (r: Found)
    ensures r.LocalDir? ==> r.dir == SectionDir(localLatexDir, sectionPath) && Yaml.IsDir(fs, r.dir.parts)
    ensures r.LocalFile? ==> r.file == SectionTex(localLatexDir, sectionPath) && Yaml.IsFile(fs, r.file.parts)
    ensures r.SharedDir? ==> r.dir == SectionDir(sharedLatexDir, sectionPath) && Yaml.IsDir(fs, r.dir.parts)
    ensures r.SharedFile? ==> r.file == SectionTex(sharedLatexDir, sectionPath) && Yaml.IsFile(fs, r.file.parts)
    ensures Yaml.IsDir(fs, SectionDir(localLatexDir, sectionPath).parts) ==> r.LocalDir?
    ensures Yaml.IsFile(fs, SectionTex(localLatexDir, sectionPath).parts) ==> r.LocalDir? || r.LocalFile?
    ensures Yaml.IsDir(fs, SectionDir(sharedLatexDir, sectionPath).parts) ==> !r.SharedFile? && !r.NotFound?
    ensures r.NotFound? <==>
              && !Yaml.IsDir(fs, SectionDir(localLatexDir, sectionPath).parts)
              && !Yaml.IsFile(fs, SectionTex(localLatexDir, sectionPath).parts)
              && !Yaml.IsDir(fs, SectionDir(sharedLatexDir, sectionPath).parts)
              && !Yaml.IsFile(fs, SectionTex(sharedLatexDir, sectionPath).parts)
  {
    var localDir := SectionDir(localLatexDir, sectionPath);
    var localFile := SectionTex(localLatexDir, sectionPath);
    var sharedDir := SectionDir(sharedLatexDir, sectionPath);
    var sharedFile := SectionTex(sharedLatexDir, sectionPath);
    if Yaml.IsDir(fs, localDir.parts) then LocalDir(localDir)
    else if Yaml.IsFile(fs, localFile.parts) then LocalFile(localFile)
    else if Yaml.IsDir(fs, sharedDir.parts) then SharedDir(sharedDir)
    else if Yaml.IsFile(fs, sharedFile.parts) then SharedFile(sharedFile)
    else NotFound
  }

  // ------------------------------------------------------------ sections

  /** A `Section`: its title and its inputs, each a name to `\input` with
      an optional title (YAML null for none). */
  datatype Section = Section(title: Yaml.Value, inputs: seq<(string, Yaml.Value)>)

  /** What one entry of a flavor contributes. */
  datatype Outcome =
    | Skipped
    | Input(name: string, title: Yaml.Value, file: Paths.Path)
    | MissingFile(filename: string)

  /** The file name and title of an entry: a string takes its title from
      `default_titles` (none without them), a mapping is its first entry. */
  function NameAndTitle(item: Yaml.Value, defaultTitles: Yaml.Value): (r: Result<(string, Yaml.Value)>)
    ensures item.Str? && defaultTitles.Null? ==> r == Ok((item.s, Yaml.Null))
    ensures item.Map? ==> (r.Ok? <==> |item.entries| > 0)
    ensures item.Map? && r.Ok? ==> r.value == item.entries[0]
  {
    match item
    case Str(s) =>
      if defaultTitles.Null? then Ok((s, Yaml.Null))
      else if defaultTitles.Map? then
        Ok((s, match Dicts.Get(defaultTitles.entries, s) case None => Yaml.Null case Some(t) => t))
      else Err(AttributeError("object has no attribute 'get'"))
    case Map(es) => if |es| == 0 then Err(StopIteration) else Ok(es[0])
    case _ => Err(AttributeError("object has no attribute 'items'"))
  }

  /** `(dir / filename).with_suffix(".tex")`. */
  function TexOf(dir: Paths.Path, filename: string): Result<Paths.Path> {
    Paths.WithSuffix(Paths.Concat(dir, Paths.FromString(filename)), ".tex")
  }

  /** One entry of the flavor of a directory section: skipped when the
      section's `excludes` holds its name; otherwise the file next to the
      section, listed as `<section dir>/<name>`, else the shared file,
      listed by its bare name, else a missing name. */
  function ProcessItem(fs: Yaml.FileSystem, sharedLatexDir: Paths.Path, sectionDir: Paths.Path,
                       latexDir: Paths.Path, excludes: Option<Yaml.Value>, defaultTitles: Yaml.Value,
                       item: Yaml.Value)
    : (r: Result<Outcome>)
    ensures r.Ok? ==> NameAndTitle(item, defaultTitles).Ok?
    ensures r.Ok? && r.value.Skipped? <==>
              NameAndTitle(item, defaultTitles).Ok? && excludes.Some? &&
              Yaml.In(NameAndTitle(item, defaultTitles).value.0, excludes.value) == Ok(true)
    ensures r.Ok? && !r.value.Skipped? ==>
              var (filename, title) := NameAndTitle(item, defaultTitles).value;
              && TexOf(sectionDir, filename).Ok? && TexOf(sharedLatexDir, filename).Ok?
              && var local := TexOf(sectionDir, filename).value;
                 var shared := TexOf(sharedLatexDir, filename).value;
                 && (local.parts in fs ==>
                       Paths.RelativeTo(sectionDir, latexDir).Some? &&
                       r.value == Input(Paths.ToString(Paths.RelativeTo(sectionDir, latexDir).value) + "/" + filename,
                                        title, local))
                 && (local.parts !in fs && shared.parts in fs ==> r.value == Input(filename, title, shared))
                 && (local.parts !in fs && shared.parts !in fs ==> r.value == MissingFile(filename))
  {
    var (filename, title) :- NameAndTitle(item, defaultTitles);
    var excluded :- match excludes case None => Ok(false) case Some(e) => Yaml.In(filename, e);
    if excluded then Ok(Skipped)
    else
      var local :- TexOf(sectionDir, filename);
      var shared :- TexOf(sharedLatexDir, filename);
      if local.parts in fs then
        match Paths.RelativeTo(sectionDir, latexDir)
        case None => Err(ValueError("the section directory is not in the latex directory"))
        case Some(relative) => Ok(Input(Paths.ToString(relative) + "/" + filename, title, local))
      else if shared.parts in fs then Ok(Input(filename, title, shared))
      else Ok(MissingFile(filename))
  }

  /** `ProcessItem` for one section, as a function of the entry. */
  function ProcessIn(fs: Yaml.FileSystem, sharedLatexDir: Paths.Path, sectionDir: Paths.Path,
                     latexDir: Paths.Path, excludes: Option<Yaml.Value>, defaultTitles: Yaml.Value)
    : Yaml.Value -> Result<Outcome>
  {
    item => ProcessItem(fs, sharedLatexDir, sectionDir, latexDir, excludes, defaultTitles, item)
  }

  /** The inputs the outcomes list, in order. */
  function InputsOf(os: seq<Outcome>): seq<(string, Yaml.Value)> {
    if |os| == 0 then []
    else
      var last := os[|os| - 1];
      InputsOf(os[..|os| - 1]) + (if last.Input? then [(last.name, last.title)] else [])
  }

  /** The dependencies of the outcomes: the files found are used, the
      names not found are missing. */
  function DepsOf(os: seq<Outcome>): Deps {
    if |os| == 0 then NoDeps
    else
      var d := DepsOf(os[..|os| - 1]);
      match os[|os| - 1]
      case Skipped => d
      case Input(_, _, file) => Deps(d.used + {file}, d.missing, d.unused)
      case MissingFile(name) => Deps(d.used, d.missing + {name}, d.unused)
  }

  /** Every input comes from an outcome; the used files are those of the
      inputs, the missing names those of the missing files, and nothing is
      left unused. */
  lemma {:induction false} OutcomesSpec(os: seq<Outcome>, p: Paths.Path, m: string)
    ensures |InputsOf(os)| <= |os|
    ensures forall e :: e in InputsOf(os) ==> exists i :: 0 <= i < |os| && os[i].Input? && e == (os[i].name, os[i].title)
    ensures p in DepsOf(os).used <==> exists i :: 0 <= i < |os| && os[i].Input? && os[i].file == p
    ensures m in DepsOf(os).missing <==> exists i :: 0 <= i < |os| && os[i].MissingFile? && os[i].filename == m
    ensures DepsOf(os).unused == {}
  {
    if |os| > 0 {
      var init := os[..|os| - 1];
      var n := |os| - 1;
      OutcomesSpec(init, p, m);
      assert forall i :: 0 <= i < n ==> init[i] == os[i];
      forall e | e in InputsOf(os)
        ensures exists i :: 0 <= i < |os| && os[i].Input? && e == (os[i].name, os[i].title)
      {
        if e !in InputsOf(init) {
          assert os[n].Input? && e == (os[n].name, os[n].title);
        }
      }
      if exists i :: 0 <= i < |os| && os[i].Input? && os[i].file == p {
        var i :| 0 <= i < |os| && os[i].Input? && os[i].file == p;
        if i < n { assert init[i].Input? && init[i].file == p; }
      }
      if exists i :: 0 <= i < |os| && os[i].MissingFile? && os[i].filename == m {
        var i :| 0 <= i < |os| && os[i].MissingFile? && os[i].filename == m;
        if i < n { assert init[i].MissingFile? && init[i].filename == m; }
      }
    }
  }

  /** Where a directory section keeps its configuration:
      `<dir>/<dir name>.yml`. */
  function SectionConfigPath(sectionDir: Paths.Path): Paths.Path {
    Paths.Child(sectionDir, Paths.Name(sectionDir) + ".yml")
  }

  /** The title of a directory section: the target's when it gives one,
      otherwise `section_config["title"]`, whatever the configuration is. */
  function HeaderTitle(config: Yaml.Value, custom: Config): (r: Result<Yaml.Value>)
    ensures Dicts.Get(custom, "title").Some? ==> r == Ok(Dicts.Get(custom, "title").value)
    ensures Dicts.Get(custom, "title").None? ==> r == Yaml.Index(config, "title")
  {
    match Dicts.Get(custom, "title")
    case Some(t) => Ok(t)
    case None => Yaml.Index(config, "title")
  }

  /** The text of the error for a flavor the section does not declare:
      the name, then every declared flavor in quotes. */
  function UnknownFlavorMessage(flavorName: Yaml.Value, flavors: Yaml.Value, configPath: Paths.Path): string {
    var names := match Yaml.Iterate(flavors) case Ok(fs) => fs case Err(_) => [];
    "'" + Yaml.Formatted(flavorName) + "' not amongst available flavors: "
    + Yaml.JoinComma(seq(|names|, i requires 0 <= i < |names| => "'" + Yaml.Formatted(names[i]) + "'"))
    + " of " + Paths.ToString(configPath) + "."
  }

  /** The title of a directory section, its flavor's entries and its
      default titles, as read from `<dir>/<dir name>.yml`: the target's
      title wins over the file's; the target must ask for a flavor, the
      file must hold `flavors`, and the flavor must be among them, each
      refusal a `DeckzError` once the title is known.  Only the title (when
      the target gives none) and `flavors` are looked up by subscript;
      the other tests are Python's `in`, on whatever the file holds. */
  function SectionHeader(fs: Yaml.FileSystem, sectionDir: Paths.Path, custom: Config)
    : (r: Result<(Yaml.Value, Yaml.Value, Yaml.Value)>)
    ensures Dicts.Get(custom, "title").Some? && r.Ok? ==> r.value.0 == Dicts.Get(custom, "title").value
    ensures r.Ok? <==>
              var loaded := Yaml.Load(fs, SectionConfigPath(sectionDir));
              && loaded.Ok? && HeaderTitle(loaded.value, custom).Ok?
              && Dicts.Get(custom, "flavor").Some?
              && Yaml.In("flavors", loaded.value) == Ok(true)
              && Yaml.Index(loaded.value, "flavors").Ok?
              && Yaml.Member(Dicts.Get(custom, "flavor").value, Yaml.Index(loaded.value, "flavors").value) == Ok(true)
              && Yaml.Subscript(Yaml.Index(loaded.value, "flavors").value, Dicts.Get(custom, "flavor").value).Ok?
    ensures r.Ok? ==>
              var config := Yaml.Load(fs, SectionConfigPath(sectionDir)).value;
              && r.value.0 == HeaderTitle(config, custom).value
              && r.value.1 == Yaml.Subscript(Yaml.Index(config, "flavors").value, Dicts.Get(custom, "flavor").value).value
    // the three refusals
    ensures var loaded := Yaml.Load(fs, SectionConfigPath(sectionDir));
            loaded.Ok? && HeaderTitle(loaded.value, custom).Ok? && Dicts.Get(custom, "flavor").None? ==>
              r == Err(DeckzError("Mandatory flavor not specified in " + Paths.Name(sectionDir)
                                  + " configuration of targets.yml."))
    ensures var loaded := Yaml.Load(fs, SectionConfigPath(sectionDir));
            loaded.Ok? && HeaderTitle(loaded.value, custom).Ok? && Dicts.Get(custom, "flavor").Some?
            && Yaml.In("flavors", loaded.value) == Ok(false) ==>
              r == Err(DeckzError("Mandatory dictionary `flavors` not found in "
                                  + Paths.ToString(SectionConfigPath(sectionDir)) + "."))
    ensures var loaded := Yaml.Load(fs, SectionConfigPath(sectionDir));
            loaded.Ok? && HeaderTitle(loaded.value, custom).Ok? && Dicts.Get(custom, "flavor").Some?
            && Yaml.In("flavors", loaded.value) == Ok(true) && Yaml.Index(loaded.value, "flavors").Ok?
            && Yaml.Member(Dicts.Get(custom, "flavor").value, Yaml.Index(loaded.value, "flavors").value) == Ok(false) ==>
              r.Err? && r.error.DeckzError?
  {
    var configPath := SectionConfigPath(sectionDir);
    var config :- Yaml.Load(fs, configPath);
    var title :- HeaderTitle(config, custom);
    match Dicts.Get(custom, "flavor")
    case None =>
      Err(DeckzError("Mandatory flavor not specified in " + Paths.Name(sectionDir) + " configuration of targets.yml."))
    case Some(flavorName) =>
      var hasFlavors :- Yaml.In("flavors", config);
      if !hasFlavors then
        Err(DeckzError("Mandatory dictionary `flavors` not found in " + Paths.ToString(configPath) + "."))
      else
        var flavors :- Yaml.Index(config, "flavors");
        var known :- Yaml.Member(flavorName, flavors);
        if !known then Err(DeckzError(UnknownFlavorMessage(flavorName, flavors, configPath)))
        else
          var flavor :- Yaml.Subscript(flavors, flavorName);
          var defaultTitles := match Yaml.Get(config, "default_titles") case None => Yaml.Null case Some(d) => d;
          Ok((title, flavor, defaultTitles))
  }

  /** A directory section that asks for no flavor is refused with
      `DeckzException` once its title is known, whatever its file holds. */
  lemma NoFlavorRefused(fs: Yaml.FileSystem, sectionDir: Paths.Path, custom: Config)
    requires Dicts.Get(custom, "flavor").None?
    ensures SectionHeader(fs, sectionDir, custom).Err?
    ensures var loaded := Yaml.Load(fs, SectionConfigPath(sectionDir));
            loaded.Ok? && HeaderTitle(loaded.value, custom).Ok? ==>
              SectionHeader(fs, sectionDir, custom)
              == Err(DeckzError("Mandatory flavor not specified in " + Paths.Name(sectionDir)
                                + " configuration of targets.yml."))
  {
  }

  /** An empty section file (`None`) with a titled target that names no
      flavor: the title needs no lookup, `"flavor" in custom_config`
      fails first, and the result is that `DeckzException`. */
  lemma NullConfigNeedsFlavor(fs: Yaml.FileSystem, sectionDir: Paths.Path)
    requires Yaml.Load(fs, SectionConfigPath(sectionDir)) == Ok(Yaml.Null)
    ensures SectionHeader(fs, sectionDir, [("title", Yaml.Str("T"))])
         == Err(DeckzError("Mandatory flavor not specified in " + Paths.Name(sectionDir)
                           + " configuration of targets.yml."))
  {
    assert Dicts.Get([("title", Yaml.Str("T"))], "flavor").None?;
  }

  /** A section file holding a string or a list without the word: with a
      title and a flavor in the target, `"flavors" in section_config` is
      false and the result is the `flavors` `DeckzException`. */
  lemma NoFlavorsKey(fs: Yaml.FileSystem, sectionDir: Paths.Path, config: Yaml.Value)
    requires config == Yaml.Str("abc") || config == Yaml.List([Yaml.Str("a")])
    requires Yaml.Load(fs, SectionConfigPath(sectionDir)) == Ok(config)
    ensures SectionHeader(fs, sectionDir, [("title", Yaml.Str("T")), ("flavor", Yaml.Str("f"))])
         == Err(DeckzError("Mandatory dictionary `flavors` not found in "
                           + Paths.ToString(SectionConfigPath(sectionDir)) + "."))
  {
    var custom := [("title", Yaml.Str("T")), ("flavor", Yaml.Str("f"))];
    assert Dicts.Get(custom, "flavor") == Some(Yaml.Str("f"));
    if config.List? {
      assert Yaml.Str("flavors") != Yaml.Str("a");
    }
  }

  /** `flavors` given as a list: membership compares the items, so a
      flavor that is not among them is the "not amongst available
      flavors" `DeckzException`, not a type error. */
  lemma ListFlavorsUnknown(fs: Yaml.FileSystem, sectionDir: Paths.Path)
    requires Yaml.Load(fs, SectionConfigPath(sectionDir))
          == Ok(Yaml.Map([("flavors", Yaml.List([Yaml.Str("a"), Yaml.Str("b")]))]))
    ensures var r := SectionHeader(fs, sectionDir, [("title", Yaml.Str("T")), ("flavor", Yaml.Str("c"))]);
            r.Err? && r.error.DeckzError?
  {
    var custom := [("title", Yaml.Str("T")), ("flavor", Yaml.Str("c"))];
    assert Dicts.Get(custom, "flavor") == Some(Yaml.Str("c"));
    var flavors := Yaml.List([Yaml.Str("a"), Yaml.Str("b")]);
    assert [("flavors", flavors)][0].0 == "flavors";
    assert "flavors" in Dicts.Keys([("flavors", flavors)]);
    assert Yaml.Index(Yaml.Map([("flavors", flavors)]), "flavors") == Ok(flavors);
    assert !Yaml.PyEq(flavors.items[0], Yaml.Str("c")) && !Yaml.PyEq(flavors.items[1], Yaml.Str("c"));
  }

  /** A flavor name that is a list, looked up among mapping flavors, is
      unhashable: Python's `in` raises `TypeError`. */
  lemma UnhashableFlavorName(fs: Yaml.FileSystem, sectionDir: Paths.Path)
    requires Yaml.Load(fs, SectionConfigPath(sectionDir))
          == Ok(Yaml.Map([("flavors", Yaml.Map([("a", Yaml.List([]))]))]))
    ensures SectionHeader(fs, sectionDir, [("title", Yaml.Str("T")), ("flavor", Yaml.List([]))])
         == Err(TypeError("unhashable type: 'list'"))
  {
    var custom := [("title", Yaml.Str("T")), ("flavor", Yaml.List([]))];
    assert Dicts.Get(custom, "flavor") == Some(Yaml.List([]));
    var config := [("flavors", Yaml.Map([("a", Yaml.List([]))]))];
    assert config[0].0 == "flavors";
    assert "flavors" in Dicts.Keys(config);
    assert Yaml.In("flavors", Yaml.Map(config)) == Ok(true);
  }

  /** `_parse_section_dir`: the section and its dependencies, the inputs
      appended entry after entry. */
  method ParseSectionDir(fs: Yaml.FileSystem, sharedLatexDir: Paths.Path, sectionDir: Paths.Path,
                         latexDir: Paths.Path, custom: Config)
    returns (r: Result<(Section, Deps)>)
    ensures r == SectionDirOf(fs, sharedLatexDir, sectionDir, latexDir, custom)
  {
    var header := SectionHeader(fs, sectionDir, custom);
    if header.Err? {
      return Err(header.error);
    }
    var (title, flavor, defaultTitles) := header.value;
    var entries := Yaml.Iterate(flavor);
    if entries.Err? {
      return Err(entries.error);
    }
    var items := entries.value;
    var excludes := Dicts.Get(custom, "excludes");
    ghost var f := ProcessIn(fs, sharedLatexDir, sectionDir, latexDir, excludes, defaultTitles);
    ghost var os: seq<Outcome> := [];
    var inputs: seq<(string, Yaml.Value)> := [];
    var deps := NoDeps;
    var i := 0;
    while i < |items|
      invariant i <= |items|
      invariant MapAll(items[..i], f) == Ok(os)
      invariant inputs == InputsOf(os) && deps == DepsOf(os)
    {
      MapAllStep(items, i, f);
      var o := ProcessItem(fs, sharedLatexDir, sectionDir, latexDir, excludes, defaultTitles, items[i]);
      if o.Err? {
        MapAllPrefixErr(items, i + 1, f);
        return Err(o.error);
      }
      OutcomeStep(os, o.value);
      match o.value {
        case Skipped =>
        case Input(name, t, file) =>
          inputs := inputs + [(name, t)];
          deps := Deps(deps.used + {file}, deps.missing, deps.unused);
        case MissingFile(filename) =>
          deps := Deps(deps.used, deps.missing + {filename}, deps.unused);
      }
      os := os + [o.value];
      i := i + 1;
    }
    assert items[..i] == items;
    r := Ok((Section(title, inputs), deps));
  }

  /** One more outcome: an input is listed and its file used, a missing
      file is missing, a skipped item changes nothing. */
  lemma OutcomeStep(os: seq<Outcome>, o: Outcome)
    ensures InputsOf(os + [o]) == InputsOf(os) + (if o.Input? then [(o.name, o.title)] else [])
    ensures DepsOf(os + [o]) == match o
              case Skipped => DepsOf(os)
              case Input(_, _, file) => Deps(DepsOf(os).used + {file}, DepsOf(os).missing, DepsOf(os).unused)
              case MissingFile(name) => Deps(DepsOf(os).used, DepsOf(os).missing + {name}, DepsOf(os).unused)
  {
    assert (os + [o])[..|os|] == os;
  }

  /** What `_parse_section_dir` returns. */
  function SectionDirOf(fs: Yaml.FileSystem, sharedLatexDir: Paths.Path, sectionDir: Paths.Path,
                        latexDir: Paths.Path, custom: Config)
    : (r: Result<(Section, Deps)>)
    ensures r.Ok? ==> SectionHeader(fs, sectionDir, custom).Ok? && r.value.1.unused == {}
  {
    var (title, flavor, defaultTitles) :- SectionHeader(fs, sectionDir, custom);
    var items :- Yaml.Iterate(flavor);
    var os :- MapAll(items, ProcessIn(fs, sharedLatexDir, sectionDir, latexDir, Dicts.Get(custom, "excludes"), defaultTitles));
    OutcomesSpec(os, Paths.Path(false, []), "");
    Ok((Section(title, InputsOf(os)), DepsOf(os)))
  }

  /** `_parse_section_file`: a section that is one `.tex` file, listed by
      its path relative to the latex directory without its suffix; its
      title is the target's, else that of the `.yml` beside it, else none;
      the file is its only dependency, used. */
  function ParseSectionFile(fs: Yaml.FileSystem, sectionFile: Paths.Path, latexDir: Paths.Path, config: Config)
    : (r: Result<(Section, Deps)>)
    ensures r.Ok? ==> |r.value.0.inputs| == 1 && r.value.0.inputs[0].1 == Yaml.Null
    ensures r.Ok? ==> r.value.1 == Deps({sectionFile}, {}, {})
    ensures r.Ok? && Dicts.Get(config, "title").Some? ==> r.value.0.title == Dicts.Get(config, "title").value
    ensures r.Ok? ==> Paths.RelativeTo(sectionFile, latexDir).Some?
    ensures (r.Ok? && Dicts.Get(config, "title").None? && Paths.WithSuffix(sectionFile, ".yml").Ok?
             && Paths.WithSuffix(sectionFile, ".yml").value.parts !in fs) ==> r.value.0.title == Yaml.Null
  {
    var configFile :- Paths.WithSuffix(sectionFile, ".yml");
    var title :- match Dicts.Get(config, "title")
                 case Some(t) => Ok(t)
                 case None =>
                   if configFile.parts !in fs then Ok(Yaml.Null)
                   else
                     var document :- Yaml.Load(fs, configFile);
                     if !document.Map? then Err(TypeError("the section configuration is not a mapping"))
                     else (match Dicts.Get(document.entries, "title")
                           case None => Err(KeyError("title"))
                           case Some(t) => Ok(t));
    match Paths.RelativeTo(sectionFile, latexDir)
    case None => Err(ValueError("the section file is not in the latex directory"))
    case Some(relative) =>
      var bare :- Paths.WithSuffix(relative, "");
      Ok((Section(title, [(Paths.ToString(bare), Yaml.Null)]), Deps({sectionFile}, {}, {})))
  }

  // ------------------------------------------------------------- targets

  /** The directories of a repository. */
  datatype Dirs = Dirs(workingDir: Paths.Path, sharedLatexDir: Paths.Path)

  /** One entry of `sections`: a bare value is `{"path": value}`; the
      section found for its path, with its dependencies, or no section and
      the path missing. */
  function SectionOf(fs: Yaml.FileSystem, dirs: Dirs, localLatexDir: Paths.Path, entry: Yaml.Value)
    : (r: Result<(Option<Section>, Deps)>)
    ensures r.Ok? ==> r.value.1.unused == {}
    ensures r.Ok? && r.value.0.None? ==>
              var config := if entry.Map? then entry.entries else [("path", entry)];
              Dicts.Get(config, "path").Some? && Dicts.Get(config, "path").value.Str? &&
              var path := Dicts.Get(config, "path").value.s;
              Locate(fs, localLatexDir, dirs.sharedLatexDir, path).NotFound? && r.value.1 == Deps({}, {path}, {})
  {
    var config := if entry.Map? then entry.entries else [("path", entry)];
    match Dicts.Get(config, "path")
    case None => Err(KeyError("path"))
    case Some(p) =>
      if !p.Str? then Err(TypeError("unsupported operand type(s) for /"))
      else
        match Locate(fs, localLatexDir, dirs.sharedLatexDir, p.s)
        case LocalDir(d) =>
          var (s, deps) :- SectionDirOf(fs, dirs.sharedLatexDir, d, localLatexDir, config);
          Ok((Some(s), deps))
        case LocalFile(f) =>
          var (s, deps) :- ParseSectionFile(fs, f, localLatexDir, config);
          Ok((Some(s), deps))
        case SharedDir(d) =>
          var (s, deps) :- SectionDirOf(fs, dirs.sharedLatexDir, d, dirs.sharedLatexDir, config);
          Ok((Some(s), deps))
        case SharedFile(f) =>
          var (s, deps) :- ParseSectionFile(fs, f, dirs.sharedLatexDir, config);
          Ok((Some(s), deps))
        case NotFound => Ok((None, Deps({}, {p.s}, {})))
  }

  function SectionIn(fs: Yaml.FileSystem, dirs: Dirs, localLatexDir: Paths.Path)
    : Yaml.Value -> Result<(Option<Section>, Deps)>
  {
    entry => SectionOf(fs, dirs, localLatexDir, entry)
  }

  /** The dependencies of each section. */
  function DepsColumn(results: seq<(Option<Section>, Deps)>): (r: seq<Deps>)
    ensures |r| == |results| && forall i :: 0 <= i < |r| ==> r[i] == results[i].1
  {
    seq(|results|, i requires 0 <= i < |results| => results[i].1)
  }

  /** The sections appended: a section not found appends the section
      variable left by the previous round. */
  function Appended(results: seq<(Option<Section>, Deps)>): (r: seq<Section>)
    requires |results| > 0 ==> results[0].0.Some?
    ensures |r| == |results|
    ensures forall i :: 0 <= i < |results| && results[i].0.Some? ==> r[i] == results[i].0.value
  {
    if |results| == 0 then []
    else
      var init := Appended(results[..|results| - 1]);
      match results[|results| - 1].0
      case Some(s) => init + [s]
      case None => init + [init[|init| - 1]]
  }

  /** A built `Target`. */
  datatype Target = Target(name: string, title: Yaml.Value, dependencies: Deps, sections: seq<Section>)

  /** `working_dir / name`. */
  function LocalLatexDir(dirs: Dirs, name: string): Paths.Path {
    Paths.Concat(dirs.workingDir, Paths.FromString(name))
  }

  /** The name, the title and the section entries of a target's data. */
  function Header(data: Yaml.Value): Result<(string, Yaml.Value, seq<Yaml.Value>)> {
    if !data.Map? then Err(TypeError("a target is not a mapping"))
    else
      var name :- (match Dicts.Get(data.entries, "name") case None => Err(KeyError("name")) case Some(n) => Ok(n));
      if !name.Str? then Err(TypeError("unsupported operand type(s) for /"))
      else
        var title :- (match Dicts.Get(data.entries, "title") case None => Err(KeyError("title")) case Some(t) => Ok(t));
        var sections :- (match Dicts.Get(data.entries, "sections") case None => Err(KeyError("sections")) case Some(s) => Ok(s));
        var entries :- Yaml.Iterate(sections);
        Ok((name.s, title, entries))
  }

  /** The dependencies a target starts with: every local `.tex` file, unused. */
  function Start(fs: Yaml.FileSystem, dirs: Dirs, name: string): Deps {
    Deps({}, {}, Yaml.TexBelow(fs, LocalLatexDir(dirs, name)))
  }

  /** The target a `targets.yml` entry describes. */
  function TargetOf(fs: Yaml.FileSystem, dirs: Dirs, data: Yaml.Value): (r: Result<Target>)
    ensures r.Ok? ==> Header(data).Ok? && r.value.name == Header(data).value.0 && r.value.title == Header(data).value.1
  {
    var (name, title, entries) :- Header(data);
    SectionsOf(fs, dirs, name, title, entries)
  }

  /** What parses one entry of `sections`. */
  type EntryParser = Yaml.Value -> Result<(Option<Section>, Deps)>

  /** A target from its name, its title and its section entries: its
      dependencies and its sections. */
  function SectionsOf(fs: Yaml.FileSystem, dirs: Dirs, name: string, title: Yaml.Value, entries: seq<Yaml.Value>)
    : (r: Result<Target>)
    ensures r.Ok? ==> r.value.name == name && r.value.title == title && |r.value.sections| == |entries|
  {
    SectionsWith(SectionIn(fs, dirs, LocalLatexDir(dirs, name)), Start(fs, dirs, name), name, title, entries)
  }

  /** The sections parsed by `f` from the dependencies `start`.  A first
      section that is not found reads the section variable before it was
      ever assigned. */
  function SectionsWith(f: EntryParser, start: Deps, name: string, title: Yaml.Value, entries: seq<Yaml.Value>)
    : (r: Result<Target>)
    ensures r.Ok? ==> r.value.name == name && r.value.title == title && |r.value.sections| == |entries|
  {
    if |entries| > 0 && f(entries[0]).Ok? && f(entries[0]).value.0.None? then Err(UnboundLocalError("section"))
    else
      var results :- MapAll(entries, f);
      MapAllHead(entries, f);
      Ok(Target(name, title, Accumulated(start, DepsColumn(results)), Appended(results)))
  }

  /** The dependencies of a built target: it uses and misses what its
      sections use and miss, and leaves unused the local `.tex` files that
      no section but the last one uses. */
  lemma TargetDependencies(fs: Yaml.FileSystem, dirs: Dirs, name: string, title: Yaml.Value, entries: seq<Yaml.Value>,
                           p: Paths.Path, m: string)
    requires SectionsOf(fs, dirs, name, title, entries).Ok?
    ensures var f := SectionIn(fs, dirs, LocalLatexDir(dirs, name));
            && MapAll(entries, f).Ok?
            && var sections := DepsColumn(MapAll(entries, f).value);
               var deps := SectionsOf(fs, dirs, name, title, entries).value.dependencies;
               && (p in deps.used <==> exists i :: 0 <= i < |sections| && p in sections[i].used)
               && (m in deps.missing <==> exists i :: 0 <= i < |sections| && m in sections[i].missing)
               && (p in deps.unused <==>
                     p in Yaml.TexBelow(fs, LocalLatexDir(dirs, name)) && forall i :: 0 <= i < |sections| - 1 ==> p !in sections[i].used)
  {
    var f := SectionIn(fs, dirs, LocalLatexDir(dirs, name));
    var results := MapAll(entries, f).value;
    var column := DepsColumn(results);
    SectionsLeaveNothingUnused(fs, dirs, LocalLatexDir(dirs, name), entries);
    assert SectionsOf(fs, dirs, name, title, entries).value.dependencies == Accumulated(Start(fs, dirs, name), column);
    AccumulatedSpec(Start(fs, dirs, name), column, p, m);
  }

  /** No section leaves anything unused. */
  lemma SectionsLeaveNothingUnused(fs: Yaml.FileSystem, dirs: Dirs, localLatexDir: Paths.Path, entries: seq<Yaml.Value>)
    requires MapAll(entries, SectionIn(fs, dirs, localLatexDir)).Ok?
    ensures var column := DepsColumn(MapAll(entries, SectionIn(fs, dirs, localLatexDir)).value);
            forall i :: 0 <= i < |column| ==> column[i].unused == {}
  {
    var f := SectionIn(fs, dirs, localLatexDir);
    var results := MapAll(entries, f).value;
    MapAllEach(entries, f);
    forall i | 0 <= i < |results| ensures results[i].1.unused == {} {
      assert f(entries[i]) == Ok(results[i]);
    }
  }

  /** One round of the loop of `Target.__init__`: the section found for
      an entry of `sections`, with its dependencies. */
  method ParseSection(fs: Yaml.FileSystem, dirs: Dirs, localLatexDir: Paths.Path, entry: Yaml.Value)
    returns (r: Result<(Option<Section>, Deps)>)
    ensures r == SectionOf(fs, dirs, localLatexDir, entry)
  {
    var config := if entry.Map? then entry.entries else [("path", entry)];
    var path := Dicts.Get(config, "path");
    if path.None? {
      return Err(KeyError("path"));
    }
    if !path.value.Str? {
      return Err(TypeError("unsupported operand type(s) for /"));
    }
    var found := Locate(fs, localLatexDir, dirs.sharedLatexDir, path.value.s);
    var parsed: Result<(Section, Deps)>;
    match found {
      case LocalDir(d) => parsed := ParseSectionDir(fs, dirs.sharedLatexDir, d, localLatexDir, config);
      case LocalFile(f) => parsed := ParseSectionFile(fs, f, localLatexDir, config);
      case SharedDir(d) => parsed := ParseSectionDir(fs, dirs.sharedLatexDir, d, dirs.sharedLatexDir, config);
      case SharedFile(f) => parsed := ParseSectionFile(fs, f, dirs.sharedLatexDir, config);
      case NotFound => return Ok((None, Deps({}, {path.value.s}, {})));
    }
    if parsed.Err? {
      return Err(parsed.error);
    }
    r := Ok((Some(parsed.value.0), parsed.value.1));
  }

  /** `Target(data, paths)`. */
  method BuildTarget(fs: Yaml.FileSystem, dirs: Dirs, data: Yaml.Value) returns (r: Result<Target>)
    ensures r == TargetOf(fs, dirs, data)
  {
    var header := Header(data);
    if header.Err? {
      return Err(header.error);
    }
    var (name, title, entries) := header.value;
    r := ParseSections(fs, dirs, name, title, entries);
  }

  /** The state of the loop of `Target.__init__` once the entries before
      `|results|` are parsed by `f` into `results`: the dependencies merged
      into `start` so far, the sections appended so far, and the section
      variable, unset only before the first round. */
  predicate Progress(f: EntryParser, start: Deps, entries: seq<Yaml.Value>,
                     results: seq<(Option<Section>, Deps)>, dependencies: Deps, sections: seq<Section>,
                     section: Option<Section>)
  {
    && |results| <= |entries|
    && MapAll(entries[..|results|], f) == Ok(results)
    && (|results| > 0 ==> results[0].0.Some?)
    && dependencies == Accumulated(start, DepsColumn(results))
    && sections == Appended(results)
    && (section.None? <==> |results| == 0)
    && (section.Some? ==> section.value == sections[|sections| - 1])
  }

  /** One round of the loop keeps its state. */
  lemma ProgressStep(f: EntryParser, start: Deps, entries: seq<Yaml.Value>,
                     results: seq<(Option<Section>, Deps)>, dependencies: Deps, sections: seq<Section>,
                     section: Option<Section>, x: (Option<Section>, Deps))
    requires Progress(f, start, entries, results, dependencies, sections, section)
    requires |results| < |entries| && f(entries[|results|]) == Ok(x)
    requires x.0.Some? || section.Some?
    ensures var next := if x.0.Some? then x.0 else section;
            Progress(f, start, entries, results + [x], Merged([dependencies, x.1]), sections + [next.value], next)
  {
    MapAllStep(entries, |results|, f);
    AccumulatedStep(start, results, x);
    AppendedStep(results, x);
  }

  /** The loop of `Target.__init__`: the sections are parsed in order,
      each one's dependencies merged into the target's. */
  method ParseSections(fs: Yaml.FileSystem, dirs: Dirs, name: string, title: Yaml.Value, entries: seq<Yaml.Value>)
    returns (r: Result<Target>)
    ensures r == SectionsOf(fs, dirs, name, title, entries)
  {
    var localLatexDir := LocalLatexDir(dirs, name);
    ghost var f := SectionIn(fs, dirs, localLatexDir);
    ghost var start := Start(fs, dirs, name);
    ghost var results: seq<(Option<Section>, Deps)> := [];
    var dependencies := Start(fs, dirs, name);
    var sections: seq<Section> := [];
    var section: Option<Section> := None;
    var i := 0;
    while i < |entries|
      invariant |results| == i
      invariant Progress(f, start, entries, results, dependencies, sections, section)
    {
      var parsed := ParseSection(fs, dirs, localLatexDir, entries[i]);
      assert f(entries[i]) == parsed;
      if parsed.Err? {
        SectionsWithErr(f, start, name, title, entries, results, dependencies, sections, section);
        return Err(parsed.error);
      }
      var (found, deps) := parsed.value;
      if found.None? && section.None? {
        SectionsWithUnbound(f, start, name, title, entries, results, dependencies, sections, section);
        return Err(UnboundLocalError("section"));
      }
      ProgressStep(f, start, entries, results, dependencies, sections, section, parsed.value);
      if found.Some? {
        section := found;
      }
      dependencies := Merge([dependencies, deps]);
      sections := sections + [section.value];
      results := results + [parsed.value];
      i := i + 1;
    }
    SectionsWithOk(f, start, name, title, entries, results, dependencies, sections, section);
    r := Ok(Target(name, title, dependencies, sections));
  }

  /** A failing entry, after entries that succeed with a first section
      found, is the failure of the target. */
  lemma SectionsWithErr(f: EntryParser, start: Deps, name: string, title: Yaml.Value, entries: seq<Yaml.Value>,
                        results: seq<(Option<Section>, Deps)>, dependencies: Deps, sections: seq<Section>,
                        section: Option<Section>)
    requires Progress(f, start, entries, results, dependencies, sections, section)
    requires |results| < |entries| && f(entries[|results|]).Err?
    ensures SectionsWith(f, start, name, title, entries) == Err(f(entries[|results|]).error)
  {
    var i := |results|;
    MapAllStep(entries, i, f);
    MapAllPrefixErr(entries, i + 1, f);
    if i > 0 {
      MapAllEach(entries[..i], f);
      assert entries[..i][0] == entries[0];
    }
  }

  /** A first entry whose section is not found fails the target. */
  lemma SectionsWithUnbound(f: EntryParser, start: Deps, name: string, title: Yaml.Value, entries: seq<Yaml.Value>,
                            results: seq<(Option<Section>, Deps)>, dependencies: Deps, sections: seq<Section>,
                            section: Option<Section>)
    requires Progress(f, start, entries, results, dependencies, sections, section)
    requires |results| < |entries| && section.None?
    requires f(entries[|results|]).Ok? && f(entries[|results|]).value.0.None?
    ensures SectionsWith(f, start, name, title, entries) == Err(UnboundLocalError("section"))
  {
    assert |results| == 0;
  }

  /** Entries that all succeed, with a first section found, build the target. */
  lemma SectionsWithOk(f: EntryParser, start: Deps, name: string, title: Yaml.Value, entries: seq<Yaml.Value>,
                       results: seq<(Option<Section>, Deps)>, dependencies: Deps, sections: seq<Section>,
                       section: Option<Section>)
    requires Progress(f, start, entries, results, dependencies, sections, section)
    requires |results| == |entries|
    ensures SectionsWith(f, start, name, title, entries) == Ok(Target(name, title, dependencies, sections))
  {
    assert entries[..|entries|] == entries;
    MapAllHead(entries, f);
  }

  /** One more section merged into the accumulated dependencies. */
  lemma AccumulatedStep(start: Deps, results: seq<(Option<Section>, Deps)>, x: (Option<Section>, Deps))
    ensures Accumulated(start, DepsColumn(results + [x])) == Merged([Accumulated(start, DepsColumn(results)), x.1])
  {
    assert DepsColumn(results + [x])[..|results|] == DepsColumn(results);
  }

  /** One more section appended. */
  lemma AppendedStep(results: seq<(Option<Section>, Deps)>, x: (Option<Section>, Deps))
    requires |results| > 0 ==> results[0].0.Some?
    requires |results| == 0 ==> x.0.Some?
    ensures var r := Appended(results);
            Appended(results + [x]) == r + [if x.0.Some? then x.0.value else r[|r| - 1]]
  {
    assert (results + [x])[..|results|] == results;
  }

  /** `TargetOf` as a function value. */
  function TargetIn(fs: Yaml.FileSystem, dirs: Dirs): Yaml.Value -> Result<Target> {
    data => TargetOf(fs, dirs, data)
  }

  /** The targets `targets.yml` describes, all built. */
  function Built(fs: Yaml.FileSystem, dirs: Dirs, targetsFile: Paths.Path): Result<seq<Target>> {
    var document :- Yaml.Load(fs, targetsFile);
    var entries :- Yaml.Iterate(document);
    MapAll(entries, TargetIn(fs, dirs))
  }

  /** The targets whose name is whitelisted, in their order; all of them
      when the whitelist is empty. */
  function Whitelisted(targets: seq<Target>, whiteset: set<string>): (r: seq<Target>)
    ensures whiteset == {} ==> r == targets
    ensures whiteset != {} ==> forall t :: t in r <==> t in targets && t.name in whiteset
    ensures |r| <= |targets|
  {
    if |targets| == 0 then []
    else
      var rest := Whitelisted(targets[1..], whiteset);
      assert forall t :: t in targets <==> t == targets[0] || t in targets[1..];
      if whiteset == {} || targets[0].name in whiteset then [targets[0]] + rest else rest
  }

  /** Some target has a missing dependency. */
  predicate HasMissing(targets: seq<Target>) {
    exists i :: 0 <= i < |targets| && targets[i].dependencies.missing != {}
  }

  /** Every whitelisted name is the name of some target. */
  predicate Matched(targets: seq<Target>, whitelist: seq<string>) {
    forall n :: n in whitelist ==> exists i :: 0 <= i < |targets| && targets[i].name == n
  }

  /** The checks made on the built targets: a missing dependency in any
      of them, or a whitelisted name that matches no target, is an error;
      else the whitelisted targets are kept in order. */
  function Checked(targets: seq<Target>, whitelist: seq<string>): (r: Result<seq<Target>>)
    ensures r.Err? <==> HasMissing(targets) || !Matched(targets, whitelist)
    ensures r.Ok? ==> r.value == Whitelisted(targets, set n | n in whitelist)
    ensures r.Ok? ==> forall i :: 0 <= i < |r.value| ==> r.value[i].dependencies.missing == {}
  {
    if HasMissing(targets) then Err(DeckzError("Could not find the following dependencies"))
    else if !Matched(targets, whitelist) then Err(DeckzError("Could not find the following targets"))
    else
      var kept := Whitelisted(targets, set n | n in whitelist);
      WhitelistedFrom(targets, set n | n in whitelist);
      Ok(kept)
  }

  /** `Targets(paths, fail_on_missing, whitelist)`.  A missing
      `targets.yml` is an error when `fail_on_missing` holds; otherwise
      the file is opened all the same and that fails.  Then every target
      is built and the built targets are checked. */
  function TargetsOf(fs: Yaml.FileSystem, dirs: Dirs, targetsFile: Paths.Path, failOnMissing: bool,
                     whitelist: seq<string>)
    : (r: Result<seq<Target>>)
    ensures targetsFile.parts in fs && Built(fs, dirs, targetsFile).Ok? ==>
              r == Checked(Built(fs, dirs, targetsFile).value, whitelist)
    ensures r.Ok? ==> forall i :: 0 <= i < |r.value| ==> r.value[i].dependencies.missing == {}
  {
    if targetsFile.parts !in fs && failOnMissing then
      Err(DeckzError("Could not find " + Paths.ToString(targetsFile) + "."))
    else
      var targets :- Built(fs, dirs, targetsFile);
      Checked(targets, whitelist)
  }

  /** A missing `targets.yml` is an error either way. */
  lemma TargetsFileMissing(fs: Yaml.FileSystem, dirs: Dirs, targetsFile: Paths.Path, failOnMissing: bool,
                           whitelist: seq<string>)
    requires targetsFile.parts !in fs
    ensures failOnMissing ==>
              (TargetsOf(fs, dirs, targetsFile, failOnMissing, whitelist).Err?
               && TargetsOf(fs, dirs, targetsFile, failOnMissing, whitelist).error.DeckzError?)
    ensures !failOnMissing ==> TargetsOf(fs, dirs, targetsFile, failOnMissing, whitelist)
                               == Err(FileNotFoundError(Paths.ToString(targetsFile)))
  {
  }

  /** The kept targets are among the built ones. */
  lemma {:induction false} WhitelistedFrom(targets: seq<Target>, whiteset: set<string>)
    ensures forall t :: t in Whitelisted(targets, whiteset) ==> t in targets
  {
    if |targets| > 0 {
      WhitelistedFrom(targets[1..], whiteset);
    }
  }
}
