/** The target parser of `deckz/parsing/targets.py`: dependency
    bookkeeping, section configurations, how a target's sections are found
    and walked (nested sections included), how targets are merged, and the
    checks made when the targets of a deck are built.

    Section nesting is bounded by a `depth` parameter, standing for
    Python's recursion limit. */
module ParsingTargets {
  import opened Common
  import opened Strings
  import Dicts
  import Paths
  import Yaml
  import Decks

  // --------------------------------------------------------- dependencies

  /** The three sets of a `Dependencies`, as a value. */
  datatype Deps = Deps(used: set<Paths.Path>, missing: set<string>, unused: set<Paths.Path>)

  const NoDeps := Deps({}, {}, {})

  /** No path is both used and unused. */
  predicate Disjoint(d: Deps) {
    d.used !! d.unused
  }

  /** `a.update(b)` on values: `used` and `missing` grow by union; `unused`
      gains the paths `b` leaves unused that are not used now, then loses
      the paths `b` uses. */
  function Updated(a: Deps, b: Deps): (r: Deps)
    ensures r.used == a.used + b.used && r.missing == a.missing + b.missing
    ensures r.unused <= a.unused + b.unused
    ensures forall p :: p in r.unused && p !in a.unused ==> p !in a.used && p in b.unused
    ensures Disjoint(a) ==> Disjoint(r)
  {
    var used := a.used + b.used;
    Deps(used, a.missing + b.missing, (a.unused + (b.unused - used)) - b.used)
  }

  /** `merge(*ds)` on values: `update` folded over `ds` from no
      dependencies. */
  function MergeValues(ds: seq<Deps>): (r: Deps)
    ensures Disjoint(r)
  {
    if |ds| == 0 then NoDeps else Updated(MergeValues(ds[..|ds| - 1]), ds[|ds| - 1])
  }

  /** A merge uses what some input uses, misses what some input misses,
      and leaves unused exactly what some input leaves unused and no input
      uses. */
  lemma {:induction false} MergeValuesSpec(ds: seq<Deps>, p: Paths.Path, m: string)
    ensures p in MergeValues(ds).used <==> exists i :: 0 <= i < |ds| && p in ds[i].used
    ensures m in MergeValues(ds).missing <==> exists i :: 0 <= i < |ds| && m in ds[i].missing
    ensures p in MergeValues(ds).unused <==>
              (exists i :: 0 <= i < |ds| && p in ds[i].unused) && !(exists i :: 0 <= i < |ds| && p in ds[i].used)
  {
    if |ds| > 0 {
      var init := ds[..|ds| - 1];
      MergeValuesSpec(init, p, m);
      assert forall i :: 0 <= i < |init| ==> init[i] == ds[i];
      if exists i :: 0 <= i < |ds| && p in ds[i].used {
        var i :| 0 <= i < |ds| && p in ds[i].used;
        if i < |init| {
          assert p in init[i].used;
        }
      }
      if exists i :: 0 <= i < |ds| && m in ds[i].missing {
        var i :| 0 <= i < |ds| && m in ds[i].missing;
        if i < |init| {
          assert m in init[i].missing;
        }
      }
      if exists i :: 0 <= i < |ds| && p in ds[i].unused {
        var i :| 0 <= i < |ds| && p in ds[i].unused;
        if i < |init| {
          assert p in init[i].unused;
        }
      }
    }
  }

  /** `Dependencies`. */
  class Dependencies {
    var used: set<Paths.Path>
    var missing: set<string>
    var unused: set<Paths.Path>

    function Value(): Deps
      reads this
    {
      Deps(used, missing, unused)
    }

    constructor()
      ensures Value() == NoDeps
    {
      used, missing, unused := {}, {}, {};
    }

    /** `update`, which also works when `other` is this object. */
    method Update(other: Dependencies)
      modifies this
      ensures Value() == Updated(old(Value()), old(other.Value()))
    {
      used := used + other.used;
      missing := missing + other.missing;
      unused := unused + (other.unused - used);
      unused := unused - other.used;
    }

    /** `merge`: a new object holding the merge of the values of `ds`. */
    static method Merge(ds: seq<Dependencies>) returns (r: Dependencies)
      ensures fresh(r) && r.Value() == MergeValues(Values(ds))
    {
      ghost var values := Values(ds);
      r := new Dependencies();
      var i := 0;
      while i < |ds|
        invariant i <= |ds|
        invariant forall j :: 0 <= j < |ds| ==> ds[j].Value() == values[j]
        invariant r.Value() == MergeValues(values[..i])
      {
        var d := ds[i];
        assert values[..i + 1][..i] == values[..i];
        r.used := r.used + d.used;
        r.missing := r.missing + d.missing;
        r.unused := r.unused + (d.unused - r.used);
        r.unused := r.unused - d.used;
        i := i + 1;
      }
      assert values[..i] == values;
    }
  }

  /** The values of a sequence of objects. */
  function Values(ds: seq<Dependencies>): (r: seq<Deps>)
    reads set i | 0 <= i < |ds| :: ds[i]
    ensures |r| == |ds| && forall i :: 0 <= i < |ds| ==> r[i] == ds[i].Value()
  {
    seq(|ds|, i requires 0 <= i < |ds| reads set j | 0 <= j < |ds| :: ds[j] => ds[i].Value())
  }

  /** `(d[key] for d in dicts if key in d)`. */
  function Column(dicts: seq<map<string, Deps>>, key: string): (r: seq<Deps>)
    ensures forall v :: v in r <==> exists i :: 0 <= i < |dicts| && key in dicts[i] && dicts[i][key] == v
  {
    if |dicts| == 0 then []
    else
      var rest := Column(dicts[1..], key);
      assert forall i :: 1 <= i < |dicts| ==> dicts[i] == dicts[1..][i - 1];
      if key in dicts[0] then [dicts[0][key]] + rest else rest
  }

  /** `merge_dicts`: one merged value per key of some input, merging that
      key's values in input order; with no input at all, `set.union()`
      fails. */
  function MergeDicts(dicts: seq<map<string, Deps>>): (r: Result<map<string, Deps>>)
    ensures r.Ok? <==> |dicts| > 0
    ensures r.Ok? ==> forall k :: k in r.value <==> exists i :: 0 <= i < |dicts| && k in dicts[i]
    ensures r.Ok? ==> forall k :: k in r.value ==> r.value[k] == MergeValues(Column(dicts, k))
  {
    if |dicts| == 0 then Err(TypeError("descriptor 'union' of 'set' object needs an argument"))
    else
      var keys := set i, k | 0 <= i < |dicts| && k in dicts[i] :: k;
      Ok(map k | k in keys :: MergeValues(Column(dicts, k)))
  }

  /** A merged key uses, misses and leaves unused what the merge of the
      inputs holding that key does. */
  lemma MergeDictsGet(dicts: seq<map<string, Deps>>, k: string, p: Paths.Path, m: string)
    requires MergeDicts(dicts).Ok? && k in MergeDicts(dicts).value
    ensures var d := MergeDicts(dicts).value[k];
            && Disjoint(d)
            && (p in d.used <==> exists i :: 0 <= i < |dicts| && k in dicts[i] && p in dicts[i][k].used)
            && (m in d.missing <==> exists i :: 0 <= i < |dicts| && k in dicts[i] && m in dicts[i][k].missing)
  {
    var column := Column(dicts, k);
    MergeValuesSpec(column, p, m);
    if exists j :: 0 <= j < |column| && p in column[j].used {
      var j :| 0 <= j < |column| && p in column[j].used;
      assert column[j] in column;
    }
    if exists j :: 0 <= j < |column| && m in column[j].missing {
      var j :| 0 <= j < |column| && m in column[j].missing;
      assert column[j] in column;
    }
    if exists i :: 0 <= i < |dicts| && k in dicts[i] && p in dicts[i][k].used {
      var i :| 0 <= i < |dicts| && k in dicts[i] && p in dicts[i][k].used;
      assert dicts[i][k] in column;
    }
    if exists i :: 0 <= i < |dicts| && k in dicts[i] && m in dicts[i][k].missing {
      var i :| 0 <= i < |dicts| && k in dicts[i] && m in dicts[i][k].missing;
      assert dicts[i][k] in column;
    }
  }

  // ---------------------------------------------------------- the lookup

  /** The directories a target is looked up in. */
  datatype Dirs = Dirs(currentDir: Paths.Path, sharedDir: Paths.Path,
                       localLatexDir: Paths.Path, sharedLatexDir: Paths.Path)

  /** An entry of a flavor, as validated: a file name, or a mapping whose
      first entry is a file name with its title. */
  datatype Entry = Plain(name: string) | Titled(entries: seq<(string, Option<string>)>)

  /** What processing one entry does. */
  datatype Outcome =
    | Excluded
    | Nested(sectionPath: string, flavor: string)
    | Found(title: Option<string>, content: string, file: Paths.Path)
    | Missing(title: Option<string>, filename: string)

  /** The path of a nested section: `$/x` is `x` from the latex roots, `$x`
      is `x` inside the current section. */
  function NestedPath(sectionPath: string, nested: string): (r: string)
    requires StartsWith(nested, "$")
    ensures StartsWith(nested, "$/") ==> r == nested[2..]
    ensures !StartsWith(nested, "$/") ==> r == sectionPath + "/" + nested[1..]
  {
    if StartsWith(nested, "$/") then nested[2..] else sectionPath + "/" + nested[1..]
  }

  /** `.with_suffix("")` as text relative to `base`: the item a found file
      contributes. */
  function ContentName(file: Paths.Path, base: Paths.Path): Result<string> {
    match Paths.RelativeTo(file, base)
    case None => Err(ValueError("not relative to the base directory"))
    case Some(relative) =>
      var bare :- Paths.WithSuffix(relative, "");
      Ok(Paths.ToString(bare))
  }

  /** `(dir / name).with_suffix(".tex")`. */
  function TexFile(dir: Paths.Path, name: string): Result<Paths.Path> {
    Paths.WithSuffix(Paths.Concat(dir, Paths.FromString(name)), ".tex")
  }

  /** The `.tex` files an entry named `filename` may be, local and shared:
      under the latex roots for `/x`, under the section directories
      otherwise. */
  function Candidates(dirs: Dirs, filename: string, localSectionDir: Paths.Path, sharedSectionDir: Paths.Path)
    : Result<(Paths.Path, Paths.Path)>
  {
    if StartsWith(filename, "/") then
      var local :- TexFile(dirs.localLatexDir, filename[1..]);
      var shared :- TexFile(dirs.sharedLatexDir, filename[1..]);
      Ok((local, shared))
    else
      var local :- TexFile(localSectionDir, filename);
      var shared :- TexFile(sharedSectionDir, filename);
      Ok((local, shared))
  }

  /** The file part of `_process_item`: both candidates must lie under
      their base directories; the local file is taken when it exists, else
      the shared one, else the entry is a missing dependency. */
  function Lookup(fs: Yaml.FileSystem, dirs: Dirs, filename: string, title: Option<string>,
                  localSectionDir: Paths.Path, sharedSectionDir: Paths.Path)
    : (r: Result<Outcome>)
    ensures r.Ok? ==> (r.value.Found? || r.value.Missing?) &&
                      Candidates(dirs, filename, localSectionDir, sharedSectionDir).Ok?
    ensures r.Ok? && r.value.Found? ==>
              var (local, shared) := Candidates(dirs, filename, localSectionDir, sharedSectionDir).value;
              r.value.file == (if local.parts in fs then local else shared) && r.value.file.parts in fs
    ensures r.Ok? && r.value.Missing? ==>
              var (local, shared) := Candidates(dirs, filename, localSectionDir, sharedSectionDir).value;
              local.parts !in fs && shared.parts !in fs && r.value.filename == filename
    ensures r.Ok? ==> r.value.title == title
  {
    var (local, shared) :- Candidates(dirs, filename, localSectionDir, sharedSectionDir);
    var localName :- ContentName(local, dirs.currentDir);
    var sharedName :- ContentName(shared, dirs.sharedDir);
    if local.parts in fs then Ok(Found(title, localName, local))
    else if shared.parts in fs then Ok(Found(title, sharedName, shared))
    else Ok(Missing(title, filename))
  }

  /** `_process_item` for one entry: its file name and title (a plain
      entry takes its title from `default_titles`), skipped when the
      target's `excludes` holds the name, a nested section for `$`, and
      otherwise what `Lookup` finds. */
  function ProcessItem(fs: Yaml.FileSystem, dirs: Dirs, entry: Entry,
                       defaultTitles: Option<Dicts.Dict<string, string>>, excludes: Option<Yaml.Value>,
                       localSectionDir: Paths.Path, sharedSectionDir: Paths.Path, sectionPath: string)
    : (r: Result<Outcome>)
    ensures entry.Titled? && |entry.entries| == 0 ==> r == Err(StopIteration)
    ensures r.Ok? && r.value.Nested? ==>
              StartsWith(EntryName(entry), "$") && r.value.sectionPath == NestedPath(sectionPath, EntryName(entry))
    ensures r.Ok? && !r.value.Excluded? ==>
              excludes.None? || Yaml.In(EntryName(entry), excludes.value) == Ok(false)
    ensures r.Ok? && r.value.Excluded? ==>
              excludes.Some? && Yaml.In(EntryName(entry), excludes.value) == Ok(true)
    ensures r.Ok? && r.value.Found? ==> r.value.file.parts in fs
    ensures r.Ok? && !r.value.Excluded? && !r.value.Nested? ==>
              (StartsWith(EntryName(entry), "/") || !StartsWith(EntryName(entry), "$")) &&
              r == Lookup(fs, dirs, EntryName(entry), EntryTitle(entry, defaultTitles), localSectionDir, sharedSectionDir)
  {
    if entry.Titled? && |entry.entries| == 0 then Err(StopIteration)
    else
      var filename := EntryName(entry);
      var title := EntryTitle(entry, defaultTitles);
      var excluded :- match excludes case None => Ok(false) case Some(e) => Yaml.In(filename, e);
      if excluded then Ok(Excluded)
      else if !StartsWith(filename, "/") && StartsWith(filename, "$") then
        if title.None? then Err(AssertionError)
        else Ok(Nested(NestedPath(sectionPath, filename), title.value))
      else Lookup(fs, dirs, filename, title, localSectionDir, sharedSectionDir)
  }

  /** The title of an entry: its own, or for a plain entry the default
      title of its name. */
  function EntryTitle(entry: Entry, defaultTitles: Option<Dicts.Dict<string, string>>): Option<string> {
    match entry
    case Plain(name) => (match defaultTitles case None => None case Some(d) => Dicts.Get(d, name))
    case Titled(es) => if |es| == 0 then None else es[0].1
  }

  /** The file name of an entry. */
  function EntryName(entry: Entry): string {
    match entry
    case Plain(name) => name
    case Titled(es) => if |es| == 0 then "" else es[0].0
  }

  /** An item of a part's slides: a content path or a title with its level. */
  datatype SlideItem = Content(path: string) | Title(title: Yaml.Value, level: int)

  /** The title of a section file: the target's own, else the `title` of
      the `.yml` beside the file when there is one, else none. */
  function SectionTitle(fs: Yaml.FileSystem, config: Dicts.Dict<string, Yaml.Value>, configFile: Paths.Path)
    : (r: Result<Yaml.Value>)
    ensures Dicts.Get(config, "title").Some? ==> r == Ok(Dicts.Get(config, "title").value)
    ensures Dicts.Get(config, "title").None? && configFile.parts !in fs ==> r == Ok(Yaml.Null)
  {
    match Dicts.Get(config, "title")
    case Some(t) => Ok(t)
    case None =>
      if configFile.parts !in fs then Ok(Yaml.Null)
      else
        var document :- Yaml.Load(fs, configFile);
        if !document.Map? then Err(TypeError("the section configuration is not a mapping"))
        else match Dicts.Get(document.entries, "title")
          case None => Err(KeyError("title"))
          case Some(t) => Ok(t)
  }

  /** `_parse_section_file`: a section that is a single `.tex` file, local
      first, then shared; `None` when neither exists.  Its items are the
      title, unless it is null, then the file; the file is the only
      dependency, used. */
  function ParseSectionFile(fs: Yaml.FileSystem, dirs: Dirs, sectionPath: string,
                            config: Dicts.Dict<string, Yaml.Value>, level: int)
    : (r: Result<Option<(seq<SlideItem>, Deps)>>)
    ensures r.Ok? && r.value.Some? ==>
              var (items, deps) := r.value.value;
              && EndsWithContent(items)
              && deps.missing == {} && deps.unused == {} && deps.used != {}
              && forall f :: f in deps.used ==> f.parts in fs
  {
    var found :- SectionFile(fs, dirs, sectionPath);
    match found
    case None => Ok(None)
    case Some((file, base)) =>
      var content :- ContentName(file, base);
      var configFile :- Paths.WithSuffix(file, ".yml");
      var title :- SectionTitle(fs, config, configFile);
      SectionItems(file, content, title, level)
  }

  /** The file of a section and the directory its content name is
      relative to: the local file when it exists, else the shared one. */
  function SectionFile(fs: Yaml.FileSystem, dirs: Dirs, sectionPath: string)
    : (r: Result<Option<(Paths.Path, Paths.Path)>>)
    ensures r.Ok? <==> TexFile(dirs.localLatexDir, sectionPath).Ok? && TexFile(dirs.sharedLatexDir, sectionPath).Ok?
    ensures r.Ok? ==>
              var local := TexFile(dirs.localLatexDir, sectionPath).value;
              var shared := TexFile(dirs.sharedLatexDir, sectionPath).value;
              && (r.value.None? <==> local.parts !in fs && shared.parts !in fs)
              && (r.value.Some? && local.parts in fs ==> r.value.value == (local, dirs.currentDir))
              && (r.value.Some? && local.parts !in fs ==> r.value.value == (shared, dirs.sharedDir))
  {
    var local :- TexFile(dirs.localLatexDir, sectionPath);
    var shared :- TexFile(dirs.sharedLatexDir, sectionPath);
    if local.parts in fs then Ok(Some((local, dirs.currentDir)))
    else if shared.parts in fs then Ok(Some((shared, dirs.sharedDir)))
    else Ok(None)
  }

  /** The last item is a content path. */
  predicate EndsWithContent(items: seq<SlideItem>) {
    |items| > 0 && items[|items| - 1].Content?
  }

  /** The items and dependencies of a found section file: the title
      unless it is null, then the content; the file itself is used. */
  function SectionItems(file: Paths.Path, content: string, title: Yaml.Value, level: int)
    : (r: Result<Option<(seq<SlideItem>, Deps)>>)
    ensures r.Ok? && r.value.Some?
    ensures var items := r.value.value.0;
            EndsWithContent(items) && items[|items| - 1] == Content(content) &&
            (|items| == 2 <==> !title.Null?) && (|items| == 2 ==> items[0] == Title(title, level))
    ensures r.value.value.1 == Deps({file}, {}, {})
  {
    var titles := if title.Null? then [] else [Title(title, level)];
    Ok(Some((titles + [Content(content)], Deps({file}, {}, {}))))
  }

  // ------------------------------------------------ section configuration

  /** `DirSectionConfig`, validated: the default titles if there are any,
      the entries of each flavor, and the section title. */
  datatype SectionConfig = SectionConfig(defaultTitles: Option<Dicts.Dict<string, string>>,
                                         flavors: Dicts.Dict<string, seq<Entry>>,
                                         title: string)

  /** Each of `xs` validated by `f`; `None` as soon as one is not valid. */
  function AllValid<A, B>(xs: seq<A>, f: A -> Option<B>): (r: Option<seq<B>>)
    ensures r.Some? <==> forall i :: 0 <= i < |xs| ==> f(xs[i]).Some?
    ensures r.Some? ==> |r.value| == |xs| && forall i :: 0 <= i < |xs| ==> r.value[i] == f(xs[i]).value
  {
    if |xs| == 0 then Some([])
    else
      assert forall i :: 1 <= i < |xs| ==> xs[1..][i - 1] == xs[i];
      match (f(xs[0]), AllValid(xs[1..], f))
      case (Some(y), Some(ys)) => Some([y] + ys)
      case _ => None
  }

  /** A `str | None` value. */
  function OptionalTitle(v: Yaml.Value): Option<Option<string>> {
    match v
    case Null => Some(None)
    case Str(s) => Some(Some(s))
    case _ => None
  }

  /** One pair of a `dict[str, str | None]` entry. */
  function TitledPair(e: (string, Yaml.Value)): Option<(string, Option<string>)> {
    match OptionalTitle(e.1)
    case None => None
    case Some(t) => Some((e.0, t))
  }

  /** An entry of a flavor: `str | dict[str, str | None]`. */
  function EntryOf(v: Yaml.Value): Option<Entry> {
    match v
    case Str(s) => Some(Plain(s))
    case Map(es) => (match AllValid(es, TitledPair) case None => None case Some(ps) => Some(Titled(ps)))
    case _ => None
  }

  /** One flavor: a name and a list of entries. */
  function FlavorOf(e: (string, Yaml.Value)): Option<(string, seq<Entry>)> {
    match e.1
    case List(items) => (match AllValid(items, EntryOf) case None => None case Some(es) => Some((e.0, es)))
    case _ => None
  }

  /** One pair of a `dict[str, str]`. */
  function StringPair(e: (string, Yaml.Value)): Option<(string, string)> {
    match e.1
    case Str(s) => Some((e.0, s))
    case _ => None
  }

  /** `default_titles`: absent or null is none, otherwise a mapping of
      strings. */
  function DefaultTitlesOf(v: Option<Yaml.Value>): Option<Option<Dicts.Dict<string, string>>> {
    match v
    case None => Some(None)
    case Some(Null) => Some(None)
    case Some(Map(es)) => (match AllValid(es, StringPair) case None => None case Some(d) => Some(Some(d)))
    case Some(_) => None
  }

  /** `DirSectionConfig.model_validate`: a mapping with a string `title`, a
      mapping of flavors, each a list of entries, and optional default
      titles; any other key is ignored. */
  function ConfigOf(v: Yaml.Value): (r: Option<SectionConfig>)
    ensures r.Some? ==> v.Map? && Yaml.Get(v, "title") == Some(Yaml.Str(r.value.title))
    ensures r.Some? ==> Yaml.Get(v, "flavors").Some? && Yaml.Get(v, "flavors").value.Map? &&
                        |r.value.flavors| == |Yaml.Get(v, "flavors").value.entries| &&
                        forall i :: 0 <= i < |r.value.flavors| ==>
                          r.value.flavors[i].0 == Yaml.Get(v, "flavors").value.entries[i].0
  {
    match (Yaml.Get(v, "title"), Yaml.Get(v, "flavors"), DefaultTitlesOf(Yaml.Get(v, "default_titles")))
    case (Some(Str(title)), Some(Map(fs)), Some(defaults)) =>
      (match AllValid(fs, FlavorOf)
       case None => None
       case Some(flavors) => Some(SectionConfig(defaults, flavors, title)))
    case _ => None
  }

  /** A title as YAML: a string or null. */
  function TitleValue(t: Option<string>): Yaml.Value {
    match t
    case None => Yaml.Null
    case Some(s) => Yaml.Str(s)
  }

  /** An entry as YAML, as `model_dump` writes it. */
  function EntryValue(e: Entry): Yaml.Value {
    match e
    case Plain(name) => Yaml.Str(name)
    case Titled(ps) => Yaml.Map(seq(|ps|, i requires 0 <= i < |ps| => (ps[i].0, TitleValue(ps[i].1))))
  }

  /** A flavor as YAML: its name and the list of its entries. */
  function FlavorValue(f: (string, seq<Entry>)): (string, Yaml.Value) {
    (f.0, Yaml.List(seq(|f.1|, j requires 0 <= j < |f.1| => EntryValue(f.1[j]))))
  }

  /** A section configuration as YAML, as `model_dump` writes it. */
  function ConfigValue(c: SectionConfig): Yaml.Value {
    Yaml.Map([("default_titles", DefaultsValue(c.defaultTitles)),
              ("flavors", FlavorsValue(c.flavors)),
              ("title", Yaml.Str(c.title))])
  }

  /** The default titles as YAML: null when there are none. */
  function DefaultsValue(defaults: Option<Dicts.Dict<string, string>>): Yaml.Value {
    match defaults
    case None => Yaml.Null
    case Some(d) => Yaml.Map(seq(|d|, i requires 0 <= i < |d| => (d[i].0, Yaml.Str(d[i].1))))
  }

  /** The flavors as YAML: a mapping from each name to its entries. */
  function FlavorsValue(flavors: Dicts.Dict<string, seq<Entry>>): Yaml.Value {
    Yaml.Map(seq(|flavors|, i requires 0 <= i < |flavors| => FlavorValue(flavors[i])))
  }

  /** Validating a dumped entry gives it back. */
  lemma EntryRoundTrip(e: Entry)
    ensures EntryOf(EntryValue(e)) == Some(e)
  {
    if e.Titled? {
      var es := EntryValue(e).entries;
      assert forall i :: 0 <= i < |es| ==> TitledPair(es[i]) == Some(e.entries[i]);
      var r := AllValid(es, TitledPair);
      assert r.Some? && |r.value| == |e.entries|;
      assert r.value == e.entries;
    }
  }

  /** Validating a dumped flavor gives it back. */
  lemma FlavorRoundTrip(f: (string, seq<Entry>))
    ensures FlavorOf(FlavorValue(f)) == Some(f)
  {
    var items := FlavorValue(f).1.items;
    forall j | 0 <= j < |items| ensures EntryOf(items[j]) == Some(f.1[j]) {
      EntryRoundTrip(f.1[j]);
    }
    var r := AllValid(items, EntryOf);
    assert r.Some? && |r.value| == |f.1|;
    assert r.value == f.1;
  }

  /** Validating dumped default titles gives them back. */
  lemma DefaultsRoundTrip(defaults: Option<Dicts.Dict<string, string>>)
    ensures DefaultTitlesOf(Some(DefaultsValue(defaults))) == Some(defaults)
  {
    if defaults.Some? {
      var d := defaults.value;
      var pairs := DefaultsValue(defaults).entries;
      assert forall i :: 0 <= i < |pairs| ==> StringPair(pairs[i]) == Some(d[i]);
      var t := AllValid(pairs, StringPair);
      assert t.Some? && |t.value| == |d|;
      assert t.value == d;
    }
  }

  /** Validating dumped flavors gives them back. */
  lemma FlavorsRoundTrip(flavors: Dicts.Dict<string, seq<Entry>>)
    ensures AllValid(FlavorsValue(flavors).entries, FlavorOf) == Some(flavors)
  {
    var fs := FlavorsValue(flavors).entries;
    forall i | 0 <= i < |fs| ensures FlavorOf(fs[i]) == Some(flavors[i]) {
      FlavorRoundTrip(flavors[i]);
    }
    var r := AllValid(fs, FlavorOf);
    assert r.Some? && |r.value| == |flavors|;
    assert r.value == flavors;
  }

  /** Validating a dumped section configuration gives it back. */
  lemma ConfigRoundTrip(c: SectionConfig)
    ensures ConfigOf(ConfigValue(c)) == Some(c)
  {
    var es := ConfigValue(c).entries;
    assert Dicts.Get(es, "default_titles") == Some(es[0].1);
    assert Dicts.Get(es, "flavors") == Dicts.Get(es[1..], "flavors") == Some(es[1].1);
    assert es[1..][1..] == [("title", Yaml.Str(c.title))];
    assert Dicts.Get(es, "title") == Dicts.Get(es[1..], "title") == Dicts.Get(es[1..][1..], "title");
    DefaultsRoundTrip(c.defaultTitles);
    FlavorsRoundTrip(c.flavors);
  }

  /** `DirSectionConfig.from_yaml_file`: a file that cannot be read or
      does not validate is a `DeckzError`; a file that is not valid YAML
      lets the parser's error escape. */
  function LoadSectionConfig(fs: Yaml.FileSystem, path: Paths.Path): (r: Result<SectionConfig>)
    ensures r.Ok? <==> Yaml.Load(fs, path).Ok? && ConfigOf(Yaml.Load(fs, path).value).Some?
    ensures r.Ok? ==> ConfigOf(Yaml.Load(fs, path).value) == Some(r.value)
    ensures r.Err? ==> (r.error == YamlError <==> Yaml.IsFile(fs, path.parts) && fs[path.parts].content.None?)
    ensures r.Err? && r.error != YamlError ==> r.error.DeckzError?
  {
    match Yaml.Load(fs, path)
    case Err(YamlError) => Err(YamlError)
    case Err(_) => Err(DeckzError("could not load " + Paths.ToString(path) + " section config"))
    case Ok(v) =>
      match ConfigOf(v)
      case None => Err(DeckzError("could not load " + Paths.ToString(path) + " section config"))
      case Some(c) => Ok(c)
  }

  // ---------------------------------------------------- section directories

  /** `latex_dir / section_path`. */
  function SectionDir(latexDir: Paths.Path, sectionPath: string): Paths.Path {
    Paths.Concat(latexDir, Paths.FromString(sectionPath))
  }

  /** `Path(p.parts[-1])`: the last component, the root alone for `/`; an
      empty path has none. */
  function LastPart(p: Paths.Path): (r: Result<Paths.Path>)
    ensures r.Err? <==> !p.rooted && |p.parts| == 0
    ensures r.Ok? ==> Paths.Name(r.value) == Paths.Name(p) && |r.value.parts| <= 1
  {
    if |p.parts| > 0 then Ok(Paths.Path(false, [p.parts[|p.parts| - 1]]))
    else if p.rooted then Ok(Paths.Path(true, []))
    else Err(IndexError)
  }

  /** The two configuration files of a section, local and shared.  Both
      are named after the last component of the section path with the
      suffix `.yml`; the shared one lies in the shared section directory,
      while the local one lies below the local section directory followed
      by the section path's other components once more. */
  function ConfigFiles(dirs: Dirs, path: Paths.Path): (r: Result<(Paths.Path, Paths.Path)>)
  {
    var local :- Paths.WithSuffix(LocalBase(dirs, path), ".yml");
    var last :- LastPart(path);
    // `last` has a component here, so the shared file always takes the suffix.
    var sharedBase := Paths.Concat(Paths.Concat(dirs.sharedLatexDir, path), last);
    Ok((local, Paths.WithSuffix(sharedBase, ".yml").value))
  }

  /** The local configuration file before its suffix is set. */
  function LocalBase(dirs: Dirs, path: Paths.Path): Paths.Path {
    Paths.Concat(Paths.Concat(dirs.localLatexDir, path), path)
  }

  /** The local base lies below the local section directory followed by the
      section path's parent, and is named after the section. */
  lemma LocalBasePlace(dirs: Dirs, path: Paths.Path)
    requires !path.rooted && |path.parts| > 0
    ensures Paths.Name(LocalBase(dirs, path)) == Paths.Name(path)
    ensures Paths.Parent(LocalBase(dirs, path)) == Paths.Concat(Paths.Concat(dirs.localLatexDir, path), Paths.Parent(path))
  {
    var m := |path.parts|;
    var ps := LocalBase(dirs, path).parts;
    assert ps == dirs.localLatexDir.parts + path.parts + path.parts;
    assert ps[..|ps| - 1] == dirs.localLatexDir.parts + path.parts + path.parts[..m - 1];
  }

  /** Both configuration files carry the section's name with the suffix
      `.yml`; the shared one lies in the shared section directory and the
      local one in the local section directory followed by the section
      path's parent. */
  lemma ConfigFilesPlaces(dirs: Dirs, path: Paths.Path)
    requires ConfigFiles(dirs, path).Ok? && !path.rooted
    ensures Paths.Name(ConfigFiles(dirs, path).value.0) == Paths.Name(ConfigFiles(dirs, path).value.1)
    ensures Paths.Parent(ConfigFiles(dirs, path).value.1) == Paths.Concat(dirs.sharedLatexDir, path)
    ensures Paths.Parent(ConfigFiles(dirs, path).value.0) == Paths.Concat(Paths.Concat(dirs.localLatexDir, path), Paths.Parent(path))
  {
    var last := LastPart(path).value;
    var sharedBase := Paths.Concat(Paths.Concat(dirs.sharedLatexDir, path), last);
    LocalBasePlace(dirs, path);
    Paths.WithSuffixParent(LocalBase(dirs, path), ".yml");
    Paths.WithSuffixParent(sharedBase, ".yml");
    assert Paths.Name(sharedBase) == Paths.Name(path);
  }

  /** A section directory found: its configuration file and its local and
      shared directories. */
  datatype Located = Located(config: Paths.Path, localSectionDir: Paths.Path, sharedSectionDir: Paths.Path)

  /** The configuration of a section directory: the local file when it
      exists, else the shared one, else none. */
  function LocateSection(fs: Yaml.FileSystem, dirs: Dirs, sectionPath: string): Result<Option<Located>> {
    var (local, shared) :- ConfigFiles(dirs, Paths.FromString(sectionPath));
    var here := Located(local, SectionDir(dirs.localLatexDir, sectionPath), SectionDir(dirs.sharedLatexDir, sectionPath));
    if local.parts in fs then Ok(Some(here))
    else if shared.parts in fs then Ok(Some(here.(config := shared)))
    else Ok(None)
  }

  /** A section is located exactly when its configuration files can be
      named; the local file wins over the shared one, a located
      configuration exists, and none is located when neither exists. */
  lemma LocateSectionSpec(fs: Yaml.FileSystem, dirs: Dirs, sectionPath: string)
    ensures var r := LocateSection(fs, dirs, sectionPath);
            var files := ConfigFiles(dirs, Paths.FromString(sectionPath));
            && (r.Ok? <==> files.Ok?)
            && (r.Ok? ==>
                  var (local, shared) := files.value;
                  && (r.value.None? <==> local.parts !in fs && shared.parts !in fs)
                  && (r.value.Some? ==> r.value.value.config == (if local.parts in fs then local else shared)
                                        && r.value.value.config.parts in fs)
                  && (r.value.Some? ==> r.value.value.localSectionDir == SectionDir(dirs.localLatexDir, sectionPath)
                                        && r.value.value.sharedSectionDir == SectionDir(dirs.sharedLatexDir, sectionPath)))
  {
  }

  /** The entries of the flavor `custom` asks for: a `DeckzError` when it
      names none, or one the configuration does not have. */
  function ChosenFlavor(custom: Dicts.Dict<string, Yaml.Value>, config: SectionConfig): (r: Result<seq<Entry>>)
    ensures Dicts.Get(custom, "flavor").None? ==> r.Err? && r.error.DeckzError?
    ensures r.Ok? <==> Dicts.Get(custom, "flavor").Some? && Dicts.Get(custom, "flavor").value.Str? &&
                       Dicts.Get(config.flavors, Dicts.Get(custom, "flavor").value.s).Some?
    ensures r.Ok? ==> r.value == Dicts.Get(config.flavors, Dicts.Get(custom, "flavor").value.s).value
  {
    match Dicts.Get(custom, "flavor")
    case None => Err(DeckzError("Mandatory flavor not specified"))
    case Some(f) =>
      if f.List? || f.Map? then Err(TypeError("unhashable type"))
      else if f.Str? && Dicts.Get(config.flavors, f.s).Some? then Ok(Dicts.Get(config.flavors, f.s).value)
      else Err(DeckzError("not amongst available flavors"))
  }

  /** The bookkeeping a whole build shares: `section_flavors`, the
      flavors each section path was asked for, and `section_dependencies`,
      each section path's dependencies. */
  datatype Books = Books(flavors: map<string, set<Yaml.Value>>, deps: map<string, Deps>)

  const NoBooks := Books(map[], map[])

  /** Every flavor `a` records is still recorded in `b`, and every section
      `a` has dependencies for still uses and misses at least as much. */
  predicate Grows(a: Books, b: Books) {
    && (forall k :: k in a.flavors ==> k in b.flavors && a.flavors[k] <= b.flavors[k])
    && (forall k :: k in a.deps ==> k in b.deps && a.deps[k].used <= b.deps[k].used &&
                                    a.deps[k].missing <= b.deps[k].missing)
  }

  /** What `b` records for any section beyond what `a` did is among what
      `d` uses and misses. */
  predicate Within(a: Books, b: Books, d: Deps) {
    forall k :: k in b.deps ==>
      && b.deps[k].used <= (if k in a.deps then a.deps[k].used else {}) + d.used
      && b.deps[k].missing <= (if k in a.deps then a.deps[k].missing else {}) + d.missing
  }

  /** `section_flavors[path].add(flavor)`. */
  function AddFlavor(b: Books, path: string, flavor: Yaml.Value): (r: Books)
    ensures Grows(b, r) && r.deps == b.deps
    ensures path in r.flavors && flavor in r.flavors[path]
  {
    b.(flavors := b.flavors[path := (if path in b.flavors then b.flavors[path] else {}) + {flavor}])
  }

  /** Growing twice is growing. */
  lemma GrowsTrans(a: Books, b: Books, c: Books)
    requires Grows(a, b) && Grows(b, c)
    ensures Grows(a, c)
  { }

  /** `section_dependencies[path].update(d)`. */
  function AddDeps(b: Books, path: string, d: Deps): (r: Books)
    ensures Grows(b, r) && r.flavors == b.flavors && Within(b, r, d)
    ensures path in r.deps && d.used <= r.deps[path].used && d.missing <= r.deps[path].missing
  {
    b.(deps := b.deps[path := Updated(if path in b.deps then b.deps[path] else NoDeps, d)])
  }

  /** The state `_process_item` works on: the items and the dependencies
      of the section so far, and the build's bookkeeping. */
  datatype Walk = Walk(items: seq<SlideItem>, deps: Deps, books: Books)

  /** A section's walk: it opens with its title at `level`, no title is
      above that level, nothing is unused and every used file exists. */
  predicate Sound(fs: Yaml.FileSystem, w: Walk, level: int) {
    && |w.items| > 0 && w.items[0].Title? && w.items[0].level == level
    && (forall i :: 0 <= i < |w.items| && w.items[i].Title? ==> w.items[i].level >= level)
    && w.deps.unused == {}
    && (forall f :: f in w.deps.used ==> f.parts in fs)
  }

  /** `v` continues `w`: its items extend `w`'s, it uses and misses at least
      as much, and its bookkeeping grew only by what `v` uses and misses. */
  predicate Extends(w: Walk, v: Walk) {
    && w.items <= v.items
    && w.deps.used <= v.deps.used && w.deps.missing <= v.deps.missing
    && Grows(w.books, v.books) && Within(w.books, v.books, v.deps)
  }

  /** Continuing a continuation continues the start. */
  lemma ExtendsTrans(u: Walk, v: Walk, w: Walk)
    requires Extends(u, v) && Extends(v, w)
    ensures Extends(u, w)
  {
    forall k | k in w.books.deps
      ensures w.books.deps[k].used <= (if k in u.books.deps then u.books.deps[k].used else {}) + w.deps.used
      ensures w.books.deps[k].missing <= (if k in u.books.deps then u.books.deps[k].missing else {}) + w.deps.missing
    {
      if k in v.books.deps {
        assert v.books.deps[k].used <= (if k in u.books.deps then u.books.deps[k].used else {}) + v.deps.used;
        assert v.books.deps[k].missing <= (if k in u.books.deps then u.books.deps[k].missing else {}) + v.deps.missing;
      }
    }
  }

  /** `_parse_section_dir`: `None` when the section has no configuration
      file; otherwise the section's title at `level` (the target's own
      title, else the configuration's), then its entries of the flavor the
      target asks for, one level down.  `depth` bounds how deeply sections
      may nest. */
  function ParseSectionDir(fs: Yaml.FileSystem, dirs: Dirs, sectionPath: string,
                           custom: Dicts.Dict<string, Yaml.Value>, level: int, books: Books, depth: nat)
    : (r: Result<Option<Walk>>)
    ensures r.Ok? && r.value.Some? ==>
              && Sound(fs, r.value.value, level)
              && Grows(books, r.value.value.books) && Within(books, r.value.value.books, r.value.value.deps)
    decreases depth, 3
  {
    var found :- LocateSection(fs, dirs, sectionPath);
    match found
    case None => Ok(None)
    case Some(here) =>
      var config :- LoadSectionConfig(fs, here.config);
      var title := match Dicts.Get(custom, "title") case Some(t) => t case None => Yaml.Str(config.title);
      var entries :- ChosenFlavor(custom, config);
      var start := Walk([Title(title, level)], NoDeps, books);
      StartSound(fs, title, level, books);
      var w :- ProcessEntries(fs, dirs, config.defaultTitles, Dicts.Get(custom, "excludes"), here, sectionPath,
                              level, entries, start, depth);
      Ok(Some(w))
  }

  /** A walk holding only a section's title is sound. */
  lemma StartSound(fs: Yaml.FileSystem, title: Yaml.Value, level: int, books: Books)
    ensures Sound(fs, Walk([Title(title, level)], NoDeps, books), level)
  { }

  /** A section directory whose target names no flavor is refused. */
  lemma UnflavoredRefused(fs: Yaml.FileSystem, dirs: Dirs, sectionPath: string,
                          custom: Dicts.Dict<string, Yaml.Value>, level: int, books: Books, depth: nat)
    requires LocateSection(fs, dirs, sectionPath).Ok? && LocateSection(fs, dirs, sectionPath).value.Some?
    requires LoadSectionConfig(fs, LocateSection(fs, dirs, sectionPath).value.value.config).Ok?
    requires Dicts.Get(custom, "flavor").None?
    ensures var r := ParseSectionDir(fs, dirs, sectionPath, custom, level, books, depth);
            r.Err? && r.error.DeckzError?
  {
    var config := LoadSectionConfig(fs, LocateSection(fs, dirs, sectionPath).value.value.config).value;
    assert ChosenFlavor(custom, config).Err?;
  }

  /** The loop of `_parse_section_dir` over the entries of a flavor. */
  function ProcessEntries(fs: Yaml.FileSystem, dirs: Dirs, defaultTitles: Option<Dicts.Dict<string, string>>,
                          excludes: Option<Yaml.Value>, here: Located, sectionPath: string, level: int,
                          entries: seq<Entry>, w: Walk, depth: nat)
    : (r: Result<Walk>)
    ensures r.Ok? ==> Extends(w, r.value)
    ensures r.Ok? && Sound(fs, w, level) ==> Sound(fs, r.value, level)
    decreases depth, 2, |entries|
  {
    if |entries| == 0 then Ok(w)
    else
      var next :- ProcessEntry(fs, dirs, defaultTitles, excludes, here, sectionPath, level, entries[0], w, depth);
      var last :- ProcessEntries(fs, dirs, defaultTitles, excludes, here, sectionPath, level, entries[1..], next, depth);
      ExtendsTrans(w, next, last);
      Ok(last)
  }

  /** The titles an entry contributes: its own, if it has one. */
  function TitleItems(title: Option<string>, level: int): seq<SlideItem> {
    match title
    case None => []
    case Some(t) => [Title(Yaml.Str(t), level)]
  }

  /** `_process_item` on the walk of a section at `level`: an excluded
      entry adds nothing; a found file adds its title, if any, and its
      content, and is used; a missing file still adds its title and is
      missing; a nested section (`_process_nested_section`) must exist,
      adds its own items one level down, and is recorded with its flavor
      and dependencies. */
  function ProcessEntry(fs: Yaml.FileSystem, dirs: Dirs, defaultTitles: Option<Dicts.Dict<string, string>>,
                        excludes: Option<Yaml.Value>, here: Located, sectionPath: string, level: int,
                        entry: Entry, w: Walk, depth: nat)
    : (r: Result<Walk>)
    ensures r.Ok? ==> Extends(w, r.value)
    ensures r.Ok? && Sound(fs, w, level) ==> Sound(fs, r.value, level)
    decreases depth, 1
  {
    var outcome :- ProcessItem(fs, dirs, entry, defaultTitles, excludes, here.localSectionDir,
                               here.sharedSectionDir, sectionPath);
    if outcome.Nested? then NestedEntry(fs, dirs, outcome.sectionPath, outcome.flavor, level, w, depth)
    else Ok(Advance(fs, w, outcome, level))
  }

  /** The walk after an entry that is not a nested section: an excluded
      entry adds nothing; a found file adds its title, if any, and its
      content, and is used; a missing file still adds its title and is
      missing. */
  function Advance(fs: Yaml.FileSystem, w: Walk, outcome: Outcome, level: int): (r: Walk)
    requires !outcome.Nested?
    ensures Extends(w, r)
    ensures (outcome.Found? ==> outcome.file.parts in fs) && Sound(fs, w, level) ==> Sound(fs, r, level)
  {
    match outcome
    case Excluded => AppendStep(fs, w, [], w.deps, level); w
    case Found(title, content, file) =>
      var more := TitleItems(title, level + 1) + [Content(content)];
      var deps := w.deps.(used := w.deps.used + {file});
      AppendStep(fs, w, more, deps, level);
      Walk(w.items + more, deps, w.books)
    case Missing(title, filename) =>
      var more := TitleItems(title, level + 1);
      var deps := w.deps.(missing := w.deps.missing + {filename});
      AppendStep(fs, w, more, deps, level);
      Walk(w.items + more, deps, w.books)
  }

  /** `_process_nested_section`: the nested section must have a
      configuration; its items follow one level down, and it is recorded
      with its flavor and dependencies. */
  function NestedEntry(fs: Yaml.FileSystem, dirs: Dirs, path: string, flavor: string, level: int, w: Walk, depth: nat)
    : (r: Result<Walk>)
    ensures r.Ok? ==> Extends(w, r.value)
    ensures r.Ok? && Sound(fs, w, level) ==> Sound(fs, r.value, level)
    decreases depth, 0
  {
    if depth == 0 then Err(RecursionError)
    else
      var parsed :- ParseSectionDir(fs, dirs, path, [("flavor", Yaml.Str(flavor))], level + 1, w.books, depth - 1);
      match parsed
      case None => Err(AssertionError)
      case Some(n) =>
        var books := AddDeps(AddFlavor(n.books, path, Yaml.Str(flavor)), path, n.deps);
        var next := Walk(w.items + n.items, Updated(w.deps, n.deps), books);
        NestedStep(fs, w, n, path, Yaml.Str(flavor), level, next);
        Ok(next)
  }

  /** Appending items no higher than `level`, with dependencies that only
      add used files and missing names, continues a walk, and keeps it sound
      when the files it adds exist. */
  lemma AppendStep(fs: Yaml.FileSystem, w: Walk, more: seq<SlideItem>, d: Deps, level: int)
    requires forall i :: 0 <= i < |more| && more[i].Title? ==> more[i].level >= level
    requires w.deps.used <= d.used && w.deps.missing <= d.missing && d.unused == w.deps.unused
    ensures Extends(w, Walk(w.items + more, d, w.books))
    ensures Sound(fs, w, level) && (forall f :: f in d.used && f !in w.deps.used ==> f.parts in fs) ==>
              Sound(fs, Walk(w.items + more, d, w.books), level)
  {
    var items := w.items + more;
    assert forall i :: 0 <= i < |w.items| ==> items[i] == w.items[i];
    assert forall i :: |w.items| <= i < |items| ==> items[i] == more[i - |w.items|];
  }

  /** Appending a nested section's walk, one level down, and recording its
      flavor and dependencies, continues a walk and keeps it sound. */
  lemma NestedStep(fs: Yaml.FileSystem, w: Walk, n: Walk, path: string, flavor: Yaml.Value, level: int, next: Walk)
    requires Sound(fs, n, level + 1) && Grows(w.books, n.books) && Within(w.books, n.books, n.deps)
    requires next == Walk(w.items + n.items, Updated(w.deps, n.deps), AddDeps(AddFlavor(n.books, path, flavor), path, n.deps))
    ensures Extends(w, next)
    ensures Sound(fs, w, level) ==> Sound(fs, next, level)
  {
    var flavored := AddFlavor(n.books, path, flavor);
    assert Grows(n.books, flavored) && Within(n.books, flavored, n.deps);
    assert Extends(w, Walk(w.items + n.items, Updated(w.deps, n.deps), n.books));
    assert Extends(Walk(w.items + n.items, Updated(w.deps, n.deps), n.books), Walk(w.items + n.items, Updated(w.deps, n.deps), flavored));
    assert Extends(Walk(w.items + n.items, Updated(w.deps, n.deps), flavored), next);
    ExtendsTrans(w, Walk(w.items + n.items, Updated(w.deps, n.deps), n.books), Walk(w.items + n.items, Updated(w.deps, n.deps), flavored));
    ExtendsTrans(w, Walk(w.items + n.items, Updated(w.deps, n.deps), flavored), next);
    var items := next.items;
    assert forall i :: 0 <= i < |w.items| ==> items[i] == w.items[i];
    assert forall i :: |w.items| <= i < |items| ==> items[i] == n.items[i - |w.items|];
  }

  // ------------------------------------------------------- target building

  /** The slides of a part: its title and its items. */
  datatype PartSlides = PartSlides(title: Yaml.Value, sections: seq<SlideItem>)

  /** A built target: its name, its dependencies, its parts, and the
      dependencies and flavors recorded for each section path. */
  datatype Target = Target(name: string, dependencies: Deps, parts: seq<PartSlides>,
                           sectionDependencies: map<string, Deps>,
                           sectionFlavors: map<string, set<Yaml.Value>>)

  /** The settings an entry of `sections` stands for: a bare value is
      `{"path": value}`. */
  function EntryConfig(entry: Yaml.Value): Dicts.Dict<string, Yaml.Value> {
    if entry.Map? then entry.entries else [("path", entry)]
  }

  /** The path and the flavor (null when absent) an entry of `sections`
      names; both are hashable and the path is a string. */
  function Declared(entry: Yaml.Value): (r: Result<(string, Yaml.Value)>)
    ensures r.Ok? ==> Dicts.Get(EntryConfig(entry), "path") == Some(Yaml.Str(r.value.0))
    ensures Dicts.Get(EntryConfig(entry), "path").None? ==> r == Err(KeyError("path"))
    ensures r.Ok? ==> r.value.1 == (match Dicts.Get(EntryConfig(entry), "flavor") case None => Yaml.Null case Some(f) => f)
  {
    var config := EntryConfig(entry);
    match Dicts.Get(config, "path")
    case None => Err(KeyError("path"))
    case Some(path) =>
      var flavor := match Dicts.Get(config, "flavor") case None => Yaml.Null case Some(f) => f;
      if path.List? || path.Map? || flavor.List? || flavor.Map? then Err(TypeError("unhashable type"))
      else if !path.Str? then Err(TypeError("expected str, bytes or os.PathLike object"))
      else Ok((path.s, flavor))
  }

  /** One entry of `sections`, parsed: its path, its items and its
      dependencies, and the bookkeeping after it. */
  datatype Parsed = Parsed(path: string, items: seq<SlideItem>, deps: Deps, books: Books)

  /** One round of the loop of `TargetBuilder.build`: the entry's flavor is
      recorded, then the entry is a section directory, else a section
      file, else a missing dependency named by its path. */
  function SectionEntry(fs: Yaml.FileSystem, dirs: Dirs, entry: Yaml.Value, books: Books, depth: nat)
    : (r: Result<Parsed>)
    ensures r.Ok? ==> Declared(entry).Ok? && r.value.path == Declared(entry).value.0
    ensures r.Ok? ==> r.value.path in r.value.books.flavors && Declared(entry).value.1 in r.value.books.flavors[r.value.path]
    ensures r.Ok? ==> r.value.deps.unused == {} && forall f :: f in r.value.deps.used ==> f.parts in fs
    ensures r.Ok? ==> Grows(books, r.value.books) && Within(books, r.value.books, r.value.deps)
    ensures r.Ok? && r.value.items == [] ==> r.value.deps == Deps({}, {r.value.path}, {})
  {
    var (path, flavor) :- Declared(entry);
    var config := EntryConfig(entry);
    var flavored := AddFlavor(books, path, flavor);
    var dir :- ParseSectionDir(fs, dirs, path, config, 0, flavored, depth);
    match dir
    case Some(w) => Ok(Parsed(path, w.items, w.deps, w.books))
    case None =>
      var file :- ParseSectionFile(fs, dirs, path, config, 0);
      match file
      case Some((items, deps)) => Ok(Parsed(path, items, deps, flavored))
      case None => Ok(Parsed(path, [], Deps({}, {path}, {}), flavored))
  }

  /** The dependencies a build starts with: every `.tex` file below the
      local latex directory, unused. */
  function Start(fs: Yaml.FileSystem, dirs: Dirs): Deps {
    Deps({}, {}, Yaml.TexBelow(fs, dirs.localLatexDir))
  }

  /** Every file used or missing in the build is used or missing for some
      section path, and no section path uses or misses anything the build
      does not. */
  predicate Accounted(w: Walk) {
    && (forall k :: k in w.books.deps ==> w.books.deps[k].used <= w.deps.used && w.books.deps[k].missing <= w.deps.missing)
    && (forall p :: p in w.deps.used ==> exists k :: k in w.books.deps && p in w.books.deps[k].used)
    && (forall m :: m in w.deps.missing ==> exists k :: k in w.books.deps && m in w.books.deps[k].missing)
  }

  /** Every entry of `entries` is recorded in `b`: its path with its
      flavor, and its path among the section dependencies. */
  predicate Recorded(entries: seq<Yaml.Value>, b: Books) {
    forall i :: 0 <= i < |entries| ==>
      Declared(entries[i]).Ok? &&
      var (path, flavor) := Declared(entries[i]).value;
      path in b.flavors && flavor in b.flavors[path] && path in b.deps
  }

  /** The entries of `sections` parsed in order: the items appended, each
      section's dependencies merged into the build's and recorded for its
      path. */
  function SectionsFrom(fs: Yaml.FileSystem, dirs: Dirs, entries: seq<Yaml.Value>, depth: nat): Result<Walk>
    decreases |entries|
  {
    if |entries| == 0 then Ok(Walk([], Start(fs, dirs), NoBooks))
    else
      var w :- SectionsFrom(fs, dirs, entries[..|entries| - 1], depth);
      var p :- SectionEntry(fs, dirs, entries[|entries| - 1], w.books, depth);
      Ok(Walk(w.items + p.items, Updated(w.deps, p.deps), AddDeps(p.books, p.path, p.deps)))
  }

  /** What the loop over `sections` leaves unused is exactly the local
      `.tex` files no section uses; it uses only existing files; its
      bookkeeping accounts for every used and missing file; and every
      entry is recorded with its flavor. */
  lemma {:induction false} SectionsInvariant(fs: Yaml.FileSystem, dirs: Dirs, entries: seq<Yaml.Value>, depth: nat)
    requires SectionsFrom(fs, dirs, entries, depth).Ok?
    ensures var w := SectionsFrom(fs, dirs, entries, depth).value;
            && w.deps.unused == Start(fs, dirs).unused - w.deps.used
            && (forall f :: f in w.deps.used ==> f.parts in fs)
            && Accounted(w)
            && Recorded(entries, w.books)
    decreases |entries|
  {
    if |entries| > 0 {
      var init := entries[..|entries| - 1];
      SectionsInvariant(fs, dirs, init, depth);
      var w := SectionsFrom(fs, dirs, init, depth).value;
      var p := SectionEntry(fs, dirs, entries[|entries| - 1], w.books, depth).value;
      var next := Walk(w.items + p.items, Updated(w.deps, p.deps), AddDeps(p.books, p.path, p.deps));
      assert SectionsFrom(fs, dirs, entries, depth).value == next;
      UnusedStep(fs, Start(fs, dirs), w.deps, p.deps);
      SectionsStep(w, p, next);
      RecordedStep(entries, w.books, p.books, next.books);
    }
  }

  /** One round of the loop keeps the bookkeeping in step with the build's
      dependencies. */
  lemma SectionsStep(w: Walk, p: Parsed, next: Walk)
    requires Accounted(w) && Grows(w.books, p.books) && Within(w.books, p.books, p.deps)
    requires next == Walk(w.items + p.items, Updated(w.deps, p.deps), AddDeps(p.books, p.path, p.deps))
    ensures Accounted(next)
  {
    var b := next.books;
    forall k | k in b.deps
      ensures b.deps[k].used <= next.deps.used && b.deps[k].missing <= next.deps.missing
    {
      if k != p.path {
        assert k in p.books.deps && b.deps[k] == p.books.deps[k];
      }
    }
    forall q | q in next.deps.used ensures exists k :: k in b.deps && q in b.deps[k].used {
      if q in w.deps.used {
        var k :| k in w.books.deps && q in w.books.deps[k].used;
        assert k in b.deps && q in b.deps[k].used;
      } else {
        assert p.path in b.deps && q in b.deps[p.path].used;
      }
    }
    forall m | m in next.deps.missing ensures exists k :: k in b.deps && m in b.deps[k].missing {
      if m in w.deps.missing {
        var k :| k in w.books.deps && m in w.books.deps[k].missing;
        assert k in b.deps && m in b.deps[k].missing;
      } else {
        assert p.path in b.deps && m in b.deps[p.path].missing;
      }
    }
  }

  /** One round of the loop leaves unused exactly the starting files no
      round has used, and uses only existing files. */
  lemma UnusedStep(fs: Yaml.FileSystem, start: Deps, a: Deps, b: Deps)
    requires a.unused == start.unused - a.used && (forall f :: f in a.used ==> f.parts in fs)
    requires b.unused == {} && (forall f :: f in b.used ==> f.parts in fs)
    ensures Updated(a, b).unused == start.unused - Updated(a, b).used
    ensures forall f :: f in Updated(a, b).used ==> f.parts in fs
  { }

  /** A section recorded with a flavor stays recorded as the bookkeeping
      grows. */
  lemma RecordedGrows(a: Books, c: Books, path: string, flavor: Yaml.Value)
    requires path in a.flavors && flavor in a.flavors[path] && path in a.deps && Grows(a, c)
    ensures path in c.flavors && flavor in c.flavors[path] && path in c.deps
  { }

  /** A section recorded with a flavor stays recorded as the bookkeeping
      grows, and one more entry recorded extends what is recorded. */
  lemma RecordedStep(entries: seq<Yaml.Value>, a: Books, b: Books, c: Books)
    requires |entries| > 0 && Recorded(entries[..|entries| - 1], a) && Grows(a, b) && Grows(b, c)
    requires var last := Declared(entries[|entries| - 1]);
             && last.Ok? && last.value.0 in b.flavors && last.value.1 in b.flavors[last.value.0]
             && c.flavors == b.flavors && last.value.0 in c.deps
    ensures Recorded(entries, c)
  {
    var init := entries[..|entries| - 1];
    forall i | 0 <= i < |entries|
      ensures Declared(entries[i]).Ok? &&
              var (path, flavor) := Declared(entries[i]).value;
              path in c.flavors && flavor in c.flavors[path] && path in c.deps
    {
      if i < |init| {
        assert init[i] == entries[i];
      }
    }
  }

  /** A failing round fails the whole loop. */
  lemma {:induction false} SectionsFromPrefixErr(fs: Yaml.FileSystem, dirs: Dirs, entries: seq<Yaml.Value>, j: nat, depth: nat)
    requires 0 < j <= |entries| && SectionsFrom(fs, dirs, entries[..j], depth).Err?
    ensures SectionsFrom(fs, dirs, entries, depth) == SectionsFrom(fs, dirs, entries[..j], depth)
    decreases |entries|
  {
    if j < |entries| {
      var init := entries[..|entries| - 1];
      assert init[..j] == entries[..j];
      SectionsFromPrefixErr(fs, dirs, init, j, depth);
    } else {
      assert entries[..j] == entries;
    }
  }

  /** The loop over `sections` one round further: a failing entry fails
      the whole loop, any other extends the walk. */
  lemma SectionsFromNext(fs: Yaml.FileSystem, dirs: Dirs, entries: seq<Yaml.Value>, i: nat, depth: nat, w: Walk)
    requires i < |entries| && SectionsFrom(fs, dirs, entries[..i], depth) == Ok(w)
    ensures var p := SectionEntry(fs, dirs, entries[i], w.books, depth);
            && (p.Err? ==> SectionsFrom(fs, dirs, entries, depth) == Err(p.error))
            && (p.Ok? ==> SectionsFrom(fs, dirs, entries[..i + 1], depth) ==
                            Ok(Walk(w.items + p.value.items, Updated(w.deps, p.value.deps),
                                    AddDeps(p.value.books, p.value.path, p.value.deps))))
  {
    assert entries[..i + 1][..i] == entries[..i];
    if SectionEntry(fs, dirs, entries[i], w.books, depth).Err? {
      SectionsFromPrefixErr(fs, dirs, entries, i + 1, depth);
    }
  }

  /** `TargetBuilder(data, paths).build()`: the sections are parsed, then
      the name and the title are read; the target has one part, titled
      by the data, holding every section's items. */
  function TargetOf(fs: Yaml.FileSystem, dirs: Dirs, data: Yaml.Value, depth: nat): (r: Result<Target>)
    ensures r.Ok? ==> Yaml.Get(data, "name") == Some(Yaml.Str(r.value.name))
    ensures r.Ok? ==> |r.value.parts| == 1 && Yaml.Get(data, "title") == Some(r.value.parts[0].title)
    ensures r.Ok? ==> Disjoint(r.value.dependencies) &&
                      r.value.dependencies.unused == Yaml.TexBelow(fs, dirs.localLatexDir) - r.value.dependencies.used
    ensures r.Ok? ==> forall f :: f in r.value.dependencies.used ==> f.parts in fs
    ensures r.Ok? ==> forall p :: p in r.value.dependencies.used <==>
                        exists k :: k in r.value.sectionDependencies && p in r.value.sectionDependencies[k].used
    ensures r.Ok? ==> forall m :: m in r.value.dependencies.missing <==>
                        exists k :: k in r.value.sectionDependencies && m in r.value.sectionDependencies[k].missing
    ensures r.Ok? ==> && data.Map? && Dicts.Get(data.entries, "sections").Some?
                      && Yaml.Iterate(Dicts.Get(data.entries, "sections").value).Ok?
                      && Recorded(Yaml.Iterate(Dicts.Get(data.entries, "sections").value).value,
                                  Books(r.value.sectionFlavors, r.value.sectionDependencies))
  {
    if !data.Map? then Err(TypeError("a target is not a mapping"))
    else
      var sections :- (match Dicts.Get(data.entries, "sections") case None => Err(KeyError("sections")) case Some(s) => Ok(s));
      var entries :- Yaml.Iterate(sections);
      var w :- SectionsFrom(fs, dirs, entries, depth);
      SectionsInvariant(fs, dirs, entries, depth);
      var name :- (match Dicts.Get(data.entries, "name") case None => Err(KeyError("name")) case Some(n) => Ok(n));
      var title :- (match Dicts.Get(data.entries, "title") case None => Err(KeyError("title")) case Some(t) => Ok(t));
      if !name.Str? then Err(TypeError("a target name is not a string"))
      else Ok(Target(name.s, w.deps, [PartSlides(title, w.items)], w.books.deps, w.books.flavors))
  }

  /** The loop of `TargetBuilder.build` over `sections`. */
  method ParseSections(fs: Yaml.FileSystem, dirs: Dirs, entries: seq<Yaml.Value>, depth: nat) returns (r: Result<Walk>)
    ensures r == SectionsFrom(fs, dirs, entries, depth)
  {
    var items: seq<SlideItem> := [];
    var dependencies := Start(fs, dirs);
    var books := NoBooks;
    var i := 0;
    while i < |entries|
      invariant i <= |entries|
      invariant SectionsFrom(fs, dirs, entries[..i], depth) == Ok(Walk(items, dependencies, books))
    {
      var parsed := SectionEntry(fs, dirs, entries[i], books, depth);
      SectionsFromNext(fs, dirs, entries, i, depth, Walk(items, dependencies, books));
      if parsed.Err? {
        return Err(parsed.error);
      }
      items := items + parsed.value.items;
      dependencies := Updated(dependencies, parsed.value.deps);
      books := AddDeps(parsed.value.books, parsed.value.path, parsed.value.deps);
      i := i + 1;
    }
    assert entries[..i] == entries;
    r := Ok(Walk(items, dependencies, books));
  }

  /** `TargetBuilder.build`: the sections are parsed, then the name and
      the title are read. */
  method Build(fs: Yaml.FileSystem, dirs: Dirs, data: Yaml.Value, depth: nat) returns (r: Result<Target>)
    ensures r == TargetOf(fs, dirs, data, depth)
  {
    if !data.Map? {
      return Err(TypeError("a target is not a mapping"));
    }
    var sections := Dicts.Get(data.entries, "sections");
    if sections.None? {
      return Err(KeyError("sections"));
    }
    var iterated := Yaml.Iterate(sections.value);
    if iterated.Err? {
      return Err(iterated.error);
    }
    var walked := ParseSections(fs, dirs, iterated.value, depth);
    if walked.Err? {
      return Err(walked.error);
    }
    var w := walked.value;
    var name := Dicts.Get(data.entries, "name");
    if name.None? {
      return Err(KeyError("name"));
    }
    var title := Dicts.Get(data.entries, "title");
    if title.None? {
      return Err(KeyError("title"));
    }
    if !name.value.Str? {
      return Err(TypeError("a target name is not a string"));
    }
    r := Ok(Target(name.value.s, w.deps, [PartSlides(title.value, w.items)], w.books.deps, w.books.flavors));
  }

  /** `TargetOf` as a function value. */
  function TargetIn(fs: Yaml.FileSystem, dirs: Dirs, depth: nat): Yaml.Value -> Result<Target> {
    data => TargetOf(fs, dirs, data, depth)
  }

  // -------------------------------------------------------- merged targets

  /** Each target's dependencies, in order. */
  function DepsOf(targets: seq<Target>): (r: seq<Deps>)
    ensures |r| == |targets| && forall i :: 0 <= i < |targets| ==> r[i] == targets[i].dependencies
  {
    seq(|targets|, i requires 0 <= i < |targets| => targets[i].dependencies)
  }

  /** Each target's section dependencies, in order. */
  function SectionDepsOf(targets: seq<Target>): (r: seq<map<string, Deps>>)
    ensures |r| == |targets| && forall i :: 0 <= i < |targets| ==> r[i] == targets[i].sectionDependencies
  {
    seq(|targets|, i requires 0 <= i < |targets| => targets[i].sectionDependencies)
  }

  /** The parts of the targets, one target after the other. */
  function PartsOf(targets: seq<Target>): (r: seq<PartSlides>)
    ensures forall p :: p in r <==> exists i :: 0 <= i < |targets| && p in targets[i].parts
  {
    if |targets| == 0 then []
    else
      var init := targets[..|targets| - 1];
      assert forall i :: 0 <= i < |init| ==> init[i] == targets[i];
      PartsOf(init) + targets[|targets| - 1].parts
  }

  /** `d[k].update(v)` for every item `k, v` of `m`, into a dictionary
      whose missing keys default to no dependencies. */
  function UpdateEach(d: map<string, Deps>, m: map<string, Deps>): (r: map<string, Deps>)
    ensures r.Keys == d.Keys + m.Keys
    ensures forall k :: k in d && k !in m ==> r[k] == d[k]
    ensures forall k :: k in m ==> r[k] == Updated(if k in d then d[k] else NoDeps, m[k])
  {
    map k | k in d.Keys + m.Keys :: if k in m then Updated(if k in d then d[k] else NoDeps, m[k]) else d[k]
  }

  /** `d[k].update(v)` for every item `k, v` of `m`, into a dictionary
      whose missing keys default to the empty set. */
  function UniteEach(d: map<string, set<Yaml.Value>>, m: map<string, set<Yaml.Value>>): (r: map<string, set<Yaml.Value>>)
    ensures r.Keys == d.Keys + m.Keys
    ensures forall k :: k in r ==> r[k] == (if k in d then d[k] else {}) + (if k in m then m[k] else {})
  {
    map k | k in d.Keys + m.Keys :: (if k in d then d[k] else {}) + (if k in m then m[k] else {})
  }

  /** The section dependencies of the targets, updated target by target. */
  function SectionDepsMerged(targets: seq<Target>): map<string, Deps> {
    if |targets| == 0 then map[]
    else UpdateEach(SectionDepsMerged(targets[..|targets| - 1]), targets[|targets| - 1].sectionDependencies)
  }

  /** The section flavors of the targets, united target by target. */
  function FlavorsUnited(targets: seq<Target>): map<string, set<Yaml.Value>> {
    if |targets| == 0 then map[]
    else UniteEach(FlavorsUnited(targets[..|targets| - 1]), targets[|targets| - 1].sectionFlavors)
  }

  /** A section has merged flavors exactly when some target records it,
      and its flavors are those some target records for it. */
  lemma {:induction false} FlavorsUnitedSpec(targets: seq<Target>, k: string, f: Yaml.Value)
    ensures k in FlavorsUnited(targets) <==> exists i :: 0 <= i < |targets| && k in targets[i].sectionFlavors
    ensures k in FlavorsUnited(targets) && f in FlavorsUnited(targets)[k] <==>
              exists i :: 0 <= i < |targets| && k in targets[i].sectionFlavors && f in targets[i].sectionFlavors[k]
  {
    if |targets| > 0 {
      var n := |targets|;
      var init := targets[..n - 1];
      FlavorsUnitedSpec(init, k, f);
      assert forall i :: 0 <= i < n - 1 ==> init[i] == targets[i];
      if exists i :: 0 <= i < n && k in targets[i].sectionFlavors {
        var i :| 0 <= i < n && k in targets[i].sectionFlavors;
        if i < n - 1 {
          assert k in init[i].sectionFlavors;
        }
      }
      if exists i :: 0 <= i < n && k in targets[i].sectionFlavors && f in targets[i].sectionFlavors[k] {
        var i :| 0 <= i < n && k in targets[i].sectionFlavors && f in targets[i].sectionFlavors[k];
        if i < n - 1 {
          assert k in init[i].sectionFlavors && f in init[i].sectionFlavors[k];
        }
      }
    }
  }

  /** One more dictionary adds its value, if it has the key, at the end of
      the key's column. */
  lemma {:induction false} ColumnSnoc(dicts: seq<map<string, Deps>>, d: map<string, Deps>, k: string)
    ensures Column(dicts + [d], k) == Column(dicts, k) + (if k in d then [d[k]] else [])
  {
    if |dicts| > 0 {
      assert (dicts + [d])[1..] == dicts[1..] + [d];
      ColumnSnoc(dicts[1..], d, k);
    }
  }

  /** A key no dictionary has has an empty column. */
  lemma ColumnAbsent(dicts: seq<map<string, Deps>>, k: string)
    requires forall i :: 0 <= i < |dicts| ==> k !in dicts[i]
    ensures Column(dicts, k) == []
  {
  }

  /** A section has merged dependencies exactly when some target records
      it. */
  lemma {:induction false} SectionDepsMergedKeys(targets: seq<Target>, k: string)
    ensures k in SectionDepsMerged(targets) <==> exists i :: 0 <= i < |targets| && k in targets[i].sectionDependencies
  {
    if |targets| > 0 {
      var n := |targets|;
      var init := targets[..n - 1];
      SectionDepsMergedKeys(init, k);
      assert forall i :: 0 <= i < n - 1 ==> init[i] == targets[i];
      if exists i :: 0 <= i < n && k in targets[i].sectionDependencies {
        var i :| 0 <= i < n && k in targets[i].sectionDependencies;
        if i < n - 1 {
          assert k in init[i].sectionDependencies;
        }
      }
    }
  }

  /** One more target adds its section dependencies at the end. */
  lemma SectionDepsOfSnoc(targets: seq<Target>)
    requires |targets| > 0
    ensures SectionDepsOf(targets) == SectionDepsOf(targets[..|targets| - 1]) + [targets[|targets| - 1].sectionDependencies]
  { }

  /** Merging section dependencies target by target does what
      `merge_dicts` does: a section's merged dependencies are the merge of
      that section's dependencies in every target that records it, in
      order. */
  lemma {:induction false} SectionDepsMergedSpec(targets: seq<Target>, k: string)
    requires k in SectionDepsMerged(targets)
    ensures SectionDepsMerged(targets)[k] == MergeValues(Column(SectionDepsOf(targets), k))
  {
    var n := |targets|;
    var init := targets[..n - 1];
    var t := targets[n - 1];
    var prev := SectionDepsMerged(init);
    var column := Column(SectionDepsOf(init), k);
    var full := Column(SectionDepsOf(targets), k);
    assert SectionDepsMerged(targets) == UpdateEach(prev, t.sectionDependencies);
    SectionDepsOfSnoc(targets);
    ColumnSnoc(SectionDepsOf(init), t.sectionDependencies, k);
    if k in prev {
      SectionDepsMergedSpec(init, k);
    } else {
      SectionDepsMergedKeys(init, k);
      assert forall i :: 0 <= i < |init| ==> k !in SectionDepsOf(init)[i];
      ColumnAbsent(SectionDepsOf(init), k);
    }
    if k in t.sectionDependencies {
      assert full == column + [t.sectionDependencies[k]];
      assert full[..|full| - 1] == column;
      assert MergeValues(full) == Updated(MergeValues(column), t.sectionDependencies[k]);
    } else {
      assert full == column;
    }
  }

  /** `merge_dicts` over the targets' section dependencies gives what
      `from_targets` computes. */
  lemma SectionDepsMergeDicts(targets: seq<Target>)
    requires |targets| > 0
    ensures MergeDicts(SectionDepsOf(targets)) == Ok(SectionDepsMerged(targets))
  {
    var merged := MergeDicts(SectionDepsOf(targets)).value;
    var mine := SectionDepsMerged(targets);
    SectionDepsMergedKeysAll(targets);
    SectionDepsMergedValuesAll(targets);
    SameMaps(merged, mine);
  }

  /** Maps with the same keys and the same value at each key are equal. */
  lemma SameMaps(a: map<string, Deps>, b: map<string, Deps>)
    requires a.Keys == b.Keys && forall k :: k in b ==> a[k] == b[k]
    ensures a == b
  { }

  /** `merge_dicts` and the target-by-target merge have the same key set. */
  lemma SectionDepsMergedKeysAll(targets: seq<Target>)
    requires |targets| > 0
    ensures MergeDicts(SectionDepsOf(targets)).value.Keys == SectionDepsMerged(targets).Keys
  {
    forall k ensures k in MergeDicts(SectionDepsOf(targets)).value <==> k in SectionDepsMerged(targets) {
      SectionDepsMergedKeysAgree(targets, k);
    }
  }

  /** `merge_dicts` and the target-by-target merge agree on every key. */
  lemma SectionDepsMergedValuesAll(targets: seq<Target>)
    requires |targets| > 0 && MergeDicts(SectionDepsOf(targets)).value.Keys == SectionDepsMerged(targets).Keys
    ensures forall k :: k in SectionDepsMerged(targets) ==>
              MergeDicts(SectionDepsOf(targets)).value[k] == SectionDepsMerged(targets)[k]
  {
    forall k | k in SectionDepsMerged(targets)
      ensures MergeDicts(SectionDepsOf(targets)).value[k] == SectionDepsMerged(targets)[k]
    {
      SectionDepsMergedSpec(targets, k);
    }
  }

  /** `merge_dicts` and the target-by-target merge have the same keys. */
  lemma SectionDepsMergedKeysAgree(targets: seq<Target>, k: string)
    requires |targets| > 0
    ensures k in MergeDicts(SectionDepsOf(targets)).value <==> k in SectionDepsMerged(targets)
  {
    var dicts := SectionDepsOf(targets);
    SectionDepsMergedKeys(targets, k);
    if k in MergeDicts(dicts).value {
      var i :| 0 <= i < |dicts| && k in dicts[i];
      assert k in targets[i].sectionDependencies;
    }
    if k in SectionDepsMerged(targets) {
      var i :| 0 <= i < |targets| && k in targets[i].sectionDependencies;
      assert k in dicts[i];
    }
  }

  /** One more target merged: each merge of the first `i + 1` targets
      extends the merge of the first `i` by target `i`. */
  lemma FromTargetsStep(targets: seq<Target>, i: nat)
    requires i < |targets|
    ensures MergeValues(DepsOf(targets[..i + 1])) == Updated(MergeValues(DepsOf(targets[..i])), targets[i].dependencies)
    ensures PartsOf(targets[..i + 1]) == PartsOf(targets[..i]) + targets[i].parts
    ensures SectionDepsMerged(targets[..i + 1]) == UpdateEach(SectionDepsMerged(targets[..i]), targets[i].sectionDependencies)
    ensures FlavorsUnited(targets[..i + 1]) == UniteEach(FlavorsUnited(targets[..i]), targets[i].sectionFlavors)
  {
    assert targets[..i + 1][..i] == targets[..i];
    assert DepsOf(targets[..i + 1])[..i] == DepsOf(targets[..i]);
  }

  /** `Target.from_targets`: the targets' dependencies merged, their parts
      one after the other, each section's dependencies updated target by
      target, and each section's flavors united. */
  method FromTargets(targets: seq<Target>, name: string) returns (r: Target)
    ensures r == Target(name, MergeValues(DepsOf(targets)), PartsOf(targets),
                        SectionDepsMerged(targets), FlavorsUnited(targets))
  {
    var dependencies := NoDeps;
    var parts: seq<PartSlides> := [];
    var sectionDependencies: map<string, Deps> := map[];
    var sectionFlavors: map<string, set<Yaml.Value>> := map[];
    var i := 0;
    while i < |targets|
      invariant i <= |targets|
      invariant dependencies == MergeValues(DepsOf(targets[..i]))
      invariant parts == PartsOf(targets[..i])
      invariant sectionDependencies == SectionDepsMerged(targets[..i])
      invariant sectionFlavors == FlavorsUnited(targets[..i])
    {
      var t := targets[i];
      FromTargetsStep(targets, i);
      dependencies := Updated(dependencies, t.dependencies);
      parts := parts + t.parts;
      sectionDependencies := UpdateEach(sectionDependencies, t.sectionDependencies);
      sectionFlavors := UniteEach(sectionFlavors, t.sectionFlavors);
      i := i + 1;
    }
    assert targets[..i] == targets;
    r := Target(name, dependencies, parts, sectionDependencies, sectionFlavors);
  }

  // ------------------------------------------------------------- targets

  /** `target_data["name"] == "all"`. */
  function IsReserved(data: Yaml.Value): Result<bool> {
    if !data.Map? then Err(TypeError("a target is not a mapping"))
    else match Dicts.Get(data.entries, "name")
      case None => Err(KeyError("name"))
      case Some(name) => Ok(name == Yaml.Str("all"))
  }

  /** `Targets.__post_init__`: targets are accepted exactly when none of
      them has a missing dependency. */
  function CheckTargets(targets: seq<Target>): (r: Result<seq<Target>>)
    ensures r.Err? <==> exists i :: 0 <= i < |targets| && targets[i].dependencies.missing != {}
    ensures r.Err? ==> r.error.DeckzError?
    ensures r.Ok? ==> r.value == targets
  {
    if exists i :: 0 <= i < |targets| && targets[i].dependencies.missing != {} then
      Err(DeckzError("Could not find the following dependencies"))
    else Ok(targets)
  }

  /** The targets whose name is whitelisted, in their order. */
  function KeepNamed(targets: seq<Target>, whiteset: set<string>): (r: seq<Target>)
    ensures forall t :: t in r <==> t in targets && t.name in whiteset
    ensures Decks.IsSubsequence(r, targets)
  {
    if |targets| == 0 then []
    else
      var rest := KeepNamed(targets[1..], whiteset);
      assert forall t :: t in targets <==> t == targets[0] || t in targets[1..];
      if targets[0].name in whiteset then
        assert ([targets[0]] + rest)[1..] == rest;
        [targets[0]] + rest
      else rest
  }

  /** `_filter_targets`: fails when a whitelisted name matches no target;
      otherwise keeps the whitelisted targets in their order. */
  function FilterTargets(targets: seq<Target>, whiteset: set<string>): (r: Result<seq<Target>>)
    ensures r.Err? <==> exists n :: n in whiteset && forall i :: 0 <= i < |targets| ==> targets[i].name != n
    ensures r.Err? ==> r.error.DeckzError?
    ensures r.Ok? ==> r.value == KeepNamed(targets, whiteset)
  {
    var names := set i | 0 <= i < |targets| :: targets[i].name;
    if !(whiteset <= names) then Err(DeckzError("Could not find the following targets"))
    else Ok(KeepNamed(targets, whiteset))
  }

  /** The first loop of `Targets.from_data`: the error of the first target
      data that has no name or is not a mapping, or is named `"all"`. */
  method RefuseReserved(data: seq<Yaml.Value>) returns (r: Option<Error>)
    ensures r.None? <==> forall i :: 0 <= i < |data| ==> IsReserved(data[i]) == Ok(false)
    ensures r.Some? ==>
              exists i :: 0 <= i < |data| && (forall j :: 0 <= j < i ==> IsReserved(data[j]) == Ok(false))
                          && IsReserved(data[i]) != Ok(false)
                          && r.value == (match IsReserved(data[i])
                                         case Err(e) => e
                                         case Ok(_) => DeckzError("\"all\" is a reserved target name"))
    ensures (exists i :: 0 <= i < |data| && IsReserved(data[i]) == Ok(true) &&
               forall j :: 0 <= j < i ==> IsReserved(data[j]).Ok?) ==>
              r.Some? && r.value.DeckzError?
  {
    var i := 0;
    while i < |data|
      invariant i <= |data|
      invariant forall j :: 0 <= j < i ==> IsReserved(data[j]) == Ok(false)
    {
      var reserved := IsReserved(data[i]);
      if reserved.Err? {
        return Some(reserved.error);
      }
      if reserved.value {
        return Some(DeckzError("\"all\" is a reserved target name"));
      }
      i := i + 1;
    }
    return None;
  }

  /** What `Targets.from_data` gives once no target is named `"all"`:
      every target built, in order, the first failure stopping it; the
      whitelisted ones kept when there is a whitelist; then the check for
      missing dependencies. */
  function TargetsOfData(fs: Yaml.FileSystem, dirs: Dirs, data: seq<Yaml.Value>, whitelist: Option<set<string>>, depth: nat)
    : Result<seq<Target>>
  {
    var built :- MapAll(data, TargetIn(fs, dirs, depth));
    var kept :- if whitelist.Some? then FilterTargets(built, whitelist.value) else Ok(built);
    CheckTargets(kept)
  }

  /** `Targets.from_data`: every target's data is checked for the reserved
      name `"all"` before any target is built; then each target is built by
      `TargetOf`, filtered by the whitelist when there is one, and the result
      checked for missing dependencies. */
  method FromData(fs: Yaml.FileSystem, dirs: Dirs, data: seq<Yaml.Value>, whitelist: Option<set<string>>, depth: nat)
    returns (r: Result<seq<Target>>)
    ensures (exists i :: 0 <= i < |data| && IsReserved(data[i]) == Ok(true) &&
               forall j :: 0 <= j < i ==> IsReserved(data[j]).Ok?) ==>
              r.Err? && r.error.DeckzError?
    ensures r.Ok? ==> forall i :: 0 <= i < |data| ==> IsReserved(data[i]) == Ok(false)
    ensures (forall i :: 0 <= i < |data| ==> IsReserved(data[i]) == Ok(false)) ==>
              r == TargetsOfData(fs, dirs, data, whitelist, depth)
    ensures forall i ::
              (0 <= i < |data| && IsReserved(data[i]).Err? && forall j :: 0 <= j < i ==> IsReserved(data[j]) == Ok(false))
              ==> r == Err(IsReserved(data[i]).error)
    ensures r.Ok? ==> MapAll(data, TargetIn(fs, dirs, depth)).Ok?
    ensures r.Ok? && whitelist.None? ==> r == CheckTargets(MapAll(data, TargetIn(fs, dirs, depth)).value)
    ensures r.Ok? && whitelist.Some? ==>
              && FilterTargets(MapAll(data, TargetIn(fs, dirs, depth)).value, whitelist.value).Ok?
              && r == CheckTargets(FilterTargets(MapAll(data, TargetIn(fs, dirs, depth)).value, whitelist.value).value)
    ensures r.Ok? ==> forall i :: 0 <= i < |r.value| ==> r.value[i].dependencies.missing == {}
  {
    var refused := RefuseReserved(data);
    if refused.Some? {
      forall i | 0 <= i < |data| && IsReserved(data[i]).Err? && forall j :: 0 <= j < i ==> IsReserved(data[j]) == Ok(false)
        ensures refused.value == IsReserved(data[i]).error
      {
        var k :| 0 <= k < |data| && (forall j :: 0 <= j < k ==> IsReserved(data[j]) == Ok(false))
                 && IsReserved(data[k]) != Ok(false)
                 && refused.value == (match IsReserved(data[k])
                                      case Err(e) => e
                                      case Ok(_) => DeckzError("\"all\" is a reserved target name"));
        assert k == i;
      }
      return Err(refused.value);
    }
    var built := MapAll(data, TargetIn(fs, dirs, depth));
    if built.Err? {
      return Err(built.error);
    }
    var targets := built.value;
    if whitelist.Some? {
      var filtered := FilterTargets(targets, whitelist.value);
      if filtered.Err? {
        return Err(filtered.error);
      }
      targets := filtered.value;
    }
    r := CheckTargets(targets);
  }
}
