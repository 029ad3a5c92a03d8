/** The global settings of a repository: localized default values for
    image metadata, the location of a deck's company configuration, and
    the settings document merged from the `deckz.yml` files found from the
    git directory down to the settings path. */
module Settings {
  import opened Common
  import Dicts
  import Paths
  import Yaml
  import Utils
  import Strings

  /** `LocalizedValues`: replacement texts for French, for English, and
      for every language. */
  datatype LocalizedValues = LocalizedValues(
    fr: Dicts.Dict<string, string>,
    en: Dicts.Dict<string, string>,
    all: Dicts.Dict<string, string>)

  /** `LocalizedValues.get_default(value, lang)`: the table of the
      language, when it is French or English and has the value, then the
      table for every language, then the value itself. */
  function GetDefault(values: LocalizedValues, value: string, lang: string): (r: string)
    ensures lang == "fr" && value in Dicts.Keys(values.fr) ==> Dicts.Get(values.fr, value) == Some(r)
    ensures lang == "en" && value in Dicts.Keys(values.en) ==> Dicts.Get(values.en, value) == Some(r)
    ensures !(lang == "fr" && value in Dicts.Keys(values.fr)) && !(lang == "en" && value in Dicts.Keys(values.en)) ==>
              if value in Dicts.Keys(values.all) then Dicts.Get(values.all, value) == Some(r) else r == value
  {
    if lang == "fr" && value in Dicts.Keys(values.fr) then Dicts.Get(values.fr, value).value
    else if lang == "en" && value in Dicts.Keys(values.en) then Dicts.Get(values.en, value).value
    else match Dicts.Get(values.all, value)
      case Some(v) => v
      case None => value
  }

  /** `DefaultImageValues`: the replacement texts for each field of an
      image's metadata. */
  datatype DefaultImageValues = DefaultImageValues(
    license: LocalizedValues,
    author: LocalizedValues,
    title: LocalizedValues)

  /** A language other than French and English only sees the table for
      every language. */
  lemma GetDefaultOtherLanguage(values: LocalizedValues, value: string, lang: string)
    requires lang != "fr" && lang != "en"
    ensures GetDefault(values, value, lang) == GetDefault(LocalizedValues([], [], values.all), value, "fr")
  {
  }

  /** `_company_config_factory`: the company configuration of a deck is
      `company-config.yml` in the first directory below the git directory
      on the way to the current one, which must be at least two levels
      below the git directory. */
  function CompanyConfig(git: Paths.Path, current: Paths.Path): (r: Result<Paths.Path>)
    ensures r.Ok? <==> Paths.IsRelativeTo(current, git) && |current.parts| >= |git.parts| + 2
    ensures !Paths.IsRelativeTo(current, git) ==> r == Err(Utils.NotInSubpath(current, git))
    ensures Paths.IsRelativeTo(current, git) && |current.parts| < |git.parts| + 2 ==> r.Err? && r.error.DeckzError?
    ensures r.Ok? ==>
              && r.value == Paths.Path(git.rooted, git.parts + [current.parts[|git.parts|], "company-config.yml"])
              && Paths.IsRelativeTo(current, Paths.Parent(r.value))
              && Paths.Parent(Paths.Parent(r.value)) == git
  {
    match Paths.RelativeTo(current, git)
    case None => Err(Utils.NotInSubpath(current, git))
    case Some(rel) =>
      if |rel.parts| < 2 then
        Err(DeckzError("not deep enough from root " + Paths.ToString(git)
                       + ". Please follow the directory hierarchy root > company > deck and "
                       + "invoke this tool from the deck directory"))
      else
        var company := git.parts + [rel.parts[0]];
        assert current.parts[..|company|] == company;
        Ok(Paths.Path(git.rooted, company + ["company-config.yml"]))
  }

  /** `_load_all_ymls(start, end, name)`: the files called `name` in the
      directories from `start` down to `end`, in that order. */
  function SettingsFiles(fs: Yaml.FileSystem, start: Paths.Path, end: Paths.Path, name: string)
    : (r: Result<seq<Paths.Path>>)
    ensures r.Ok? <==> Paths.IsRelativeTo(end, start)
  {
    var dirs :- Utils.IntermediateDirsOf(start, end);
    Ok(Yaml.ExistingFiles(fs, dirs, name))
  }

  /** `content["paths"]["current_dir"] = path` unless the key is there,
      on whatever `content["paths"]` holds: `in` is a key test on a
      mapping, a substring test on a string and a membership test on a
      list, and only a mapping accepts the assignment. */
  function InjectCurrentDir(paths: Yaml.Value, current: Paths.Path): (r: Result<Yaml.Value>)
    ensures paths.Map? ==> r.Ok? && r.value.Map?
    ensures Yaml.HasKey(paths, "current_dir") ==> r == Ok(paths)
    ensures paths.Map? && !Yaml.HasKey(paths, "current_dir") ==>
              r == Ok(Yaml.Map(paths.entries + [("current_dir", Yaml.Str(Paths.ToString(current)))]))
    ensures !paths.Map? && !paths.Str? && !paths.List? ==> r.Err?
  {
    match paths
    case Map(entries) =>
      if "current_dir" in Dicts.Keys(entries) then Ok(paths)
      else Ok(Yaml.Map(Dicts.Put(entries, "current_dir", Yaml.Str(Paths.ToString(current)))))
    case Str(s) =>
      if Strings.Contains(s, "current_dir") then Ok(paths)
      else Err(TypeError("'str' object does not support item assignment"))
    case List(items) =>
      if Yaml.Str("current_dir") in items then Ok(paths)
      else Err(TypeError("list indices must be integers or slices, not str"))
    case _ => Err(TypeError("argument is not iterable"))
  }

  /** `GlobalSettings.from_yaml(path)` up to validation: the document the
      settings are validated from, for the git directory `git`. */
  function FromYaml(fs: Yaml.FileSystem, path: Paths.Path, git: Paths.Path): (r: Result<Dicts.Dict<string, Yaml.Value>>)
    ensures !Paths.IsRelativeTo(path, git) ==>
              r == Err(DeckzError(Paths.ToString(path) + " is not relative to " + Paths.ToString(git)
                                  + ", cannot load settings"))
    ensures r.Ok? ==> "paths" in Dicts.Keys(r.value)
  {
    if !Paths.IsRelativeTo(path, git) then
      Err(DeckzError(Paths.ToString(path) + " is not relative to " + Paths.ToString(git) + ", cannot load settings"))
    else
      var files := SettingsFiles(fs, git, path, "deckz.yml").value;
      var content :- Yaml.MergeFiles(fs, files);
      WithCurrentDir(content, path)
  }

  /** `content.setdefault("paths", {})` followed by the injection of the
      current directory. */
  function WithCurrentDir(content: Dicts.Dict<string, Yaml.Value>, path: Paths.Path): (r: Result<Dicts.Dict<string, Yaml.Value>>)
    ensures r.Ok? ==> "paths" in Dicts.Keys(r.value)
  {
    var withPaths := if "paths" in Dicts.Keys(content) then content else Dicts.Put(content, "paths", Yaml.Map([]));
    var paths := Dicts.Get(withPaths, "paths").value;
    var injected :- InjectCurrentDir(paths, path);
    Ok(Dicts.Put(withPaths, "paths", injected))
  }

  /** Outside `paths` the document is unchanged; a missing `paths` becomes
      a mapping holding only `current_dir`, and one that has `current_dir`
      is kept. */
  lemma WithCurrentDirGet(content: Dicts.Dict<string, Yaml.Value>, path: Paths.Path, k: string)
    ensures var r := WithCurrentDir(content, path);
            && (r.Ok? && k != "paths" ==> Dicts.Get(r.value, k) == Dicts.Get(content, k))
            && (r.Ok? && "paths" !in Dicts.Keys(content) ==>
                  Dicts.Get(r.value, "paths") == Some(Yaml.Map([("current_dir", Yaml.Str(Paths.ToString(path)))])))
            && (r.Ok? && "paths" in Dicts.Keys(content) && Yaml.HasKey(Dicts.Get(content, "paths").value, "current_dir") ==>
                  Dicts.Get(r.value, "paths") == Dicts.Get(content, "paths"))
  {
    var withPaths := if "paths" in Dicts.Keys(content) then content else Dicts.Put(content, "paths", Yaml.Map([]));
    Dicts.PutGet(content, "paths", Yaml.Map([]), k);
    Dicts.PutGet(content, "paths", Yaml.Map([]), "paths");
    var paths := Dicts.Get(withPaths, "paths").value;
    var injected := InjectCurrentDir(paths, path);
    if injected.Ok? {
      Dicts.PutGet(withPaths, "paths", injected.value, k);
      Dicts.PutGet(withPaths, "paths", injected.value, "paths");
    }
  }

  /** Outside `paths`, the settings document is the merge of the
      `deckz.yml` files, a deeper file replacing the whole value of a key;
      `paths` gets `current_dir` only when it lacks one. */
  lemma FromYamlContent(fs: Yaml.FileSystem, path: Paths.Path, git: Paths.Path, k: string)
    requires Yaml.DistinctKeys(fs)
    requires Paths.IsRelativeTo(path, git)
    ensures var files := SettingsFiles(fs, git, path, "deckz.yml").value;
            var merged := Yaml.MergeFiles(fs, files);
            var r := FromYaml(fs, path, git);
            && (merged.Err? ==> r == Err(merged.error))
            && (r.Ok? && k != "paths" ==> Dicts.Get(r.value, k) == Dicts.Get(merged.value, k))
            && (r.Ok? && "paths" !in Dicts.Keys(merged.value) ==>
                  Dicts.Get(r.value, "paths") == Some(Yaml.Map([("current_dir", Yaml.Str(Paths.ToString(path)))])))
            && (r.Ok? && "paths" in Dicts.Keys(merged.value) && Yaml.HasKey(Dicts.Get(merged.value, "paths").value, "current_dir") ==>
                  Dicts.Get(r.value, "paths") == Dicts.Get(merged.value, "paths"))
  {
    var merged := Yaml.MergeFiles(fs, SettingsFiles(fs, git, path, "deckz.yml").value);
    if merged.Ok? {
      WithCurrentDirGet(merged.value, path, k);
    }
  }
}
