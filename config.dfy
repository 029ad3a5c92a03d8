/** The configuration of a deck: five YAML layers (session, deck, company,
    user, global) read as a chain in which the first layer holding a key
    gives its value, whole, and the result ordered by key.  Every layer
    but the session one must exist; a missing one is created from its
    template when there is one, and the run stops either way. */
module Config {
  import opened Common
  import Dicts
  import Paths
  import Yaml
  import Utils

  type Mapping = Dicts.Dict<string, Yaml.Value>

  /** Where `shutil.copy(template, config)` writes: into `config` itself,
      or below it when it is a directory. */
  function CopyTarget(fs: Yaml.FileSystem, config: Paths.Path, template: Paths.Path): seq<string> {
    if Yaml.IsDir(fs, config.parts) then config.parts + [Paths.Name(template)] else config.parts
  }

  /** Whether every proper ancestor of `target`, the root aside, is a
      directory, so that `open(target, "wb")` can reach its parent. */
  predicate AncestorsAreDirs(fs: Yaml.FileSystem, target: seq<string>) {
    forall j :: 1 <= j < |target| ==> Yaml.IsDir(fs, target[..j])
  }

  /** Whether the first proper ancestor of `target` that is not a
      directory is a regular file: opening `target` then fails with
      `NotADirectoryError` rather than `FileNotFoundError`. */
  predicate BlockedByFile(fs: Yaml.FileSystem, target: seq<string>) {
    exists k :: 1 <= k < |target| && Yaml.IsFile(fs, target[..k])
                && forall j :: 1 <= j < k ==> Yaml.IsDir(fs, target[..j])
  }

  /** The length of the first prefix of `target`, from length `from` on,
      that is not a directory, as the path lookup of `open` meets it. */
  function FirstNonDir(fs: Yaml.FileSystem, target: seq<string>, from: nat): (k: nat)
    decreases |target| - from
    ensures from <= k
    ensures k < |target| ==> !Yaml.IsDir(fs, target[..k])
    ensures forall j :: from <= j < k && j < |target| ==> Yaml.IsDir(fs, target[..j])
  {
    if from >= |target| || !Yaml.IsDir(fs, target[..from]) then from
    else FirstNonDir(fs, target, from + 1)
  }

  /** The error `open(target, "wb")` raises when some ancestor is not a
      directory: the first such ancestor decides between a regular file
      in the way and a missing directory. */
  function AncestorError(fs: Yaml.FileSystem, target: seq<string>): (e: Error)
    requires !AncestorsAreDirs(fs, target)
    ensures e == (if BlockedByFile(fs, target) then NotADirectoryError(Utils.Show(target))
                  else FileNotFoundError(Utils.Show(target)))
  {
    var k := FirstNonDir(fs, target, 1);
    assert k < |target|;
    if Yaml.IsFile(fs, target[..k]) then NotADirectoryError(Utils.Show(target))
    else
      assert !BlockedByFile(fs, target) by {
        forall k' | 1 <= k' < |target| && Yaml.IsFile(fs, target[..k'])
          ensures !forall j :: 1 <= j < k' ==> Yaml.IsDir(fs, target[..j])
        {
          if k' < k {
          } else {
            assert k' != k;
            assert !Yaml.IsDir(fs, target[..k]);
          }
        }
      }
      FileNotFoundError(Utils.Show(target))
  }

  /** Whether `shutil.copy(template, config)` writes the template: it is a
      regular file, and its target is neither the template itself nor a
      directory, below ancestors that are all directories. */
  predicate Copyable(fs: Yaml.FileSystem, config: Paths.Path, template: Paths.Path) {
    var target := CopyTarget(fs, config, template);
    Yaml.IsFile(fs, template.parts) && target != template.parts && !Yaml.IsDir(fs, target) && AncestorsAreDirs(fs, target)
  }

  /** `_get_or_create_config(config_path, template_path)`: the new file
      system and the document read from `config`, whatever its type; a
      missing file without template is an empty mapping.  A missing file
      with a template is an error: `DeckzError` once the template is
      copied, the error `shutil.copy` raises when it cannot be (the target
      is the template or a directory, or one of its ancestors is a regular
      file or missing), and
      `DeckzError` when there is no template file. */
  function GetOrCreateConfig(fs: Yaml.FileSystem, config: Paths.Path, template: Option<Paths.Path>)
    : (r: (Yaml.FileSystem, Result<Yaml.Value>))
    ensures r.1.Ok? ==> r.0 == fs
    ensures Yaml.IsFile(fs, config.parts) ==> r.0 == fs
    ensures Yaml.IsFile(fs, config.parts) ==> (r.1.Ok? <==> fs[config.parts].content.Some?)
    ensures Yaml.IsFile(fs, config.parts) && r.1.Ok? ==> r.1.value == fs[config.parts].content.value
    ensures !Yaml.IsFile(fs, config.parts) && template.None? ==> r == (fs, Ok(Yaml.Map([])))
    ensures !Yaml.IsFile(fs, config.parts) && template.Some? ==> r.1.Err?
    ensures !Yaml.IsFile(fs, config.parts) && template.Some? && !Yaml.IsFile(fs, template.value.parts) ==>
              r == (fs, Err(DeckzError("neither " + Paths.ToString(config) + " nor " + Paths.ToString(template.value)
                                       + " were found. Please create both")))
    ensures !Yaml.IsFile(fs, config.parts) && template.Some? && Copyable(fs, config, template.value) ==>
              r.0 == fs[CopyTarget(fs, config, template.value) := fs[template.value.parts]]
              && r.1.error.DeckzError?
    ensures !Yaml.IsFile(fs, config.parts) && template.Some? && Yaml.IsFile(fs, template.value.parts)
            && !Copyable(fs, config, template.value) ==>
              var target := CopyTarget(fs, config, template.value);
              && r.0 == fs
              && r.1.error == (if target == template.value.parts then SameFileError(Utils.Show(target))
                               else if Yaml.IsDir(fs, target) then IsADirectoryError(Utils.Show(target))
                               else if BlockedByFile(fs, target) then NotADirectoryError(Utils.Show(target))
                               else FileNotFoundError(Utils.Show(target)))
  {
    if !Yaml.IsFile(fs, config.parts) then
      match template
      case None => (fs, Ok(Yaml.Map([])))
      case Some(t) =>
        if Yaml.IsFile(fs, t.parts) then
          var target := CopyTarget(fs, config, t);
          if target == t.parts then (fs, Err(SameFileError(Utils.Show(target))))
          else if Yaml.IsDir(fs, target) then (fs, Err(IsADirectoryError(Utils.Show(target))))
          else if AncestorsAreDirs(fs, target) then
            (fs[target := fs[t.parts]],
             Err(DeckzError(Paths.ToString(config) + " was not found, copied " + Paths.ToString(t) + " there. Please edit it")))
          else (fs, Err(AncestorError(fs, target)))
        else
          (fs, Err(DeckzError("neither " + Paths.ToString(config) + " nor " + Paths.ToString(t)
                              + " were found. Please create both")))
    else (fs, Yaml.Load(fs, config))
  }

  /** A regular file in place of the target's directory: `shutil.copy`
      of `t.yml` to `a/deck-config.yml`, with `a` a regular file, fails
      with `NotADirectoryError` and changes nothing. */
  lemma FileAncestorNotADirectory(fs: Yaml.FileSystem)
    requires fs == map[["a"] := Yaml.File(None), ["t.yml"] := Yaml.File(None)]
    ensures GetOrCreateConfig(fs, Paths.Path(false, ["a", "deck-config.yml"]), Some(Paths.Path(false, ["t.yml"])))
         == (fs, Err(NotADirectoryError(Utils.Show(["a", "deck-config.yml"]))))
  {
    var target := ["a", "deck-config.yml"];
    assert target[..1] == ["a"];
    assert BlockedByFile(fs, target);
  }

  /** The configuration files of a deck and their templates. */
  datatype ConfigPaths = ConfigPaths(
    sessionConfig: Paths.Path,
    deckConfig: Paths.Path, templateDeckConfig: Paths.Path,
    companyConfig: Paths.Path, templateCompanyConfig: Paths.Path,
    userConfig: Paths.Path, templateUserConfig: Paths.Path,
    globalConfig: Paths.Path, templateGlobalConfig: Paths.Path)

  /** The layers, first one winning: each file with its template. */
  function Layers(paths: ConfigPaths): (r: seq<(Paths.Path, Option<Paths.Path>)>)
    ensures |r| == 5 && r[0].1.None? && forall i :: 1 <= i < 5 ==> r[i].1.Some?
  {
    [(paths.sessionConfig, None),
     (paths.deckConfig, Some(paths.templateDeckConfig)),
     (paths.companyConfig, Some(paths.templateCompanyConfig)),
     (paths.userConfig, Some(paths.templateUserConfig)),
     (paths.globalConfig, Some(paths.templateGlobalConfig))]
  }

  /** Unpacking the generator of layers: each layer is read in order,
      whatever document it holds; the first failure stops the reading and
      keeps what it did to the file system. */
  function LoadLayers(fs: Yaml.FileSystem, layers: seq<(Paths.Path, Option<Paths.Path>)>)
    : (r: (Yaml.FileSystem, Result<seq<Yaml.Value>>))
    ensures r.1.Ok? ==> r.0 == fs && |r.1.value| == |layers|
    ensures r.1.Ok? ==> forall i :: 0 <= i < |layers| ==> GetOrCreateConfig(fs, layers[i].0, layers[i].1) == (fs, Ok(r.1.value[i]))
  {
    if |layers| == 0 then (fs, Ok([]))
    else
      var first := GetOrCreateConfig(fs, layers[0].0, layers[0].1);
      if first.1.Err? then (first.0, Err(first.1.error))
      else
        var rest := LoadLayers(first.0, layers[1..]);
        if rest.1.Err? then (rest.0, Err(rest.1.error))
        else (rest.0, Ok([first.1.value] + rest.1.value))
  }

  /** A failed reading of the layers is the failure of the first layer
      that fails, every layer before it having been read without touching
      the file system. */
  lemma {:induction false} LoadLayersFailure(fs: Yaml.FileSystem, layers: seq<(Paths.Path, Option<Paths.Path>)>)
    requires LoadLayers(fs, layers).1.Err?
    ensures exists i :: 0 <= i < |layers|
              && (forall j :: 0 <= j < i ==> GetOrCreateConfig(fs, layers[j].0, layers[j].1).1.Ok?)
              && GetOrCreateConfig(fs, layers[i].0, layers[i].1).1.Err?
              && LoadLayers(fs, layers) == (GetOrCreateConfig(fs, layers[i].0, layers[i].1).0,
                                             Err(GetOrCreateConfig(fs, layers[i].0, layers[i].1).1.error))
  {
    var first := GetOrCreateConfig(fs, layers[0].0, layers[0].1);
    if first.1.Ok? {
      LoadLayersFailure(fs, layers[1..]);
      var i :| 0 <= i < |layers[1..]|
               && (forall j :: 0 <= j < i ==> GetOrCreateConfig(fs, layers[1..][j].0, layers[1..][j].1).1.Ok?)
               && GetOrCreateConfig(fs, layers[1..][i].0, layers[1..][i].1).1.Err?
               && LoadLayers(fs, layers[1..]) == (GetOrCreateConfig(fs, layers[1..][i].0, layers[1..][i].1).0,
                                                  Err(GetOrCreateConfig(fs, layers[1..][i].0, layers[1..][i].1).1.error));
      assert layers[i + 1] == layers[1..][i];
      forall j | 0 <= j < i + 1 ensures GetOrCreateConfig(fs, layers[j].0, layers[j].1).1.Ok? {
        if j > 0 {
          assert layers[j] == layers[1..][j - 1];
        }
      }
    }
  }

  /** The layers of a successful reading. */
  function ReadLayers(fs: Yaml.FileSystem, paths: ConfigPaths): seq<Yaml.Value>
    requires LoadLayers(fs, Layers(paths)).1.Ok?
  {
    LoadLayers(fs, Layers(paths)).1.value
  }

  /** `get_config(settings)`: the file system afterwards and the
      configuration.  Every layer is read (and a missing one created)
      before the chain is iterated; then every key is looked up, so a
      layer that is not a mapping fails unless every key of the layers
      after it is held by a mapping before it. */
  function GetConfig(fs: Yaml.FileSystem, paths: ConfigPaths): (r: (Yaml.FileSystem, Result<Mapping>))
    ensures r.1.Ok? ==> r.0 == fs && LoadLayers(fs, Layers(paths)).1.Ok?
                        && Yaml.ChainLayers(ReadLayers(fs, paths)).Ok?
                        && Yaml.ChainItems(ReadLayers(fs, paths)).Ok?
    ensures LoadLayers(fs, Layers(paths)).1.Ok? ==>
              (r.1.Ok? <==> Yaml.ChainLayers(ReadLayers(fs, paths)).Ok?
                            && forall i :: 0 <= i < 5 && !ReadLayers(fs, paths)[i].Map? ==>
                                 Yaml.Shadowed(ReadLayers(fs, paths), i))
    ensures r.1.Ok? ==> Dicts.SortedByKey(r.1.value)
    ensures LoadLayers(fs, Layers(paths)).1.Ok? && r.1.Err? ==> r.0 == fs && r.1.error.TypeError?
  {
    var loaded := LoadLayers(fs, Layers(paths));
    match loaded.1
    case Err(e) => (loaded.0, Err(e))
    case Ok(values) =>
      match Yaml.ChainItems(values)
      case Err(e) => (fs, Err(e))
      case Ok(chain) =>
        Dicts.SortByKeySorted(chain);
        (fs, Ok(Dicts.SortByKey(chain)))
  }

  /** A layer that is not a mapping does not stop the reading: a session
      file holding `null` still lets a missing deck file be copied from its
      template, and the run stops on that copy's `DeckzError`. */
  lemma NullLayerStillCreates(fs: Yaml.FileSystem, paths: ConfigPaths)
    requires Yaml.IsFile(fs, paths.sessionConfig.parts) && fs[paths.sessionConfig.parts].content == Some(Yaml.Null)
    requires !Yaml.IsFile(fs, paths.deckConfig.parts) && Copyable(fs, paths.deckConfig, paths.templateDeckConfig)
    ensures GetConfig(fs, paths).0
         == fs[CopyTarget(fs, paths.deckConfig, paths.templateDeckConfig) := fs[paths.templateDeckConfig.parts]]
    ensures GetConfig(fs, paths).1.Err? && GetConfig(fs, paths).1.error.DeckzError?
  {
    var layers := Layers(paths);
    assert GetOrCreateConfig(fs, layers[0].0, layers[0].1) == (fs, Ok(Yaml.Null));
    var deck := GetOrCreateConfig(fs, paths.deckConfig, Some(paths.templateDeckConfig));
    assert layers[1..][0] == layers[1];
    assert LoadLayers(fs, layers[1..]) == (deck.0, Err(deck.1.error));
    assert LoadLayers(fs, layers) == (deck.0, Err(deck.1.error));
  }

  /** When every layer reads, a layer holding `null`, a boolean or an
      integer makes the iteration of the chain fail with `TypeError`,
      and nothing was written. */
  lemma NotIterableLayerFails(fs: Yaml.FileSystem, paths: ConfigPaths, i: nat)
    requires LoadLayers(fs, Layers(paths)).1.Ok?
    requires i < 5 && Yaml.NotIterable(ReadLayers(fs, paths)[i])
    ensures GetConfig(fs, paths).0 == fs
    ensures GetConfig(fs, paths).1.Err? && GetConfig(fs, paths).1.error.TypeError?
  {
    assert Yaml.AsLayer(ReadLayers(fs, paths)[i]).Err?;
  }

  /** A session file holding an empty list or string is the first layer
      looked up, so any key of a later mapping makes the lookup index it
      and fail with `TypeError`. */
  lemma EmptySessionFails(fs: Yaml.FileSystem, paths: ConfigPaths, j: nat)
    requires LoadLayers(fs, Layers(paths)).1.Ok?
    requires ReadLayers(fs, paths)[0] == Yaml.List([]) || ReadLayers(fs, paths)[0] == Yaml.Str("")
    requires 0 < j < 5 && ReadLayers(fs, paths)[j].Map? && |ReadLayers(fs, paths)[j].entries| > 0
    ensures GetConfig(fs, paths).0 == fs
    ensures GetConfig(fs, paths).1.Err? && GetConfig(fs, paths).1.error.TypeError?
  {
    var values := ReadLayers(fs, paths);
    var k := values[j].entries[0].0;
    assert k in Dicts.Keys(values[j].entries);
    assert !Yaml.Shadowed(values, 0);
  }

  /** The configuration exists only when the deck, company, user and
      global files all exist. */
  lemma GetConfigNeedsLayers(fs: Yaml.FileSystem, paths: ConfigPaths)
    requires GetConfig(fs, paths).1.Ok?
    ensures Yaml.IsFile(fs, paths.deckConfig.parts) && Yaml.IsFile(fs, paths.companyConfig.parts)
    ensures Yaml.IsFile(fs, paths.userConfig.parts) && Yaml.IsFile(fs, paths.globalConfig.parts)
  {
    var layers := Layers(paths);
    var loaded := LoadLayers(fs, layers).1.value;
    assert GetOrCreateConfig(fs, paths.deckConfig, Some(paths.templateDeckConfig)).1 == Ok(loaded[1]);
    assert GetOrCreateConfig(fs, paths.companyConfig, Some(paths.templateCompanyConfig)).1 == Ok(loaded[2]);
    assert GetOrCreateConfig(fs, paths.userConfig, Some(paths.templateUserConfig)).1 == Ok(loaded[3]);
    assert GetOrCreateConfig(fs, paths.globalConfig, Some(paths.templateGlobalConfig)).1 == Ok(loaded[4]);
  }

  /** A missing session file is an empty layer. */
  lemma GetConfigSessionOptional(fs: Yaml.FileSystem, paths: ConfigPaths)
    requires !Yaml.IsFile(fs, paths.sessionConfig.parts)
    ensures LoadLayers(fs, Layers(paths)).1.Ok? ==> ReadLayers(fs, paths)[0] == Yaml.Map([])
    ensures LoadLayers(fs, Layers(paths)) ==
            (var rest := LoadLayers(fs, Layers(paths)[1..]);
             if rest.1.Err? then rest else (fs, Ok([Yaml.Map([])] + rest.1.value)))
  {
  }

  /** A successful configuration is built from layers that are each a
      mapping, or an empty list or string that no lookup reaches. */
  function ChainedLayers(fs: Yaml.FileSystem, paths: ConfigPaths): (r: seq<Mapping>)
    requires GetConfig(fs, paths).1.Ok?
    ensures |r| == 5
    ensures forall i :: 0 <= i < 5 ==> Yaml.AsLayer(ReadLayers(fs, paths)[i]) == Ok(r[i])
  {
    Yaml.ChainLayers(ReadLayers(fs, paths)).value
  }

  /** The layers of a configuration read from a file system whose mappings
      have distinct keys all have distinct keys. */
  lemma LayersUnique(fs: Yaml.FileSystem, paths: ConfigPaths)
    requires Yaml.DistinctKeys(fs)
    requires GetConfig(fs, paths).1.Ok?
    ensures forall j :: 0 <= j < 5 ==> Dicts.Unique(ChainedLayers(fs, paths)[j])
  {
    var values := ReadLayers(fs, paths);
    var layers := ChainedLayers(fs, paths);
    forall j | 0 <= j < 5 ensures Dicts.Unique(layers[j]) {
      var l := Layers(paths)[j];
      assert GetOrCreateConfig(fs, l.0, l.1).1 == Ok(values[j]);
      if !Yaml.IsFile(fs, l.0.parts) {
        assert values[j] == Yaml.Map([]);
      }
    }
  }

  /** The configuration is the chain of its layers, ordered by key. */
  lemma GetConfigChain(fs: Yaml.FileSystem, paths: ConfigPaths)
    requires GetConfig(fs, paths).1.Ok?
    ensures GetConfig(fs, paths).1.value == Dicts.SortByKey(Dicts.ChainMap(ChainedLayers(fs, paths)))
  {
  }

  /** The keys of the configuration are those of its layers, and a key
      takes its value from the first layer that has it: session, deck,
      company, user, then global. */
  lemma GetConfigLayering(fs: Yaml.FileSystem, paths: ConfigPaths, i: nat, k: string)
    requires Yaml.DistinctKeys(fs)
    requires GetConfig(fs, paths).1.Ok?
    requires i < 5
    ensures var layers := ChainedLayers(fs, paths);
            && (k in Dicts.Keys(GetConfig(fs, paths).1.value) <==> exists j :: 0 <= j < 5 && k in Dicts.Keys(layers[j]))
            && (k in Dicts.Keys(layers[i]) && (forall j :: 0 <= j < i ==> k !in Dicts.Keys(layers[j])) ==>
                  Dicts.Get(GetConfig(fs, paths).1.value, k) == Dicts.Get(layers[i], k))
  {
    var layers := ChainedLayers(fs, paths);
    LayersUnique(fs, paths);
    GetConfigChain(fs, paths);
    var chain := Dicts.ChainMap(layers);
    Dicts.SortByKeyGet(chain, k);
    Dicts.ChainMapKeys(layers, k);
    if k in Dicts.Keys(layers[i]) && (forall j :: 0 <= j < i ==> k !in Dicts.Keys(layers[j])) {
      Dicts.ChainMapGet(layers, i, k);
    }
  }
}
