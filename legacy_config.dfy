/** The configuration of the first deckz tree (`deckz/config.py`): five
    YAML layers chained with the GLOBAL layer first, so that global beats
    user, company, deck and session, the opposite of `Config`.  A missing
    layer is created from the answers to its prompts before it is read, so
    every layer contributes. */
module LegacyConfig {
  import opened Common
  import Dicts
  import Paths
  import Yaml

  type Mapping = Dicts.Dict<string, Yaml.Value>

  /** The keys each `_create_*_config` prompts for. */
  const GlobalKeys: seq<string> := ["presentation_size"]
  const UserKeys: seq<string> :=
    ["trainer_name", "trainer_email", "trainer_activity", "trainer_specialization", "trainer_training"]
  const CompanyKeys: seq<string> := ["company_name", "company_logo", "company_logo_height", "company_website"]
  const DeckKeys: seq<string> := ["deck_title", "deck_acronym"]
  const SessionKeys: seq<string> := ["session_start", "session_end"]

  predicate Distinct(keys: seq<string>) {
    forall i, j :: 0 <= i < j < |keys| ==> keys[i] != keys[j]
  }

  /** The mapping `_create_config` dumps: each prompted key with the text
      typed at its prompt (`answer` stands for the terminal). */
  function Created(keys: seq<string>, answer: string -> string): (r: Mapping)
    ensures |r| == |keys| && Dicts.Keys(r) == set k | k in keys
    ensures Distinct(keys) ==> Dicts.Unique(r)
    ensures forall k :: k in keys ==> Dicts.Get(r, k) == Some(Yaml.Str(answer(k)))
  {
    var r := seq(|keys|, i requires 0 <= i < |keys| => (keys[i], Yaml.Str(answer(keys[i]))));
    assert forall k :: k in keys ==> k in Dicts.Keys(r) by {
      forall k | k in keys ensures k in Dicts.Keys(r) {
        var i :| 0 <= i < |keys| && keys[i] == k;
        assert r[i].0 == k;
      }
    }
    CreatedGet(keys, answer, r);
    r
  }

  /** A key of the created mapping is bound to its answer. */
  lemma {:induction false} CreatedGet(keys: seq<string>, answer: string -> string, r: Mapping)
    requires |r| == |keys| && forall i :: 0 <= i < |keys| ==> r[i] == (keys[i], Yaml.Str(answer(keys[i])))
    ensures forall k :: k in keys ==> Dicts.Get(r, k) == Some(Yaml.Str(answer(k)))
  {
    if |keys| > 0 {
      CreatedGet(keys[1..], answer, r[1..]);
      assert forall k :: k in keys ==> k == keys[0] || k in keys[1..];
    }
  }

  /** `_get_or_create_config(create, path)`: the file system afterwards and
      the document read, whatever its type.  A path that is not a regular
      file is first written with the created mapping; writing over a
      directory fails. */
  function GetOrCreate(fs: Yaml.FileSystem, path: Paths.Path, keys: seq<string>, answer: string -> string)
    : (r: (Yaml.FileSystem, Result<Yaml.Value>))
    ensures Yaml.IsFile(fs, path.parts) ==> r.0 == fs && (r.1.Ok? <==> fs[path.parts].content.Some?)
    ensures Yaml.IsFile(fs, path.parts) && r.1.Ok? ==> r.1.value == fs[path.parts].content.value
    ensures Yaml.IsDir(fs, path.parts) ==> r == (fs, Err(IsADirectoryError(Paths.ToString(path))))
    ensures path.parts !in fs ==>
              r == (fs[path.parts := Yaml.File(Some(Yaml.Map(Created(keys, answer))))], Ok(Yaml.Map(Created(keys, answer))))
  {
    if Yaml.IsFile(fs, path.parts) then (fs, Yaml.Load(fs, path))
    else if Yaml.IsDir(fs, path.parts) then (fs, Err(IsADirectoryError(Paths.ToString(path))))
    else
      var layer := Yaml.Map(Created(keys, answer));
      (fs[path.parts := Yaml.File(Some(layer))], Ok(layer))
  }

  /** The configuration files of `deckz/config.py`. */
  datatype ConfigPaths = ConfigPaths(
    globalConfig: Paths.Path, userConfig: Paths.Path, companyConfig: Paths.Path,
    deckConfig: Paths.Path, sessionConfig: Paths.Path)

  /** The layers in the order of the chain, first one winning: each file
      with the keys prompted for when it is created. */
  function Layers(paths: ConfigPaths): (r: seq<(Paths.Path, seq<string>)>)
    ensures |r| == 5 && forall i :: 0 <= i < 5 ==> Distinct(r[i].1)
  {
    [(paths.globalConfig, GlobalKeys), (paths.userConfig, UserKeys), (paths.companyConfig, CompanyKeys),
     (paths.deckConfig, DeckKeys), (paths.sessionConfig, SessionKeys)]
  }

  /** Evaluating the arguments of `ChainMap`: the layers are read (and
      created) in order, whatever document each holds; the first failure
      stops the reading and keeps the files created before it. */
  function LoadLayers(fs: Yaml.FileSystem, layers: seq<(Paths.Path, seq<string>)>, answer: string -> string)
    : (r: (Yaml.FileSystem, Result<seq<Yaml.Value>>))
    ensures r.1.Ok? ==> |r.1.value| == |layers|
    ensures Yaml.DistinctKeys(fs) && (forall i :: 0 <= i < |layers| ==> Distinct(layers[i].1)) ==>
              && Yaml.DistinctKeys(r.0)
              && (r.1.Ok? ==> forall i :: 0 <= i < |layers| && r.1.value[i].Map? ==> Dicts.Unique(r.1.value[i].entries))
    decreases |layers|
  {
    if |layers| == 0 then (fs, Ok([]))
    else
      var first := GetOrCreate(fs, layers[0].0, layers[0].1, answer);
      if first.1.Err? then (first.0, Err(first.1.error))
      else
        var rest := LoadLayers(first.0, layers[1..], answer);
        if rest.1.Err? then (rest.0, Err(rest.1.error))
        else (rest.0, Ok([first.1.value] + rest.1.value))
  }

  /** `get_config()`: the file system afterwards and the list of pairs of
      the chained layers, sorted by key.  Every layer is read (and a
      missing one created) before the chain is iterated; then every key is
      looked up, so a layer that is not a mapping fails unless every key
      of the layers after it is held by a mapping before it. */
  function GetConfig(fs: Yaml.FileSystem, paths: ConfigPaths, answer: string -> string)
    : (r: (Yaml.FileSystem, Result<Mapping>))
    ensures r.1.Ok? ==> Dicts.SortedByKey(r.1.value)
    ensures r.1.Ok? ==> LoadLayers(fs, Layers(paths), answer).1.Ok?
                        && Yaml.ChainLayers(LoadLayers(fs, Layers(paths), answer).1.value).Ok?
                        && Yaml.ChainItems(LoadLayers(fs, Layers(paths), answer).1.value).Ok?
    ensures LoadLayers(fs, Layers(paths), answer).1.Ok? ==>
              var values := LoadLayers(fs, Layers(paths), answer).1.value;
              r.1.Ok? <==> Yaml.ChainLayers(values).Ok? && forall i :: 0 <= i < 5 && !values[i].Map? ==> Yaml.Shadowed(values, i)
    ensures LoadLayers(fs, Layers(paths), answer).1.Ok? ==> r.0 == LoadLayers(fs, Layers(paths), answer).0
    ensures LoadLayers(fs, Layers(paths), answer).1.Ok? && r.1.Err? ==> r.1.error.TypeError?
  {
    var loaded := LoadLayers(fs, Layers(paths), answer);
    match loaded.1
    case Err(e) => (loaded.0, Err(e))
    case Ok(values) =>
      match Yaml.ChainItems(values)
      case Err(e) => (loaded.0, Err(e))
      case Ok(chain) =>
        Dicts.SortByKeySorted(chain);
        (loaded.0, Ok(Dicts.SortByKey(chain)))
  }

  /** A path where a layer can be read: nothing is there yet, or a file
      holding a YAML document. */
  predicate Readable(fs: Yaml.FileSystem, p: seq<string>) {
    p !in fs || (Yaml.IsFile(fs, p) && fs[p].content.Some?)
  }

  /** A layer read once is still a file after the layers that follow it
      are read, and the reading succeeds when every layer is missing or
      holds a document. */
  lemma {:induction false} LoadLayersCreate(fs: Yaml.FileSystem, layers: seq<(Paths.Path, seq<string>)>, answer: string -> string)
    ensures var r := LoadLayers(fs, layers, answer);
            r.1.Ok? ==> forall i :: 0 <= i < |layers| ==> Yaml.IsFile(r.0, layers[i].0.parts)
    ensures (forall i :: 0 <= i < |layers| ==> Readable(fs, layers[i].0.parts)) ==> LoadLayers(fs, layers, answer).1.Ok?
    decreases |layers|
  {
    if |layers| > 0 {
      var first := GetOrCreate(fs, layers[0].0, layers[0].1, answer);
      LoadLayersCreate(first.0, layers[1..], answer);
      var r := LoadLayers(fs, layers, answer);
      if r.1.Ok? {
        assert Yaml.IsFile(first.0, layers[0].0.parts);
        KeepsFiles(first.0, layers[1..], answer, layers[0].0.parts);
        forall i | 1 <= i < |layers| ensures Yaml.IsFile(r.0, layers[i].0.parts) {
          assert layers[i] == layers[1..][i - 1];
        }
      }
      if forall i :: 0 <= i < |layers| ==> Readable(fs, layers[i].0.parts) {
        assert Readable(fs, layers[0].0.parts);
        assert first.1.Ok?;
        forall i | 0 <= i < |layers[1..]| ensures Readable(first.0, layers[1..][i].0.parts) {
          assert layers[1..][i] == layers[i + 1];
          assert Readable(fs, layers[i + 1].0.parts);
        }
      }
    }
  }

  /** Reading the layers never removes a file. */
  lemma {:induction false} KeepsFiles(fs: Yaml.FileSystem, layers: seq<(Paths.Path, seq<string>)>, answer: string -> string,
                                      p: seq<string>)
    requires Yaml.IsFile(fs, p)
    ensures Yaml.IsFile(LoadLayers(fs, layers, answer).0, p)
    decreases |layers|
  {
    if |layers| > 0 {
      var first := GetOrCreate(fs, layers[0].0, layers[0].1, answer);
      if first.1.Ok? {
        KeepsFiles(first.0, layers[1..], answer, p);
      }
    }
  }

  /** A layer whose file already holds a document is read as that
      document: creating the other layers never writes over an existing
      file. */
  lemma {:induction false} LayerValue(fs: Yaml.FileSystem, layers: seq<(Paths.Path, seq<string>)>, answer: string -> string,
                                      i: nat)
    requires LoadLayers(fs, layers, answer).1.Ok? && i < |layers|
    requires Yaml.IsFile(fs, layers[i].0.parts) && fs[layers[i].0.parts].content.Some?
    ensures LoadLayers(fs, layers, answer).1.value[i] == fs[layers[i].0.parts].content.value
    decreases |layers|
  {
    var first := GetOrCreate(fs, layers[0].0, layers[0].1, answer);
    if i > 0 {
      var p := layers[i].0.parts;
      assert first.0[p] == fs[p];
      assert layers[1..][i - 1] == layers[i];
      LayerValue(first.0, layers[1..], answer, i - 1);
    }
  }

  /** The layers a successful configuration is chained from. */
  function ChainedLayers(fs: Yaml.FileSystem, paths: ConfigPaths, answer: string -> string): (r: seq<Mapping>)
    requires GetConfig(fs, paths, answer).1.Ok?
    ensures |r| == 5
    ensures forall i :: 0 <= i < 5 ==> Yaml.AsLayer(LoadLayers(fs, Layers(paths), answer).1.value[i]) == Ok(r[i])
  {
    Yaml.ChainLayers(LoadLayers(fs, Layers(paths), answer).1.value).value
  }

  /** A configuration read successfully is the chain of its five layers,
      each with distinct keys, ordered by key. */
  lemma GetConfigChain(fs: Yaml.FileSystem, paths: ConfigPaths, answer: string -> string)
    requires Yaml.DistinctKeys(fs)
    requires GetConfig(fs, paths, answer).1.Ok?
    ensures var layers := ChainedLayers(fs, paths, answer);
            && (forall j :: 0 <= j < 5 ==> Dicts.Unique(layers[j]))
            && GetConfig(fs, paths, answer).1.value == Dicts.SortByKey(Dicts.ChainMap(layers))
  {
    var values := LoadLayers(fs, Layers(paths), answer).1.value;
    var layers := ChainedLayers(fs, paths, answer);
    forall j | 0 <= j < 5 ensures Dicts.Unique(layers[j]) {
      assert Yaml.AsLayer(values[j]) == Ok(layers[j]);
    }
  }

  /** The keys of the configuration are those of its five layers, and a
      key takes its value from the first layer that has it: global, user,
      company, deck, then session. */
  lemma GetConfigLayering(fs: Yaml.FileSystem, paths: ConfigPaths, answer: string -> string, i: nat, k: string)
    requires Yaml.DistinctKeys(fs)
    requires GetConfig(fs, paths, answer).1.Ok?
    requires i < 5
    ensures var layers := ChainedLayers(fs, paths, answer);
            && (k in Dicts.Keys(GetConfig(fs, paths, answer).1.value) <==> exists j :: 0 <= j < 5 && k in Dicts.Keys(layers[j]))
            && (k in Dicts.Keys(layers[i]) && (forall j :: 0 <= j < i ==> k !in Dicts.Keys(layers[j])) ==>
                  Dicts.Get(GetConfig(fs, paths, answer).1.value, k) == Dicts.Get(layers[i], k))
  {
    var layers := ChainedLayers(fs, paths, answer);
    GetConfigChain(fs, paths, answer);
    var chain := Dicts.ChainMap(layers);
    Dicts.SortByKeyGet(chain, k);
    Dicts.ChainMapKeys(layers, k);
    if k in Dicts.Keys(layers[i]) && (forall j :: 0 <= j < i ==> k !in Dicts.Keys(layers[j])) {
      Dicts.ChainMapGet(layers, i, k);
    }
  }

  /** A global file that was missing is created from the prompts, and
      its answer for `presentation_size` then overrides every other
      layer. */
  lemma GetConfigFreshGlobal(fs: Yaml.FileSystem, paths: ConfigPaths, answer: string -> string)
    requires Yaml.DistinctKeys(fs)
    requires paths.globalConfig.parts !in fs
    requires GetConfig(fs, paths, answer).1.Ok?
    ensures Yaml.IsFile(GetConfig(fs, paths, answer).0, paths.globalConfig.parts)
    ensures Dicts.Get(GetConfig(fs, paths, answer).1.value, "presentation_size") == Some(Yaml.Str(answer("presentation_size")))
  {
    var values := LoadLayers(fs, Layers(paths), answer).1.value;
    var layers := ChainedLayers(fs, paths, answer);
    LoadLayersCreate(fs, Layers(paths), answer);
    assert Layers(paths)[0].0 == paths.globalConfig;
    assert values[0] == Yaml.Map(Created(GlobalKeys, answer));
    assert layers[0] == Created(GlobalKeys, answer);
    assert "presentation_size" in GlobalKeys;
    GetConfigLayering(fs, paths, answer, 0, "presentation_size");
  }

  /** A session file holding `null` is read like any other layer, so the
      layers after it in the reading are still created, and the chain
      then fails with `TypeError`. */
  lemma NullSessionFails(fs: Yaml.FileSystem, paths: ConfigPaths, answer: string -> string)
    requires Yaml.IsFile(fs, paths.sessionConfig.parts) && fs[paths.sessionConfig.parts].content == Some(Yaml.Null)
    requires LoadLayers(fs, Layers(paths), answer).1.Ok?
    ensures GetConfig(fs, paths, answer).1.Err? && GetConfig(fs, paths, answer).1.error.TypeError?
    ensures GetConfig(fs, paths, answer).0 == LoadLayers(fs, Layers(paths), answer).0
  {
    var values := LoadLayers(fs, Layers(paths), answer).1.value;
    LoadLayersCreate(fs, Layers(paths), answer);
    assert Layers(paths)[4].0 == paths.sessionConfig;
    LayerValue(fs, Layers(paths), answer, 4);
    assert values[4] == Yaml.Null;
    assert Yaml.AsLayer(values[4]).Err?;
  }

  /** A session file holding an empty list or string is the last layer
      looked up, and every key reaches a mapping before it, so the
      configuration is read when the other layers are mappings. */
  lemma EmptySessionHarmless(fs: Yaml.FileSystem, paths: ConfigPaths, answer: string -> string)
    requires LoadLayers(fs, Layers(paths), answer).1.Ok?
    requires var values := LoadLayers(fs, Layers(paths), answer).1.value;
             && (forall i :: 0 <= i < 4 ==> values[i].Map?)
             && (values[4] == Yaml.List([]) || values[4] == Yaml.Str(""))
    ensures GetConfig(fs, paths, answer).1.Ok?
  {
    var values := LoadLayers(fs, Layers(paths), answer).1.value;
    assert forall i :: 0 <= i < 5 ==> Yaml.AsLayer(values[i]).Ok?;
    assert Yaml.Shadowed(values, 4);
  }
}
