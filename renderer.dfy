/** The LaTeX renderer's own logic: the `camelcase` and `image` filters it
    offers to templates, and writing a rendering to a file only when the
    file would change.  Template evaluation itself is a parameter: the
    renderer receives the rendered text. */
module Renderer {
  import opened Common
  import Dicts
  import Strings
  import Yaml
  import Settings
  import AssetsMetadata
  import Utils

  // --------------------------------------------------------------- camelcase

  /** `substring.capitalize() or "_"`. */
  function CamelPiece(p: string): (r: string)
    ensures |p| == 0 ==> r == "_"
    ensures |p| > 0 ==> r == Strings.Capitalize(p)
  {
    if |p| == 0 then "_" else Strings.Capitalize(p)
  }

  /** `"".join(...)` of the pieces turned into camel case. */
  function CamelJoin(ps: seq<string>): string {
    if |ps| == 0 then "" else CamelPiece(ps[0]) + CamelJoin(ps[1..])
  }

  /** `_to_camel_case(string)`: the pieces between underscores, each
      capitalized, an empty piece giving an underscore. */
  function ToCamelCase(s: string): string {
    CamelJoin(Strings.Split(s, '_'))
  }

  /** Changing the case of a piece never makes an underscore. */
  lemma {:induction false} CapitalizeKeepsUnderscores(p: string)
    ensures '_' in Strings.Capitalize(p) <==> '_' in p
  {
    if |p| > 0 {
      var r := Strings.Capitalize(p);
      assert r[0] == '_' <==> p[0] == '_';
      forall i | 1 <= i < |p| ensures r[i] == '_' <==> p[i] == '_' {
        assert r[i] == Strings.LowerChar(p[i]);
      }
      if '_' in r {
        var i :| 0 <= i < |r| && r[i] == '_';
        assert p[i] == '_';
      }
    }
  }

  /** The pieces joined in camel case hold an underscore exactly where a
      piece was empty. */
  lemma {:induction false} CamelJoinUnderscores(ps: seq<string>)
    requires forall p :: p in ps ==> '_' !in p
    ensures '_' in CamelJoin(ps) <==> "" in ps
  {
    if |ps| > 0 {
      assert forall p :: p in ps[1..] ==> p in ps;
      CamelJoinUnderscores(ps[1..]);
      CapitalizeKeepsUnderscores(ps[0]);
      var head := CamelPiece(ps[0]);
      var tail := CamelJoin(ps[1..]);
      assert '_' in head <==> ps[0] == "";
      assert '_' in head + tail <==> '_' in head || '_' in tail;
      assert ps == [ps[0]] + ps[1..];
      assert "" in ps <==> ps[0] == "" || "" in ps[1..];
    }
  }

  /** The camel-case form of a key holds an underscore exactly when the
      key has an empty piece between underscores (a leading, trailing or
      doubled underscore, or the empty key). */
  lemma ToCamelCaseUnderscores(s: string)
    ensures '_' in ToCamelCase(s) <==> "" in Strings.Split(s, '_')
  {
    var ps := Strings.Split(s, '_');
    Strings.SplitShape(s, '_');
    assert forall p :: p in ps ==> '_' !in p;
    CamelJoinUnderscores(ps);
  }

  /** The words capitalized and glued together. */
  function CapitalizeAll(words: seq<string>): string {
    if |words| == 0 then "" else Strings.Capitalize(words[0]) + CapitalizeAll(words[1..])
  }

  /** A key made of non-empty words joined by underscores turns into the
      words capitalized and glued together, so `presentation_size` becomes
      `PresentationSize`. */
  lemma {:induction false} ToCamelCaseWords(words: seq<string>)
    requires |words| >= 1
    requires forall k :: 0 <= k < |words| ==> |words[k]| > 0 && '_' !in words[k]
    ensures ToCamelCase(Strings.Join(words, '_')) == CapitalizeAll(words)
  {
    Strings.SplitJoin(words, '_');
    CamelJoinWords(words);
  }

  lemma {:induction false} CamelJoinWords(words: seq<string>)
    requires forall k :: 0 <= k < |words| ==> |words[k]| > 0
    ensures CamelJoin(words) == CapitalizeAll(words)
  {
    if |words| > 0 {
      CamelJoinWords(words[1..]);
    }
  }

  // ------------------------------------------------------------------- image

  /** `get_en_or_fr(key)`: the English variant `<key>_en` of a field when
      the language is not French and the metadata has it, else the field
      itself. */
  function GetEnOrFr(metadata: Dicts.Dict<string, Yaml.Value>, key: string, lang: string): (r: Result<Yaml.Value>)
    ensures lang != "fr" && key + "_en" in Dicts.Keys(metadata) ==> r == Ok(Dicts.Get(metadata, key + "_en").value)
    ensures (lang == "fr" || key + "_en" !in Dicts.Keys(metadata)) && key in Dicts.Keys(metadata) ==>
              r == Ok(Dicts.Get(metadata, key).value)
    ensures (lang == "fr" || key + "_en" !in Dicts.Keys(metadata)) && key !in Dicts.Keys(metadata) ==>
              r == Err(KeyError(key))
  {
    if lang != "fr" && key + "_en" in Dicts.Keys(metadata) then Ok(Dicts.Get(metadata, key + "_en").value)
    else match Dicts.Get(metadata, key)
      case Some(v) => Ok(v)
      case None => Err(KeyError(key))
  }

  /** One field of the image information, through its localized
      replacement texts.  A string is looked up in the tables; any other
      scalar is never one of their keys, so it stands for itself and is
      printed; a list or a mapping cannot be looked up at all (it is not
      hashable). */
  function InfoField(defaults: Settings.LocalizedValues, metadata: Dicts.Dict<string, Yaml.Value>, key: string, lang: string)
    : (r: Result<string>)
    ensures var v := GetEnOrFr(metadata, key, lang);
            r.Ok? <==> v.Ok? && !v.value.List? && !v.value.Map?
    ensures var v := GetEnOrFr(metadata, key, lang);
            v.Ok? && v.value.Str? ==> r == Ok(Settings.GetDefault(defaults, v.value.s, lang))
    ensures var v := GetEnOrFr(metadata, key, lang);
            v.Ok? && (v.value.Null? || v.value.Bool? || v.value.Int?) ==> r == Ok(Yaml.Repr(v.value))
    ensures var v := GetEnOrFr(metadata, key, lang);
            v.Ok? && (v.value.List? || v.value.Map?) ==> r.Err? && r.error.TypeError?
    ensures GetEnOrFr(metadata, key, lang).Err? ==> r == Err(GetEnOrFr(metadata, key, lang).error)
  {
    var v :- GetEnOrFr(metadata, key, lang);
    match v
    case Str(s) => Ok(Settings.GetDefault(defaults, s, lang))
    case List(_) => Err(TypeError("unhashable type: 'list'"))
    case Map(_) => Err(TypeError("unhashable type: 'dict'"))
    case _ => Ok(Yaml.Formatted(v))
  }

  /** The bracketed information of an image: empty without metadata,
      otherwise `[title, author, license.]`. */
  function ImgInfo(metadata: Yaml.Value, defaults: Settings.DefaultImageValues, lang: string): (r: Result<string>)
    ensures metadata.Null? ==> r == Ok("")
    ensures !metadata.Null? && !metadata.Map? ==> r.Err?
    ensures metadata.Map? ==>
              (r.Ok? <==> InfoField(defaults.title, metadata.entries, "title", lang).Ok?
                          && InfoField(defaults.author, metadata.entries, "author", lang).Ok?
                          && InfoField(defaults.license, metadata.entries, "license", lang).Ok?)
    ensures metadata.Map? && r.Ok? ==>
              r.value == "[" + InfoField(defaults.title, metadata.entries, "title", lang).value
                         + ", " + InfoField(defaults.author, metadata.entries, "author", lang).value
                         + ", " + InfoField(defaults.license, metadata.entries, "license", lang).value + ".]"
  {
    match metadata
    case Null => Ok("")
    case Map(entries) =>
      var title :- InfoField(defaults.title, entries, "title", lang);
      var author :- InfoField(defaults.author, entries, "author", lang);
      var license :- InfoField(defaults.license, entries, "license", lang);
      Ok("[" + title + ", " + author + ", " + license + ".]")
    case _ => Err(TypeError("metadata is not a mapping"))
  }

  /** The LaTeX of an image: `\img`, the modifier, the information, then
      the asset and its scale as arguments. */
  function ImgLabel(modifier: string, info: string, value: string, scale: string): string {
    "\\img" + modifier + info + "{" + value + "}" + "{" + scale + "}"
  }

  /** `_img(context, value, modifier, scale, lang)`: asks the rendering's
      metadata retriever about `value`, then builds the label.  The scale
      arrives already formatted. */
  method Img(retriever: AssetsMetadata.Retriever, fs: Yaml.FileSystem, defaults: Settings.DefaultImageValues,
             value: string, modifier: string, scale: string, lang: string) returns (r: Result<string>)
    requires retriever.Valid()
    modifies retriever
    ensures retriever.Valid()
    ensures var m := AssetsMetadata.Metadata(fs, retriever.assetsDir, value);
            && (m.Err? ==> r == Err(m.error))
            && (m.Ok? && ImgInfo(m.value, defaults, lang).Err? ==> r == Err(ImgInfo(m.value, defaults, lang).error))
            && (m.Ok? && ImgInfo(m.value, defaults, lang).Ok? ==>
                  r == Ok(ImgLabel(modifier, ImgInfo(m.value, defaults, lang).value, value, scale)))
  {
    var metadata := retriever.Call(fs, value);
    if metadata.Err? {
      return Err(metadata.error);
    }
    var info := ImgInfo(metadata.value, defaults, lang);
    if info.Err? {
      return Err(info.error);
    }
    return Ok(ImgLabel(modifier, info.value, value, scale));
  }

  // ------------------------------------------------------------ render_to_path

  /** `render_to_path(template, output)` given the rendered text and the
      name the system gave the temporary file that held it.  The text and a
      newline end up in `output`, which is replaced only when it was
      missing or different.  When `output` is a directory, `filecmp.cmp`
      sees no regular file and `shutil.move` moves the temporary file into
      it under its own name, unless something of that name is there
      already.  The temporary file is gone either way. */
  method RenderToPath(disk: Utils.Disk, rendered: string, output: seq<string>, tempName: string, now: int)
    returns (r: Result<()>)
    requires disk.Valid()
    modifies disk
    ensures disk.Valid()
    ensures disk.dirs == old(disk.dirs)
    ensures output in old(disk.files) && old(disk.files)[output] == rendered + "\n" ==>
              r.Ok? && disk.files == old(disk.files) && disk.mtimes == old(disk.mtimes)
    ensures r.Ok? && output !in old(disk.dirs) ==>
              && disk.files == old(disk.files)[output := rendered + "\n"]
              && disk.mtimes == if output in old(disk.files) && old(disk.files)[output] == rendered + "\n"
                                then old(disk.mtimes) else old(disk.mtimes)[output := now]
    ensures r.Ok? && output in old(disk.dirs) ==>
              && disk.files == old(disk.files)[output + [tempName] := rendered + "\n"]
              && disk.mtimes == old(disk.mtimes)[output + [tempName] := now]
    ensures r.Err? ==> disk.files == old(disk.files) && disk.mtimes == old(disk.mtimes)
    ensures r.Ok? <==>
              || (output in old(disk.files) && old(disk.files)[output] == rendered + "\n")
              || (output in old(disk.dirs) && !old(disk.Exists(output + [tempName])))
              || (|output| > 0 && output !in old(disk.dirs) && output[..|output| - 1] in old(disk.dirs))
    ensures output in old(disk.dirs) && old(disk.Exists(output + [tempName])) ==> r.Err? && r.error.ShutilError?
    ensures r.Err? && output !in old(disk.dirs) ==> r.error == Utils.MissingError(old(disk.files), output)
  {
    var text := rendered + "\n";
    if output in disk.files && disk.files[output] == text {
      return Ok(());
    }
    var target := output;
    if output in disk.dirs {
      target := output + [tempName];
      if disk.Exists(target) {
        return Err(ShutilError("Destination path '" + Utils.Show(target) + "' already exists"));
      }
      forall k | 0 <= k < |target| ensures target[..k] in disk.dirs {
        if k < |output| {
          assert target[..k] == output[..k];
        } else {
          assert target[..k] == output;
        }
      }
    } else {
      if |output| == 0 || output[..|output| - 1] !in disk.dirs {
        var e := disk.LookupError(output);
        return Err(e);
      }
      forall k | 0 <= k < |output| ensures output[..k] in disk.dirs {
        assert output[..k] == output[..|output| - 1][..k];
      }
    }
    Utils.AddFile(disk.files, disk.dirs, disk.mtimes, target, text, now);
    disk.files := disk.files[target := text];
    disk.mtimes := disk.mtimes[target := now];
    return Ok(());
  }
}
