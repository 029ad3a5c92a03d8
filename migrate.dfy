/** `deckz migrate-sections`: bringing a `section.yml` of an older format
    version up to date.  Only the step from version 1 to version 2 exists;
    the current version is 3.  Finding and rewriting the files is left to
    the command; here a loaded document goes in and the document to write
    back, if any, comes out.  Everything is computed on values, so the
    loaded document itself is never changed. */
module Migrate {
  import opened Common
  import Dicts
  import Yaml

  /** `SECTION_YML_VERSION`. */
  const CurrentVersion := 3

  /** `i if isinstance(i, dict) else {"path": i}`. */
  function Wrap(i: Yaml.Value): (r: Yaml.Value)
    ensures r.Map?
    ensures i.Map? ==> r == i
    ensures !i.Map? ==> Yaml.Get(r, "path") == Some(i) && !Yaml.HasKey(r, "title")
  {
    if i.Map? then i else Yaml.Map([("path", i)])
  }

  /** `i["path"]`. */
  function PathOf(i: Yaml.Value): (r: Result<Yaml.Value>)
    requires i.Map?
    ensures r.Ok? <==> Yaml.HasKey(i, "path")
    ensures r.Ok? ==> Yaml.Get(i, "path") == Some(r.value)
  {
    match Yaml.Get(i, "path")
    case None => Err(KeyError("path"))
    case Some(p) => Ok(p)
  }

  function WrappedPath(i: Yaml.Value): Result<Yaml.Value> {
    PathOf(Wrap(i))
  }

  /** The includes, every one wrapped as a mapping. */
  function Wrapped(items: seq<Yaml.Value>): (r: seq<Yaml.Value>)
    ensures |r| == |items| && forall i :: 0 <= i < |items| ==> r[i] == Wrap(items[i]) && r[i].Map?
  {
    seq(|items|, i requires 0 <= i < |items| => Wrap(items[i]))
  }

  /** An include with a title whose path is `k`. */
  predicate TitledAt(i: Yaml.Value, k: string) {
    Yaml.HasKey(i, "title") && Yaml.Get(i, "path") == Some(Yaml.Str(k))
  }

  /** The `(path, title)` pairs of the includes that have a title, in
      order; a titled include without a path is a `KeyError`. */
  function TitlePairs(includes: seq<Yaml.Value>): (r: Result<seq<(string, Yaml.Value)>>)
    requires forall i :: 0 <= i < |includes| ==> includes[i].Map?
  {
    if |includes| == 0 then Ok([])
    else
      var last := includes[|includes| - 1];
      var init :- TitlePairs(includes[..|includes| - 1]);
      if !Yaml.HasKey(last, "title") then Ok(init)
      else match PathOf(last)
        case Err(e) => Err(e)
        case Ok(Str(p)) => Ok(init + [(p, Yaml.Get(last, "title").value)])
        case Ok(_) => Err(TypeError("a path used as a key is not a string"))
  }

  /** The title of the last include titled with path `k`, if any. */
  function LastTitle(includes: seq<Yaml.Value>, k: string): (r: Option<Yaml.Value>)
    ensures r.Some? <==> exists i :: 0 <= i < |includes| && TitledAt(includes[i], k)
  {
    if |includes| == 0 then None
    else
      var last := includes[|includes| - 1];
      var rest := LastTitle(includes[..|includes| - 1], k);
      assert forall i :: 0 <= i < |includes| - 1 ==> includes[..|includes| - 1][i] == includes[i];
      if TitledAt(last, k) then Yaml.Get(last, "title") else rest
  }

  /** `LastTitle` is the title of the include titled with `k` that no later
      include titled with `k` follows. */
  lemma {:induction false} LastTitleIsLast(includes: seq<Yaml.Value>, k: string, i: nat)
    requires i < |includes| && TitledAt(includes[i], k)
    requires forall j :: i < j < |includes| ==> !TitledAt(includes[j], k)
    ensures LastTitle(includes, k) == Yaml.Get(includes[i], "title")
  {
    if i < |includes| - 1 {
      var init := includes[..|includes| - 1];
      assert init[i] == includes[i];
      assert forall j :: i < j < |init| ==> init[j] == includes[j];
      LastTitleIsLast(init, k, i);
    }
  }

  /** `{i["path"]: i["title"] for i in includes if "title" in i}`: a path
      maps to the title of the last include titled with that path. */
  lemma {:induction false} DefaultTitlesGet(includes: seq<Yaml.Value>, k: string)
    requires forall i :: 0 <= i < |includes| ==> includes[i].Map?
    requires TitlePairs(includes).Ok?
    ensures Dicts.Get(Dicts.PutAll([], TitlePairs(includes).value), k) == LastTitle(includes, k)
  {
    if |includes| > 0 {
      var init := includes[..|includes| - 1];
      var last := includes[|includes| - 1];
      DefaultTitlesGet(init, k);
      var pairs := TitlePairs(init).value;
      if Yaml.HasKey(last, "title") {
        var p := PathOf(last).value.s;
        var e := (p, Yaml.Get(last, "title").value);
        Dicts.PutAllSnoc([], pairs, e);
        Dicts.PutGet(Dicts.PutAll([], pairs), p, e.1, k);
      }
    }
  }

  /** `_v1_v2`: version 2, the same title, the includes wrapped as
      mappings, `default_titles` from the titled includes, and a single
      flavor `standard` listing the include paths in order. */
  function V1ToV2(v1: Yaml.Value): (r: Result<Yaml.Value>)
    requires v1.Map?
    ensures r.Ok? ==> Yaml.HasKey(v1, "title") && Yaml.HasKey(v1, "includes") &&
                      Yaml.Iterate(Yaml.Get(v1, "includes").value).Ok?
  {
    match Yaml.Get(v1, "title")
    case None => Err(KeyError("title"))
    case Some(title) =>
      match Yaml.Get(v1, "includes")
      case None => Err(KeyError("includes"))
      case Some(raw) =>
        var items :- Yaml.Iterate(raw);
        var pairs :- TitlePairs(Wrapped(items));
        var paths :- MapAll(items, WrappedPath);
        Ok(Yaml.Map([("version", Yaml.Int(2)),
                     ("title", title),
                     ("default_titles", Yaml.Map(Dicts.PutAll([], pairs))),
                     ("flavors", Yaml.Map([("standard", Yaml.List(paths))]))]))
  }

  /** What a converted section definition holds, in this order: version
      2; the original title; `default_titles`, which maps a path exactly
      when some include is titled with it, to the last such title; and the
      flavor `standard`, listing the path of every include in order, a
      plain include being its own path. */
  lemma V1ToV2Spec(v1: Yaml.Value, k: string)
    requires v1.Map? && V1ToV2(v1).Ok?
    ensures var out := V1ToV2(v1).value;
            var items := Yaml.Iterate(Yaml.Get(v1, "includes").value).value;
            && out.Map? && |out.entries| == 4
            && out.entries[0] == ("version", Yaml.Int(2))
            && out.entries[1] == ("title", Yaml.Get(v1, "title").value)
            && out.entries[2].0 == "default_titles" && out.entries[2].1.Map?
            && Dicts.Get(out.entries[2].1.entries, k) == LastTitle(Wrapped(items), k)
            && out.entries[3].0 == "flavors" && out.entries[3].1.Map?
            && |out.entries[3].1.entries| == 1
            && out.entries[3].1.entries[0].0 == "standard"
            && out.entries[3].1.entries[0].1.List?
            && |out.entries[3].1.entries[0].1.items| == |items|
            && forall i :: 0 <= i < |items| ==>
                 Yaml.Get(Wrap(items[i]), "path") == Some(out.entries[3].1.entries[0].1.items[i])
  {
    var items := Yaml.Iterate(Yaml.Get(v1, "includes").value).value;
    DefaultTitlesGet(Wrapped(items), k);
    MapAllEach(items, WrappedPath);
  }

  /** `config.get("version", 1) < 2`, where a boolean compares as 0 or 1
      and anything but a number cannot be compared. */
  function OlderThan2(version: Yaml.Value): (r: Result<bool>)
    ensures version.Int? ==> r == Ok(version.i < 2)
    ensures version.Bool? ==> r == Ok(true)
    ensures !version.Int? && !version.Bool? ==> r.Err?
  {
    match version
    case Int(i) => Ok(i < 2)
    case Bool(_) => Ok(true)
    case _ => Err(TypeError("'<' not supported"))
  }

  /** One file of `migrate_sections`: `None` when it is skipped, otherwise
      the document written back.  A document at the current version is
      skipped; one older than version 2 (a missing version counts as 1) is
      converted; any other is written back as it is. */
  function Migrated(config: Yaml.Value): (r: Result<Option<Yaml.Value>>)
    ensures !config.Map? ==> r.Err?
    ensures config.Map? && Yaml.Get(config, "version") == Some(Yaml.Int(CurrentVersion)) ==> r == Ok(None)
    ensures config.Map? && !Yaml.HasKey(config, "version") ==>
              r == (match V1ToV2(config) case Ok(v) => Ok(Some(v)) case Err(e) => Err(e))
    ensures config.Map? && Yaml.Get(config, "version") == Some(Yaml.Int(2)) ==> r == Ok(Some(config))
  {
    if !config.Map? then Err(AttributeError("'get' on a document that is not a mapping"))
    else
      var version := match Yaml.Get(config, "version") case Some(v) => v case None => Yaml.Int(1);
      if version == Yaml.Int(CurrentVersion) then Ok(None)
      else
        var older :- OlderThan2(version);
        if older then
          var v2 :- V1ToV2(config);
          Ok(Some(v2))
        else Ok(Some(config))
  }

  /** Migrating what a migration wrote writes the same document again:
      once converted, a file stays at version 2. */
  lemma MigratedStable(config: Yaml.Value)
    requires Migrated(config).Ok? && Migrated(config).value.Some?
    ensures Migrated(Migrated(config).value.value) == Migrated(config)
  {
    var out := Migrated(config).value.value;
    var version := match Yaml.Get(config, "version") case Some(v) => v case None => Yaml.Int(1);
    if OlderThan2(version).value {
      assert Yaml.Get(out, "version") == Some(Yaml.Int(2));
    }
  }
}
