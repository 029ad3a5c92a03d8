/** `deckz upgrade`: rewriting definitions written in the old conventions
    into the include scheme `Definitions.NormalizeInclude` reads.

    An old entry is read into a path, a title (or `UNSET`) and a flavor
    (or `None`), then written back as `path`, `{path: title}`,
    `$path@flavor` or `{$path@flavor: title}`.  Deck definitions get the
    deck name that used to live in the deck variables as `deck_acronym`;
    section definitions get their `flavors` mapping turned into a list.
    Files are moved, read and written by the command itself; here every
    document is a loaded value and every result the value written back. */
module Upgrade {
  import opened Common
  import opened Strings
  import Dicts
  import Paths
  import Yaml
  import Definitions

  /** What the normalising helpers return: the path and, when given, the
      title and the flavor, each as loaded.  `title == None` is `UNSET`,
      and a present title may still be null; `flavor == None` is Python's
      `None`, so a null flavor is no flavor. */
  datatype OldEntry = OldEntry(path: Yaml.Value, title: Option<Yaml.Value>, flavor: Option<Yaml.Value>)

  /** A looked-up flavor as the helpers hold it: absent and null are both
      `None`. */
  function FlavorOf(v: Option<Yaml.Value>): (r: Option<Yaml.Value>)
    ensures r.None? <==> v.None? || v.value.Null?
    ensures r.Some? ==> r == v
  {
    if v.Some? && v.value.Null? then None else v
  }

  /** `normalize_part_content`: a string is a path with no title and no
      flavor; a mapping without `path` must have one entry, key and value
      being path and flavor; a mapping with `path` gives its `path`,
      `title` (unset when absent) and `flavor` (none when absent), whatever
      their types.  Anything else cannot be indexed by `"path"`. */
  function NormalizePartContent(v: Yaml.Value): (r: Result<OldEntry>)
    ensures r.Ok? <==> v.Str? || (v.Map? && (Yaml.HasKey(v, "path") || |v.entries| == 1))
    ensures v.Str? ==> r == Ok(OldEntry(v, None, None))
    ensures v.Map? && !Yaml.HasKey(v, "path") && |v.entries| != 1 ==> r == Err(AssertionError)
    ensures v.Map? && !Yaml.HasKey(v, "path") && |v.entries| == 1 ==>
              r == Ok(OldEntry(Yaml.Str(v.entries[0].0), None, FlavorOf(Some(v.entries[0].1))))
    ensures Yaml.HasKey(v, "path") ==>
              r == Ok(OldEntry(Yaml.Get(v, "path").value, Yaml.Get(v, "title"), FlavorOf(Yaml.Get(v, "flavor"))))
    ensures !v.Str? && !v.Map? ==> r.Err? && r.error.TypeError?
  {
    match v
    case Str(_) => Ok(OldEntry(v, None, None))
    case Map(es) =>
      if !Yaml.HasKey(v, "path") then
        if |es| != 1 then Err(AssertionError)
        else Ok(OldEntry(Yaml.Str(es[0].0), None, FlavorOf(Some(es[0].1))))
      else
        Ok(OldEntry(Yaml.Get(v, "path").value, Yaml.Get(v, "title"), FlavorOf(Yaml.Get(v, "flavor"))))
    case _ => Err(TypeError("object is not subscriptable"))
  }

  /** `normalize_section_content`: a string is a path; otherwise `v` must
      have exactly one entry, and a key starting with `$` gives the rest of
      the key as path and the value as flavor, any other key gives the key
      as path and the value as title.  `len` of a scalar raises
      `TypeError`; a one-item list has no `items`. */
  function NormalizeSectionContent(v: Yaml.Value): (r: Result<OldEntry>)
    ensures r.Ok? <==> v.Str? || (v.Map? && |v.entries| == 1)
    ensures v.Str? ==> r == Ok(OldEntry(v, None, None))
    ensures v.Map? && |v.entries| != 1 ==> r == Err(AssertionError)
    ensures v.Map? && |v.entries| == 1 && !StartsWith(v.entries[0].0, "$") ==>
              r == Ok(OldEntry(Yaml.Str(v.entries[0].0), Some(v.entries[0].1), None))
    ensures v.Map? && |v.entries| == 1 && StartsWith(v.entries[0].0, "$") ==>
              r == Ok(OldEntry(Yaml.Str(v.entries[0].0[1..]), None, FlavorOf(Some(v.entries[0].1))))
    ensures v.List? ==> r.Err?
    ensures v.List? ==> (r.error.AttributeError? <==> |v.items| == 1)
    ensures v.List? ==> (r.error.AssertionError? <==> |v.items| != 1)
    ensures (v.Null? || v.Bool? || v.Int?) ==> r.Err? && r.error.TypeError?
  {
    match v
    case Str(_) => Ok(OldEntry(v, None, None))
    case Map(es) =>
      if |es| != 1 then Err(AssertionError)
      else if StartsWith(es[0].0, "$") then Ok(OldEntry(Yaml.Str(es[0].0[1..]), None, FlavorOf(Some(es[0].1))))
      else Ok(OldEntry(Yaml.Str(es[0].0), Some(es[0].1), None))
    case List(items) =>
      if |items| != 1 then Err(AssertionError)
      else Err(AttributeError("'list' object has no attribute 'items'"))
    case _ => Err(TypeError("object has no len()"))
  }

  /** The entry written back in the new scheme, for parts and sections
      alike.  With a flavor the left side is `f"${path}@{flavor}"`; without
      one it is the path as loaded, appended as it is when no title is
      set.  A title makes the left side a mapping key: a list or mapping
      path is not hashable, and a null, boolean or integer key is not a
      string, which a loaded document of this model cannot hold. */
  function Rewrite(e: OldEntry): (r: Result<Yaml.Value>)
    ensures e.flavor.Some? ==>
              var left := "$" + Yaml.Formatted(e.path) + "@" + Yaml.Formatted(e.flavor.value);
              r == Ok(if e.title.None? then Yaml.Str(left) else Yaml.Map([(left, e.title.value)]))
    ensures e.flavor.None? && e.title.None? ==> r == Ok(e.path)
    ensures e.flavor.None? && e.title.Some? ==>
              (r.Ok? <==> e.path.Str?) && (r.Ok? ==> r.value == Yaml.Map([(e.path.s, e.title.value)]))
    ensures e.flavor.None? && e.title.Some? && (e.path.List? || e.path.Map?) ==> r.Err? && r.error.TypeError?
  {
    if e.flavor.Some? then
      var left := "$" + Yaml.Formatted(e.path) + "@" + Yaml.Formatted(e.flavor.value);
      Ok(if e.title.None? then Yaml.Str(left) else Yaml.Map([(left, e.title.value)]))
    else if e.title.None? then Ok(e.path)
    else match e.path
      case Str(s) => Ok(Yaml.Map([(s, e.title.value)]))
      case List(_) => Err(TypeError("unhashable type: 'list'"))
      case Map(_) => Err(TypeError("unhashable type: 'dict'"))
      case _ => Err(TypeError("a mapping key that is not a string"))
  }

  /** The include an old entry stands for: a section include when it has
      a flavor, a file include otherwise; a string title is the title, and
      the title counts as set whenever the entry had one, even null. */
  function Meaning(e: OldEntry): Definitions.NodeInclude
    requires e.path.Str? && (e.flavor.Some? ==> e.flavor.value.Str?)
  {
    var title := if e.title.Some? && e.title.value.Str? then Some(e.title.value.s) else None;
    if e.flavor.None? then Definitions.FileInclude(Paths.FromString(e.path.s), title, e.title.Some?)
    else Definitions.SectionInclude(Paths.FromString(e.path.s), e.flavor.value.s, title, e.title.Some?)
  }

  /** The entries whose rewriting reads back as what they meant: a string
      path, and a string flavor when there is one, neither holding an `@`;
      a path without a flavor does not start with `$`; a title is a string
      or null. */
  predicate Rereadable(e: OldEntry) {
    && e.path.Str?
    && (e.flavor.Some? ==> e.flavor.value.Str? && '@' !in e.path.s && '@' !in e.flavor.value.s)
    && (e.flavor.None? ==> !StartsWith(e.path.s, "$"))
    && (e.title.Some? ==> e.title.value.Str? || e.title.value.Null?)
  }

  /** Reading a rewritten entry with `_normalize_include` gives back the
      path, flavor, title and title-explicitness of the old entry. */
  lemma RewriteRoundTrip(e: OldEntry)
    requires Rereadable(e)
    ensures Rewrite(e).Ok? && Definitions.NormalizeInclude(Definitions.Raw(Rewrite(e).value)) == Ok(Meaning(e))
  {
    if e.flavor.None? {
      if e.title.None? {
        Definitions.PlainStringInclude(e.path.s);
      } else {
        Definitions.MappingFileInclude(e.path.s, e.title.value);
      }
    } else {
      SectionLeft(e.path.s, e.flavor.value.s);
      SectionFromLeft(e.path.s, e.flavor.value.s, e.title);
    }
  }

  /** The left side of a flavored entry reads back as a section include of
      its path and flavor. */
  lemma SectionFromLeft(path: string, flavor: string, title: Option<Yaml.Value>)
    requires '@' !in path && '@' !in flavor
    requires title.Some? ==> title.value.Str? || title.value.Null?
    ensures Definitions.FromLeft("$" + path + "@" + flavor, title, title.Some?)
         == Ok(Definitions.SectionInclude(Paths.FromString(path), flavor,
                 if title.Some? && title.value.Str? then Some(title.value.s) else None, title.Some?))
  {
    SectionLeft(path, flavor);
  }

  /** `$path@flavor` splits back into `path` and `flavor` when neither
      holds an `@`. */
  lemma SectionLeft(path: string, flavor: string)
    requires '@' !in path && '@' !in flavor
    ensures var left := "$" + path + "@" + flavor;
            && StartsWith(left, "$")
            && Count(left[1..], '@') == 1
            && IndexOf(left[1..], '@') == |path|
            && left[1..][..|path|] == path
            && left[1..][|path| + 1..] == flavor
  {
    var left := "$" + path + "@" + flavor;
    var rest := left[1..];
    assert rest == path + ['@'] + flavor;
    CountConcat(path + ['@'], flavor, '@');
    CountConcat(path, ['@'], '@');
    NoOccurrence(path, '@');
    NoOccurrence(flavor, '@');
    assert Count(['@'], '@') == 1;
    FirstSeparator(path, flavor, '@');
    assert rest[|path| + 1..] == flavor;
  }

  // ------------------------------------------------------------ entries

  /** One part entry rewritten. */
  function PartEntry(v: Yaml.Value): Result<Yaml.Value> {
    var e :- NormalizePartContent(v);
    Rewrite(e)
  }

  /** One section include rewritten. */
  function SectionEntry(v: Yaml.Value): Result<Yaml.Value> {
    var e :- NormalizeSectionContent(v);
    Rewrite(e)
  }

  /** The loops building `new_sections` and `new_includes`: every entry
      rewritten in order; the first entry that cannot be read stops the
      rewriting with its error. */
  method RewriteEntries(entries: seq<Yaml.Value>, entry: Yaml.Value -> Result<Yaml.Value>)
    returns (r: Result<seq<Yaml.Value>>)
    ensures r == MapAll(entries, entry)
  {
    var rewritten := [];
    var i := 0;
    while i < |entries|
      invariant i <= |entries|
      invariant MapAll(entries[..i], entry) == Ok(rewritten)
    {
      var e := entry(entries[i]);
      MapAllStep(entries, i, entry);
      if e.Err? {
        MapAllPrefixErr(entries, i + 1, entry);
        return Err(e.error);
      }
      rewritten := rewritten + [e.value];
      i := i + 1;
    }
    assert entries[..i] == entries;
    return Ok(rewritten);
  }

  // -------------------------------------------------------------- decks

  /** One part of a deck definition with its `sections` rewritten in
      place; a part that is not a mapping cannot be indexed, one without
      `sections` is a `KeyError`. */
  function UpgradedPart(part: Yaml.Value): (r: Result<Yaml.Value>)
    ensures r.Ok? <==> Yaml.HasKey(part, "sections") &&
                       Yaml.Iterate(Yaml.Get(part, "sections").value).Ok? &&
                       MapAll(Yaml.Iterate(Yaml.Get(part, "sections").value).value, PartEntry).Ok?
  {
    if !part.Map? then Err(TypeError("a part is not a mapping"))
    else match Dicts.Get(part.entries, "sections")
      case None => Err(KeyError("sections"))
      case Some(sections) =>
        var items :- Yaml.Iterate(sections);
        var rewritten :- MapAll(items, PartEntry);
        Ok(Yaml.Map(Dicts.Put(part.entries, "sections", Yaml.List(rewritten))))
  }

  /** The body of the loop over parts. */
  method UpgradePart(part: Yaml.Value) returns (r: Result<Yaml.Value>)
    ensures r == UpgradedPart(part)
  {
    if !part.Map? {
      return Err(TypeError("a part is not a mapping"));
    }
    var sections := Dicts.Get(part.entries, "sections");
    if sections.None? {
      return Err(KeyError("sections"));
    }
    var items := Yaml.Iterate(sections.value);
    if items.Err? {
      return Err(items.error);
    }
    var rewritten := RewriteEntries(items.value, PartEntry);
    if rewritten.Err? {
      return Err(rewritten.error);
    }
    return Ok(Yaml.Map(Dicts.Put(part.entries, "sections", Yaml.List(rewritten.value))));
  }

  /** The parts of a deck definition after the loop: a list keeps its
      shape with every part rewritten; anything else has no part to
      rewrite only when iterating it yields nothing. */
  function UpgradedParts(content: Yaml.Value): Result<Yaml.Value> {
    var parts :- Yaml.Iterate(content);
    var rewritten :- MapAll(parts, UpgradedPart);
    Ok(if content.List? then Yaml.List(rewritten) else content)
  }

  /** `for part in content: ...`, rewriting each part in order. */
  method UpgradeParts(content: Yaml.Value) returns (r: Result<Yaml.Value>)
    ensures r == UpgradedParts(content)
  {
    var iterated := Yaml.Iterate(content);
    if iterated.Err? {
      return Err(iterated.error);
    }
    var parts := iterated.value;
    var rewritten := [];
    var i := 0;
    while i < |parts|
      invariant i <= |parts|
      invariant MapAll(parts[..i], UpgradedPart) == Ok(rewritten)
    {
      var part := UpgradePart(parts[i]);
      MapAllStep(parts, i, UpgradedPart);
      if part.Err? {
        MapAllPrefixErr(parts, i + 1, UpgradedPart);
        return Err(part.error);
      }
      rewritten := rewritten + [part.value];
      i := i + 1;
    }
    assert parts[..i] == parts;
    return Ok(if content.List? then Yaml.List(rewritten) else content);
  }

  /** `variables["deck_acronym"]` and `del variables["deck_acronym"]`: the
      deck name and the variables without it.  A mapping without the key
      is a `ValueError`; a document that is not a mapping cannot be
      indexed. */
  function DeckName(variables: Yaml.Value): (r: Result<(Yaml.Value, Yaml.Value)>)
    ensures r.Ok? <==> Yaml.HasKey(variables, "deck_acronym")
    ensures variables.Map? && !Yaml.HasKey(variables, "deck_acronym") ==> r.Err? && r.error.ValueError?
    ensures r.Ok? ==> Yaml.Get(variables, "deck_acronym") == Some(r.value.0)
    ensures r.Ok? ==> r.value.1.Map? &&
                      Dicts.Keys(r.value.1.entries) == Dicts.Keys(variables.entries) - {"deck_acronym"}
    ensures r.Ok? ==> forall k :: k != "deck_acronym" ==> Yaml.Get(r.value.1, k) == Yaml.Get(variables, k)
  {
    match variables
    case Map(es) =>
      (match Dicts.Get(es, "deck_acronym")
       case None => Err(ValueError("the deck variables do not contain deck_acronym"))
       case Some(name) =>
         assert forall k :: Dicts.Get(Dicts.Remove(es, "deck_acronym"), k)
                            == if k == "deck_acronym" then None else Dicts.Get(es, k) by {
           forall k {
             Dicts.RemoveGet(es, "deck_acronym", k);
           }
         }
         Ok((name, Yaml.Map(Dicts.Remove(es, "deck_acronym")))))
    case _ => Err(TypeError("the deck variables are not a mapping"))
  }

  /** The upgrade of one deck.  The variables without `deck_acronym` are
      written back (`written`) as soon as the name is read, before the
      definition is looked at; the definition then becomes
      `{"name": <deck_acronym>, "parts": <parts>}` with every part's
      sections rewritten.  Fails when the variables have no
      `deck_acronym` or a part cannot be rewritten; in the second case the
      variables have already been rewritten. */
  method UpgradeDeck(variables: Yaml.Value, definition: Yaml.Value)
    returns (written: Option<Yaml.Value>, r: Result<Yaml.Value>)
    ensures written.Some? <==> DeckName(variables).Ok?
    ensures written.Some? ==> written.value == DeckName(variables).value.1
    ensures r.Ok? <==> DeckName(variables).Ok? && UpgradedParts(definition).Ok?
    ensures DeckName(variables).Err? ==> r == Err(DeckName(variables).error)
    ensures DeckName(variables).Ok? && UpgradedParts(definition).Err? ==> r == Err(UpgradedParts(definition).error)
    ensures r.Ok? ==>
              r.value == Yaml.Map([("name", DeckName(variables).value.0),
                                   ("parts", UpgradedParts(definition).value)])
  {
    var named := DeckName(variables);
    if named.Err? {
      return None, Err(named.error);
    }
    written := Some(named.value.1);
    var parts := UpgradeParts(definition);
    if parts.Err? {
      return written, Err(parts.error);
    }
    r := Ok(Yaml.Map([("name", named.value.0), ("parts", parts.value)]));
  }

  /** Once a deck's variables have been rewritten they hold no
      `deck_acronym`, so upgrading that deck again, for instance after its
      definition failed to upgrade, stops with a `ValueError` and the deck
      name is lost. */
  lemma {:induction false} RewrittenVariablesLoseName(variables: Yaml.Value)
    requires DeckName(variables).Ok?
    ensures DeckName(DeckName(variables).value.1).Err?
    ensures DeckName(DeckName(variables).value.1).error.ValueError?
  {
    var rest := DeckName(variables).value.1;
    assert Yaml.Get(rest, "deck_acronym") == None by {
      Dicts.RemoveGet(variables.entries, "deck_acronym", "deck_acronym");
    }
  }

  // ----------------------------------------------------------- sections

  /** One flavor, `(name, includes)`, as the entry `{name, includes}`. */
  function UpgradedFlavor(flavor: (string, Yaml.Value)): Result<Yaml.Value> {
    var includes :- Yaml.Iterate(flavor.1);
    var rewritten :- MapAll(includes, SectionEntry);
    Ok(Yaml.Map([("name", Yaml.Str(flavor.0)), ("includes", Yaml.List(rewritten))]))
  }

  /** The loop building `new_flavors`, in the order of the mapping. */
  method UpgradeFlavors(flavors: Dicts.Dict<string, Yaml.Value>) returns (r: Result<seq<Yaml.Value>>)
    ensures r == MapAll(flavors, UpgradedFlavor)
  {
    var rewritten := [];
    var i := 0;
    while i < |flavors|
      invariant i <= |flavors|
      invariant MapAll(flavors[..i], UpgradedFlavor) == Ok(rewritten)
    {
      MapAllStep(flavors, i, UpgradedFlavor);
      var includes := Yaml.Iterate(flavors[i].1);
      if includes.Err? {
        MapAllPrefixErr(flavors, i + 1, UpgradedFlavor);
        return Err(includes.error);
      }
      var entries := RewriteEntries(includes.value, SectionEntry);
      if entries.Err? {
        MapAllPrefixErr(flavors, i + 1, UpgradedFlavor);
        return Err(entries.error);
      }
      rewritten := rewritten + [Yaml.Map([("name", Yaml.Str(flavors[i].0)), ("includes", Yaml.List(entries.value))])];
      i := i + 1;
    }
    assert flavors[..i] == flavors;
    return Ok(rewritten);
  }

  /** A section definition is upgraded only when it is a mapping with
      both `flavors` and `title`. */
  predicate Upgradable(content: Yaml.Value) {
    Yaml.HasKey(content, "flavors") && Yaml.HasKey(content, "title")
  }

  /** The mapping after `version` is deleted and `flavors` is replaced by
      its list; `default_titles` is deleted next when it is falsy. */
  function Rewritten(es: Dicts.Dict<string, Yaml.Value>, flavors: seq<Yaml.Value>): Dicts.Dict<string, Yaml.Value> {
    var es' := Dicts.Put(Dicts.Remove(es, "version"), "flavors", Yaml.List(flavors));
    var defaults := Dicts.Get(es', "default_titles");
    if defaults.Some? && Yaml.Falsy(defaults.value) then Dicts.Remove(es', "default_titles") else es'
  }

  /** What the upgrade writes for one section definition file: `None`
      when the file is skipped. */
  function UpgradedSection(content: Yaml.Value): Result<Option<Yaml.Value>> {
    if !Upgradable(content) then Ok(None)
    else
      var flavors := Dicts.Get(content.entries, "flavors").value;
      if !flavors.Map? then Err(AttributeError("'flavors' has no attribute 'items'"))
      else
        var rewritten :- MapAll(flavors.entries, UpgradedFlavor);
        Ok(Some(Yaml.Map(Rewritten(content.entries, rewritten))))
  }

  /** The loop body over section definition files. */
  method UpgradeSection(content: Yaml.Value) returns (r: Result<Option<Yaml.Value>>)
    ensures r == UpgradedSection(content)
  {
    if !(Yaml.HasKey(content, "flavors") && Yaml.HasKey(content, "title")) {
      return Ok(None);
    }
    var entries := content.entries;
    if "version" in Dicts.Keys(entries) {
      entries := Dicts.Remove(entries, "version");
    } else {
      Dicts.RemoveAbsent(entries, "version");
    }
    Dicts.RemoveGet(content.entries, "version", "flavors");
    var flavors := Dicts.Get(entries, "flavors").value;
    if !flavors.Map? {
      return Err(AttributeError("'flavors' has no attribute 'items'"));
    }
    var rewritten := UpgradeFlavors(flavors.entries);
    if rewritten.Err? {
      return Err(rewritten.error);
    }
    entries := Dicts.Put(entries, "flavors", Yaml.List(rewritten.value));
    var defaults := Dicts.Get(entries, "default_titles");
    if defaults.Some? && Yaml.Falsy(defaults.value) {
      entries := Dicts.Remove(entries, "default_titles");
    }
    return Ok(Some(Yaml.Map(entries)));
  }

  /** The keys `Rewritten` deletes from a mapping. */
  function Removed(es: Dicts.Dict<string, Yaml.Value>): set<string> {
    var defaults := Dicts.Get(es, "default_titles");
    if defaults.Some? && Yaml.Falsy(defaults.value) then {"version", "default_titles"} else {"version"}
  }

  /** After the rewriting a key is gone when it was `version` or a falsy
      `default_titles`, `flavors` holds the new list, and every other key
      keeps its value. */
  lemma RewrittenGet(es: Dicts.Dict<string, Yaml.Value>, flavors: seq<Yaml.Value>, k: string)
    ensures Dicts.Keys(Rewritten(es, flavors)) == Dicts.Keys(es) - Removed(es) + {"flavors"}
    ensures Dicts.Get(Rewritten(es, flavors), k)
         == if k in Removed(es) then None
            else if k == "flavors" then Some(Yaml.List(flavors))
            else Dicts.Get(es, k)
  {
    var removedVersion := Dicts.Remove(es, "version");
    var es' := Dicts.Put(removedVersion, "flavors", Yaml.List(flavors));
    Dicts.RemoveGet(es, "version", "default_titles");
    Dicts.PutGet(removedVersion, "flavors", Yaml.List(flavors), "default_titles");
    Dicts.RemoveGet(es, "version", k);
    Dicts.PutGet(removedVersion, "flavors", Yaml.List(flavors), k);
    var defaults := Dicts.Get(es', "default_titles");
    if defaults.Some? && Yaml.Falsy(defaults.value) {
      Dicts.RemoveGet(es', "default_titles", k);
    }
  }

  /** What an upgraded section definition holds: the keys of the original
      without `version`, and without `default_titles` exactly when it was
      falsy; the same title and every other key's value unchanged;
      `flavors` as the list of `{name, includes}` entries in the order of
      the original mapping, each include rewritten.  A document that is not
      a mapping with `flavors` and `title` is left untouched. */
  lemma UpgradedSectionSpec(content: Yaml.Value, k: string)
    ensures !Upgradable(content) ==> UpgradedSection(content) == Ok(None)
    ensures UpgradedSection(content).Ok? && UpgradedSection(content).value.Some? ==>
              var out := UpgradedSection(content).value.value;
              && Upgradable(content) && out.Map?
              && Dicts.Keys(out.entries) == Dicts.Keys(content.entries) - Removed(content.entries)
              && Yaml.Get(out, "title") == Yaml.Get(content, "title")
              && (k !in Removed(content.entries) && k != "flavors" ==> Yaml.Get(out, k) == Yaml.Get(content, k))
  {
    if UpgradedSection(content).Ok? && UpgradedSection(content).value.Some? {
      var es := content.entries;
      var flavors := Dicts.Get(es, "flavors").value;
      var rewritten := MapAll(flavors.entries, UpgradedFlavor).value;
      assert UpgradedSection(content).value.value == Yaml.Map(Rewritten(es, rewritten));
      RewrittenGet(es, rewritten, k);
      RewrittenGet(es, rewritten, "title");
      assert "flavors" in Dicts.Keys(es) - Removed(es);
    }
  }

  /** The `flavors` of an upgraded section definition: one entry per
      flavor of the original mapping, in its order, named after the flavor
      and listing its includes rewritten. */
  lemma UpgradedSectionFlavors(content: Yaml.Value)
    ensures UpgradedSection(content).Ok? && UpgradedSection(content).value.Some? ==>
              var out := UpgradedSection(content).value.value;
              var flavors := Yaml.Get(content, "flavors").value;
              && flavors.Map? && out.Map?
              && Yaml.Get(out, "flavors").Some? && Yaml.Get(out, "flavors").value.List?
              && |Yaml.Get(out, "flavors").value.items| == |flavors.entries|
              && forall i :: 0 <= i < |flavors.entries| ==>
                   UpgradedFlavor(flavors.entries[i]) == Ok(Yaml.Get(out, "flavors").value.items[i]) &&
                   Yaml.Get(out, "flavors").value.items[i].entries[0] == ("name", Yaml.Str(flavors.entries[i].0))
  {
    if UpgradedSection(content).Ok? && UpgradedSection(content).value.Some? {
      var es := content.entries;
      var flavors := Dicts.Get(es, "flavors").value;
      var rewritten := MapAll(flavors.entries, UpgradedFlavor).value;
      MapAllEach(flavors.entries, UpgradedFlavor);
      RewrittenGet(es, rewritten, "flavors");
      forall i | 0 <= i < |flavors.entries|
        ensures rewritten[i].entries[0] == ("name", Yaml.Str(flavors.entries[i].0))
      {
        assert UpgradedFlavor(flavors.entries[i]) == Ok(rewritten[i]);
      }
    }
  }
}
