/** Deck and section definitions, and the include mini-language.

    An include entry of a definition is written in one of four forms:
    `path`, `{path: title}`, `$path@flavor` and `{$path@flavor: title}`.
    `NormalizeInclude` turns such an entry into a file include or a section
    include, remembering whether a title was written (even a null one).
    The `Validate*` functions turn loaded YAML into definitions.  A failure
    is a validation error, except that an entry on which `_normalize_include`
    raises `TypeError` or `AttributeError` ends validation with that
    exception. */
module Definitions {
  import opened Common
  import opened Strings
  import Dicts
  import Paths
  import Yaml
  import opened Validation

  /** A normalised include.  `titleSet` records whether `title` was given
      explicitly, which is what `"title" in model_fields_set` observes. */
  datatype NodeInclude =
    | FileInclude(path: Paths.Path, title: Option<string>, titleSet: bool)
    | SectionInclude(path: Paths.Path, flavor: string, title: Option<string>, titleSet: bool)

  /** An entry before normalisation: an already built include, or loaded YAML. */
  datatype IncludeInput = Given(given: NodeInclude) | Raw(value: Yaml.Value)

  /** The left side of an entry: the string itself, or the key of a
      one-entry mapping. */
  function LeftSide(v: Yaml.Value): string
    requires v.Str? || (v.Map? && |v.entries| == 1)
  {
    if v.Str? then v.s else v.entries[0].0
  }

  /** `left[1:].split("@")` unpacked into exactly two names. */
  function SectionName(left: string): (r: Result<(string, string)>)
    requires StartsWith(left, "$")
    ensures r.Ok? <==> Count(left[1..], '@') == 1
    ensures r.Ok? ==> IndexOf(left[1..], '@') < |left[1..]|
    ensures r.Ok? ==> var i := IndexOf(left[1..], '@');
                      r.value == (left[1..][..i], left[1..][i + 1..])
  {
    var pieces := Split(left[1..], '@');
    SplitShape(left[1..], '@');
    if |pieces| == 2 then
      SplitOnce(left[1..], '@');
      Ok((pieces[0], pieces[1]))
    else Err(ValueError("expected exactly one '@'"))
  }

  /** An entry with left side `left`: a section include exactly when
      `left` starts with `$`, whose path and flavor are the text around its
      single `@` (any other number of `@` fails); otherwise a file include
      of the whole left side.  The title must be a string or null. */
  function FromLeft(left: string, title: Option<Yaml.Value>, titleSet: bool): (r: Result<NodeInclude>)
    ensures r.Ok? <==> (!StartsWith(left, "$") || Count(left[1..], '@') == 1) && Yaml.OptionalString(title).Ok?
    ensures r.Ok? ==> && (r.value.SectionInclude? <==> StartsWith(left, "$"))
                      && r.value.titleSet == titleSet
                      && r.value.title == Yaml.OptionalString(title).value
    ensures r.Ok? && r.value.FileInclude? ==> r.value.path == Paths.FromString(left)
    ensures r.Ok? && r.value.SectionInclude? ==>
              var i := IndexOf(left[1..], '@');
              && i < |left[1..]|
              && r.value.path == Paths.FromString(left[1..][..i])
              && r.value.flavor == left[1..][i + 1..]
  {
    if StartsWith(left, "$") then
      var (path, flavor) :- SectionName(left);
      var t :- Yaml.OptionalString(title);
      Ok(SectionInclude(Paths.FromString(path), flavor, t, titleSet))
    else
      var t :- Yaml.OptionalString(title);
      Ok(FileInclude(Paths.FromString(left), t, titleSet))
  }

  /** `_normalize_include`: an include already built is returned as it is
      (so normalising is idempotent); a string is an entry with no title
      set; a mapping must have exactly one entry, whose key is the left side
      and whose value is the title, set even when null.  Anything else fails
      before the entry is read: `len` of a null, a boolean or an integer
      raises `TypeError`, a list of any length but one fails the `assert`,
      and a one-item list has no `items`. */
  function NormalizeInclude(v: IncludeInput): (r: Result<NodeInclude>)
    ensures v.Given? ==> r == Ok(v.given)
    ensures v.Raw? && v.value.Str? ==> r == FromLeft(v.value.s, None, false)
    ensures v.Raw? && v.value.Str? && r.Ok? ==> r.value.title.None? && !r.value.titleSet
    ensures v.Raw? && v.value.Map? && |v.value.entries| != 1 ==> r == Err(AssertionError)
    ensures v.Raw? && v.value.Map? && |v.value.entries| == 1 ==>
              r == FromLeft(v.value.entries[0].0, Some(v.value.entries[0].1), true)
    ensures v.Raw? && v.value.Map? && r.Ok? ==> r.value.titleSet
    ensures v.Raw? && (v.value.Null? || v.value.Bool? || v.value.Int?) ==> r.Err? && r.error.TypeError?
    ensures v.Raw? && v.value.List? ==>
              && r.Err?
              && (r.error.AttributeError? <==> |v.value.items| == 1)
              && (r.error.AssertionError? <==> |v.value.items| != 1)
  {
    match v
    case Given(n) => Ok(n)
    case Raw(Str(s)) => FromLeft(s, None, false)
    case Raw(Map(es)) =>
      if |es| != 1 then Err(AssertionError)
      else FromLeft(es[0].0, Some(es[0].1), true)
    case Raw(List(items)) =>
      if |items| != 1 then Err(AssertionError)
      else Err(AttributeError("'list' object has no attribute 'items'"))
    case Raw(_) => Err(TypeError("object has no len()"))
  }

  /** A plain string that does not start with `$` is a file include of that
      path with no title set. */
  lemma PlainStringInclude(s: string)
    requires !StartsWith(s, "$")
    ensures NormalizeInclude(Raw(Yaml.Str(s))) == Ok(FileInclude(Paths.FromString(s), None, false))
  {
  }

  /** A one-entry mapping whose key does not start with `$` is a file
      include titled by the value, marked set even when the value is null. */
  lemma MappingFileInclude(key: string, value: Yaml.Value)
    requires !StartsWith(key, "$") && (value.Null? || value.Str?)
    ensures NormalizeInclude(Raw(Yaml.Map([(key, value)])))
         == Ok(FileInclude(Paths.FromString(key), if value.Str? then Some(value.s) else None, true))
  {
  }

  /** The entries on which `_normalize_include` raises an exception that
      pydantic does not turn into a validation error. */
  predicate IncludeEscapes(y: Yaml.Value) {
    y.Null? || y.Bool? || y.Int? || (y.List? && |y.items| == 1)
  }

  /** An include entry under its `BeforeValidator`: the entry normalised,
      a failed `assert` becoming a validation error.  Validation of the
      entry is cut short exactly on the entries of `IncludeEscapes`. */
  function IncludeOf(y: Yaml.Value): (r: Result<NodeInclude>)
    ensures r.Ok? <==> NormalizeInclude(Raw(y)).Ok?
    ensures r.Ok? ==> r == NormalizeInclude(Raw(y))
    ensures r.Err? && Escapes(r.error) <==> IncludeEscapes(y)
  {
    Validated(NormalizeInclude(Raw(y)))
  }

  /** Some item of a list field makes its validator raise an exception
      that escapes validation. */
  predicate SomeItemEscapes<T>(v: Option<Yaml.Value>, validate: Yaml.Value -> Result<T>) {
    v.Some? && v.value.List?
    && exists i :: 0 <= i < |v.value.items| && validate(v.value.items[i]).Err?
                   && Escapes(validate(v.value.items[i]).error)
  }

  /** A `list[T]` field: a list whose every item validates, in order.  Every
      item is validated; an escaping exception of an item wins over the
      validation errors of the others. */
  function ValidateList<T>(v: Option<Yaml.Value>, validate: Yaml.Value -> Result<T>): (r: Result<seq<T>>)
    ensures r.Ok? <==> v.Some? && v.value.List? && forall i :: 0 <= i < |v.value.items| ==> validate(v.value.items[i]).Ok?
    ensures r.Ok? ==> |r.value| == |v.value.items|
                      && forall i :: 0 <= i < |r.value| ==> validate(v.value.items[i]) == Ok(r.value[i])
    ensures r.Err? && Escapes(r.error) <==> SomeItemEscapes(v, validate)
  {
    match v
    case Some(List(items)) => CollectAll(items, validate)
    case _ => Err(ValueError("Input should be a valid list"))
  }

  /** A list of include entries, each normalised. */
  function ValidateIncludes(v: Option<Yaml.Value>): Result<seq<NodeInclude>> {
    ValidateList(v, IncludeOf)
  }

  datatype FlavorDefinition = FlavorDefinition(
    name: string, title: Option<string>, titleSet: bool, includes: seq<NodeInclude>)

  datatype SectionDefinition = SectionDefinition(
    title: string, defaultTitles: Option<Dicts.Dict<Paths.Path, string>>, flavors: seq<FlavorDefinition>)

  datatype PartDefinition = PartDefinition(
    name: string, title: Option<string>, sections: seq<NodeInclude>)

  datatype DeckDefinition = DeckDefinition(name: string, parts: seq<PartDefinition>)

  /** The items of a successful list field, one result per item in order. */
  predicate ListOf<T(==)>(v: Option<Yaml.Value>, validate: Yaml.Value -> Result<T>, rs: seq<T>) {
    v.Some? && v.value.List? && |v.value.items| == |rs|
    && forall i :: 0 <= i < |rs| ==> validate(v.value.items[i]) == Ok(rs[i])
  }

  /** An optional string field holds `title`: a string field gives it, and
      an absent or null field gives none. */
  predicate TitleField(y: Yaml.Value, title: Option<string>) {
    match Yaml.Get(y, "title")
    case None => title.None?
    case Some(t) => (t.Null? && title.None?) || (t.Str? && title == Some(t.s))
  }

  /** `FlavorDefinition.model_validate`: a mapping with a string `name`, an
      optional string `title` (remembering whether it was written) and a
      list of include entries. */
  function ValidateFlavor(y: Yaml.Value): (r: Result<FlavorDefinition>)
    ensures r.Ok? <==> && y.Map? && Yaml.RequiredString(Yaml.Get(y, "name")).Ok?
                       && Yaml.OptionalString(Yaml.Get(y, "title")).Ok?
                       && ValidateIncludes(Yaml.Get(y, "includes")).Ok?
    ensures r.Ok? ==> && Yaml.Get(y, "name") == Some(Yaml.Str(r.value.name))
                      && TitleField(y, r.value.title)
                      && r.value.titleSet == Yaml.HasKey(y, "title")
                      && ListOf(Yaml.Get(y, "includes"), IncludeOf, r.value.includes)
    ensures r.Err? && Escapes(r.error) <==> y.Map? && SomeItemEscapes(Yaml.Get(y, "includes"), IncludeOf)
  {
    if !y.Map? then Err(ValueError("Input should be a valid dictionary"))
    else
      var name := Yaml.RequiredString(Yaml.Get(y, "name"));
      var title := Yaml.OptionalString(Yaml.Get(y, "title"));
      var includes := ValidateIncludes(Yaml.Get(y, "includes"));
      var fields :- Both(Both(name, title), includes);
      Ok(FlavorDefinition(fields.0.0, fields.0.1, Yaml.HasKey(y, "title"), fields.1))
  }

  /** The key of a `default_titles` entry, parsed as a path. */
  function TitleKey(e: (string, Yaml.Value)): Paths.Path {
    Paths.FromString(e.0)
  }

  /** The value of a `default_titles` entry, which must be a string. */
  function TitleValue(e: (string, Yaml.Value)): (r: Result<string>)
    ensures r.Ok? <==> e.1.Str?
  {
    if e.1.Str? then Ok(e.1.s) else Err(ValueError("Input should be a valid string"))
  }

  /** The `default_titles` mapping, keyed by parsed paths: one key per path
      an entry names, two keys naming the same path collapsing, the later
      value winning in the earlier slot. */
  function DefaultTitles(es: Dicts.Dict<string, Yaml.Value>): (r: Result<Dicts.Dict<Paths.Path, string>>)
    ensures r.Ok? <==> forall i :: 0 <= i < |es| ==> es[i].1.Str?
    ensures r.Err? ==> r.error.ValueError?
    ensures r.Ok? ==> Dicts.Unique(r.value)
    ensures r.Ok? ==> forall p :: p in Dicts.Keys(r.value) <==> exists i :: 0 <= i < |es| && TitleKey(es[i]) == p
    ensures r.Ok? ==> forall i :: 0 <= i < |es| && (forall j :: i < j < |es| ==> TitleKey(es[j]) != TitleKey(es[i])) ==>
                        Dicts.Get(r.value, TitleKey(es[i])) == Some(es[i].1.s)
  {
    Dicts.PutEachOk(es, TitleKey, TitleValue);
    var r := Dicts.PutEach(es, TitleKey, TitleValue);
    if r.Ok? then
      Dicts.PutEachUnique(es, TitleKey, TitleValue);
      Dicts.PutEachHasKeys(es, TitleKey, TitleValue);
      assert forall p :: p in Dicts.Keys(r.value) ==> exists i :: 0 <= i < |es| && TitleKey(es[i]) == p by {
        forall p | p in Dicts.Keys(r.value) ensures exists i :: 0 <= i < |es| && TitleKey(es[i]) == p {
          Dicts.PutEachOnlyKeys(es, TitleKey, TitleValue, p);
        }
      }
      assert forall i :: 0 <= i < |es| && (forall j :: i < j < |es| ==> TitleKey(es[j]) != TitleKey(es[i])) ==>
               Dicts.Get(r.value, TitleKey(es[i])) == Some(es[i].1.s) by {
        forall i | 0 <= i < |es| && (forall j :: i < j < |es| ==> TitleKey(es[j]) != TitleKey(es[i]))
          ensures Dicts.Get(r.value, TitleKey(es[i])) == Some(es[i].1.s)
        {
          Dicts.PutEachLastWins(es, TitleKey, TitleValue, i);
        }
      }
      r
    else
      Dicts.PutEachErr(es, TitleKey, TitleValue);
      r
  }

  /** The optional `default_titles` field: absent or null gives none, a
      mapping is validated by `DefaultTitles`. */
  function DefaultTitlesField(v: Option<Yaml.Value>): (r: Result<Option<Dicts.Dict<Paths.Path, string>>>)
    ensures r.Ok? && r.value.None? <==> v in {None, Some(Yaml.Null)}
    ensures r.Ok? && r.value.Some? <==> v.Some? && v.value.Map? && DefaultTitles(v.value.entries).Ok?
    ensures r.Ok? && r.value.Some? ==> DefaultTitles(v.value.entries) == Ok(r.value.value)
    ensures r.Err? ==> r.error.ValueError?
  {
    match v
    case None => Ok(None)
    case Some(Null) => Ok(None)
    case Some(Map(es)) =>
      var d :- DefaultTitles(es);
      Ok(Some(d))
    case Some(_) => Err(ValueError("Input should be a valid dictionary"))
  }

  /** `SectionDefinition.model_validate`: a mapping with a string `title`,
      optional `default_titles` and a list of flavors. */
  function ValidateSection(y: Yaml.Value): (r: Result<SectionDefinition>)
    ensures r.Ok? <==> && y.Map? && Yaml.RequiredString(Yaml.Get(y, "title")).Ok?
                       && DefaultTitlesField(Yaml.Get(y, "default_titles")).Ok?
                       && ValidateList(Yaml.Get(y, "flavors"), ValidateFlavor).Ok?
    ensures r.Ok? ==> y.Map? && Yaml.Get(y, "title") == Some(Yaml.Str(r.value.title))
    ensures r.Ok? ==> (r.value.defaultTitles.None? <==> Yaml.Get(y, "default_titles") in {None, Some(Yaml.Null)})
    ensures r.Ok? && r.value.defaultTitles.Some? ==>
              DefaultTitles(Yaml.Get(y, "default_titles").value.entries) == Ok(r.value.defaultTitles.value)
    ensures r.Ok? ==> ListOf(Yaml.Get(y, "flavors"), ValidateFlavor, r.value.flavors)
    ensures r.Err? && Escapes(r.error) <==> y.Map? && SomeItemEscapes(Yaml.Get(y, "flavors"), ValidateFlavor)
  {
    if !y.Map? then Err(ValueError("Input should be a valid dictionary"))
    else
      var title := Yaml.RequiredString(Yaml.Get(y, "title"));
      var defaults := DefaultTitlesField(Yaml.Get(y, "default_titles"));
      var flavors := ValidateList(Yaml.Get(y, "flavors"), ValidateFlavor);
      var fields :- Both(Both(title, defaults), flavors);
      Ok(SectionDefinition(fields.0.0, fields.0.1, fields.1))
  }

  /** `PartDefinition.model_validate`: a mapping with a string `name`, an
      optional string `title` and a list of include entries. */
  function ValidatePart(y: Yaml.Value): (r: Result<PartDefinition>)
    ensures r.Ok? <==> && y.Map? && Yaml.RequiredString(Yaml.Get(y, "name")).Ok?
                       && Yaml.OptionalString(Yaml.Get(y, "title")).Ok?
                       && ValidateIncludes(Yaml.Get(y, "sections")).Ok?
    ensures r.Ok? ==> && Yaml.Get(y, "name") == Some(Yaml.Str(r.value.name))
                      && TitleField(y, r.value.title)
                      && ListOf(Yaml.Get(y, "sections"), IncludeOf, r.value.sections)
    ensures r.Err? && Escapes(r.error) <==> y.Map? && SomeItemEscapes(Yaml.Get(y, "sections"), IncludeOf)
  {
    if !y.Map? then Err(ValueError("Input should be a valid dictionary"))
    else
      var name := Yaml.RequiredString(Yaml.Get(y, "name"));
      var title := Yaml.OptionalString(Yaml.Get(y, "title"));
      var sections := ValidateIncludes(Yaml.Get(y, "sections"));
      var fields :- Both(Both(name, title), sections);
      Ok(PartDefinition(fields.0.0, fields.0.1, fields.1))
  }

  /** `DeckDefinition.model_validate`: a mapping with a string `name` and a
      list of parts. */
  function ValidateDeck(y: Yaml.Value): (r: Result<DeckDefinition>)
    ensures r.Ok? <==> && y.Map? && Yaml.RequiredString(Yaml.Get(y, "name")).Ok?
                       && ValidateList(Yaml.Get(y, "parts"), ValidatePart).Ok?
    ensures r.Ok? ==> y.Map? && Yaml.Get(y, "name") == Some(Yaml.Str(r.value.name))
    ensures r.Ok? ==> var ps := Yaml.Get(y, "parts");
                      ps.Some? && ps.value.List? && |ps.value.items| == |r.value.parts|
                      && forall i :: 0 <= i < |r.value.parts| ==> ValidatePart(ps.value.items[i]) == Ok(r.value.parts[i])
    ensures r.Err? && Escapes(r.error) <==> y.Map? && SomeItemEscapes(Yaml.Get(y, "parts"), ValidatePart)
  {
    if !y.Map? then Err(ValueError("Input should be a valid dictionary"))
    else
      var name := Yaml.RequiredString(Yaml.Get(y, "name"));
      var parts := ValidateList(Yaml.Get(y, "parts"), ValidatePart);
      var fields :- Both(name, parts);
      Ok(DeckDefinition(fields.0, fields.1))
  }
}
