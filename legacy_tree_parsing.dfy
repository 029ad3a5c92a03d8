/** The tree parser of `deckz/parsing/tree_parsing.py`: a deck read from
    its configuration file and its targets file into parts of files and
    sections, each section unfolding the includes of one flavor of its
    definition.

    Paths here are logical: absolute paths below `/`, resolved against the
    local latex directory first and the shared one second.  A node that
    cannot be resolved, loaded or validated records its error, keeps its
    logical path as its path, and parsing goes on.  Only an exception that
    pydantic does not turn into a validation error, a path without a name
    and the interpreter's recursion limit end the parse.  The parsed tree
    reuses the nodes, parts and deck of `Decks`; `Deck.filter` of this
    module behaves as `Decks.Deck.Filter`. */
module LegacyTreeParsing {
  import opened Common
  import opened Strings
  import Dicts
  import Paths
  import Yaml
  import Definitions
  import opened Decks
  import Parsing
  import opened Validation

  /** A normalised include: a file, or a section with the flavor to unfold.
      `titleUnset` is set by a `{path: null}` entry, which turns off the
      definition's default title for that path. */
  datatype Include =
    | FileInclude(path: Paths.Path, title: Option<string>, titleUnset: bool)
    | SectionInclude(path: Paths.Path, flavor: string, title: Option<string>, titleUnset: bool)

  /** `_normalize_flavor_content`: a string is a file; a one-entry mapping
      is a section when its key starts with `$` (the value being the
      flavor), otherwise a file titled by the value, a null value leaving
      the title unset.  `len` of a scalar raises `TypeError`; a one-item
      list has no `items`. */
  function NormalizeFlavorContent(v: Yaml.Value): (r: Result<Include>)
    ensures r.Ok? ==> Paths.WellFormed(r.value.path)
    ensures r.Ok? && r.value.SectionInclude? ==> r.value.title.None? && !r.value.titleUnset
    ensures r.Ok? && r.value.title.Some? ==> !r.value.titleUnset
    ensures (v.Null? || v.Bool? || v.Int?) ==> r.Err? && Escapes(r.error)
  {
    match v
    case Str(s) => Ok(FileInclude(Paths.FromString(s), None, false))
    case Map(es) =>
      if |es| != 1 then Err(AssertionError)
      else
        var key := es[0].0;
        var value := es[0].1;
        if StartsWith(key, "$") then
          if value.Str? then Ok(SectionInclude(Paths.FromString(key[1..]), value.s, None, false))
          else Err(ValueError("Input should be a valid string"))
        else if value.Null? then Ok(FileInclude(Paths.FromString(key), None, true))
        else if value.Str? then Ok(FileInclude(Paths.FromString(key), Some(value.s), false))
        else Err(ValueError("Input should be a valid string"))
    case List(items) =>
      if |items| != 1 then Err(AssertionError)
      else Err(AttributeError("'list' object has no attribute 'items'"))
    case _ => Err(TypeError("object has no len()"))
  }

  /** How a flavor include is written in a section definition: a bare
      path, `{path: title}`, `{path: null}`, or `{$path: flavor}`. */
  function FlavorContent(inc: Include): Yaml.Value {
    match inc
    case FileInclude(path, None, false) => Yaml.Str(Paths.ToString(path))
    case FileInclude(path, None, true) => Yaml.Map([(Paths.ToString(path), Yaml.Null)])
    case FileInclude(path, Some(t), _) => Yaml.Map([(Paths.ToString(path), Yaml.Str(t))])
    case SectionInclude(path, flavor, _, _) => Yaml.Map([("$" + Paths.ToString(path), Yaml.Str(flavor))])
  }

  /** The includes the flavor syntax can write: a well-formed path, no
      title together with `title_unset`, a file key that does not read as
      a section, and no title on a section. */
  predicate FlavorWritable(inc: Include) {
    && Paths.WellFormed(inc.path)
    && (inc.FileInclude? && (inc.title.Some? || inc.titleUnset) ==>
          !inc.titleUnset || inc.title.None?)
    && (inc.FileInclude? && (inc.title.Some? || inc.titleUnset) ==>
          !StartsWith(Paths.ToString(inc.path), "$"))
    && (inc.SectionInclude? ==> inc.title.None? && !inc.titleUnset)
  }

  /** Writing a flavor include and normalising it gives it back. */
  lemma FlavorContentRoundTrip(inc: Include)
    requires FlavorWritable(inc)
    ensures NormalizeFlavorContent(FlavorContent(inc)) == Ok(inc)
  {
    Paths.ToStringFromString(inc.path);
    if inc.SectionInclude? {
      var key := "$" + Paths.ToString(inc.path);
      assert key[1..] == Paths.ToString(inc.path);
      assert StartsWith(key, "$");
    }
  }

  /** `_normalize_part_content`: a string is a file; a mapping without
      `path` must have one entry, a section whose flavor is the value; a
      mapping with `path` is a file, or a section when it has `flavor`,
      titled by `title`.  `Path` of a non-string raises `TypeError`, and so
      does `in` on a scalar or indexing a list with a string. */
  function NormalizePartContent(v: Yaml.Value): (r: Result<Include>)
    ensures r.Ok? ==> Paths.WellFormed(r.value.path) && !r.value.titleUnset
    ensures r.Ok? && r.value.SectionInclude? <==>
              v.Map? && (Yaml.HasKey(v, "path") ==> Yaml.HasKey(v, "flavor")) && r.Ok?
    ensures !v.Str? && !v.Map? ==> r.Err? && Escapes(r.error)
  {
    match v
    case Str(s) => Ok(FileInclude(Paths.FromString(s), None, false))
    case Map(es) =>
      if !Yaml.HasKey(v, "path") then
        if |es| != 1 then Err(AssertionError)
        else if es[0].1.Str? then Ok(SectionInclude(Paths.FromString(es[0].0), es[0].1.s, None, false))
        else Err(ValueError("Input should be a valid string"))
      else
        var path := Yaml.Get(v, "path").value;
        if !path.Str? then Err(TypeError("expected str, bytes or os.PathLike object"))
        else if !Yaml.HasKey(v, "flavor") then
          var title :- Yaml.OptionalString(Yaml.Get(v, "title"));
          Ok(FileInclude(Paths.FromString(path.s), title, false))
        else
          var flavor := Yaml.RequiredString(Yaml.Get(v, "flavor"));
          var title := Yaml.OptionalString(Yaml.Get(v, "title"));
          var fields :- Both(flavor, title);
          Ok(SectionInclude(Paths.FromString(path.s), fields.0, fields.1, false))
    case _ => Err(TypeError("argument of type is not iterable"))
  }

  /** How a part include is written in a targets file: a bare path, or a
      mapping with `path` and, as needed, `flavor` and `title`. */
  function PartContent(inc: Include): Yaml.Value {
    var path := ("path", Yaml.Str(Paths.ToString(inc.path)));
    match inc
    case FileInclude(_, None, _) => Yaml.Str(Paths.ToString(inc.path))
    case FileInclude(_, Some(t), _) => Yaml.Map([path, ("title", Yaml.Str(t))])
    case SectionInclude(_, flavor, None, _) => Yaml.Map([path, ("flavor", Yaml.Str(flavor))])
    case SectionInclude(_, flavor, Some(t), _) => Yaml.Map([path, ("flavor", Yaml.Str(flavor)), ("title", Yaml.Str(t))])
  }

  /** Writing a part include and normalising it gives it back. */
  lemma PartContentRoundTrip(inc: Include)
    requires Paths.WellFormed(inc.path) && !inc.titleUnset
    ensures NormalizePartContent(PartContent(inc)) == Ok(inc)
  {
    Paths.ToStringFromString(inc.path);
    if inc.FileInclude? {
      if inc.title.Some? {
        FileEntryRoundTrip(inc);
      }
    } else {
      SectionEntryRoundTrip(inc);
    }
  }

  lemma FileEntryRoundTrip(inc: Include)
    requires inc.FileInclude? && inc.title.Some? && Paths.WellFormed(inc.path) && !inc.titleUnset
    ensures NormalizePartContent(PartContent(inc)) == Ok(inc)
  {
    Paths.ToStringFromString(inc.path);
    var v := PartContent(inc);
    var es := v.entries;
    var rest := es[1..];
    assert es[0] == ("path", Yaml.Str(Paths.ToString(inc.path)));
    assert rest == [("title", Yaml.Str(inc.title.value))];
    assert Yaml.Get(v, "path") == Some(Yaml.Str(Paths.ToString(inc.path)));
    assert Yaml.Get(v, "title") == Dicts.Get(rest, "title") == Some(Yaml.Str(inc.title.value));
    assert Yaml.Get(v, "flavor") == Dicts.Get(rest, "flavor") == Dicts.Get(rest[1..], "flavor");
  }

  lemma SectionEntryRoundTrip(inc: Include)
    requires inc.SectionInclude? && Paths.WellFormed(inc.path) && !inc.titleUnset
    ensures NormalizePartContent(PartContent(inc)) == Ok(inc)
  {
    Paths.ToStringFromString(inc.path);
    var v := PartContent(inc);
    var es := v.entries;
    var rest := es[1..];
    assert es[0] == ("path", Yaml.Str(Paths.ToString(inc.path)));
    assert rest[0] == ("flavor", Yaml.Str(inc.flavor));
    assert Yaml.Get(v, "path") == Some(Yaml.Str(Paths.ToString(inc.path)));
    assert Yaml.Get(v, "flavor") == Dicts.Get(rest, "flavor") == Some(Yaml.Str(inc.flavor));
    assert Yaml.Get(v, "title") == Dicts.Get(rest, "title") == Dicts.Get(rest[1..], "title");
    if inc.title.Some? {
      assert rest[1..] == [("title", Yaml.Str(inc.title.value))];
      assert Dicts.Get(rest[1..], "title") == Some(Yaml.Str(inc.title.value));
    } else {
      assert rest[1..] == [];
    }
  }

  /** A `SectionDefinition`: a title, titles by path for includes that give
      none, the includes of each flavor, and an optional version. */
  datatype SectionDefinition = SectionDefinition(
    title: string, defaultTitles: Option<Dicts.Dict<Paths.Path, string>>,
    flavors: Dicts.Dict<string, seq<Include>>, version: Option<int>)

  function FlavorItem(v: Yaml.Value): Result<Include> {
    Validated(NormalizeFlavorContent(v))
  }

  /** One entry of `flavors`: a name and the list of its includes. */
  function FlavorEntry(e: (string, Yaml.Value)): (r: Result<(string, seq<Include>)>)
    ensures r.Ok? ==> r.value.0 == e.0 && e.1.List? && CollectAll(e.1.items, FlavorItem) == Ok(r.value.1)
  {
    if e.1.List? then
      var includes :- CollectAll(e.1.items, FlavorItem);
      Ok((e.0, includes))
    else Err(ValueError("Input should be a valid list"))
  }

  /** The `flavors` field, a required mapping. */
  function FlavorsField(v: Option<Yaml.Value>): Result<Dicts.Dict<string, seq<Include>>> {
    match v
    case Some(Map(es)) => CollectAll(es, FlavorEntry)
    case None => Err(ValueError("Field required"))
    case Some(_) => Err(ValueError("Input should be a valid dictionary"))
  }

  /** The optional `default_titles` field, keyed by parsed paths. */
  function DefaultTitlesField(v: Option<Yaml.Value>): (r: Result<Option<Dicts.Dict<Paths.Path, string>>>)
    ensures r.Err? ==> !Escapes(r.error)
  {
    match v
    case None => Ok(None)
    case Some(Null) => Ok(None)
    case Some(Map(es)) =>
      if Definitions.DefaultTitles(es).Ok? then Ok(Some(Definitions.DefaultTitles(es).value))
      else Err(ValueError("Input should be a valid string"))
    case Some(_) => Err(ValueError("Input should be a valid dictionary"))
  }

  /** The optional `version` field. */
  function VersionField(v: Option<Yaml.Value>): (r: Result<Option<int>>)
    ensures r.Err? ==> !Escapes(r.error)
  {
    match v
    case None => Ok(None)
    case Some(Null) => Ok(None)
    case Some(Int(i)) => Ok(Some(i))
    case Some(_) => Err(ValueError("Input should be a valid integer"))
  }

  /** `SectionDefinition.model_validate`: the four fields in order; only
      the includes of a flavor can raise an exception that escapes. */
  function ValidateSection(y: Yaml.Value): (r: Result<SectionDefinition>)
    ensures r.Ok? ==> y.Map? && Yaml.Get(y, "title") == Some(Yaml.Str(r.value.title))
    ensures r.Ok? ==> FlavorsField(Yaml.Get(y, "flavors")) == Ok(r.value.flavors)
    ensures r.Err? && Escapes(r.error) ==> y.Map? && FlavorsField(Yaml.Get(y, "flavors")) == Err(r.error)
  {
    if !y.Map? then Err(ValueError("Input should be a valid dictionary"))
    else
      var title := Yaml.RequiredString(Yaml.Get(y, "title"));
      var defaults := DefaultTitlesField(Yaml.Get(y, "default_titles"));
      var flavors := FlavorsField(Yaml.Get(y, "flavors"));
      var version := VersionField(Yaml.Get(y, "version"));
      var fields :- Both(Both(title, defaults), Both(flavors, version));
      Ok(SectionDefinition(fields.0.0, fields.0.1, fields.1.0, fields.1.1))
  }

  // ------------------------------------------------------------ resolution

  /** The two latex directories of the configured paths, both absolute. */
  datatype LatexDirs = LatexDirs(local: Paths.Path, shared: Paths.Path)

  /** `Path("/")`, the base of the includes of a part. */
  const Root := Paths.Path(true, [])

  /** `_compute_logical_path`: a rooted include stands as it is, another
      one is joined to the base.  The check is the one `/` already makes,
      and a rooted base gives a rooted result. */
  function LogicalPath(base: Paths.Path, p: Paths.Path): (r: Paths.Path)
    ensures r == Paths.Concat(base, p)
    ensures base.rooted ==> r.rooted
  {
    if p.rooted then p else Paths.Concat(base, p)
  }

  /** A logical path below a latex directory: its components joined to
      the directory, as `dir / logical.relative_to("/")`. */
  function Candidate(dir: Paths.Path, logical: Paths.Path): (r: Paths.Path)
    requires logical.rooted
    ensures r.rooted == dir.rooted && r.parts == dir.parts + logical.parts
  {
    Paths.Concat(dir, Paths.RelativeTo(logical, Root).value)
  }

  /** `DeckParser._resolve`: the local candidate if it exists as the
      requested kind, else the shared candidate if it does, else nothing. */
  function Resolve(dirs: LatexDirs, fs: Yaml.FileSystem, logical: Paths.Path, target: Parsing.Target)
    : (r: Option<Paths.Path>)
    requires logical.rooted
    ensures r.Some? <==> Parsing.Exists(fs, Candidate(dirs.local, logical), target)
                         || Parsing.Exists(fs, Candidate(dirs.shared, logical), target)
    ensures r.Some? ==> Parsing.Exists(fs, r.value, target)
    ensures Parsing.Exists(fs, Candidate(dirs.local, logical), target) ==> r == Some(Candidate(dirs.local, logical))
    ensures !Parsing.Exists(fs, Candidate(dirs.local, logical), target) && r.Some? ==>
              r == Some(Candidate(dirs.shared, logical))
  {
    var local := Candidate(dirs.local, logical);
    var shared := Candidate(dirs.shared, logical);
    if Parsing.Exists(fs, local, target) then Some(local)
    else if Parsing.Exists(fs, shared, target) then Some(shared)
    else None
  }

  // ------------------------------------------------------------- the tree

  /** `DeckParser._parse_file`. */
  function ParseFile(dirs: LatexDirs, fs: Yaml.FileSystem, base: Paths.Path, p: Paths.Path,
                     title: Option<string>): (r: Result<Node>)
    requires base.rooted
    ensures r.Ok? ==> r.value.File? && r.value.title == title
  {
    var logical := LogicalPath(base, p);
    var latex :- Paths.WithSuffix(logical, ".tex");
    match Resolve(dirs, fs, latex, Parsing.FileTarget)
    case Some(found) => Ok(File(title, logical, found, None))
    case None => Ok(File(title, logical, logical, Some("unresolvable file path " + Paths.ToString(logical))))
  }

  /** A file node keeps its title and logical path; it has no error exactly
      when its `.tex` file resolves, and then holds the resolved path;
      otherwise it keeps its logical path and its error names it.  Only a
      logical path without a name escapes, as `with_suffix` raises. */
  lemma ParseFileSpec(dirs: LatexDirs, fs: Yaml.FileSystem, base: Paths.Path, p: Paths.Path,
                      title: Option<string>)
    requires base.rooted
    ensures var r := ParseFile(dirs, fs, base, p, title);
            var logical := Paths.Concat(base, p);
            && (r.Err? <==> |logical.parts| == 0)
            && (r.Ok? ==> r.value.title == title && r.value.unresolvedPath == logical)
            && (r.Ok? ==>
                  var found := Resolve(dirs, fs, Paths.WithSuffix(logical, ".tex").value, Parsing.FileTarget);
                  && (r.value.parsingError.None? <==> found.Some?)
                  && r.value.resolvedPath == (if found.Some? then found.value else logical)
                  && (found.None? ==>
                        r.value.parsingError == Some("unresolvable file path " + Paths.ToString(logical))))
  {
  }

  /** What `_parse_section` finds before its children are parsed: an error
      it records with the title as given; a definition that lacks the
      flavor; or the flavor's includes. */
  datatype Lookup =
    | Unresolved(path: Paths.Path, message: string)
    | Unusable(path: Paths.Path, definition: SectionDefinition, message: string)
    | Found(path: Paths.Path, definition: SectionDefinition, includes: seq<Include>)

  /** The definition file found at `file`, read for `flavor`: a file that
      does not load or does not validate is recorded, except for an
      exception pydantic lets escape. */
  function ReadDefinition(fs: Yaml.FileSystem, dir: Paths.Path, file: Paths.Path, flavor: string)
    : (r: Result<Lookup>)
    requires Yaml.IsFile(fs, file.parts)
    ensures r.Ok? ==> r.value.path == dir
    ensures var content := fs[file.parts].content;
            r.Err? <==> content.Some? && ValidateSection(content.value).Err?
                        && Escapes(ValidateSection(content.value).error)
    ensures var content := fs[file.parts].content;
            r.Ok? && !r.value.Unresolved? ==>
              && content.Some? && ValidateSection(content.value) == Ok(r.value.definition)
              && (r.value.Found? <==> flavor in Dicts.Keys(r.value.definition.flavors))
              && (r.value.Found? ==> Dicts.Get(r.value.definition.flavors, flavor) == Some(r.value.includes))
              && (r.value.Unusable? ==> r.value.message == "flavor " + flavor + " not found")
    ensures var content := fs[file.parts].content;
            r.Ok? && r.value.Unresolved? ==>
              if content.None? then r.value.message == Message(YamlError)
              else ValidateSection(content.value).Err?
                   && r.value.message == Message(ValidateSection(content.value).error)
  {
    match fs[file.parts].content
    case None => Ok(Unresolved(dir, Message(YamlError)))
    case Some(content) =>
      match ValidateSection(content)
      case Err(e) => if Escapes(e) then Err(e) else Ok(Unresolved(dir, Message(e)))
      case Ok(definition) =>
        match Dicts.Get(definition.flavors, flavor)
        case None => Ok(Unusable(dir, definition, "flavor " + flavor + " not found"))
        case Some(includes) => Ok(Found(dir, definition, includes))
  }

  /** The lookups of `_parse_section`: the section directory, then its
      definition `<logical>/<name>.yml` (given the `.yml` suffix twice, the
      second time harmlessly), resolved as a file. */
  function LookUpSection(dirs: LatexDirs, fs: Yaml.FileSystem, logical: Paths.Path, flavor: string)
    : (r: Result<Lookup>)
    requires logical.rooted
    ensures var dir := Resolve(dirs, fs, logical, Parsing.DirTarget);
            dir.None? ==> r == Ok(Unresolved(logical, "unresolvable section path " + Paths.ToString(logical)))
    ensures var dir := Resolve(dirs, fs, logical, Parsing.DirTarget);
            dir.Some? ==> (r.Err? && !Escapes(r.error) <==> |logical.parts| == 0)
    ensures var dir := Resolve(dirs, fs, logical, Parsing.DirTarget);
            dir.Some? && r.Ok? ==> r.value.path == dir.value
  {
    match Resolve(dirs, fs, logical, Parsing.DirTarget)
    case None => Ok(Unresolved(logical, "unresolvable section path " + Paths.ToString(logical)))
    case Some(dir) =>
      var definition :- Parsing.DefinitionPath(logical);
      var again := Paths.WithSuffix(definition, ".yml").value;
      match Resolve(dirs, fs, again, Parsing.FileTarget)
      case None =>
        Ok(Unresolved(dir, "unresolvable section definition path " + Paths.ToString(definition)))
      case Some(file) => ReadDefinition(fs, dir, file, flavor)
  }

  /** Past a resolved directory, the definition `<logical>/<name>.yml` is
      looked up as a file: missing, it is recorded under its logical path;
      found, it is read for the flavor. */
  lemma LookUpDefinition(dirs: LatexDirs, fs: Yaml.FileSystem, logical: Paths.Path, flavor: string)
    requires logical.rooted && |logical.parts| > 0
    requires Resolve(dirs, fs, logical, Parsing.DirTarget).Some?
    ensures var dir := Resolve(dirs, fs, logical, Parsing.DirTarget).value;
            var definition := Parsing.DefinitionPath(logical).value;
            var file := Resolve(dirs, fs, Paths.WithSuffix(definition, ".yml").value, Parsing.FileTarget);
            && (file.None? ==>
                  LookUpSection(dirs, fs, logical, flavor)
                  == Ok(Unresolved(dir, "unresolvable section definition path " + Paths.ToString(definition))))
            && (file.Some? ==>
                  LookUpSection(dirs, fs, logical, flavor) == ReadDefinition(fs, dir, file.value, flavor))
  {
  }

  /** The title of a section whose definition validated: the include's
      title, else the definition's. */
  function SectionTitle(title: Option<string>, definition: SectionDefinition): (r: Option<string>)
    ensures r.Some?
    ensures title.Some? ==> r == title
  {
    if title.None? then Some(definition.title) else title
  }

  /** The title a child of a section gets: a non-empty include title, else
      the definition's default title for that path unless the include
      unset it, else none. */
  function ChildTitle(inc: Include, defaultTitles: Option<Dicts.Dict<Paths.Path, string>>): (r: Option<string>)
    ensures inc.title.Some? && inc.title.value != "" ==> r == inc.title
    ensures r.Some? && r != inc.title ==>
              !inc.titleUnset && defaultTitles.Some? && Dicts.Get(defaultTitles.value, inc.path) == r
    ensures r.None? ==> (inc.title.None? || inc.title == Some(""))
                        && (inc.titleUnset || defaultTitles.None?
                            || Dicts.Get(defaultTitles.value, inc.path).None?)
  {
    if inc.title.Some? && inc.title.value != "" then inc.title
    else if !inc.titleUnset && defaultTitles.Some? && |defaultTitles.value| > 0
            && inc.path in Dicts.Keys(defaultTitles.value) then
      Dicts.Get(defaultTitles.value, inc.path)
    else None
  }

  /** `DeckParser._parse_section`, with `depth` nested calls left before
      the interpreter's recursion limit. */
  function ParseSection(dirs: LatexDirs, fs: Yaml.FileSystem, base: Paths.Path, p: Paths.Path,
                        title: Option<string>, flavor: string, depth: nat): (r: Result<Node>)
    requires base.rooted
    ensures depth == 0 ==> r == Err(RecursionError)
    ensures r.Ok? ==> r.value.Section? && r.value.flavor == flavor
                      && r.value.unresolvedPath == Paths.Concat(base, p)
    ensures r.Ok? && r.value.parsingError.Some? ==> r.value.nodes == []
    ensures r.Ok? && title.Some? ==> r.value.title == title
    decreases depth, 0
  {
    if depth == 0 then Err(RecursionError)
    else
      var logical := LogicalPath(base, p);
      var lookup :- LookUpSection(dirs, fs, logical, flavor);
      match lookup
      case Unresolved(path, message) =>
        Ok(Section(title, logical, path, Some(message), flavor, []))
      case Unusable(path, definition, message) =>
        Ok(Section(SectionTitle(title, definition), logical, path, Some(message), flavor, []))
      case Found(path, definition, includes) =>
        var nodes :- ParseNodes(dirs, fs, includes, definition.defaultTitles, logical, depth - 1);
        Ok(Section(SectionTitle(title, definition), logical, path, None, flavor, nodes))
  }

  /** What a parsed section holds: the lookup's error and no children, its
      title as given when the definition did not validate and otherwise by
      precedence (the include's, the definition's); when the flavor is
      found, no error and one child per include of the flavor, parsed
      below the section's logical path. */
  lemma ParseSectionSpec(dirs: LatexDirs, fs: Yaml.FileSystem, base: Paths.Path, p: Paths.Path,
                         title: Option<string>, flavor: string, depth: nat)
    requires base.rooted
    requires ParseSection(dirs, fs, base, p, title, flavor, depth).Ok?
    ensures var r := ParseSection(dirs, fs, base, p, title, flavor, depth).value;
            var lookup := LookUpSection(dirs, fs, r.unresolvedPath, flavor);
            && depth > 0 && lookup.Ok?
            && r.resolvedPath == lookup.value.path
            && (r.parsingError.None? <==> lookup.value.Found?)
            && (lookup.value.Unresolved? ==> r.title == title && r.parsingError == Some(lookup.value.message))
            && (lookup.value.Unusable? ==>
                  r.title == SectionTitle(title, lookup.value.definition)
                  && r.parsingError == Some(lookup.value.message))
            && (lookup.value.Found? ==>
                  && r.title == SectionTitle(title, lookup.value.definition)
                  && Ok(r.nodes) == ParseNodes(dirs, fs, lookup.value.includes,
                                               lookup.value.definition.defaultTitles, r.unresolvedPath, depth - 1))
  {
    var logical := LogicalPath(base, p);
    var lookup := LookUpSection(dirs, fs, logical, flavor);
    assert lookup.Ok?;
    if lookup.value.Found? {
      var nodes := ParseNodes(dirs, fs, lookup.value.includes, lookup.value.definition.defaultTitles,
                              logical, depth - 1);
      assert nodes.Ok?;
    }
  }

  /** One include of a section, titled by `ChildTitle` and parsed below the
      section's logical path. */
  function ParseNode(dirs: LatexDirs, fs: Yaml.FileSystem, inc: Include,
                     defaultTitles: Option<Dicts.Dict<Paths.Path, string>>, base: Paths.Path, depth: nat)
    : (r: Result<Node>)
    requires base.rooted
    ensures r.Ok? ==> (r.value.Section? <==> inc.SectionInclude?)
    ensures r.Ok? && (inc.FileInclude? || ChildTitle(inc, defaultTitles).Some?) ==>
              r.value.title == ChildTitle(inc, defaultTitles)
    decreases depth, 1
  {
    var title := ChildTitle(inc, defaultTitles);
    match inc
    case FileInclude(path, _, _) => ParseFile(dirs, fs, base, path, title)
    case SectionInclude(path, flavor, _, _) =>
      ParseSection(dirs, fs, base, path, title, flavor, depth)
  }

  /** The children of a section: one node per include, in order; the first
      escaping error ends the parse. */
  function ParseNodes(dirs: LatexDirs, fs: Yaml.FileSystem, includes: seq<Include>,
                      defaultTitles: Option<Dicts.Dict<Paths.Path, string>>, base: Paths.Path, depth: nat)
    : (r: Result<seq<Node>>)
    requires base.rooted
    ensures r.Ok? ==> |r.value| == |includes|
    decreases depth, 2
  {
    MapAll(includes, inc => ParseNode(dirs, fs, inc, defaultTitles, base, depth))
  }

  /** Each child is its include parsed alone, and the children fail
      exactly when some include does. */
  lemma ParseNodesEach(dirs: LatexDirs, fs: Yaml.FileSystem, includes: seq<Include>,
                       defaultTitles: Option<Dicts.Dict<Paths.Path, string>>, base: Paths.Path, depth: nat)
    requires base.rooted
    ensures var r := ParseNodes(dirs, fs, includes, defaultTitles, base, depth);
            && (r.Ok? <==> forall i :: 0 <= i < |includes| ==>
                             ParseNode(dirs, fs, includes[i], defaultTitles, base, depth).Ok?)
            && (r.Ok? ==> forall i :: 0 <= i < |includes| ==>
                            ParseNode(dirs, fs, includes[i], defaultTitles, base, depth) == Ok(r.value[i]))
  {
    var f := inc => ParseNode(dirs, fs, inc, defaultTitles, base, depth);
    MapAllEach(includes, f);
    assert forall i :: 0 <= i < |includes| ==>
             f(includes[i]) == ParseNode(dirs, fs, includes[i], defaultTitles, base, depth);
  }

  // ----------------------------------------------------------------- parts

  /** A `PartDefinition` of the targets file. */
  datatype PartDefinition = PartDefinition(name: string, title: Option<string>, sections: seq<Include>)

  function PartItem(v: Yaml.Value): Result<Include> {
    Validated(NormalizePartContent(v))
  }

  /** The required `sections` field, a list of part includes. */
  function SectionsField(v: Option<Yaml.Value>): Result<seq<Include>> {
    match v
    case Some(List(items)) => CollectAll(items, PartItem)
    case None => Err(ValueError("Field required"))
    case Some(_) => Err(ValueError("Input should be a valid list"))
  }

  /** `PartDefinition.model_validate`. */
  function ValidatePart(y: Yaml.Value): (r: Result<PartDefinition>)
    ensures r.Ok? ==> y.Map? && Yaml.Get(y, "name") == Some(Yaml.Str(r.value.name))
    ensures r.Ok? ==> Yaml.OptionalString(Yaml.Get(y, "title")) == Ok(r.value.title)
    ensures r.Ok? ==> SectionsField(Yaml.Get(y, "sections")) == Ok(r.value.sections)
  {
    if !y.Map? then Err(ValueError("Input should be a valid dictionary"))
    else
      var name := Yaml.RequiredString(Yaml.Get(y, "name"));
      var title := Yaml.OptionalString(Yaml.Get(y, "title"));
      var sections := SectionsField(Yaml.Get(y, "sections"));
      var fields :- Both(Both(name, title), sections);
      Ok(PartDefinition(fields.0.0, fields.0.1, fields.1))
  }

  /** `TypeAdapter(list[PartDefinition]).validate_python`. */
  function ValidateParts(y: Yaml.Value): (r: Result<seq<PartDefinition>>)
    ensures r.Ok? <==> y.List? && forall i :: 0 <= i < |y.items| ==> ValidatePart(y.items[i]).Ok?
    ensures r.Ok? ==> |r.value| == |y.items|
                      && forall i :: 0 <= i < |y.items| ==> ValidatePart(y.items[i]) == Ok(r.value[i])
  {
    if y.List? then CollectAll(y.items, ValidatePart)
    else Err(ValueError("Input should be a valid list"))
  }

  /** `DeckConfig.model_validate(...).deck_acronym`; other keys are allowed. */
  function ValidateDeckConfig(y: Yaml.Value): (r: Result<string>)
    ensures r.Ok? <==> Yaml.HasKey(y, "deck_acronym") && Yaml.Get(y, "deck_acronym").value.Str?
    ensures r.Ok? ==> Yaml.Get(y, "deck_acronym") == Some(Yaml.Str(r.value))
  {
    if y.Map? then Yaml.RequiredString(Yaml.Get(y, "deck_acronym"))
    else Err(ValueError("Input should be a valid dictionary"))
  }

  /** A top-level include of a part: parsed below `/`, titled by the
      include as given. */
  function ParsePartNode(dirs: LatexDirs, fs: Yaml.FileSystem, depth: nat, inc: Include): Result<Node> {
    match inc
    case FileInclude(path, title, _) => ParseFile(dirs, fs, Root, path, title)
    case SectionInclude(path, flavor, title, _) => ParseSection(dirs, fs, Root, path, title, flavor, depth)
  }

  /** `ParsePartNode` for one configuration, as a function value. */
  function PartNodeParser(dirs: LatexDirs, fs: Yaml.FileSystem, depth: nat): Include -> Result<Node> {
    inc => ParsePartNode(dirs, fs, depth, inc)
  }

  /** One parsed part: its title and one node per include. */
  function PartOf(parse: Include -> Result<Node>, definition: PartDefinition): Result<Part> {
    var nodes :- MapAll(definition.sections, parse);
    Ok(Part(definition.title, nodes))
  }

  function PartParser(parse: Include -> Result<Node>): PartDefinition -> Result<Part> {
    definition => PartOf(parse, definition)
  }

  function PartName(definition: PartDefinition): string {
    definition.name
  }

  /** The parts dict `parse_parts` builds: each definition in turn stored
      under its name, a repeated name overwriting the earlier part in its
      slot. */
  function PartsOf(parse: Include -> Result<Node>, definitions: seq<PartDefinition>)
    : (r: Result<Dicts.Dict<string, Part>>)
    ensures r.Ok? ==> Dicts.Unique(r.value)
    ensures r.Ok? ==> forall i :: 0 <= i < |definitions| ==> definitions[i].name in Dicts.Keys(r.value)
    ensures r.Ok? <==> forall i :: 0 <= i < |definitions| ==> PartOf(parse, definitions[i]).Ok?
  {
    Dicts.PutEachOk(definitions, PartName, PartParser(parse));
    assert forall i :: 0 <= i < |definitions| ==>
             PartParser(parse)(definitions[i]) == PartOf(parse, definitions[i]);
    var r := Dicts.PutEach(definitions, PartName, PartParser(parse));
    if r.Ok? then
      Dicts.PutEachUnique(definitions, PartName, PartParser(parse));
      Dicts.PutEachHasKeys(definitions, PartName, PartParser(parse));
      r
    else r
  }

  /** A part name is stored with the part of its last definition. */
  lemma PartsOfLastWins(parse: Include -> Result<Node>, definitions: seq<PartDefinition>, i: nat)
    requires PartsOf(parse, definitions).Ok? && i < |definitions|
    requires forall j :: i < j < |definitions| ==> definitions[j].name != definitions[i].name
    ensures PartOf(parse, definitions[i]).Ok?
    ensures Dicts.Get(PartsOf(parse, definitions).value, definitions[i].name)
         == Some(PartOf(parse, definitions[i]).value)
  {
    Dicts.PutEachLastWins(definitions, PartName, PartParser(parse), i);
    assert PartParser(parse)(definitions[i]) == PartOf(parse, definitions[i]);
  }

  /** The inner loop of `parse_parts`: the includes of one part parsed in
      order. */
  method ParseIncludes(parse: Include -> Result<Node>, sections: seq<Include>) returns (r: Result<seq<Node>>)
    ensures r == MapAll(sections, parse)
  {
    var nodes: seq<Node> := [];
    var j := 0;
    while j < |sections|
      invariant 0 <= j <= |sections|
      invariant MapAll(sections[..j], parse) == Ok(nodes)
    {
      MapAllStep(sections, j, parse);
      var node := parse(sections[j]);
      if node.Err? {
        MapAllPrefixErr(sections, j + 1, parse);
        return Err(node.error);
      }
      nodes := nodes + [node.value];
      j := j + 1;
    }
    assert sections[..j] == sections;
    return Ok(nodes);
  }

  /** `DeckParser.parse_parts`: for each part definition, parse its
      includes, then store the part under its name. */
  method ParseParts(parse: Include -> Result<Node>, definitions: seq<PartDefinition>)
    returns (r: Result<Dicts.Dict<string, Part>>)
    ensures r == PartsOf(parse, definitions)
  {
    var parts: Dicts.Dict<string, Part> := [];
    var i := 0;
    while i < |definitions|
      invariant 0 <= i <= |definitions|
      invariant Dicts.PutEach(definitions[..i], PartName, PartParser(parse)) == Ok(parts)
    {
      var definition := definitions[i];
      assert definitions[..i + 1][..i] == definitions[..i];
      var nodes := ParseIncludes(parse, definition.sections);
      assert PartParser(parse)(definition) == PartOf(parse, definition);
      if nodes.Err? {
        Dicts.PutEachPrefixErr(definitions, i + 1, PartName, PartParser(parse));
        return Err(nodes.error);
      }
      parts := Dicts.Put(parts, definition.name, Part(definition.title, nodes.value));
      i := i + 1;
    }
    assert definitions[..i] == definitions;
    return Ok(parts);
  }

  /** The deck acronym and the part definitions, loaded and validated. */
  function LoadDefinitions(fs: Yaml.FileSystem, deckConfig: Paths.Path, targets: Paths.Path)
    : (r: Result<(string, seq<PartDefinition>)>)
    ensures Yaml.Load(fs, deckConfig).Err? ==> r == Err(Yaml.Load(fs, deckConfig).error)
    ensures r.Ok? ==> Yaml.Load(fs, deckConfig).Ok? && Yaml.Load(fs, targets).Ok?
                      && ValidateDeckConfig(Yaml.Load(fs, deckConfig).value) == Ok(r.value.0)
                      && ValidateParts(Yaml.Load(fs, targets).value) == Ok(r.value.1)
  {
    var config :- Yaml.Load(fs, deckConfig);
    var acronym :- ValidateDeckConfig(config);
    var content :- Yaml.Load(fs, targets);
    var definitions :- ValidateParts(content);
    Ok((acronym, definitions))
  }

  /** `DeckParser.parse`: a new deck named by the configured acronym whose
      parts are the parsed part definitions of the targets file.  Errors
      recorded in nodes do not fail the parse. */
  method Parse(dirs: LatexDirs, fs: Yaml.FileSystem, deckConfig: Paths.Path, targets: Paths.Path, depth: nat)
    returns (r: Result<Deck>)
    ensures var d := LoadDefinitions(fs, deckConfig, targets);
            r.Ok? <==> d.Ok? && PartsOf(PartNodeParser(dirs, fs, depth), d.value.1).Ok?
    ensures var d := LoadDefinitions(fs, deckConfig, targets);
            d.Err? ==> r.Err? && r.error == d.error
    ensures r.Ok? ==> var d := LoadDefinitions(fs, deckConfig, targets).value;
                      && fresh(r.value) && r.value.Valid() && r.value.name == d.0
                      && r.value.parts == PartsOf(PartNodeParser(dirs, fs, depth), d.1).value
  {
    var definitions := LoadDefinitions(fs, deckConfig, targets);
    if definitions.Err? {
      return Err(definitions.error);
    }
    var parts := ParseParts(PartNodeParser(dirs, fs, depth), definitions.value.1);
    if parts.Err? {
      return Err(parts.error);
    }
    var deck := new Deck(definitions.value.0, parts.value);
    return Ok(deck);
  }
}
