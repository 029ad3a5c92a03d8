/** The deck parser: from a deck definition to a tree of parts, sections
    and files whose paths are resolved against a local and a shared latex
    directory.

    A node that cannot be resolved or loaded records its error and parsing
    goes on; only the final validation of the whole deck fails.  Errors
    that Python lets escape (an includePath whose path has an empty name, a
    nesting too deep for the interpreter) end the parse.  Section includes
    may nest without any cycle check, so the recursion is bounded by the
    interpreter's recursion limit, modelled as a depth budget. */
module Parsing {
  import opened Common
  import opened Strings
  import Dicts
  import Paths
  import Yaml
  import opened Definitions
  import opened Validation
  import opened Decks
  import Reports

  /** The directories and extension a parser resolves includes with, and
      the nesting depth at which the interpreter gives up.  The latex
      directories are absolute. */
  datatype Parser = Parser(
    localLatexDir: Paths.Path, sharedLatexDir: Paths.Path, fileExtension: string, recursionLimit: nat)

  datatype Target = FileTarget | DirTarget

  /** `Parser._compute_unresolved_path`: a rooted include is taken relative
      to `/`, whatever the base; another one is joined to the base and
      normalised. */
  function ComputeUnresolvedPath(base: Paths.Path, includePath: Paths.Path): (r: Paths.Path)
    ensures !base.rooted ==> !r.rooted
    ensures includePath.rooted ==> !r.rooted && r.parts == includePath.parts
    ensures !includePath.rooted ==> r == Paths.Normalize(Paths.Concat(base, includePath))
  {
    if includePath.rooted then Paths.Path(false, includePath.parts)
    else Paths.Normalize(Paths.Concat(base, includePath))
  }

  /** An include made of plain names below a relative base made of plain
      names lands at the base's components followed by its own. */
  lemma UnresolvedPathOfNames(base: Paths.Path, includePath: Paths.Path)
    requires !base.rooted && !includePath.rooted
    requires forall c :: c in base.parts + includePath.parts ==> !Paths.Dropped(c) && c != ".."
    ensures ComputeUnresolvedPath(base, includePath) == Paths.Path(false, base.parts + includePath.parts)
  {
    var joined := Paths.Concat(base, includePath);
    forall i | 0 <= i < |joined.parts| ensures !Paths.Dropped(joined.parts[i]) && joined.parts[i] != ".." {
      assert joined.parts[i] in base.parts + includePath.parts;
    }
    Paths.NormalizeNames(joined);
  }

  /** Where an unresolved path lands below a latex directory. */
  function Candidate(dir: Paths.Path, p: Paths.Path): Paths.Path {
    Paths.Normalize(Paths.Concat(dir, p))
  }

  predicate Exists(fs: Yaml.FileSystem, p: Paths.Path, target: Target) {
    if target == FileTarget then Yaml.IsFile(fs, p.parts) else Yaml.IsDir(fs, p.parts)
  }

  /** `Parser._resolve`: the local candidate if it exists as the requested
      kind, else the shared candidate if it does, else nothing.  A path
      present in both places resolves locally, silently. */
  function Resolve(parser: Parser, fs: Yaml.FileSystem, p: Paths.Path, target: Target): (r: Option<Paths.Path>)
    ensures r.Some? <==> Exists(fs, Candidate(parser.localLatexDir, p), target)
                         || Exists(fs, Candidate(parser.sharedLatexDir, p), target)
    ensures r.Some? ==> Exists(fs, r.value, target)
    ensures r.Some? ==> r.value in {Candidate(parser.localLatexDir, p), Candidate(parser.sharedLatexDir, p)}
    ensures Exists(fs, Candidate(parser.localLatexDir, p), target) ==> r == Some(Candidate(parser.localLatexDir, p))
  {
    var candidates := [Candidate(parser.localLatexDir, p), Candidate(parser.sharedLatexDir, p)];
    if Exists(fs, candidates[0], target) then Some(candidates[0])
    else if Exists(fs, candidates[1], target) then Some(candidates[1])
    else None
  }

  /** `Parser._parse_file`. */
  function ParseFile(parser: Parser, fs: Yaml.FileSystem, base: Paths.Path, includePath: Paths.Path,
                     title: Option<string>): (r: Result<Node>)
    ensures r.Ok? ==> r.value.File?
  {
    var unresolved := ComputeUnresolvedPath(base, includePath);
    var withExtension :- Paths.WithSuffix(unresolved, parser.fileExtension);
    match Resolve(parser, fs, withExtension, FileTarget)
    case Some(resolved) =>
      Ok(File(title, unresolved, resolved, None))
    case None =>
      Ok(File(title, unresolved, EmptyPath, Some("unresolvable file path " + Paths.ToString(unresolved))))
  }

  /** A file node keeps its title and unresolved path; it has a resolved
      path exactly when it has no error, and otherwise its error names the
      unresolved path.  Only an unresolved path without a name escapes as
      an error. */
  lemma ParseFileSpec(parser: Parser, fs: Yaml.FileSystem, base: Paths.Path, includePath: Paths.Path,
                      title: Option<string>)
    ensures var r := ParseFile(parser, fs, base, includePath, title);
            var unresolved := ComputeUnresolvedPath(base, includePath);
            && (r.Err? <==> Paths.WithSuffix(unresolved, parser.fileExtension).Err?)
            && (r.Ok? ==> r.value.title == title && r.value.unresolvedPath == unresolved)
            && (r.Ok? ==>
                  var found := Resolve(parser, fs, Paths.WithSuffix(unresolved, parser.fileExtension).value, FileTarget);
                  && (r.value.parsingError.None? <==> found.Some?)
                  && r.value.resolvedPath == (if found.Some? then found.value else EmptyPath)
                  && (found.None? ==> r.value.parsingError == Some("unresolvable file path " + Paths.ToString(unresolved))))
  {
  }

  /** The position of the first flavor named `name`, or `|flavors|` (the
      `for ... else` search of `_parse_section`). */
  function FindFlavor(flavors: seq<FlavorDefinition>, name: string): (i: nat)
    ensures i <= |flavors|
    ensures i < |flavors| ==> flavors[i].name == name
    ensures forall j :: 0 <= j < i ==> flavors[j].name != name
  {
    if |flavors| == 0 then 0
    else if flavors[0].name == name then 0
    else 1 + FindFlavor(flavors[1..], name)
  }

  /** The title a child of a section gets: a non-empty include title, else
      the section's default title for that path when the includePath did not
      set a title, else none. */
  function ChildTitle(entry: NodeInclude, defaultTitles: Option<Dicts.Dict<Paths.Path, string>>): (r: Option<string>)
    ensures entry.title.Some? && entry.title.value != "" ==> r == entry.title
    ensures r.Some? && r != entry.title ==>
              !entry.titleSet && defaultTitles.Some?
              && Dicts.Get(defaultTitles.value, entry.path) == r
    ensures r.None? ==> (entry.title.None? || entry.title == Some(""))
                        && (entry.titleSet || defaultTitles.None?
                            || Dicts.Get(defaultTitles.value, entry.path).None?)
  {
    if entry.title.Some? && entry.title.value != "" then entry.title
    else if !entry.titleSet && defaultTitles.Some? && |defaultTitles.value| > 0
            && entry.path in Dicts.Keys(defaultTitles.value) then
      Dicts.Get(defaultTitles.value, entry.path)
    else None
  }

  /** What the lookups of `_parse_section` find before its children are
      parsed: no definition file; a definition file that does not load, does
      not validate or lacks the flavor; or a usable definition and flavor. */
  datatype Lookup =
    | Missing(message: string)
    | Broken(resolvedPath: Paths.Path, message: string)
    | Found(resolvedPath: Paths.Path, definition: SectionDefinition, flavor: FlavorDefinition)

  /** The path of a section's definition: `<unresolved>/<name>.yml`. */
  function DefinitionPath(unresolved: Paths.Path): (r: Result<Paths.Path>)
    ensures r.Err? <==> |unresolved.parts| == 0
    ensures r.Ok? ==> |r.value.parts| > 0
  {
    Paths.WithSuffix(Paths.Child(unresolved, Paths.Name(unresolved)), ".yml")
  }

  /** What the definition file found at `resolved` gives for `flavor`:
      a load or validation error, a missing flavor, or the first flavor of
      that name.  Only `ValidationError` is caught: an exception that
      escapes validation ends the parse. */
  function ReadDefinition(fs: Yaml.FileSystem, resolved: Paths.Path, flavor: string): (r: Result<Lookup>)
    requires Yaml.IsFile(fs, resolved.parts)
    ensures var content := fs[resolved.parts].content;
            r.Err? <==> content.Some? && ValidateSection(content.value).Err? && Escapes(ValidateSection(content.value).error)
    ensures r.Err? ==> r.error == ValidateSection(fs[resolved.parts].content.value).error
    ensures r.Ok? ==> !r.value.Missing? && r.value.resolvedPath == Paths.Parent(resolved)
    ensures var content := fs[resolved.parts].content;
            (r.Ok? && r.value.Found?) <==>
              && content.Some? && ValidateSection(content.value).Ok?
              && FindFlavor(ValidateSection(content.value).value.flavors, flavor)
                 < |ValidateSection(content.value).value.flavors|
    ensures r.Ok? && r.value.Found? ==>
              && ValidateSection(fs[resolved.parts].content.value) == Ok(r.value.definition)
              && r.value.flavor.name == flavor
              && r.value.flavor == r.value.definition.flavors[FindFlavor(r.value.definition.flavors, flavor)]
    ensures fs[resolved.parts].content.None? ==> r == Ok(Broken(Paths.Parent(resolved), Message(YamlError)))
    ensures r.Ok? && r.value.Broken? && fs[resolved.parts].content.Some?
            && ValidateSection(fs[resolved.parts].content.value).Ok? ==>
              r.value.message == "flavor " + flavor + " not found"
  {
    match fs[resolved.parts].content
    case None => Ok(Broken(Paths.Parent(resolved), Message(YamlError)))
    case Some(content) =>
      match ValidateSection(content)
      case Err(e) => if Escapes(e) then Err(e) else Ok(Broken(Paths.Parent(resolved), Message(e)))
      case Ok(definition) =>
        var i := FindFlavor(definition.flavors, flavor);
        if i == |definition.flavors| then Ok(Broken(Paths.Parent(resolved), "flavor " + flavor + " not found"))
        else Ok(Found(Paths.Parent(resolved), definition, definition.flavors[i]))
  }

  /** The lookups of `_parse_section`: the definition path, checked for an
      empty name twice (the second check cannot fail), then resolved as a
      file.  Only an empty path or an exception escaping validation fails. */
  function LookUpSection(parser: Parser, fs: Yaml.FileSystem, unresolved: Paths.Path, flavor: string)
    : (r: Result<Lookup>)
    ensures |unresolved.parts| == 0 ==> r.Err?
    ensures |unresolved.parts| > 0 ==>
              var logical := DefinitionPath(unresolved).value;
              var found := Resolve(parser, fs, Paths.WithSuffix(logical, ".yml").value, FileTarget);
              && (found.None? ==>
                    r == Ok(Missing("unresolvable section definition path " + Paths.ToString(logical))))
              && (found.Some? ==> r == ReadDefinition(fs, found.value, flavor))
  {
    var logical :- DefinitionPath(unresolved);
    var again := Paths.WithSuffix(logical, ".yml").value;
    match Resolve(parser, fs, again, FileTarget)
    case None =>
      Ok(Missing("unresolvable section definition path " + Paths.ToString(logical)))
    case Some(resolved) =>
      ReadDefinition(fs, resolved, flavor)
  }

  /** `Parser._parse_section`, with `depth` nested calls left before the
      interpreter's recursion limit. */
  function ParseSection(parser: Parser, fs: Yaml.FileSystem, base: Paths.Path, includePath: Paths.Path,
                        title: Option<string>, titleUnset: bool, flavor: string, depth: nat): (r: Result<Node>)
    ensures depth == 0 ==> r == Err(RecursionError)
    ensures r.Ok? ==> r.value.Section? && r.value.flavor == flavor
                      && r.value.unresolvedPath == ComputeUnresolvedPath(base, includePath)
    ensures r.Ok? && r.value.parsingError.Some? ==> r.value.nodes == [] && r.value.title == title
    decreases depth, 0
  {
    if depth == 0 then Err(RecursionError)
    else
      var unresolved := ComputeUnresolvedPath(base, includePath);
      var lookup :- LookUpSection(parser, fs, unresolved, flavor);
      match lookup
      case Missing(message) =>
        Ok(Section(title, unresolved, EmptyPath, Some(message), flavor, []))
      case Broken(resolvedPath, message) =>
        Ok(Section(title, unresolved, resolvedPath, Some(message), flavor, []))
      case Found(resolvedPath, definition, flavorDefinition) =>
        var nodes :- ParseNodes(parser, fs, flavorDefinition.includes, definition.defaultTitles,
                                unresolved, depth - 1);
        var sectionTitle := if !titleUnset then title
                            else if flavorDefinition.titleSet then flavorDefinition.title
                            else Some(definition.title);
        Ok(Section(sectionTitle, unresolved, resolvedPath, None, flavor, nodes))
  }

  /** What a parsed section holds: the lookup's error and no children, or
      the lookup's definition with one child per include of the flavor and
      the title by precedence (the include's, the flavor's, the
      definition's). */
  lemma ParseSectionLookup(parser: Parser, fs: Yaml.FileSystem, base: Paths.Path, includePath: Paths.Path,
                           title: Option<string>, titleUnset: bool, flavor: string, depth: nat)
    requires ParseSection(parser, fs, base, includePath, title, titleUnset, flavor, depth).Ok?
    ensures var r := ParseSection(parser, fs, base, includePath, title, titleUnset, flavor, depth).value;
            var lookup := LookUpSection(parser, fs, r.unresolvedPath, flavor);
            && lookup.Ok?
            && (r.parsingError.None? <==> lookup.value.Found?)
            && (lookup.value.Missing? ==>
                  r.resolvedPath == EmptyPath && r.parsingError == Some(lookup.value.message))
            && (lookup.value.Broken? ==>
                  r.resolvedPath == lookup.value.resolvedPath && r.parsingError == Some(lookup.value.message))
            && (lookup.value.Found? ==>
                  && r.resolvedPath == lookup.value.resolvedPath
                  && r.title == (if !titleUnset then title
                                 else if lookup.value.flavor.titleSet then lookup.value.flavor.title
                                 else Some(lookup.value.definition.title))
                  && Ok(r.nodes) == ParseNodes(parser, fs, lookup.value.flavor.includes,
                                               lookup.value.definition.defaultTitles, r.unresolvedPath, depth - 1))
  {
    var unresolved := ComputeUnresolvedPath(base, includePath);
    var lookup := LookUpSection(parser, fs, unresolved, flavor);
    assert lookup.Ok?;
    match lookup.value
    case Missing(_) =>
    case Broken(_, _) =>
    case Found(_, definition, flavorDefinition) =>
      var nodes := ParseNodes(parser, fs, flavorDefinition.includes, definition.defaultTitles, unresolved, depth - 1);
      assert nodes.Ok?;
  }

  /** One include of a section, titled by `ChildTitle`. */
  function ParseNode(parser: Parser, fs: Yaml.FileSystem, entry: NodeInclude,
                     defaultTitles: Option<Dicts.Dict<Paths.Path, string>>, base: Paths.Path, depth: nat)
    : (r: Result<Node>)
    decreases depth, 1
  {
    var title := ChildTitle(entry, defaultTitles);
    match entry
    case FileInclude(path, _, _) => ParseFile(parser, fs, base, path, title)
    case SectionInclude(path, flavor, _, titleSet) =>
      ParseSection(parser, fs, base, path, title, !titleSet, flavor, depth)
  }

  /** `Parser._parse_nodes`: one node per include, in order; the first
      failing include ends the parse. */
  function ParseNodes(parser: Parser, fs: Yaml.FileSystem, includes: seq<NodeInclude>,
                      defaultTitles: Option<Dicts.Dict<Paths.Path, string>>, base: Paths.Path, depth: nat)
    : (r: Result<seq<Node>>)
    ensures r.Ok? ==> |r.value| == |includes|
    decreases depth, 2
  {
    MapAll(includes, entry => ParseNode(parser, fs, entry, defaultTitles, base, depth))
  }

  /** Each node of a successful `ParseNodes` is its include parsed alone,
      and the parse fails exactly when some include fails. */
  lemma ParseNodesEach(parser: Parser, fs: Yaml.FileSystem, includes: seq<NodeInclude>,
                       defaultTitles: Option<Dicts.Dict<Paths.Path, string>>, base: Paths.Path, depth: nat)
    ensures var r := ParseNodes(parser, fs, includes, defaultTitles, base, depth);
            && (r.Ok? <==> forall i :: 0 <= i < |includes| ==>
                             ParseNode(parser, fs, includes[i], defaultTitles, base, depth).Ok?)
            && (r.Ok? ==> forall i :: 0 <= i < |includes| ==>
                            ParseNode(parser, fs, includes[i], defaultTitles, base, depth) == Ok(r.value[i]))
  {
    var f := entry => ParseNode(parser, fs, entry, defaultTitles, base, depth);
    MapAllEach(includes, f);
    assert forall i :: 0 <= i < |includes| ==>
             f(includes[i]) == ParseNode(parser, fs, includes[i], defaultTitles, base, depth);
  }

  // ------------------------------------------------------------------ parts

  /** A top-level include of a part: parsed against the empty base, titled
      by the include as given. */
  function ParsePartNode(parser: Parser, fs: Yaml.FileSystem, entry: NodeInclude): Result<Node>
  {
    match entry
    case FileInclude(path, title, _) => ParseFile(parser, fs, EmptyPath, path, title)
    case SectionInclude(path, flavor, title, titleSet) =>
      ParseSection(parser, fs, EmptyPath, path, title, !titleSet, flavor, parser.recursionLimit)
  }

  /** `ParsePartNode` for one parser and file system, as a function value. */
  function PartNodeParser(parser: Parser, fs: Yaml.FileSystem): NodeInclude -> Result<Node> {
    entry => ParsePartNode(parser, fs, entry)
  }

  /** One parsed part: its title and one node per include, the first
      failing include ending the parse. */
  function PartOf(parse: NodeInclude -> Result<Node>, definition: PartDefinition): Result<Part> {
    var nodes :- MapAll(definition.sections, parse);
    Ok(Part(definition.title, nodes))
  }

  /** A part keeps its title and holds exactly one node per include, in
      include order, each the include parsed alone; it fails exactly when
      some include fails. */
  lemma PartOfSpec(parser: Parser, fs: Yaml.FileSystem, definition: PartDefinition)
    ensures var r := PartOf(PartNodeParser(parser, fs), definition);
            && (r.Ok? <==> forall i :: 0 <= i < |definition.sections| ==>
                             ParsePartNode(parser, fs, definition.sections[i]).Ok?)
            && (r.Ok? ==> r.value.title == definition.title && |r.value.nodes| == |definition.sections|
                          && forall i :: 0 <= i < |definition.sections| ==>
                               ParsePartNode(parser, fs, definition.sections[i]) == Ok(r.value.nodes[i]))
  {
    var f := PartNodeParser(parser, fs);
    MapAllEach(definition.sections, f);
    assert forall i :: 0 <= i < |definition.sections| ==>
             f(definition.sections[i]) == ParsePartNode(parser, fs, definition.sections[i]);
  }

  function PartParser(parse: NodeInclude -> Result<Node>): PartDefinition -> Result<Part> {
    definition => PartOf(parse, definition)
  }

  function PartName(definition: PartDefinition): string {
    definition.name
  }

  /** The parts dict `_parse_parts` builds: each definition in turn assigned
      under its name, so a repeated name overwrites the earlier part in
      that part's slot. */
  function PartsOf(parse: NodeInclude -> Result<Node>, definitions: seq<PartDefinition>)
    : (r: Result<Dicts.Dict<string, Part>>)
    ensures r.Ok? ==> Dicts.Unique(r.value)
    ensures r.Ok? ==> forall i :: 0 <= i < |definitions| ==> definitions[i].name in Dicts.Keys(r.value)
  {
    var r := Dicts.PutEach(definitions, PartName, PartParser(parse));
    if r.Ok? then
      Dicts.PutEachUnique(definitions, PartName, PartParser(parse));
      Dicts.PutEachHasKeys(definitions, PartName, PartParser(parse));
      r
    else r
  }

  /** The part names of a parsed deck are only the defined names. */
  lemma PartsOfOnlyNames(parse: NodeInclude -> Result<Node>, definitions: seq<PartDefinition>, name: string)
    requires PartsOf(parse, definitions).Ok? && name in Dicts.Keys(PartsOf(parse, definitions).value)
    ensures exists i :: 0 <= i < |definitions| && definitions[i].name == name
  {
    Dicts.PutEachOnlyKeys(definitions, PartName, PartParser(parse), name);
  }

  /** Parsing parts succeeds exactly when every part parses. */
  lemma PartsOfOk(parse: NodeInclude -> Result<Node>, definitions: seq<PartDefinition>)
    ensures PartsOf(parse, definitions).Ok? <==>
              forall i :: 0 <= i < |definitions| ==> PartOf(parse, definitions[i]).Ok?
  {
    Dicts.PutEachOk(definitions, PartName, PartParser(parse));
  }

  /** A repeated part name keeps only its last definition, parsed. */
  lemma PartsOfLastWins(parse: NodeInclude -> Result<Node>, definitions: seq<PartDefinition>, i: nat)
    requires PartsOf(parse, definitions).Ok? && i < |definitions|
    requires forall j :: i < j < |definitions| ==> definitions[j].name != definitions[i].name
    ensures PartOf(parse, definitions[i]).Ok?
    ensures Dicts.Get(PartsOf(parse, definitions).value, definitions[i].name)
         == Some(PartOf(parse, definitions[i]).value)
  {
    Dicts.PutEachLastWins(definitions, PartName, PartParser(parse), i);
    assert PartParser(parse)(definitions[i]) == PartOf(parse, definitions[i]);
  }

  /** Definitions with distinct names give one part each, in declaration
      order. */
  lemma PartsOfOrder(parse: NodeInclude -> Result<Node>, definitions: seq<PartDefinition>)
    requires forall i, j :: 0 <= i < j < |definitions| ==> definitions[i].name != definitions[j].name
    requires PartsOf(parse, definitions).Ok?
    ensures var r := PartsOf(parse, definitions).value;
            |r| == |definitions| && forall i :: 0 <= i < |r| ==>
              r[i].0 == definitions[i].name && PartOf(parse, definitions[i]) == Ok(r[i].1)
  {
    Dicts.PutEachOrder(definitions, PartName, PartParser(parse));
  }

  /** The inner loop of `Parser._parse_parts`: the includes of one part
      parsed in order into a fresh list, `parse` being the parser's own
      `_parse_section`/`_parse_file` dispatch. */
  method ParseIncludes(parse: NodeInclude -> Result<Node>, sections: seq<NodeInclude>)
    returns (r: Result<seq<Node>>)
    ensures r == MapAll(sections, parse)
  {
    var nodes: seq<Node> := [];
    var j := 0;
    while j < |sections|
      invariant 0 <= j <= |sections|
      invariant MapAll(sections[..j], parse) == Ok(nodes)
    {
      MapAllStep(sections, j, parse);
      var node := parse(sections[j]);
      if node.Err? {
        MapAllPrefixErr(sections, j + 1, parse);
        return Err(node.error);
      }
      nodes := nodes + [node.value];
      j := j + 1;
    }
    assert sections[..j] == sections;
    return Ok(nodes);
  }

  /** `Parser._parse_parts`: for each part definition, parse its includes,
      then store the part under its name. */
  method ParseParts(parse: NodeInclude -> Result<Node>, definitions: seq<PartDefinition>)
    returns (r: Result<Dicts.Dict<string, Part>>)
    ensures r == PartsOf(parse, definitions)
  {
    var parts: Dicts.Dict<string, Part> := [];
    var i := 0;
    while i < |definitions|
      invariant 0 <= i <= |definitions|
      invariant Dicts.PutEach(definitions[..i], PartName, PartParser(parse)) == Ok(parts)
    {
      var definition := definitions[i];
      assert definitions[..i + 1][..i] == definitions[..i];
      var nodes := ParseIncludes(parse, definition.sections);
      assert PartParser(parse)(definition) == PartOf(parse, definition);
      if nodes.Err? {
        Dicts.PutEachPrefixErr(definitions, i + 1, PartName, PartParser(parse));
        return Err(nodes.error);
      }
      parts := Dicts.Put(parts, definition.name, Part(definition.title, nodes.value));
      i := i + 1;
    }
    assert definitions[..i] == definitions;
    return Ok(parts);
  }

  // ------------------------------------------------------------- entry points

  /** `Deck(name=name, parts=self._parse_parts(definitions))` followed by
      `self._validate(deck)`: a new deck holding the parsed parts, unless
      parsing stops on an error or some node of the parsed parts has an
      error. */
  method AssembleDeck(parse: NodeInclude -> Result<Node>, name: string, definitions: seq<PartDefinition>)
    returns (r: Result<Deck>)
    ensures var parts := PartsOf(parse, definitions);
            r.Ok? <==> parts.Ok? && !PartsHaveError(parts.value)
    ensures var parts := PartsOf(parse, definitions);
            parts.Err? ==> r.Err? && r.error == parts.error
    ensures var parts := PartsOf(parse, definitions);
            parts.Ok? && r.Err? ==> r.error == DeckzError("deck parsing failed")
    ensures r.Ok? ==> && fresh(r.value) && r.value.Valid() && r.value.name == name
                      && r.value.parts == PartsOf(parse, definitions).value
  {
    var parts := ParseParts(parse, definitions);
    if parts.Err? {
      return Err(parts.error);
    }
    var deck := new Deck(name, parts.value);
    var valid := Reports.Validate(deck);
    if valid.Err? {
      return Err(valid.error);
    }
    return Ok(deck);
  }

  /** The definition a deck file holds: its YAML, validated. */
  function LoadDeckDefinition(fs: Yaml.FileSystem, path: Paths.Path): (r: Result<DeckDefinition>)
    ensures r.Ok? <==> Yaml.Load(fs, path).Ok? && ValidateDeck(Yaml.Load(fs, path).value).Ok?
    ensures Yaml.Load(fs, path).Err? ==> r == Err(Yaml.Load(fs, path).error)
  {
    var y :- Yaml.Load(fs, path);
    ValidateDeck(y)
  }

  /** `Parser.from_deck_definition`: load and validate the definition,
      then parse its parts under its name. */
  method FromDeckDefinition(parser: Parser, fs: Yaml.FileSystem, path: Paths.Path) returns (r: Result<Deck>)
    ensures var d := LoadDeckDefinition(fs, path);
            d.Err? ==> r.Err? && r.error == d.error
    ensures var d := LoadDeckDefinition(fs, path);
            r.Ok? <==> && d.Ok? && PartsOf(PartNodeParser(parser, fs), d.value.parts).Ok?
                       && !PartsHaveError(PartsOf(PartNodeParser(parser, fs), d.value.parts).value)
    ensures r.Ok? ==> var d := LoadDeckDefinition(fs, path).value;
                      && fresh(r.value) && r.value.Valid() && r.value.name == d.name
                      && r.value.parts == PartsOf(PartNodeParser(parser, fs), d.parts).value
  {
    var definition := LoadDeckDefinition(fs, path);
    if definition.Err? {
      return Err(definition.error);
    }
    r := AssembleDeck(PartNodeParser(parser, fs), definition.value.name, definition.value.parts);
  }

  /** The one part `from_section` builds: `part_name`, untitled, including
      the section with the flavor and no title. */
  function SectionPart(section: string, flavor: string): PartDefinition {
    PartDefinition("part_name", None, [SectionInclude(Paths.FromString(section), flavor, None, false)])
  }

  /** The one part `from_file` builds: `part_name`, untitled, including the
      file with no title. */
  function FilePart(latex: string): PartDefinition {
    PartDefinition("part_name", None, [FileInclude(Paths.FromString(latex), None, false)])
  }

  /** `Parser.from_section`: a deck named `deck` of a single part holding
      the section. */
  method FromSection(parser: Parser, fs: Yaml.FileSystem, section: string, flavor: string) returns (r: Result<Deck>)
    ensures var parts := PartsOf(PartNodeParser(parser, fs), [SectionPart(section, flavor)]);
            r.Ok? <==> parts.Ok? && !PartsHaveError(parts.value)
    ensures r.Ok? ==> && fresh(r.value) && r.value.Valid() && r.value.name == "deck"
                      && r.value.parts == PartsOf(PartNodeParser(parser, fs), [SectionPart(section, flavor)]).value
  {
    r := AssembleDeck(PartNodeParser(parser, fs), "deck", [SectionPart(section, flavor)]);
  }

  /** `Parser.from_file`: a deck named `deck` of a single part holding the
      file. */
  method FromFile(parser: Parser, fs: Yaml.FileSystem, latex: string) returns (r: Result<Deck>)
    ensures var parts := PartsOf(PartNodeParser(parser, fs), [FilePart(latex)]);
            r.Ok? <==> parts.Ok? && !PartsHaveError(parts.value)
    ensures r.Ok? ==> && fresh(r.value) && r.value.Valid() && r.value.name == "deck"
                      && r.value.parts == PartsOf(PartNodeParser(parser, fs), [FilePart(latex)]).value
  {
    r := AssembleDeck(PartNodeParser(parser, fs), "deck", [FilePart(latex)]);
  }

  /** A single-part deck holds the part `part_name`, untitled, whose one
      node is its one include parsed at the top level. */
  lemma SinglePart(parse: NodeInclude -> Result<Node>, entry: NodeInclude)
    ensures var parts := PartsOf(parse, [PartDefinition("part_name", None, [entry])]);
            && (parts.Ok? <==> parse(entry).Ok?)
            && (parts.Ok? ==> parts.value == [("part_name", Part(None, [parse(entry).value]))])
  {
    var definition := PartDefinition("part_name", None, [entry]);
    assert [definition][..0] == [];
    assert Dicts.PutEach([definition][..0], PartName, PartParser(parse)) == Ok([]);
    assert PartParser(parse)(definition) == PartOf(parse, definition);
    assert [entry][1..] == [];
    assert MapAll([entry][1..], parse) == Ok([]);
    if parse(entry).Ok? {
      assert [parse(entry).value] + [] == [parse(entry).value];
      assert MapAll([entry], parse) == Ok([parse(entry).value]);
      assert Dicts.Put([], "part_name", Part(None, [parse(entry).value]))
          == [("part_name", Part(None, [parse(entry).value]))];
    }
  }

  /** The node of `from_section`'s part is the section parsed from the
      empty path with the whole recursion budget, its title to be taken
      from the definition. */
  lemma FromSectionNode(parser: Parser, fs: Yaml.FileSystem, section: string, flavor: string)
    ensures PartNodeParser(parser, fs)(SectionInclude(Paths.FromString(section), flavor, None, false))
         == ParseSection(parser, fs, EmptyPath, Paths.FromString(section), None, true, flavor, parser.recursionLimit)
  {
  }
}
