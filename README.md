# deckz core, modelled in Dafny

deckz builds LaTeX slide decks from a git repository of sections. A deck
definition lists parts. Each part includes sections and files through a
small include language (`path`, `path: title`, `$path@flavor`,
`$path@flavor: title`). A section is a directory with a YAML definition
that offers several flavors, each a list of further includes. deckz
resolves every include against a deck-local LaTeX directory first and the
shared one second, then builds a tree of files and sections. It walks that
tree to produce slides, dependency sets and usage statistics, and plans the
compilations (presentation, handout, print) of the whole deck and of each
part. Configuration and variables come from YAML files layered along the
directory hierarchy.

This project models that core as Dafny modules, one per source module:

- **Include language and definitions**: `Definitions`, plus the two
  migrators `Upgrade` and `Migrate`, whose rewritten entries are proved to
  read back as the entries they replace.
- **Parsing and resolution**: `Parsing`, `Reports` and `Decks`. The file
  system is a finite map from path components to files and directories.
  Recursion through nested sections carries a depth bound, because the
  source never checks for include cycles.
- **Tree processing**: `DeckBuilder` (slide flattening, dependencies,
  compile items), `SectionsAnalyzer` and `AssetsAnalyzer`.
- **Configuration and utilities**: `Config`, `Variables`, `Settings`,
  `Utils` (with a `Disk` class for the operations that write files),
  `Renderer`, `AssetsMetadata` and `Pipelines` (the watch throttle as an
  `EventHandler` class).
- **The older `deckz/` tree**: `ParsingTargets`, `LegacyTargets`,
  `LegacyConfig`, `LegacyBuilding` and `LegacyTreeParsing`, each following
  its own, sometimes different, rules. The target parser of
  `deckz/parsing/targets.py` looks for a section's local configuration at
  the local section directory followed by the whole section path again
  (deckz/parsing/targets.py:152), while the shared one uses only the last
  component; the model keeps both as written.
- **Python semantics they rely on**: `Common` (`Result`, the exceptions
  raised), `Strings`, `Dicts` (insertion-ordered dictionaries with Python's
  overwrite and merge rules), `Paths` (`PurePath` operations), `Yaml` (YAML
  values, loading, `get`, `in`, iteration, `repr` and how `ChainMap`
  iterates its layers), `Validation` (which exceptions pydantic turns into
  validation errors and which escape it) and `Groups`.

Loops in the source are methods with loop invariants, proved equal to a
function that states the result. Properties relating several calls
(round trips, layering, idempotence, last-wins) are lemmas.

## Model

| member | source | states |
|---|---|---|
| Definitions.SectionName | src/deckz/models/definitions.py:85-86 | `$path@flavor` splits only when the text after `$` holds exactly one `@`; the pieces are the text before and after that `@` |
| Definitions.FromLeft | src/deckz/models/definitions.py:85-100 | succeeds iff a `$` left side holds exactly one `@` and the title is a string or null; the result is a section include iff the left side starts with `$`; a file include's path is the whole left side, a section's path and flavor the two pieces; title and "title set" flag are carried over |
| Definitions.NormalizeInclude | src/deckz/models/definitions.py:73-100 | an include is returned unchanged (normalisation is idempotent); a string gives an include with no title set; a mapping without exactly one entry fails the assertion; a one-entry mapping is read from its key with the value as title, marked set; null, a boolean or an integer raises `TypeError` from `len`, a one-item list `AttributeError` from `items`, any other list fails the assertion |
| Definitions.IncludeOf | src/deckz/models/definitions.py:73-100 | validating an include succeeds exactly when normalising it does, with the same result; its error escapes pydantic exactly for a null, boolean, integer or one-item-list include |
| Definitions.PlainStringInclude | src/deckz/models/definitions.py:78-91 | a string not starting with `$` is a file include of that path with no title, not marked set |
| Definitions.MappingFileInclude | src/deckz/models/definitions.py:81-93 | a one-entry mapping whose key does not start with `$` is a file include titled by the value, marked set even when the value is null |
| Definitions.ValidateList | src/deckz/models/definitions.py:113 | a list field validates iff it is present, is a list and every item validates; the result holds each item's value in order; an error escapes pydantic iff some item raises one |
| Definitions.ValidateFlavor | src/deckz/models/definitions.py:103-114 | a flavor validates iff it is a mapping with a string `name`, a string or null `title` and valid `includes`; the result holds that name, the title's string (none when null or absent), whether `title` was given, and each include validated in order; an error escapes iff some include raises one, even when another field is invalid |
| Definitions.TitleValue | src/deckz/models/definitions.py:123 | a `default_titles` value validates iff it is a string |
| Definitions.DefaultTitles | src/deckz/models/definitions.py:123 | `default_titles` validates iff every value is a string, and fails with a validation error otherwise; the result's keys are exactly the given keys read as paths, each once, and each maps to the title given last for it |
| Definitions.DefaultTitlesField | src/deckz/models/definitions.py:123 | an absent or null `default_titles` gives none; a mapping gives its validated titles; anything else is a validation error |
| Definitions.ValidateSection | src/deckz/models/definitions.py:117-128 | a section validates iff it is a mapping with a string `title`, a valid `default_titles` and valid `flavors`; the result holds the title, no default titles exactly when the field is absent or null and otherwise its validated mapping, and each flavor validated in order; an error escapes iff some flavor raises one |
| Definitions.ValidatePart | src/deckz/models/definitions.py:131-142 | a part validates iff it is a mapping with a string `name`, a string or null `title` and valid `sections`; the result holds that name, the title's string and each section include validated in order; an error escapes iff some include raises one |
| Definitions.ValidateDeck | src/deckz/models/definitions.py:145-152 | a deck validates iff it is a mapping with a string `name` and valid `parts`; it takes that name and its parts are the validated items of the `parts` list, in order; an error escapes iff some part raises one |
| Decks.Deck.constructor | src/deckz/models/deck.py:116-124 | a deck holds its name and its parts, keyed by unique part names |
| Decks.Deck.Filter | src/deckz/models/deck.py:126-141 | fails with `ValueError`, parts untouched, iff the whitelist names a part not in the deck; otherwise the parts become the old parts restricted to the whitelist, in their old order; the name never changes |
| Decks.RestrictRestrict | src/deckz/models/deck.py:139-141 | restricting twice is restricting to the intersection |
| Decks.FilterIdempotent | src/deckz/models/deck.py:126-141 | filtering twice with the same whitelist equals filtering once |
| Decks.FilterKeepsWhitelist | src/deckz/models/deck.py:136-141 | after a successful filter the part names are exactly the whitelist, and each surviving part keeps its value |
| Decks.FilterKeepsOrder | src/deckz/models/deck.py:139-141 | the surviving parts are a subsequence of the old parts: their relative order is kept |
| Decks.FilterEmpty | src/deckz/models/deck.py:136-141 | an empty whitelist removes every part |
| Parsing.ComputeUnresolvedPath | src/deckz/components/parser.py:263-271 | a rooted include path is made relative to `/` whatever the base; an unrooted one becomes the normalised concatenation of base and include; an unrooted base never yields a rooted path |
| Parsing.UnresolvedPathOfNames | src/deckz/components/parser.py:263-271 | for plain names (no `.`, `..` or empty components) the unresolved path is simply the base's components followed by the include's |
| Parsing.Resolve | src/deckz/components/parser.py:273-282 | finds a path iff the local or the shared candidate exists as the requested kind; what it finds exists and is one of the two candidates; when the local candidate exists it wins |
| Parsing.ParseFile | src/deckz/components/parser.py:239-261 | parsing a file include yields a file node |
| Parsing.ParseFileSpec | src/deckz/components/parser.py:239-261 | the file node keeps the given title and the unresolved path; it has a resolved path iff its parsing error is unset, and otherwise the error reads "unresolvable file path …"; fails only when the suffix cannot be set |
| Parsing.FindFlavor | src/deckz/components/parser.py:181-186 | the index found is that of the first flavor with the requested name, or the number of flavors when none has it |
| Parsing.ChildTitle | src/deckz/components/parser.py:209-218 | a non-empty include title wins; any other title comes from `default_titles`, and only when the include left its title unset; no title means no usable include title and no applicable default |
| Parsing.DefinitionPath | src/deckz/components/parser.py:159-161 | the definition path `<unresolved>/<last component>` exists iff the unresolved path has a last component |
| Parsing.ReadDefinition | src/deckz/components/parser.py:170-186 | the read fails, passing the error on, exactly when validating the definition raises an error that escapes pydantic; otherwise the section's resolved path is the definition's directory, the lookup is found iff the file loads, validates and declares the flavor, which is then the first flavor of that name, an unreadable file is recorded as broken, and a valid definition without the flavor as `flavor <name> not found` |
| Parsing.LookUpSection | src/deckz/components/parser.py:159-186 | fails for an empty unresolved path; when `<unresolved>/<name>.yml` does not resolve the lookup records "unresolvable section definition path …"; otherwise it is the reading of the resolved file, whose escaping errors pass on |
| Parsing.ParseSection | src/deckz/components/parser.py:140-199 | depth 0 is a recursion error; a parsed section has the requested flavor and the computed unresolved path; a section with a parsing error has no children and keeps the include's title |
| Parsing.ParseSectionLookup | src/deckz/components/parser.py:148-199 | the section has no parsing error iff its definition and flavor were found; an unresolvable definition leaves the resolved path empty, a broken one sets it to the definition's directory; an unset title is taken from the flavor if it declares one (even null), else from the definition, and a set title is kept; the children are the parsed flavor includes, in order |
| Parsing.ParseNodes | src/deckz/components/parser.py:201-237 | one node per include |
| Parsing.ParseNodesEach | src/deckz/components/parser.py:201-237 | the includes parse iff each one does, and node `i` is the parse of include `i` |
| Parsing.PartOfSpec | src/deckz/components/parser.py:113-137 | a part parses iff each of its includes does; it keeps the definition's title and holds one node per include, in order |
| Parsing.PartsOf | src/deckz/components/parser.py:109-138 | the parsed parts are keyed by unique names and every defined part name is present |
| Parsing.PartsOfOnlyNames | src/deckz/components/parser.py:109-138 | every key of the parsed parts is the name of some part definition |
| Parsing.PartsOfOk | src/deckz/components/parser.py:109-138 | the parts parse iff every part definition does |
| Parsing.PartsOfLastWins | src/deckz/components/parser.py:134 | a duplicate part name silently keeps the part of its last definition |
| Parsing.PartsOfOrder | src/deckz/components/parser.py:109-138 | with distinct names the parts follow declaration order, each being its definition's parse |
| Parsing.ParseIncludes | src/deckz/components/parser.py:114-133 | the loop over a part's includes parses each of them in order and stops at the first failure |
| Parsing.ParseParts | src/deckz/components/parser.py:109-138 | the loop over the part definitions computes the parsed parts |
| Parsing.AssembleDeck | src/deckz/components/parser.py:69-73 | the deck is built iff the parts parse and no node at any depth carries a parsing error, in which case `DeckzError("deck parsing failed")` is raised; the deck holds the name and the parsed parts |
| Parsing.LoadDeckDefinition | src/deckz/components/parser.py:68 | the deck definition loads iff the YAML loads and validates; a YAML error is passed on |
| Parsing.FromDeckDefinition | src/deckz/components/parser.py:58-73 | a deck definition file gives a deck iff it loads, its parts parse and no node carries an error; the deck takes the definition's name and parsed parts |
| Parsing.FromSection | src/deckz/components/parser.py:75-92 | a single section gives the deck `deck` of one part `part_name` holding that section, unless some node carries an error |
| Parsing.FromFile | src/deckz/components/parser.py:94-107 | a single file gives the deck `deck` of one part `part_name` holding that file, unless some node carries an error |
| Parsing.SinglePart | src/deckz/components/parser.py:75-107 | a one-include part definition parses into the single part `part_name` with no title holding that include's node |
| Parsing.FromSectionNode | src/deckz/components/parser.py:116-125 | a section include built by `from_section` is parsed from the empty base with its title unset |
| Reports.ShownPath | src/deckz/components/parser.py:331-335 | a node path under the base is shown relative to it (and joining the base back gives the path); otherwise it is shown whole |
| Reports.Label | src/deckz/components/parser.py:336-363 | a label is the shown path, with `@flavor` for a section; a node with a parsing error gets the red markup and the error in parentheses |
| Reports.NodeTreeReportsErrors | src/deckz/components/parser.py:326-352 | in errors-only mode a node yields a tree iff it or some node below it carries a parsing error |
| Reports.PartTree | src/deckz/components/parser.py:310-324 | a part yields a tree, labelled by the part's name, iff some node in it carries an error |
| Reports.PartTreeOf | src/deckz/components/parser.py:310-324 | a part's tree holds exactly the trees of its nodes that yield one, in order |
| Reports.DeckTree | src/deckz/components/parser.py:297-308 | the deck yields a tree, labelled by the deck's name, iff some part has a node with an error |
| Reports.DeckTreeOf | src/deckz/components/parser.py:297-308 | the deck's tree holds the part trees in part order, and there is none when no part yields one |
| Reports.VisitChildren | src/deckz/components/parser.py:344-349 | the loop over children collects the trees the children yield, in order, and the error flag is set iff some child subtree has an error |
| Reports.VisitNode | src/deckz/components/parser.py:326-368 | `visit_file` and `visit_section` compute the node's tree and whether its subtree has an error |
| Reports.Process | src/deckz/components/parser.py:297-308 | `process` computes the deck tree |
| Reports.Validate | src/deckz/components/parser.py:284-290 | validation fails with `DeckzError("deck parsing failed")` iff some node at any depth carries a parsing error |
| DeckBuilder.FirstBasedir | src/deckz/components/deck_builder.py:242-245 | the basedir chosen contains the path |
| DeckBuilder.FirstBasedirSpec | src/deckz/components/deck_builder.py:242-248 | the basedir chosen is the first that contains the path, and there is none iff no basedir contains it |
| DeckBuilder.FirstIsFirst | src/deckz/components/deck_builder.py:242-245 | the first basedir containing the path is the one chosen |
| DeckBuilder.RelativeToBasedir | src/deckz/components/deck_builder.py:242-248 | the loop over the basedirs yields the path relative to the first basedir containing it, and nothing iff none does |
| DeckBuilder.ContentPathSpec | src/deckz/components/deck_builder.py:242-250 | a file's content entry is its path relative to the first basedir containing it, with the suffix dropped (joining the basedir back gives the path); a path under no basedir raises `ValueError` |
| DeckBuilder.FileContent | src/deckz/components/deck_builder.py:242-250 | the content entry of a file is computed as specified |
| DeckBuilder.NodeSlides | src/deckz/components/deck_builder.py:237-258 | a node with a non-empty title starts with `Title(t, level)`; a file ends with its content entry |
| DeckBuilder.NodeSlidesContents | src/deckz/components/deck_builder.py:237-258 | a node's slides flatten iff each reachable file has a content entry; the content entries are those of the reachable files in pre-order, and every title sits at the node's level or deeper |
| DeckBuilder.NodesSlidesContents | src/deckz/components/deck_builder.py:252-258 | the same for a sequence of sibling nodes |
| DeckBuilder.FileSlidesThen | src/deckz/components/deck_builder.py:237-250 | visiting a file appends its optional title then its content entry, or fails with the content error |
| DeckBuilder.SectionSlidesThen | src/deckz/components/deck_builder.py:252-258 | visiting a section appends its optional title then its children's slides at `level + 1` |
| DeckBuilder.VisitSlides | src/deckz/components/deck_builder.py:237-258 | the slide visitor appends a node's flattened slides to those gathered so far |
| DeckBuilder.VisitSlidesChildren | src/deckz/components/deck_builder.py:257-258 | the loop over children appends their slides in order |
| DeckBuilder.DeckSlides | src/deckz/components/deck_builder.py:225-235 | the slides of the deck flatten iff every part's do; one entry per part, keyed and ordered as the parts, holding the part's title and slides |
| DeckBuilder.DeckSlidesStep | src/deckz/components/deck_builder.py:225-235 | one more part adds its title and slides flattened from level 0, or fails with its error |
| DeckBuilder.ProcessSlides | src/deckz/components/deck_builder.py:225-235 | `_SlidesNodeVisitor.process` computes the slides of the deck |
| DeckBuilder.NodeDependenciesAreFiles | src/deckz/components/deck_builder.py:211-218 | a node's dependencies are exactly the resolved paths of the files reachable from it; sections add nothing themselves |
| DeckBuilder.NodesDependenciesAreFiles | src/deckz/components/deck_builder.py:205-209 | the same for the nodes of a part |
| DeckBuilder.VisitDependencies | src/deckz/components/deck_builder.py:211-218 | the dependency visitor adds a node's dependencies to the set it is given |
| DeckBuilder.VisitDependenciesChildren | src/deckz/components/deck_builder.py:207-208 | the loop over nodes adds all their dependencies |
| DeckBuilder.DeckDependencies | src/deckz/components/deck_builder.py:199-203 | one entry per part, keyed and ordered as the parts, holding the dependencies of its nodes |
| DeckBuilder.ProcessDependencies | src/deckz/components/deck_builder.py:199-209 | `PartDependenciesNodeVisitor.process` computes the dependencies of the deck |
| DeckBuilder.NewBuilder | src/deckz/components/deck_builder.py:43-72 | a builder exists iff the slides flatten (otherwise their error is raised); it holds the deck's name, the three switches, the slides and the dependencies of each part |
| DeckBuilder.NameCompileItem | src/deckz/components/deck_builder.py:86-93 | an item name is `deck-part-type` when the part name is non-empty, else `deck-type`, lower-cased: its length is that of those pieces and their dashes |
| DeckBuilder.PresentationNotHandout | src/deckz/components/deck_builder.py:86-93 | a presentation item never shares its name with a part's handout item |
| DeckBuilder.PartNameNotWhole | src/deckz/components/deck_builder.py:86-116 | a part's item never shares its name with a whole-deck item, unless a handout part is named `print` (any case), which collides with the print item |
| DeckBuilder.PrintPartName | src/deckz/components/deck_builder.py:86-116 | a part handout item named like the print item belongs to a part named `print` (any case) |
| DeckBuilder.PartNamesDiffer | src/deckz/components/deck_builder.py:86-93 | items of different types, or of parts whose names differ ignoring case, have different names |
| DeckBuilder.SameKindNames | src/deckz/components/deck_builder.py:86-93 | two items of one type share a name only for part names equal ignoring case |
| DeckBuilder.AllSlides | src/deckz/components/deck_builder.py:97 | the whole-deck slides are every part's slides, in part order |
| DeckBuilder.AllDependencies | src/deckz/components/deck_builder.py:98 | the whole-deck dependencies are the union of every part's |
| DeckBuilder.PutWholeItems | src/deckz/components/deck_builder.py:96-106 | the whole-deck items are put first |
| DeckBuilder.PutPartItems | src/deckz/components/deck_builder.py:107-116 | one round of the parts loop puts that part's items |
| DeckBuilder.ListItems | src/deckz/components/deck_builder.py:95-117 | `_list_items` computes the item dictionary |
| DeckBuilder.ItemsKeys | src/deckz/components/deck_builder.py:95-117 | the item names are exactly: the handout name with handout on, the print name with print on, and each part's presentation or handout name with that switch on |
| DeckBuilder.WholeHandoutItem | src/deckz/components/deck_builder.py:99-102 | with handout on (and named parts) the `deck-handout` item holds all slides and all dependencies, as a Handout with `toc` |
| DeckBuilder.PrintHandoutItem | src/deckz/components/deck_builder.py:103-106 | with print on the `deck-print-handout` item holds all slides and all dependencies as a Handout (not PrintHandout) with `toc`, unless a part named `print` overwrote it |
| DeckBuilder.PartItems | src/deckz/components/deck_builder.py:107-116 | a part with a distinct non-empty name gets a presentation and/or a handout item holding exactly its slides and dependencies, without `toc` |
| DeckBuilder.PartItem | src/deckz/components/deck_builder.py:107-116 | the same, for one chosen item type |
| DeckBuilder.RenderLatexArgs | src/deckz/components/deck_builder.py:140-150 | the `handout` switch is on for Handout and PrintHandout, `print` only for PrintHandout; parts and `toc` are the item's |
| DeckBuilder.NoItemPrints | src/deckz/components/deck_builder.py:95-150 | no listed item renders with `print` on, since the print item is typed Handout |
| DeckBuilder.BuildDeck | src/deckz/components/deck_builder.py:74-84 | with no item, `Pool(0)` fails with `ValueError` and nothing is built; otherwise the build succeeds iff every item compiles, and a PDF is copied out exactly for the items that compile |
| DeckBuilder.BuildPathSpec | src/deckz/components/deck_builder.py:156-163 | a dependency under no basedir raises `ValueError`; otherwise its build path is inside the item's build directory |
| DeckBuilder.ComputeBuildPath | src/deckz/components/deck_builder.py:156-163 | the build path of a dependency is computed as specified |
| DeckBuilder.CopyDependencies | src/deckz/components/deck_builder.py:152-166 | fails when some dependency has no build path; on success every copied path is a build path, now a file; the disk gains exactly the copies and their parent directories, every other file keeps its content and every other entry its stamp, new or rewritten entries are stamped now; when the copies are separate, a build path is copied exactly when it was not strictly newer than its dependency, and then holds the dependency's content |
| DeckBuilder.CopyBuilt | src/deckz/components/deck_builder.py:164-165 | one `copy_file_if_newer` into a build path extends the copies made so far: the disk state and the copy decisions hold with this dependency and build path added, and the path is listed exactly when it was copied |
| DeckBuilder.CopyOne | src/deckz/components/deck_builder.py:156-165 | one turn of the loop: a dependency without a build path fails; otherwise its build path extends the list of build paths and the copy keeps the loop state, the whole change of the disk being accounted for by the copies |
| DeckBuilder.CopiedStateStep | src/deckz/utils.py:29-32 | copying one more file adds it and its parents to the disk and keeps every other file and stamp |
| DeckBuilder.CopiedDecisionsStep | src/deckz/utils.py:27-32 | a copy separate from the earlier ones sees its build path and dependency as they were on the original disk, so the decision is the original one and the earlier copies stay as they were |
| Config.GetOrCreateConfig | src/deckz/configuring/config.py:43-62 | an existing file is read as whatever document it holds, and fails only when it does not parse; a missing file without template is an empty mapping; a missing file with a template is always an error: with no template file, `DeckzError` naming both paths; when `shutil.copy` can write the template, the template is copied to its target (into `config` itself, or below it when it is a directory) and the result is `DeckzError`; when it cannot, the file system is unchanged and the error is `SameFileError` for a target that is the template, `IsADirectoryError` for a target that is a directory, and, for a target below an ancestor that is not a directory, `NotADirectoryError` when the first such ancestor is a regular file and `FileNotFoundError` when it is missing; success changes no file |
| Config.FileAncestorNotADirectory | src/deckz/configuring/config.py:49 | copying `t.yml` to `a/deck-config.yml` while `a` is a regular file is `NotADirectoryError`, with the file system unchanged |
| Config.Layers | src/deckz/configuring/config.py:18-36 | five layers, the first (session) without template and every other with one |
| Config.LoadLayers | src/deckz/configuring/config.py:16-37 | every layer is read in order, whatever document it holds; when all read, nothing is written and each value is that layer's own |
| Config.LoadLayersFailure | src/deckz/configuring/config.py:16-37 | a failed reading is the failure of the first layer that fails, every earlier one read without writing, and keeps that layer's file-system change |
| Config.GetConfig | src/deckz/configuring/config.py:12-40 | a successful result changes no file, follows from every layer reading and its chain iterating and looking up every key, and is sorted by key; when every layer reads, it succeeds exactly when the chain iterates and every layer that is not a mapping is shadowed (every key of a later mapping is held by an earlier mapping), and a failure is a `TypeError` that changes no file |
| Config.NullLayerStillCreates | src/deckz/configuring/config.py:13-59 | a session file holding `null` does not stop the reading: a missing deck file is still copied from its template and the run stops on that `DeckzError` |
| Config.NotIterableLayerFails | src/deckz/configuring/config.py:13-40 | when every layer reads, a layer holding `null`, a boolean or an integer makes the configuration a `TypeError`, with no file changed |
| Config.EmptySessionFails | src/deckz/configuring/config.py:13-39 | a session file holding an empty list or string, with any key in a later layer, makes the configuration a `TypeError`, with no file changed |
| Config.GetConfigNeedsLayers | src/deckz/configuring/config.py:43-59 | a successful result needs the deck, company, user and global files to exist |
| Config.GetConfigSessionOptional | src/deckz/configuring/config.py:43-60 | a missing session file reads as an empty mapping and the other layers decide the reading |
| Config.ChainedLayers | src/deckz/configuring/config.py:15-38 | a successful configuration chains five layers, each the mapping its document stands for |
| Config.LayersUnique | src/deckz/configuring/config.py:16-38 | the five chained layers all have unique keys |
| Config.GetConfigChain | src/deckz/configuring/config.py:13-40 | the result is the chain of the five layers, sorted by key |
| Config.GetConfigLayering | src/deckz/configuring/config.py:12-40 | the keys are the union of the five layers' keys; a key takes its whole value from the first of session, deck, company, user, global holding it |
| Yaml.AsLayer | src/deckz/configuring/config.py:15-38 | iterating the chain takes a mapping's keys and none from an empty list or string (their lookups are `Yaml.LookUp`'s); `null`, a boolean or an integer is not iterable and any other list or string is refused, both with `TypeError` |
| Yaml.LastNotIterable | src/deckz/configuring/config.py:15-38 | finds the last layer that is not iterable, the one iterating the chain meets first, or none when every layer is iterable |
| Yaml.ChainLayers | src/deckz/configuring/config.py:15-38 | iterating the chain (collecting its keys) succeeds iff every layer iterates, giving each layer's keys and values; every failure is a `TypeError`, the one of the last non-iterable layer when there is one |
| Yaml.Index | src/deckz/configuring/config.py:15-38 | `layer[k]` succeeds iff the layer is a mapping holding `k`, with its value; a mapping without `k` raises `KeyError`, any other layer `TypeError` |
| Yaml.LookUp | src/deckz/configuring/config.py:15-38 | `ChainMap.__getitem__`: succeeds iff a mapping holding the key comes before any layer of another kind; a key some mapping holds fails only with `TypeError` |
| Yaml.ChainItems | src/deckz/configuring/config.py:13-39 | `ChainMap(...).items()` consumed by `sorted`: succeeds iff the layers iterate and every layer that is not a mapping is shadowed, then holds the chain of the layers; every failure is a `TypeError`, that of the last non-iterable layer when there is one |
| Yaml.ChainLookUps | src/deckz/configuring/config.py:13-39 | once the layers iterate, every key of the chain is looked up successfully iff every layer that is not a mapping is shadowed, and a failing lookup is a `TypeError` |
| Yaml.ReachesIffShadowed | src/deckz/configuring/config.py:13-39 | every key a mapping holds reaches a mapping before any other kind of layer exactly when every layer that is not a mapping is shadowed |
| Yaml.EmptyListBlocks | src/deckz/configuring/config.py:13-39 | `[]` before `{a: 1}` raises the list's `TypeError` when `a` is looked up, although the chain iterates |
| Yaml.EmptyListUnreached | src/deckz/configuring/config.py:13-39 | `[]` after `{a: 1}` is never reached, and the items are `{a: 1}` |
| Variables.GetVariables | src/deckz/configuring/variables.py:8-21 | the merged variables have unique keys |
| Variables.VariablesFilesAllLoaded | src/deckz/configuring/variables.py:11-19 | only existing `variables.yml` files are listed, so loading them skips none |
| Variables.GetVariablesLayering | src/deckz/configuring/variables.py:8-21 | the merge succeeds iff every listed file holds a mapping; its keys are the union of the files' keys; a key takes its whole value from the last file holding it (later files win, shallowly) |
| Utils.Disk.constructor | src/deckz/utils.py:13-32 | an empty disk holds only its root directory |
| Utils.Disk.FirstFileOn | src/deckz/utils.py:30 | finds the first proper prefix of a path that is a file, if any |
| Utils.Disk.MakeDir | src/deckz/utils.py:30 | creating one directory under existing ones adds it, stamped now unless it existed |
| Utils.Disk.LookupError | src/deckz/utils.py:28 | looking up a path that is not an entry fails with `NotADirectoryError` exactly when a proper prefix of it is a regular file, and with `FileNotFoundError` otherwise |
| Utils.Disk.MakeDirs | src/deckz/utils.py:30 | `mkdir(parents=True, exist_ok=True)` succeeds iff no prefix of the path is a file, and then creates every missing ancestor and the directory itself, stamping only the new ones; otherwise it fails with `FileExistsError` or `NotADirectoryError` at the first file on the path and changes nothing |
| Utils.Disk.WriteCopy | src/deckz/utils.py:30-31 | copying succeeds iff the original is a file, differs from the copy, the copy is not a directory and no proper prefix of it is a file; the copy then holds the original's content; the directories gained are exactly the copy's ancestors, and every entry but the copy and the new directories keeps its stamp, those being stamped now; a failure changes no file; the error is, in order, `FileExistsError` when the copy's parent is a file, `NotADirectoryError` when a file stands above that parent, `SameFileError`, `IsADirectoryError` for a directory as original, `NotADirectoryError` or `FileNotFoundError` for a missing original according to whether a file stands on its way, and `IsADirectoryError` for a directory as copy |
| Utils.Disk.CopyFileIfNewer | src/deckz/utils.py:13-32 | returns false and changes nothing iff the copy exists with a strictly newer mtime than the original (equal mtimes still copy); returns true with the copy holding the original's content, its ancestors as directories and every other entry's stamp kept; a missing original with an existing copy raises `NotADirectoryError` when a regular file stands on the original's way and `FileNotFoundError` otherwise; any other failure is the error of the copy step |
| Utils.IntermediateDirsOf | src/deckz/utils.py:82-87 | succeeds iff `end` is under `start` |
| Utils.IntermediateDirsChain | src/deckz/utils.py:82-87 | yields `start`, then one directory per component of `end` below `start`, ending at `end`; each lies between `start` and `end` and is the parent of the next |
| Utils.IntermediateDirs | src/deckz/utils.py:82-87 | the loop computes the intermediate directories |
| Utils.DirsHierarchy | src/deckz/utils.py:69-79 | yields the git dir, the user config dir, then the directories below the git dir down to the current one when it is under the git dir (each the parent of the next, ending at the current dir), else the current dir alone |
| Utils.Existing | src/deckz/utils.py:120-123 | the existing paths are some of the given ones, each existing |
| Utils.LoadAllYamlsExisting | src/deckz/utils.py:120-123 | loading skips missing files silently and keeps the order of the others |
| Settings.GetDefault | src/deckz/configuring/settings.py:27-32 | the `fr` table answers only for `fr`, the `en` table only for `en`; otherwise the `all` table answers, and a value found nowhere is returned unchanged |
| Settings.GetDefaultOtherLanguage | src/deckz/configuring/settings.py:27-32 | for a language other than `fr` and `en` only the `all` table is consulted |
| Settings.CompanyConfig | src/deckz/configuring/settings.py:93-105 | the company config exists iff the current dir is at least two components below the git dir, and is then `git_dir/<first component>/company-config.yml`; a current dir outside the git dir fails as `relative_to` does, a shallow one with `DeckzError` |
| Settings.SettingsFiles | src/deckz/configuring/settings.py:125-129 | the `deckz.yml` files are listed iff the end is under the start |
| Settings.InjectCurrentDir | src/deckz/configuring/settings.py:151-152 | a `paths` mapping without `current_dir` gets it appended; one with it is unchanged |
| Settings.FromYaml | src/deckz/configuring/settings.py:138-153 | a path outside the git dir raises `DeckzError` naming both; a result always has `paths` |
| Settings.WithCurrentDir | src/deckz/configuring/settings.py:149-152 | the settings always end with a `paths` entry |
| Settings.WithCurrentDirGet | src/deckz/configuring/settings.py:149-152 | keys other than `paths` are untouched; a missing `paths` becomes `{current_dir: path}`; a `paths` holding `current_dir` is kept |
| Settings.FromYamlContent | src/deckz/configuring/settings.py:138-153 | the settings are the merge of the `deckz.yml` files from the git root down to the path (deeper files win, shallowly), with `current_dir` injected only when absent |
| Renderer.CamelPiece | src/deckz/components/renderer.py:107 | an empty segment becomes `_`, any other is capitalised |
| Renderer.CapitalizeKeepsUnderscores | src/deckz/components/renderer.py:107 | capitalising neither adds nor removes `_` |
| Renderer.CamelJoinUnderscores | src/deckz/components/renderer.py:107 | joined pieces of `_`-free segments contain `_` iff some segment is empty |
| Renderer.ToCamelCaseUnderscores | src/deckz/components/renderer.py:106-107 | the camel-case output contains `_` exactly when the input had empty segments |
| Renderer.ToCamelCaseWords | src/deckz/components/renderer.py:106-107 | non-empty words joined by `_` become the concatenation of the capitalised words (`presentation_size` gives `PresentationSize`) |
| Renderer.CamelJoinWords | src/deckz/components/renderer.py:107 | non-empty segments are joined capitalised |
| Renderer.GetEnOrFr | src/deckz/components/renderer.py:121-125 | for a language other than `fr`, `<key>_en` is preferred when present; otherwise `key` is read, and a missing key raises `KeyError` |
| Renderer.InfoField | src/deckz/components/renderer.py:121-136 | a string field is replaced by its localized default, or kept when it has none; a null, boolean or integer field is rendered as Python formats it (`None`, `True`, `2020`); a list or mapping raises `TypeError` as unhashable; the `KeyError` of a missing key is passed on |
| Renderer.ImgInfo | src/deckz/components/renderer.py:119-138 | no metadata gives empty info; metadata that is a mapping gives `[title, author, license.]`, each field rendered with its localized defaults, and fails iff one of the three fields fails; other metadata fails |
| Renderer.Img | src/deckz/components/renderer.py:109-140 | the label is `\img` + modifier + info + `{value}` + `{scale}`, after one call of the metadata retriever; metadata errors are passed on |
| Renderer.RenderToPath | src/deckz/components/renderer.py:23-43 | an output already holding the rendered text plus a newline is left untouched (same stamp); a missing or different output file is replaced by that text, stamped now; an existing directory as output receives the temporary file under its own name, and fails with `shutil.Error` when that name is taken; no directory is created and a failure changes no file; an output that is not a directory and cannot be written fails with `NotADirectoryError` when a regular file stands above it and with `FileNotFoundError` otherwise |
| AssetsMetadata.Metadata | src/deckz/components/assets_metadata_retriever.py:18-20 | the metadata is the content of `<assets_dir>/<value>.yml`, or None when that file does not exist |
| AssetsMetadata.Record | src/deckz/components/assets_metadata_retriever.py:21-24 | recording adds the value's key and keeps keys unique |
| AssetsMetadata.RecordGet | src/deckz/components/assets_metadata_retriever.py:21-24 | the value's entry gets the metadata appended to its earlier results; other entries are unchanged |
| AssetsMetadata.Retriever.constructor | src/deckz/components/assets_metadata_retriever.py:10-12 | a new retriever has recorded nothing |
| AssetsMetadata.Retriever.Call | src/deckz/components/assets_metadata_retriever.py:18-25 | a call returns the value's metadata and records it; a failing call records nothing |
| SectionsAnalyzer.NodesUsesAt | src/deckz/analyzing/sections_analyzer.py:128-129 | the uses of sibling nodes are the uses of some one of them |
| SectionsAnalyzer.NodeUsesSpec | src/deckz/analyzing/sections_analyzer.py:112-129 | a node records (path, flavor) iff some section reachable from it, itself included, resolved under the shared latex dir, has that unresolved path and flavor; files record nothing |
| SectionsAnalyzer.VisitUsage | src/deckz/analyzing/sections_analyzer.py:112-129 | the visitor adds exactly the node's uses to the statistics it is given |
| SectionsAnalyzer.VisitUsageChildren | src/deckz/analyzing/sections_analyzer.py:128-129 | the loop over children adds all their uses |
| SectionsAnalyzer.PartUsageSpec | src/deckz/analyzing/sections_analyzer.py:99-110 | a part's statistics hold (path, flavor) iff one of its nodes uses it, and never hold an empty flavor set |
| SectionsAnalyzer.ProcessPart | src/deckz/analyzing/sections_analyzer.py:99-110 | `_process_part` computes the part's statistics |
| SectionsAnalyzer.Process | src/deckz/analyzing/sections_analyzer.py:91-97 | `process` computes the statistics of every part, keyed by part name |
| SectionsAnalyzer.GoneSpec | src/deckz/analyzing/sections_analyzer.py:33-36 | the flavors removed for a path are those paired with it |
| SectionsAnalyzer.RemainingSpec | src/deckz/analyzing/sections_analyzer.py:26-37 | what remains is the initial table without the removed pairs: no new path or flavor, a path whose last flavor was removed disappears, and a path that started without flavors stays |
| SectionsAnalyzer.DiscardStep | src/deckz/analyzing/sections_analyzer.py:33-36 | removing one pair removes that flavor, and the path with its last flavor |
| SectionsAnalyzer.RemainingNothing | src/deckz/analyzing/sections_analyzer.py:26-28 | before any removal the table is the initial one |
| SectionsAnalyzer.DiscardFlavors | src/deckz/analyzing/sections_analyzer.py:32-36 | the innermost loop removes the pairs of one path |
| SectionsAnalyzer.DiscardPart | src/deckz/analyzing/sections_analyzer.py:31-36 | the loop over one part's statistics removes all its pairs |
| SectionsAnalyzer.UsedByPartsStep | src/deckz/analyzing/sections_analyzer.py:30 | one more part adds its pairs to those used |
| SectionsAnalyzer.DiscardDeck | src/deckz/analyzing/sections_analyzer.py:30-36 | the loop over one deck's parts removes all their pairs |
| SectionsAnalyzer.UsedInStep | src/deckz/analyzing/sections_analyzer.py:29 | one more deck adds its parts' pairs to those used |
| SectionsAnalyzer.UnusedFlavors | src/deckz/analyzing/sections_analyzer.py:25-37 | the unused flavors are the shared sections' flavors minus every pair some part of some deck uses |
| SectionsAnalyzer.AddPartUser | src/deckz/analyzing/sections_analyzer.py:48-52 | a part is added under its deck iff it uses the section (with the flavor, when one is given) |
| SectionsAnalyzer.WithPartsAdd | src/deckz/analyzing/sections_analyzer.py:50-52 | adding parts one at a time creates the deck's entry once and accumulates the names |
| SectionsAnalyzer.AddDeckUsers | src/deckz/analyzing/sections_analyzer.py:47-52 | the loop over one deck's parts adds every part using the section |
| SectionsAnalyzer.UsingInStep | src/deckz/analyzing/sections_analyzer.py:46-52 | one more deck adds its entry when some part uses the section |
| SectionsAnalyzer.PartsUsingFlavor | src/deckz/analyzing/sections_analyzer.py:39-53 | the result maps each deck to the parts using the section (with the flavor, if given), and omits decks with none |
| SectionsAnalyzer.UsedIffSomePart | src/deckz/analyzing/sections_analyzer.py:25-53 | a flavor counts as used iff some part uses it, so `unused_flavors` and `parts_using_flavor` agree |
| SectionsAnalyzer.UnusedFlavorsOfDecks | src/deckz/analyzing/sections_analyzer.py:25-97 | a declared flavor is unused iff no part of any deck reaches a shared section with that path and flavor |
| AssetsAnalyzer.NodesDepsAt | src/deckz/components/assets_analyzer.py:104-105 | the dependencies of sibling nodes are those of some one of them |
| AssetsAnalyzer.NodeDepsSpec | src/deckz/components/assets_analyzer.py:88-105 | a node records (section, file) iff that file is reachable from it with that section as its closest enclosing section (the empty path at part level) |
| AssetsAnalyzer.VisitDeps | src/deckz/components/assets_analyzer.py:88-105 | the visitor adds exactly the node's dependencies to the table it is given |
| AssetsAnalyzer.VisitDepsChildren | src/deckz/components/assets_analyzer.py:104-105 | the loop over children adds all their dependencies |
| AssetsAnalyzer.Process | src/deckz/components/assets_analyzer.py:68-86 | `process` groups the dependencies of every part's nodes by section |
| AssetsAnalyzer.DeckDepsSnoc | src/deckz/components/assets_analyzer.py:70-77 | one more part adds its nodes' dependencies |
| AssetsAnalyzer.UpdateExtends | src/deckz/components/assets_analyzer.py:46-48 | one update adds the deck's files of a section to the table |
| AssetsAnalyzer.MergeDeck | src/deckz/components/assets_analyzer.py:45-48 | the loop adds every pair of one deck |
| AssetsAnalyzer.SectionDependencies | src/deckz/components/assets_analyzer.py:39-49 | the section dependencies group the pairs of every deck by section |
| AssetsAnalyzer.AllDepsSnoc | src/deckz/components/assets_analyzer.py:43-48 | one more deck adds its pairs |
| AssetsAnalyzer.SectionDependenciesUnion | src/deckz/components/assets_analyzer.py:39-49 | a section depends on a file iff it does so in some deck |
| AssetsAnalyzer.AllDepsAt | src/deckz/components/assets_analyzer.py:43-48 | a pair belongs to all decks iff it belongs to one of them |
| AssetsAnalyzer.IsImageLicensed | src/deckz/components/assets_analyzer.py:56-60 | an image without a `.yml` beside it is unlicensed; one with a mapping beside it is licensed iff the mapping has a `license` key |
| AssetsAnalyzer.CheckLicense | src/deckz/components/assets_analyzer.py:56-60 | the licence check of one image |
| AssetsAnalyzer.ComputeAssetPath | src/deckz/components/assets_analyzer.py:54 | the image path is the asset under the assets dir |
| AssetsAnalyzer.ImagesSnoc | src/deckz/components/assets_analyzer.py:53-54 | one more asset adds its image |
| AssetsAnalyzer.CheckedStep | src/deckz/components/assets_analyzer.py:29-31 | one more image is checked and kept iff unlicensed |
| AssetsAnalyzer.FileStep | src/deckz/components/assets_analyzer.py:29-31 | a failing check fails the whole section; otherwise the found set grows by the image iff it is unlicensed |
| AssetsAnalyzer.UnlicensedOfFile | src/deckz/components/assets_analyzer.py:29-31 | the images of one file are checked in turn: the result adds the unlicensed ones, or a check's error is raised |
| AssetsAnalyzer.UnlicensedOfSection | src/deckz/components/assets_analyzer.py:29-31 | the result is exactly the section's unlicensed images, or some check's error |
| AssetsAnalyzer.SectionAssetsStep | src/deckz/components/assets_analyzer.py:51-54 | one more dependency adds the images its rendering uses |
| AssetsAnalyzer.SectionAssetsMono | src/deckz/components/assets_analyzer.py:51-54 | more dependencies never mean fewer images |
| AssetsAnalyzer.SectionsUnlicensedImages | src/deckz/components/assets_analyzer.py:27-33 | succeeds iff every image of every section can be checked, and then maps each section to its unlicensed images; otherwise some check's error is raised |
| AssetsAnalyzer.UnlicensedImagesSpec | src/deckz/components/assets_analyzer.py:27-60 | one entry per section, holding only its images; an image without metadata is listed; one with a metadata mapping is listed iff it has no `license` key |
| Pipelines.Run | src/deckz/pipelines.py:41-58 | without a whitelist the deck is built unchanged; with one, unknown part names fail and leave the deck intact, otherwise the deck keeps exactly the whitelisted parts |
| Pipelines.FirstFailure | src/deckz/pipelines.py:109-121 | the number of leading successful builds: all builds before it succeeded and the one at it failed |
| Pipelines.RunAll | src/deckz/pipelines.py:94-121 | decks are built in order until the first failure: the failing deck is still built but the progress bar stops before it |
| Pipelines.FirstFailureAt | src/deckz/pipelines.py:119-120 | the first failure is unique: any index with only successes before it and a failure at it is the first failure |
| Pipelines.AvoidedDirs | src/deckz/pipelines.py:192-197 | a directory is avoided iff it is listed or lies under a listed one |
| Pipelines.WatchedDirs | src/deckz/pipelines.py:198-203 | a directory is watched iff it is listed, or lies under a listed one and is not avoided |
| Pipelines.SpacedApart | src/deckz/pipelines.py:168-177 | builds started by the handler are at least the minimum delay apart, so k builds later is at least k delays later |
| Pipelines.EventHandler.constructor | src/deckz/pipelines.py:137-150 | a new handler is waiting for its first build, has no worker and has started nothing |
| Pipelines.EventHandler.Dispatch | src/deckz/pipelines.py:168-177 | an event starts a build iff the delay has elapsed and no worker is alive; a live worker logs a message and nothing else changes |
| Pipelines.EventHandler.Call | src/deckz/pipelines.py:152-166 | a build logs "initial" once and "new build" afterwards, then either success or the exception's text, and always ends not compiling |
| Upgrade.NormalizePartContent | src/deckz/cli/upgrade.py:74-86 | a string is a bare path; a mapping with `path` yields its path, title (unset when absent) and flavor (none when absent or null), whatever their types; a one-entry mapping without `path` is its key as path and its value as flavor; any other mapping fails the assertion; anything else raises `TypeError` |
| Upgrade.NormalizeSectionContent | src/deckz/cli/upgrade.py:139-155 | a string is a bare path; a one-entry mapping is its key as path with its value as title, or, for a `$` key, the rest of the key as path with the value as flavor, whatever its type; other mappings and lists other than one item fail the assertion; a one-item list raises `AttributeError`, a scalar `TypeError` |
| Upgrade.FlavorOf | src/deckz/cli/upgrade.py:80-85 | a flavor that is absent or null is no flavor; any other value is kept |
| Upgrade.Rewrite | src/deckz/cli/upgrade.py:110-120 | with a flavor the entry becomes `$<path>@<flavor>`, both formatted as f-strings do, keyed to the title when one is set; without a flavor it is the path as loaded, or a mapping from a string path to the title; a list or mapping path with a title raises `TypeError` |
| Upgrade.RewriteRoundTrip | src/deckz/cli/upgrade.py:109-120 | an old entry written in the new syntax reads back, under the new include grammar, as the same path, flavor and title |
| Upgrade.SectionFromLeft | src/deckz/cli/upgrade.py:116 | `$path@flavor` is read back by the new grammar as that section and flavor |
| Upgrade.SectionLeft | src/deckz/cli/upgrade.py:116 | `$path@flavor` splits back at its single `@` into the path and the flavor |
| Upgrade.RewriteEntries | src/deckz/cli/upgrade.py:106-121 | the loop rewrites every entry in order and stops at the first that fails |
| Upgrade.UpgradedPart | src/deckz/cli/upgrade.py:106-121 | a part upgrades iff it has iterable `sections` whose entries all normalise |
| Upgrade.UpgradePart | src/deckz/cli/upgrade.py:106-121 | the loop over one part's sections computes the upgraded part |
| Upgrade.UpgradeParts | src/deckz/cli/upgrade.py:105-121 | the loop over the parts computes the upgraded definition |
| Upgrade.DeckName | src/deckz/cli/upgrade.py:93-99 | the deck name is `deck_acronym`, whose absence is a ValueError; the variables keep every other key with its value |
| Upgrade.UpgradeDeck | src/deckz/cli/upgrade.py:92-130 | the variables without `deck_acronym` are written as soon as the name is read, even when the definition then fails; the upgrade succeeds iff the variables hold a deck name and the parts upgrade, and the new definition is `{name, parts}`; a failure is the name's or the parts' error |
| Upgrade.RewrittenVariablesLoseName | src/deckz/cli/upgrade.py:93-103 | once written back, the variables hold no `deck_acronym`, so upgrading the same deck again fails with `ValueError` |
| Upgrade.UpgradeFlavors | src/deckz/cli/upgrade.py:174-181 | the loop turns every flavor mapping entry, in order, into a `{name, includes}` item |
| Upgrade.UpgradeSection | src/deckz/cli/upgrade.py:165-184 | the loop-based rewrite of one section file computes the upgraded section |
| Upgrade.RewrittenGet | src/deckz/cli/upgrade.py:172-184 | the rewritten section drops `version` and an empty `default_titles`, replaces `flavors`, and keeps every other key's value |
| Upgrade.UpgradedSectionSpec | src/deckz/cli/upgrade.py:166-184 | files that are not mappings with `flavors` and `title` are skipped; the others keep their title and every key but those removed |
| Upgrade.UpgradedSectionFlavors | src/deckz/cli/upgrade.py:174-182 | the new `flavors` list has one item per old flavor, in order, each named after it |
| Migrate.Wrap | deckz/cli/migrate.py:39 | mappings stay as they are; anything else becomes `{path: it}` with no title |
| Migrate.PathOf | deckz/cli/migrate.py:41 | an include's path is its `path` key, whose absence fails |
| Migrate.Wrapped | deckz/cli/migrate.py:39 | every include is wrapped, in order |
| Migrate.LastTitle | deckz/cli/migrate.py:40 | a default title exists for a path iff some include with that path has a title |
| Migrate.LastTitleIsLast | deckz/cli/migrate.py:40 | the default title of a path is the title of the last include carrying one |
| Migrate.DefaultTitlesGet | deckz/cli/migrate.py:40 | the dictionary comprehension maps each path to its last title |
| Migrate.V1ToV2 | deckz/cli/migrate.py:37-42 | migration needs `title` and iterable `includes` |
| Migrate.V1ToV2Spec | deckz/cli/migrate.py:37-42 | the result is `{version: 2, title, default_titles, flavors: {standard: paths}}`, with one path per include in order and each path's last title |
| Migrate.OlderThan2 | deckz/cli/migrate.py:30 | `version < 2` on an integer; a boolean counts as older; other values fail the comparison |
| Migrate.Migrated | deckz/cli/migrate.py:18-34 | current files are left alone; files without a version are migrated from version 1; a non-mapping fails |
| Migrate.MigratedStable | deckz/cli/migrate.py:18-34 | migrating a migrated file again changes nothing |
| ParsingTargets.Updated | deckz/parsing/targets.py:53-57 | an update unions used and missing files; a file stays unused only if it was unused and not used since, or is newly unused and not used before; disjointness of used and unused is kept |
| ParsingTargets.MergeValues | deckz/parsing/targets.py:59-67 | merged dependencies never list a file as both used and unused |
| ParsingTargets.MergeValuesSpec | deckz/parsing/targets.py:59-67 | a file is used (missing) after a merge iff some input uses (misses) it, and unused iff some input leaves it unused and none uses it |
| ParsingTargets.Dependencies.constructor | deckz/parsing/targets.py:47-51 | new dependencies are empty |
| ParsingTargets.Dependencies.Update | deckz/parsing/targets.py:53-57 | `update` changes the receiver in place to the updated value |
| ParsingTargets.Dependencies.Merge | deckz/parsing/targets.py:59-67 | `merge` returns a fresh object holding the merge of its arguments |
| ParsingTargets.Values | deckz/parsing/targets.py:59-67 | the values of the objects, in order |
| ParsingTargets.Column | deckz/parsing/targets.py:77 | the dependencies recorded under a key in those dictionaries that have it |
| ParsingTargets.MergeDicts | deckz/parsing/targets.py:69-79 | merging no dictionaries fails, as `set.union()` does; otherwise the keys are those of any input |
| ParsingTargets.MergeDictsGet | deckz/parsing/targets.py:69-79 | under each key, the merged value uses (misses) a file iff some dictionary's value under that key does |
| ParsingTargets.NestedPath | deckz/parsing/targets.py:268-271 | `$/x` names `x` from the root; `$x` names `x` under the current section |
| ParsingTargets.Lookup | deckz/parsing/targets.py:244-255 | an include is found in the local dir when the file exists there, else in the shared dir, and missing under its own name when neither exists; the title is kept |
| ParsingTargets.ProcessItem | deckz/parsing/targets.py:216-255 | an empty mapping raises StopIteration; excluded names produce nothing; `$` names are nested sections at the nested path; other names are looked up under the title the item or the default titles give |
| ParsingTargets.SectionTitle | deckz/parsing/targets.py:305-310 | the title comes from the config, else from the `.yml` beside the file, else there is none |
| ParsingTargets.ParseSectionFile | deckz/parsing/targets.py:286-316 | a found section file yields its slides ending in its content, and uses exactly files that exist, missing nothing |
| ParsingTargets.SectionFile | deckz/parsing/targets.py:289-302 | the local `.tex` file wins over the shared one; with neither, the section file is absent |
| ParsingTargets.SectionItems | deckz/parsing/targets.py:311-316 | the items are an optional title at the given level followed by the content, and the file itself is the only dependency |
| ParsingTargets.CheckTargets | deckz/parsing/targets.py:324-344 | targets are rejected with a DeckzError iff one of them misses a dependency, and are otherwise kept as given |
| ParsingTargets.KeepNamed | deckz/parsing/targets.py:387 | keeps, in order, exactly the targets whose name is whitelisted |
| ParsingTargets.FilterTargets | deckz/parsing/targets.py:375-387 | fails with a DeckzError iff some whitelisted name matches no target; otherwise keeps the whitelisted targets in order |
| ParsingTargets.FromData | deckz/parsing/targets.py:356-373 | a target named `all`, after only well-formed entries, is rejected with DeckzError before any target is built, and the first entry that is not a mapping with a `name` gives its own error; when no entry is reserved, the result is exactly `TargetsOfData`: every target built by `TargetOf` in order (the first failure passed on), filtered by the whitelist when there is one, then checked for missing dependencies; a success has no missing dependency |
| ParsingTargets.AllValid | deckz/parsing/targets.py:23-26 | a list validates iff every element validates, and then holds each element's validated value, in order |
| ParsingTargets.ConfigOf | deckz/parsing/targets.py:23-26 | a validated section configuration takes its title from the `title` string and has one flavor per key of the `flavors` mapping, with the same names in the same order |
| ParsingTargets.EntryRoundTrip | deckz/parsing/targets.py:25 | a flavor entry, dumped to YAML, validates back to itself |
| ParsingTargets.FlavorRoundTrip | deckz/parsing/targets.py:25 | a flavor, dumped to YAML, validates back to itself |
| ParsingTargets.FlavorsRoundTrip | deckz/parsing/targets.py:25 | the flavors mapping, dumped to YAML, validates back to itself |
| ParsingTargets.DefaultsRoundTrip | deckz/parsing/targets.py:24 | the default titles, dumped to YAML (null when there are none), validate back to themselves |
| ParsingTargets.ConfigRoundTrip | deckz/parsing/targets.py:23-26 | a section configuration, dumped to YAML, validates back to itself |
| ParsingTargets.LoadSectionConfig | deckz/parsing/targets.py:29-34 | loading succeeds iff the file is read and its YAML validates, and gives the validated configuration; a file that is not valid YAML lets the parser's error escape; every other failure is a DeckzError |
| ParsingTargets.LastPart | deckz/parsing/targets.py:157 | `parts[-1]` of an empty relative path raises IndexError; otherwise the result carries the path's name and has at most one component |
| ParsingTargets.LocalBasePlace | deckz/parsing/targets.py:151-154 | the local configuration path, before its suffix, is named after the section and lies in the local section directory followed by the section path's parent, so the section path appears twice |
| ParsingTargets.ConfigFilesPlaces | deckz/parsing/targets.py:150-158 | both configuration files have the same name; the shared one lies in the shared section directory; the local one lies in the local section directory followed by the section path's parent |
| ParsingTargets.LocateSectionSpec | deckz/parsing/targets.py:150-165 | a section directory is located iff its configuration files can be named; the local configuration wins over the shared one; with neither there is no section directory; a located configuration exists; the section directories are each latex directory joined with the section path |
| ParsingTargets.ChosenFlavor | deckz/parsing/targets.py:168-184 | a target without `flavor` is a DeckzError; the entries are found iff the flavor is a string naming a flavor of the configuration, and are then that flavor's entries |
| ParsingTargets.UnflavoredRefused | deckz/parsing/targets.py:166-173 | a located section directory with a loadable configuration, asked for without a flavor, is refused with a DeckzError |
| ParsingTargets.AddFlavor | deckz/parsing/targets.py:120 | recording a flavor for a path keeps everything recorded before and leaves the flavor recorded for that path; dependencies are unchanged |
| ParsingTargets.AddDeps | deckz/parsing/targets.py:133 | `section_dependencies[path].update(d)` keeps everything recorded before, changes no flavor, adds only what `d` uses and misses, and records `d`'s used and missing files for the path |
| ParsingTargets.ParseSectionDir | deckz/parsing/targets.py:142-200 | a parsed section opens with its title at its level, has no title above that level, leaves nothing unused and uses only existing files; the bookkeeping only grows, and only by what the section uses and misses |
| ParsingTargets.ProcessEntries | deckz/parsing/targets.py:186-199 | processing a flavor's entries in order only appends items, only adds used and missing files, and keeps the section's walk well formed |
| ParsingTargets.ProcessEntry | deckz/parsing/targets.py:202-255 | each entry only appends items, only adds used and missing files, and keeps the section's walk well formed |
| ParsingTargets.Advance | deckz/parsing/targets.py:221-255 | an excluded, found or missing entry only appends items and only adds used and missing files; when a found file exists the section's walk stays well formed |
| ParsingTargets.NestedEntry | deckz/parsing/targets.py:257-284 | a nested section appends its items one level down, adds its dependencies, keeps the walk well formed, and grows the bookkeeping only by what it uses and misses |
| ParsingTargets.AppendStep | deckz/parsing/targets.py:244-255 | appending items no higher than the section's level, with only more used and missing files, extends the walk and keeps it well formed when the new files exist |
| ParsingTargets.NestedStep | deckz/parsing/targets.py:279-284 | appending a nested section's walk and recording its flavor and dependencies extends the walk and keeps it well formed |
| ParsingTargets.Declared | deckz/parsing/targets.py:116-120 | a bare entry stands for `{"path": entry}`; the path is the `path` string and a missing `path` is a KeyError; the flavor is the `flavor` value, null when absent |
| ParsingTargets.SectionEntry | deckz/parsing/targets.py:116-133 | one entry of `sections`: its path is the declared path and its flavor is recorded; it leaves nothing unused and uses only existing files; the bookkeeping grows only by its dependencies; an entry with no items is a missing dependency named by its path |
| ParsingTargets.SectionsInvariant | deckz/parsing/targets.py:110-133 | after the loop over `sections`, the unused files are exactly the local `.tex` files no section uses; used files exist; every used or missing file is so for some section path, and no section path uses or misses more than the build; every entry is recorded with its flavor |
| ParsingTargets.SectionsFromNext | deckz/parsing/targets.py:116-133 | one more round of the loop: a failing entry fails the whole loop, any other extends the walk by its items, dependencies and bookkeeping |
| ParsingTargets.TargetOf | deckz/parsing/targets.py:110-140 | a built target has the data's name and title and one part; its dependencies are disjoint and leave unused exactly the local `.tex` files not used; used files exist; a file is used (missing) iff it is so for some section path; every entry of `sections` is recorded with its flavor |
| ParsingTargets.ParseSections | deckz/parsing/targets.py:116-133 | the loop over `sections` computes what the section-by-section fold computes |
| ParsingTargets.Build | deckz/parsing/targets.py:110-140 | `build` returns exactly the target `TargetOf` describes, including its errors |
| ParsingTargets.PartsOf | deckz/parsing/targets.py:93 | a part is in the result iff it is a part of some target |
| ParsingTargets.UpdateEach | deckz/parsing/targets.py:95-97 | the keys are those of either map; a key only in the first keeps its value; a key of the second holds the update of its old value (empty when absent) with the new one |
| ParsingTargets.UniteEach | deckz/parsing/targets.py:98-101 | the keys are those of either map, and each holds the union of its sets in both |
| ParsingTargets.FlavorsUnitedSpec | deckz/parsing/targets.py:98-101 | a section has united flavors iff some target records it, and a flavor is among them iff some target records it for that section |
| ParsingTargets.SectionDepsMergedKeys | deckz/parsing/targets.py:94-97 | a section has merged dependencies iff some target records it |
| ParsingTargets.SectionDepsMergedSpec | deckz/parsing/targets.py:94-97 | a section's merged dependencies are the merge of its dependencies in every target that records it, in order |
| ParsingTargets.SectionDepsMergeDicts | deckz/parsing/targets.py:94-97 | for at least one target, updating section by section gives exactly what `merge_dicts` gives on the targets' section dependencies |
| ParsingTargets.FromTargetsStep | deckz/parsing/targets.py:90-102 | merging one more target extends each merge by that target's dependencies, parts, section dependencies and flavors |
| ParsingTargets.FromTargets | deckz/parsing/targets.py:90-102 | `from_targets` holds the given name, the merge of the targets' dependencies, their parts in order, each section's dependencies updated target by target, and each section's flavors united |
| ParsingTargets.RefuseReserved | deckz/parsing/targets.py:363-369 | the first loop finds no error iff every target is a mapping with a name other than `all`; otherwise the error is that of the first entry that is not such a target: its own lookup error, or DeckzError for the name `all` |
| LegacyConfig.Created | deckz/config.py:17-28 | a created config holds exactly one entry per prompted key, whose value is the user's answer |
| LegacyConfig.CreatedGet | deckz/config.py:24 | looking up a prompted key in the created config gives the answer to it |
| LegacyConfig.GetOrCreate | deckz/config.py:105-111 | an existing file is read unchanged as whatever document it holds; a missing one is created from the prompts and read as that mapping; a directory in its place raises IsADirectoryError |
| LegacyConfig.Layers | deckz/config.py:30-137 | there are five config layers (global, user, company, deck, session), each prompting distinct keys |
| LegacyConfig.LoadLayers | deckz/config.py:140-150 | one document per layer, every layer read or created before the chain is built, and reading keeps every file's keys distinct |
| LegacyConfig.GetConfig | deckz/config.py:140-152 | the merged config is sorted by key and needs every layer to read, its chain to iterate and every key to be looked up; once every layer reads, the files are those the reading left, it succeeds exactly when the chain iterates and every layer that is not a mapping is shadowed by earlier mappings, and a failure is a `TypeError` |
| LegacyConfig.LoadLayersCreate | deckz/config.py:105-111 | after reading, every layer's file exists; when every layer is absent or holds a document, reading succeeds |
| LegacyConfig.KeepsFiles | deckz/config.py:105-111 | loading never removes a file |
| LegacyConfig.LayerValue | deckz/config.py:105-111 | a layer whose file already holds a document is read as that document, whatever the other layers create |
| LegacyConfig.ChainedLayers | deckz/config.py:144-150 | a successful config chains five layers, each the mapping its document stands for |
| LegacyConfig.GetConfigChain | deckz/config.py:140-152 | the config is the sorted chain of the five chained layers, each with distinct keys |
| LegacyConfig.GetConfigLayering | deckz/config.py:140-152 | a key is in the config iff some layer has it, and then its value is that of the first layer holding it |
| LegacyConfig.GetConfigFreshGlobal | deckz/config.py:30-33 | with no global config, one is created and `presentation_size` takes the user's answer |
| LegacyConfig.NullSessionFails | deckz/config.py:136-152 | a session file holding `null` is read like any other layer, after which iterating the chain fails with `TypeError` |
| LegacyConfig.EmptySessionHarmless | deckz/config.py:140-152 | a session file holding an empty list or string is the last layer looked up, so the config is read when the other four layers are mappings |
| LegacyTargets.MergedUsed | deckz/targets.py:45-52 | a merge uses (misses) a file iff one of its inputs does |
| LegacyTargets.MergedUnused | deckz/targets.py:45-52 | a file is unused after a merge iff some input leaves it unused while no input up to that one uses it |
| LegacyTargets.MergeKeepsStale | deckz/targets.py:45-52 | unlike the newer merge, a file left unused and then used stays in both sets |
| LegacyTargets.Merge | deckz/targets.py:45-52 | the loop computes the fold that the lemmas describe |
| LegacyTargets.PairMerged | deckz/targets.py:102 | merging the target's dependencies with one section's in closed form |
| LegacyTargets.AccumulatedSpec | deckz/targets.py:72-102 | a target uses (misses) a file iff some section does (or it was missing from the start); a `.tex` file below the deck dir stays unused iff no section but possibly the last uses it |
| LegacyTargets.LastSectionStale | deckz/targets.py:73-102 | a file used only by the last section is reported both used and unused |
| LegacyTargets.Locate | deckz/targets.py:79-101 | local dir, then local `.tex`, then shared dir, then shared `.tex`: the first that exists wins, and nothing found only when none exists |
| LegacyTargets.NameAndTitle | deckz/targets.py:147-154 | a string item is its own name, titled from the default titles when there are some; a mapping item is its first entry, an empty one fails |
| LegacyTargets.ProcessItem | deckz/targets.py:146-168 | excluded names are skipped; otherwise the item is the local file listed under the section dir, else the shared file listed by name, else a missing name |
| LegacyTargets.OutcomesSpec | deckz/targets.py:143-169 | a section's inputs come from its found items in order; it uses exactly the files found and misses exactly the names not found, leaving nothing unused |
| LegacyTargets.OutcomeStep | deckz/targets.py:155-168 | one more item adds its input, its used file or its missing name |
| LegacyTargets.HeaderTitle | deckz/targets.py:120-124 | the target's title when it has one, otherwise `section_config["title"]` with the lookup's KeyError or TypeError |
| LegacyTargets.SectionHeader | deckz/targets.py:117-145 | succeeds iff the file loads, the title resolves, the target names a flavor, `"flavors" in section_config` holds, `flavors` can be subscripted, the flavor is a member of it and can be looked up in it; the value is then that lookup, and the target's title wins over the file's; once the title is known, a missing `flavor`, a false `"flavors" in section_config` and a flavor that is not a member each give `DeckzException`, the first two with the source's messages |
| Yaml.Member | deckz/targets.py:136 | Python's `in` on a loaded value: key membership in a mapping (`TypeError` for an unhashable list or mapping), `==` on the items of a list, substring of a string (`TypeError` for a non-string), `TypeError` on anything else |
| Yaml.Subscript | deckz/targets.py:142 | Python's `container[key]` for any loaded key: a string key of a mapping, a boolean or integer index, negative ones from the end, into a list or string, `IndexError` out of range and `TypeError` for other keys |
| LegacyTargets.NoFlavorRefused | deckz/targets.py:125-129 | a directory section without a flavor is refused, with exactly "Mandatory flavor not specified …" once its title is known, whatever the section file holds |
| LegacyTargets.NullConfigNeedsFlavor | deckz/targets.py:119-129 | an empty section file with a titled target naming no flavor gives the flavor `DeckzException`, not a type error |
| LegacyTargets.NoFlavorsKey | deckz/targets.py:131-134 | a section file holding `"abc"` or `[a]`, with a title and a flavor in the target, gives the `flavors` `DeckzException` |
| LegacyTargets.ListFlavorsUnknown | deckz/targets.py:135-141 | `flavors` given as a list `[a, b]` and the flavor `c` give the "not amongst available flavors" `DeckzException` |
| LegacyTargets.UnhashableFlavorName | deckz/targets.py:136 | a list as flavor name among mapping flavors is `TypeError("unhashable type: 'list'")` |
| LegacyTargets.SectionDirOf | deckz/targets.py:114-169 | a parsed section directory has a valid header and leaves nothing unused |
| LegacyTargets.ParseSectionDir | deckz/targets.py:114-169 | the loop over the flavor's items computes the section and its dependencies |
| LegacyTargets.ParseSectionFile | deckz/targets.py:171-189 | a section file is a single untitled input and its only used file; the title comes from the config, else the `.yml` beside it, else there is none |
| Yaml.TexBelow | deckz/targets.py:73 | the glob yields only existing files strictly below the deck dir |
| LegacyTargets.SectionOf | deckz/targets.py:75-101 | one section entry leaves nothing unused; when no source exists, the path is the one missing name |
| LegacyTargets.DepsColumn | deckz/targets.py:102 | the dependencies of each section, in order |
| LegacyTargets.Appended | deckz/targets.py:103 | one section per entry; a missing section repeats the previous one, as the unreset `section` variable does |
| LegacyTargets.TargetOf | deckz/targets.py:66-103 | a target takes its name and title from its data |
| LegacyTargets.SectionsOf | deckz/targets.py:72-103 | a target has its name, its title and one section per entry |
| LegacyTargets.SectionsWith | deckz/targets.py:75-103 | the same over any section parser: a first entry without a source raises UnboundLocalError |
| LegacyTargets.TargetDependencies | deckz/targets.py:72-103 | the target's used, missing and unused files in terms of its sections' |
| LegacyTargets.SectionsLeaveNothingUnused | deckz/targets.py:75-101 | no section contributes unused files; only the initial glob does |
| LegacyTargets.ParseSection | deckz/targets.py:76-101 | the body of the loop computes one section entry |
| LegacyTargets.BuildTarget | deckz/targets.py:67-103 | the constructor computes the target |
| LegacyTargets.ProgressStep | deckz/targets.py:102-103 | one loop step keeps the loop invariant |
| LegacyTargets.ParseSections | deckz/targets.py:72-103 | the loop over section entries computes the target |
| LegacyTargets.SectionsWithErr | deckz/targets.py:84-98 | an entry that fails makes the whole target fail with its error |
| LegacyTargets.SectionsWithUnbound | deckz/targets.py:99-103 | a missing first section raises UnboundLocalError |
| LegacyTargets.SectionsWithOk | deckz/targets.py:72-103 | at the end of the loop the target is the name, title, dependencies and sections gathered |
| LegacyTargets.AccumulatedStep | deckz/targets.py:102 | one more section merges its dependencies into the target's |
| LegacyTargets.AppendedStep | deckz/targets.py:103 | one more section appends it, or repeats the last one |
| LegacyTargets.Whitelisted | deckz/targets.py:227-229 | an empty whitelist keeps every target; otherwise exactly the whitelisted ones |
| LegacyTargets.WhitelistedFrom | deckz/targets.py:227-229 | filtering keeps only given targets |
| LegacyTargets.Checked | deckz/targets.py:206-229 | fails iff some target misses a dependency or some whitelisted name matches no target; otherwise keeps the whitelisted targets, none missing anything |
| LegacyTargets.TargetsOf | deckz/targets.py:193-229 | an existing targets file gives its checked targets, none missing anything |
| LegacyTargets.TargetsFileMissing | deckz/targets.py:197-205 | a missing targets file raises DeckzException when it must exist, and otherwise still fails on opening it |
| LegacyBuilding.TargetItemsSpec | deckz/building.py:59-65 | each target yields one item per enabled variant, and only the print handout is not copied |
| LegacyBuilding.ListedCount | deckz/building.py:57-65 | the list holds as many items as targets times enabled variants |
| LegacyBuilding.ListedSpec | deckz/building.py:57-65 | an item is listed iff it is planned for some target and an enabled variant |
| LegacyBuilding.Insert | deckz/building.py:66 | inserting adds exactly that item |
| LegacyBuilding.SortItems | deckz/building.py:66 | sorting is a permutation |
| LegacyBuilding.OrderedTotal | deckz/building.py:66 | the sort key (target name, variant value) compares every two items |
| LegacyBuilding.KeyLessTransitive | deckz/building.py:66 | the tuple order on keys is transitive |
| LegacyBuilding.OrderedTransitive | deckz/building.py:66 | the item order is transitive |
| LegacyBuilding.ConsSorted | deckz/building.py:66 | an item not above any of a sorted list can head it |
| LegacyBuilding.InsertSorted | deckz/building.py:66 | insertion keeps a list sorted |
| LegacyBuilding.SortItemsSorted | deckz/building.py:66 | the sorted items are ordered by (target name, variant value) |
| LegacyBuilding.ListItems | deckz/building.py:57-67 | `_list_items` returns the planned items sorted by key, a permutation of the list it builds |
| LegacyBuilding.PlannedItems | deckz/building.py:57-67 | the sorted list has one item per target and enabled variant, and holds exactly the planned items |
| LegacyBuilding.AllOkOfStep | deckz/building.py:73-74 | one more zipped pair keeps a variant ok iff it was ok and this pair is not a failure of it |
| LegacyBuilding.Zipped | deckz/building.py:73 | `zip` stops at the shorter list |
| LegacyBuilding.Aggregate | deckz/building.py:69-75 | a variant is ok iff every zipped result of that variant succeeded; variants never seen default to ok |
| LegacyBuilding.LowerValue | deckz/building.py:145 | variant values are already lower case |
| LegacyBuilding.FilenameShape | deckz/building.py:140-145 | the file name is the lowered acronym, the optional target name and the variant, joined by `-` |
| LegacyBuilding.FilenamesDiffer | deckz/building.py:140-145 | different variants of one target get different file names |
| LegacyBuilding.MainLatexArgs | deckz/building.py:213-223 | `handout` is set for the handout and print handout variants, `print` only for the print handout |
| LegacyBuilding.PrintLayoutNotCopied | deckz/building.py:57-67 | the items rendered for printing are exactly those whose PDF is not copied |
| LegacyBuilding.PrintPdfPaths | deckz/building.py:225-239 | the print layout lists, per target in order, `../<name>/print-handout/<file name>` |
| LegacyBuilding.CopiedOfSpec | deckz/building.py:187-195 | a PDF is copied iff its item asks for it and compiled |
| LegacyBuilding.CompileItems | deckz/building.py:89-97 | each item is compiled in order, and the successful copied ones are copied |
| LegacyBuilding.AllOk | deckz/building.py:138 | `all` of the results |
| LegacyBuilding.VerdictsCompiled | deckz/building.py:69-75 | with one result per item, a variant is ok iff all its items compiled |
| LegacyBuilding.AllResults | deckz/building.py:99-138 | the build is ok iff every item compiled and, when printed, the print layout compiled |
| LegacyBuilding.Build | deckz/building.py:81-138 | print and handout outputs are made iff enabled and all their items compiled; the build is ok iff every compilation done succeeded, so an ok build made every enabled output |
| Validation.Validated | deckz/parsing/tree_parsing.py:103-105 | a before-validator's AssertionError becomes a validation error; other errors and successes pass through |
| Validation.Both | deckz/parsing/tree_parsing.py:97-108 | two fields validate iff both do; an error that escapes validation wins, otherwise some field's error is reported |
| Validation.CollectAll | deckz/parsing/tree_parsing.py:100-107 | a list validates iff every item does, item by item in order; an escaping error is reported iff some item raises one |
| LegacyTreeParsing.NormalizeFlavorContent | deckz/parsing/tree_parsing.py:85-94 | a string is an untitled file; a `$` key is a section with a flavor; a null value is a file with its title unset; other values are titles; scalars that are neither escape as errors |
| LegacyTreeParsing.FlavorContentRoundTrip | deckz/parsing/tree_parsing.py:85-94 | every include writable in a flavor list normalises back to itself |
| LegacyTreeParsing.NormalizePartContent | deckz/parsing/tree_parsing.py:111-122 | an include is a section iff it is a mapping that, when it has `path`, also has `flavor`; no part include has its title unset |
| LegacyTreeParsing.PartContentRoundTrip | deckz/parsing/tree_parsing.py:111-122 | every part include written back normalises to itself |
| LegacyTreeParsing.FileEntryRoundTrip | deckz/parsing/tree_parsing.py:118-119 | a titled file include written as `{path, title}` normalises to itself |
| LegacyTreeParsing.SectionEntryRoundTrip | deckz/parsing/tree_parsing.py:114-122 | a section include written back normalises to itself |
| LegacyTreeParsing.FlavorEntry | deckz/parsing/tree_parsing.py:100-107 | one flavor is a name and a list of includes, each normalised in order |
| LegacyTreeParsing.DefaultTitlesField | deckz/parsing/tree_parsing.py:99 | a bad `default_titles` field is a validation error, never an escaping one |
| LegacyTreeParsing.VersionField | deckz/parsing/tree_parsing.py:108 | a bad `version` field is a validation error, never an escaping one |
| LegacyTreeParsing.ValidateSection | deckz/parsing/tree_parsing.py:97-108 | a valid definition is a mapping with a string title and valid flavors; an escaping error can only come from a flavor item |
| LegacyTreeParsing.LogicalPath | deckz/parsing/tree_parsing.py:276-278 | a rooted path is kept, a relative one is joined to the base, and the result is rooted |
| LegacyTreeParsing.Candidate | deckz/parsing/tree_parsing.py:283-285 | a candidate is the logical path placed under a latex dir |
| LegacyTreeParsing.Resolve | deckz/parsing/tree_parsing.py:280-290 | the local candidate wins when it exists, then the shared one; nothing resolves iff neither exists |
| LegacyTreeParsing.ParseFile | deckz/parsing/tree_parsing.py:259-274 | a file include gives a file node with the title it was given |
| LegacyTreeParsing.ParseFileSpec | deckz/parsing/tree_parsing.py:259-274 | the node resolves to the `.tex` file when it exists, and otherwise keeps its logical path and reports it unresolvable |
| LegacyTreeParsing.ReadDefinition | deckz/parsing/tree_parsing.py:214-228 | a definition that validates gives the flavor's includes when it has the flavor, else a "flavor not found" error; a failing one becomes the section's error unless it escapes |
| LegacyTreeParsing.LookUpSection | deckz/parsing/tree_parsing.py:199-213 | an unresolvable section dir is reported as such; otherwise the section sits in the resolved dir |
| LegacyTreeParsing.LookUpDefinition | deckz/parsing/tree_parsing.py:205-228 | the definition is `<dir>/<name>.yml`: if it does not resolve the section reports it, otherwise it is read |
| LegacyTreeParsing.SectionTitle | deckz/parsing/tree_parsing.py:224-225 | a given title wins over the definition's, and a titled section always has one |
| LegacyTreeParsing.ChildTitle | deckz/parsing/tree_parsing.py:230-239 | a non-empty include title wins; then the default title unless unset; otherwise none |
| LegacyTreeParsing.ParseSection | deckz/parsing/tree_parsing.py:183-257 | a section node has the flavor and logical path asked for; a section with an error has no children; running out of depth is a RecursionError |
| LegacyTreeParsing.ParseSectionSpec | deckz/parsing/tree_parsing.py:183-257 | the node resolves where the lookup says; it has no error iff the flavor is found, and then its children are the flavor's includes parsed under it |
| LegacyTreeParsing.ParseNode | deckz/parsing/tree_parsing.py:229-256 | section includes give sections and file includes files, under the child title |
| LegacyTreeParsing.ParseNodes | deckz/parsing/tree_parsing.py:229-256 | one child per include |
| LegacyTreeParsing.ParseNodesEach | deckz/parsing/tree_parsing.py:229-256 | the children parse iff every include does, and each child is its include parsed |
| LegacyTreeParsing.ValidatePart | deckz/parsing/tree_parsing.py:125-132 | a part definition has a string name, an optional string title and its normalised sections |
| LegacyTreeParsing.ValidateParts | deckz/parsing/tree_parsing.py:147-149 | the targets file validates iff it is a list of valid part definitions, in order |
| LegacyTreeParsing.ValidateDeckConfig | deckz/parsing/tree_parsing.py:135-136 | the deck config validates iff it has a string `deck_acronym`, which becomes the acronym |
| LegacyTreeParsing.PartsOf | deckz/parsing/tree_parsing.py:155-181 | the parts dictionary has one key per distinct part name and succeeds iff every part parses |
| LegacyTreeParsing.PartsOfLastWins | deckz/parsing/tree_parsing.py:177-180 | for a repeated part name, the last definition wins |
| LegacyTreeParsing.ParseIncludes | deckz/parsing/tree_parsing.py:159-176 | the loop over a part's includes parses each in order |
| LegacyTreeParsing.ParseParts | deckz/parsing/tree_parsing.py:155-181 | the loop over part definitions computes the parts dictionary |
| LegacyTreeParsing.LoadDefinitions | deckz/parsing/tree_parsing.py:143-149 | the deck config is loaded and validated before the targets file, and each error is reported as raised |
| LegacyTreeParsing.Parse | deckz/parsing/tree_parsing.py:143-153 | parsing succeeds iff both files validate and every part parses; the deck has the acronym and the parsed parts |
| Yaml.Load | src/deckz/utils.py:114-117 | loading gives the document of a regular file and fails on a missing path, a directory or an unparsable file |
| Yaml.LoadMapping | src/deckz/utils.py:114-117 | a loaded document that must be a mapping |
| Yaml.ExistingFiles | src/deckz/configuring/variables.py:11-19 | the candidate files are those of the named file in each directory that exist as regular files, in order |
| Yaml.MergeFiles | src/deckz/configuring/settings.py:144-148 | the merged mapping, from first file to last, has unique keys |
| Yaml.MergeFilesLayering | src/deckz/configuring/variables.py:9-20 | the merge succeeds iff every file holds a mapping; its keys are the files' keys, and a key takes its whole value from the last file holding it |

## Left out

- Input and output are parameters. Reading files is a lookup in a finite map. The clock is passed as `now` and as modification stamps, the compiler as a function returning `ok`, and the user's answers to prompts as a function.
- YAML parsing itself is not modelled: a file holds an already parsed value, or none when it does not parse.
- Loaded YAML values are null, booleans, integers, strings, lists and mappings with string keys. Floats, timestamps, binary values and mappings with non-string keys, which `yaml.safe_load` can also return, are not modelled; a file holding one of them has to be described by the nearest modelled value.
- Duplicate keys inside one YAML mapping are not modelled.
- `Path.resolve()` (symbolic links, the current directory) is the identity on the modelled paths.
- Threads, the file-system observer, `ray` remote compilation and logging are not modelled. Only the messages the watch handler logs are kept.
- The texts of pydantic validation errors and of other error messages are not modelled. The model keeps the exception kind and the messages that the tree reports show.
- `str.lower` and `str.capitalize` are modelled on ASCII letters only.
- The analyzers' result dictionaries are Dafny maps, so their insertion order is not modelled.
- The jinja2 templates are not modelled. Rendering is reduced to the arguments passed to the template and the write-if-changed step.
- The image scale formatting is kept as a string argument, because formatting a float with `:.2f` is not modelled.
- PDF merging and the build-directory setup (`_setup_build_dir`, `_setup_link`) are not modelled.
- `LegacyBuilding.Build`: does not model the copy of the print output at deckz/building.py:110. That copy is decided by the stale `result` of the last compiled item, or raises `NameError` when there are no items.
- `LegacyBuilding.Build`: the `n_outputs` log line and the warnings on failed compilations are left out.
- `LegacyBuilding.ListItems`: Python's sort is stable. The model only proves that the result is a sorted permutation, so the order of items with equal keys is not fixed.
- A missing `deck_acronym` in the legacy builder's config is not modelled: the acronym is a parameter.
- `ParsingTargets.TargetOf`: a target name that is not a string is refused with a `TypeError`; the source would store any value as the name.
- `ParsingTargets.ParseSectionDir`: the nesting of sections is bounded by the `depth` parameter, standing for Python's recursion limit; past it, `RecursionError` is raised.
- `ParsingTargets.ConfigOf`: pydantic's lax coercions (a number where a string is expected, for example) are not modelled; only strings validate as strings.
- `Targets.from_file` is not part of this model beyond its check that the file exists.
- `merge_dicts` and `get_dependencies` of deckz/targets.py are not part of this model. They are not called by the legacy target parsing; the newer `merge_dicts` is `ParsingTargets.MergeDicts`.
- `Yaml.AsLayer`: a non-empty list or string layer is refused with `TypeError` when the chain is iterated. Python's `ChainMap` takes its items as keys, fails on an unhashable item, and otherwise fails only at the lookup of a key that no earlier mapping holds. Empty lists and strings are modelled exactly, by `Yaml.LookUp`.
- `Yaml.Repr`: only control characters, DEL, the Latin-1 controls, the no-break space and the soft hyphen are escaped. Python's `repr` also escapes the non-printable characters beyond U+00AD.
- `Upgrade.Rewrite`: a title on an entry whose path is null, a boolean or an integer gives a mapping with a non-string key, which the YAML values of this model cannot hold. The model fails there with `TypeError`, while the source writes that mapping.
- `DeckBuilder.CopyDependencies`: which build paths are copied, and with what content, is stated only when the copies are separate: no build path is another one or lies below one, and no dependency is or contains a build path. Colliding copies happen one after the other, and the later one sees the earlier one.
- `LegacyConfig.GetOrCreate`: creating the parent directory of a new config file is not modelled.
- `Migrate.V1ToV2`: a titled include whose path is null, a boolean or an integer (`{path: 3, title: T}`) fails with `TypeError`, while deckz/cli/migrate.py:40 builds `default_titles` with that non-string key and the migration succeeds; the model's mappings only have string keys. A list or mapping path is `TypeError` in both, as an unhashable key.
- `Migrate.OlderThan2`: a float `version` such as `1.5`, which the source compares with `2` and migrates, is not modelled, since floats are not among the loaded values.
- The legacy tree parser's `Deck.filter` (deckz/parsing/tree_parsing.py:63-69) is the same code as src/deckz/models/deck.py:126-141. It is modelled once, as `Decks.Deck.Filter`.
- pydantic's lax coercion for `version` is not modelled: only integers and null validate.
- Python's recursion limit is modelled as the depth bound of the recursive parsers.
- The visitor `accept` protocol is replaced by recursive functions over the node datatype.
