/** Planning the build of a deck: the slides of each part (titles with
    their levels and the slide files, in reading order), the files each
    part depends on, the compile items a run asks for and what a run
    reports.

    Compiling, template rendering and the build directory links are not
    part of this model: the compiler is a given verdict per item. */
module DeckBuilder {
  import opened Common
  import Dicts
  import Paths
  import Strings
  import Utils
  import opened Decks

  // ---------------------------------------------------------------- slides

  /** `Title | Content`: a title slide at a level (0 is the most
      important), or the path of a slide file. */
  datatype Slide = Title(title: string, level: int) | Content(path: string)

  /** `PartSlides`: the title of a part and its slides. */
  datatype PartSlides = PartSlides(title: Option<string>, sections: seq<Slide>)

  /** The title slide of a node: present only for a non-empty title. */
  function TitleSlide(title: Option<string>, level: int): seq<Slide> {
    if title.Some? && title.value != "" then [Title(title.value, level)] else []
  }

  /** Index of the first base directory that contains `p`. */
  function FirstBasedir(basedirs: seq<Paths.Path>, p: Paths.Path): (r: Option<nat>)
    ensures r.Some? ==> r.value < |basedirs| && Paths.IsRelativeTo(p, basedirs[r.value])
  {
    if |basedirs| == 0 then None
    else if Paths.IsRelativeTo(p, basedirs[0]) then Some(0)
    else match FirstBasedir(basedirs[1..], p)
      case None => None
      case Some(i) => Some(i + 1)
  }

  /** The search finds a base directory containing `p` with none before
      it, and finds none only when no base directory contains `p`. */
  lemma {:induction false} FirstBasedirSpec(basedirs: seq<Paths.Path>, p: Paths.Path)
    ensures var r := FirstBasedir(basedirs, p);
            && (r.Some? ==> Paths.IsRelativeTo(p, basedirs[r.value])
                            && forall j :: 0 <= j < r.value ==> !Paths.IsRelativeTo(p, basedirs[j]))
            && (r.None? <==> forall j :: 0 <= j < |basedirs| ==> !Paths.IsRelativeTo(p, basedirs[j]))
  {
    if |basedirs| > 0 && !Paths.IsRelativeTo(p, basedirs[0]) {
      FirstBasedirSpec(basedirs[1..], p);
      var r := FirstBasedir(basedirs[1..], p);
      if r.None? {
        forall j | 0 <= j < |basedirs| ensures !Paths.IsRelativeTo(p, basedirs[j]) {
          if j > 0 {
            assert basedirs[j] == basedirs[1..][j - 1];
          }
        }
      } else {
        forall j | 0 <= j < r.value + 1 ensures !Paths.IsRelativeTo(p, basedirs[j]) {
          if j > 0 {
            assert basedirs[j] == basedirs[1..][j - 1];
          }
        }
      }
    }
  }

  /** The `for basedir in basedirs: ... break` search: `p` relative to the
      first base directory that contains it, if any. */
  method RelativeToBasedir(basedirs: seq<Paths.Path>, p: Paths.Path) returns (r: Option<Paths.Path>)
    ensures r.None? <==> FirstBasedir(basedirs, p).None?
    ensures r.Some? ==> Paths.RelativeTo(p, basedirs[FirstBasedir(basedirs, p).value]) == r
  {
    var i := 0;
    while i < |basedirs|
      invariant 0 <= i <= |basedirs|
      invariant forall j :: 0 <= j < i ==> !Paths.IsRelativeTo(p, basedirs[j])
    {
      if Paths.IsRelativeTo(p, basedirs[i]) {
        FirstIsFirst(basedirs, p, i);
        return Paths.RelativeTo(p, basedirs[i]);
      }
      i := i + 1;
    }
    FirstBasedirSpec(basedirs, p);
    return None;
  }

  /** A base directory containing `p` with none before it is the first. */
  lemma {:induction false} FirstIsFirst(basedirs: seq<Paths.Path>, p: Paths.Path, i: nat)
    requires i < |basedirs| && Paths.IsRelativeTo(p, basedirs[i])
    requires forall j :: 0 <= j < i ==> !Paths.IsRelativeTo(p, basedirs[j])
    ensures FirstBasedir(basedirs, p) == Some(i)
  {
    if i > 0 {
      FirstIsFirst(basedirs[1..], p, i - 1);
    }
  }

  /** The content entry of a file: its resolved path relative to the
      first base directory containing it, without its suffix, as a POSIX
      string. */
  function ContentPath(basedirs: seq<Paths.Path>, resolved: Paths.Path): Result<string> {
    match FirstBasedir(basedirs, resolved)
    case None => Err(ValueError("could not find file " + Paths.ToString(resolved)))
    case Some(i) =>
      var path :- Paths.WithSuffix(Paths.RelativeTo(resolved, basedirs[i]).value, "");
      Ok(Paths.ToString(path))
  }

  /** A file has a content entry exactly when some base directory holds
      it strictly below itself (the first such directory decides); no
      base directory holding it is a `ValueError`. */
  lemma ContentPathSpec(basedirs: seq<Paths.Path>, resolved: Paths.Path)
    ensures var first := FirstBasedir(basedirs, resolved);
            && (ContentPath(basedirs, resolved).Ok? <==>
                  first.Some? && |resolved.parts| > |basedirs[first.value].parts|)
            && ((forall j :: 0 <= j < |basedirs| ==> !Paths.IsRelativeTo(resolved, basedirs[j])) ==>
                  ContentPath(basedirs, resolved).Err? && ContentPath(basedirs, resolved).error.ValueError?)
            && (ContentPath(basedirs, resolved).Ok? ==>
                  var rel := Paths.RelativeTo(resolved, basedirs[first.value]).value;
                  && Paths.Concat(basedirs[first.value], rel) == resolved
                  && ContentPath(basedirs, resolved).value == Paths.ToString(Paths.WithSuffix(rel, "").value))
  {
    FirstBasedirSpec(basedirs, resolved);
  }

  /** `ContentPath` for fixed base directories, as a function value. */
  function ContentIn(basedirs: seq<Paths.Path>): Paths.Path -> Result<string> {
    p => ContentPath(basedirs, p)
  }

  /** `node.accept(_SlidesNodeVisitor, sections, level)`, as the slides the
      node adds: its title, then its file's content entry or its children
      one level deeper.  `content` gives the content entry of a file. */
  function NodeSlides(n: Node, content: Paths.Path -> Result<string>, level: int): (r: Result<seq<Slide>>)
    ensures r.Ok? && n.title.Some? && n.title.value != "" ==> |r.value| > 0 && r.value[0] == Title(n.title.value, level)
    ensures r.Ok? && n.File? ==> |r.value| > 0 && r.value[|r.value| - 1].Content?
                                 && Ok(r.value[|r.value| - 1].path) == content(n.resolvedPath)
    decreases n, 1
  {
    match n
    case File(title, _, resolved, _) =>
      var c :- content(resolved);
      Ok(TitleSlide(title, level) + [Content(c)])
    case Section(title, _, _, _, _, nodes) =>
      var children :- NodesSlides(nodes, content, level + 1);
      Ok(TitleSlide(title, level) + children)
  }

  /** The slides of nodes visited in order; the first failure stops the
      visit. */
  function NodesSlides(ns: seq<Node>, content: Paths.Path -> Result<string>, level: int): Result<seq<Slide>>
    decreases ns, 0
  {
    if |ns| == 0 then Ok([])
    else
      var init :- NodesSlides(ns[..|ns| - 1], content, level);
      var last :- NodeSlides(ns[|ns| - 1], content, level);
      Ok(init + last)
  }

  /** Once a visit fails, visiting more nodes fails the same way. */
  lemma {:induction false} NodesSlidesPrefixErr(ns: seq<Node>, j: nat, content: Paths.Path -> Result<string>, level: int)
    requires j <= |ns| && NodesSlides(ns[..j], content, level).Err?
    ensures NodesSlides(ns, content, level) == NodesSlides(ns[..j], content, level)
    decreases |ns|
  {
    if j < |ns| {
      var init := ns[..|ns| - 1];
      assert init[..j] == ns[..j];
      NodesSlidesPrefixErr(init, j, content, level);
    } else {
      assert ns[..j] == ns;
    }
  }

  /** The resolved paths of the files reachable from a node, in reading
      order. */
  function NodeFiles(n: Node): seq<Paths.Path>
    decreases n, 1
  {
    match n
    case File(_, _, resolved, _) => [resolved]
    case Section(_, _, _, _, _, nodes) => NodesFiles(nodes)
  }

  function NodesFiles(ns: seq<Node>): seq<Paths.Path>
    decreases ns, 0
  {
    if |ns| == 0 then [] else NodesFiles(ns[..|ns| - 1]) + NodeFiles(ns[|ns| - 1])
  }

  /** The content entries of a list of slides, in order. */
  function Contents(slides: seq<Slide>): seq<string> {
    if |slides| == 0 then []
    else Contents(slides[..|slides| - 1]) + (if slides[|slides| - 1].Content? then [slides[|slides| - 1].path] else [])
  }

  lemma {:induction false} ContentsAppend(a: seq<Slide>, b: seq<Slide>)
    ensures Contents(a + b) == Contents(a) + Contents(b)
    decreases |b|
  {
    if |b| > 0 {
      var ab := a + b;
      assert ab[..|ab| - 1] == a + b[..|b| - 1];
      ContentsAppend(a, b[..|b| - 1]);
    } else {
      assert a + b == a;
    }
  }

  /** Mapping over two lists one after the other. */
  lemma MapAllAppend<T>(content: Paths.Path -> Result<T>, a: seq<Paths.Path>, b: seq<Paths.Path>)
    ensures MapAll(a + b, content).Ok? <==> MapAll(a, content).Ok? && MapAll(b, content).Ok?
    ensures MapAll(a + b, content).Ok? ==>
              MapAll(a + b, content).value == MapAll(a, content).value + MapAll(b, content).value
  {
    var ab := a + b;
    MapAllEach(a, content);
    MapAllEach(b, content);
    MapAllEach(ab, content);
    assert forall i :: 0 <= i < |a| ==> ab[i] == a[i];
    assert forall i :: 0 <= i < |b| ==> ab[|a| + i] == b[i];
    if MapAll(ab, content).Ok? {
      var r, ra, rb := MapAll(ab, content).value, MapAll(a, content).value, MapAll(b, content).value;
      assert forall i :: 0 <= i < |a| ==> r[i] == ra[i];
      assert forall i :: 0 <= i < |b| ==> r[|a| + i] == rb[i];
      assert r == ra + rb;
    }
  }

  /** The slides of a node hold, in order, one content entry per file
      reachable from it, and they exist exactly when every such file has
      one; every title is at the node's level or deeper. */
  lemma {:induction false} NodeSlidesContents(n: Node, content: Paths.Path -> Result<string>, level: int)
    ensures NodeSlides(n, content, level).Ok? <==> MapAll(NodeFiles(n), content).Ok?
    ensures NodeSlides(n, content, level).Ok? ==>
              Contents(NodeSlides(n, content, level).value) == MapAll(NodeFiles(n), content).value
    ensures NodeSlides(n, content, level).Ok? ==>
              forall s :: s in NodeSlides(n, content, level).value && s.Title? ==> s.level >= level
    decreases n, 1
  {
    var t := TitleSlide(n.title, level);
    assert Contents(t) == [] by {
      if |t| > 0 {
        assert Contents(t) == Contents(t[..0]) + [];
      }
    }
    match n
    case File(_, _, resolved, _) =>
      var c := content(resolved);
      if c.Ok? {
        var slides := t + [Content(c.value)];
        assert slides[..|slides| - 1] == t;
      }
    case Section(_, _, _, _, _, nodes) =>
      NodesSlidesContents(nodes, content, level + 1);
      var children := NodesSlides(nodes, content, level + 1);
      if children.Ok? {
        ContentsAppend(t, children.value);
      }
  }

  lemma {:induction false} NodesSlidesContents(ns: seq<Node>, content: Paths.Path -> Result<string>, level: int)
    ensures NodesSlides(ns, content, level).Ok? <==> MapAll(NodesFiles(ns), content).Ok?
    ensures NodesSlides(ns, content, level).Ok? ==>
              Contents(NodesSlides(ns, content, level).value) == MapAll(NodesFiles(ns), content).value
    ensures NodesSlides(ns, content, level).Ok? ==>
              forall s :: s in NodesSlides(ns, content, level).value && s.Title? ==> s.level >= level
    decreases ns, 0
  {
    if |ns| > 0 {
      var init := ns[..|ns| - 1];
      var last := ns[|ns| - 1];
      NodesSlidesContents(init, content, level);
      NodeSlidesContents(last, content, level);
      MapAllAppend(content, NodesFiles(init), NodeFiles(last));
      var a := NodesSlides(init, content, level);
      var b := NodeSlides(last, content, level);
      if a.Ok? && b.Ok? {
        ContentsAppend(a.value, b.value);
      }
    }
  }

  /** `sections` extended by the outcome of a visit. */
  function Then(sections: seq<Slide>, r: Result<seq<Slide>>): Result<seq<Slide>> {
    match r
    case Ok(more) => Ok(sections + more)
    case Err(e) => Err(e)
  }

  /** `visit_file`: the file's content entry, or the `ValueError` when no
      base directory holds it. */
  method FileContent(basedirs: seq<Paths.Path>, resolved: Paths.Path) returns (r: Result<string>)
    ensures r == ContentPath(basedirs, resolved)
  {
    var rel := RelativeToBasedir(basedirs, resolved);
    if rel.None? {
      return Err(ValueError("could not find file " + Paths.ToString(resolved)));
    }
    var path := Paths.WithSuffix(rel.value, "");
    if path.Err? {
      return Err(path.error);
    }
    return Ok(Paths.ToString(path.value));
  }

  /** `node.accept(self, sections, level)`: `visit_file` or
      `visit_section` appending to `sections`. */
  method VisitSlides(n: Node, basedirs: seq<Paths.Path>, sections: seq<Slide>, level: int) returns (r: Result<seq<Slide>>)
    ensures r == Then(sections, NodeSlides(n, ContentIn(basedirs), level))
    decreases n, 1
  {
    var out := sections;
    if n.title.Some? && n.title.value != "" {
      out := out + [Title(n.title.value, level)];
    }
    assert out == sections + TitleSlide(n.title, level);
    if n.File? {
      var c := FileContent(basedirs, n.resolvedPath);
      FileSlidesThen(n, ContentIn(basedirs), level, sections);
      if c.Err? {
        return Err(c.error);
      }
      return Ok(out + [Content(c.value)]);
    }
    SectionSlidesThen(n, ContentIn(basedirs), level, sections);
    r := VisitSlidesChildren(n.nodes, basedirs, out, level + 1);
  }

  /** `Then` over the slides of a file. */
  lemma FileSlidesThen(n: Node, content: Paths.Path -> Result<string>, level: int, sections: seq<Slide>)
    requires n.File?
    ensures Then(sections, NodeSlides(n, content, level))
         == if content(n.resolvedPath).Err? then Err(content(n.resolvedPath).error)
            else Ok(sections + TitleSlide(n.title, level) + [Content(content(n.resolvedPath).value)])
  {
    if content(n.resolvedPath).Ok? {
      var t := TitleSlide(n.title, level);
      assert sections + (t + [Content(content(n.resolvedPath).value)])
          == sections + t + [Content(content(n.resolvedPath).value)];
    }
  }

  /** `Then` over the slides of a section. */
  lemma SectionSlidesThen(n: Node, content: Paths.Path -> Result<string>, level: int, sections: seq<Slide>)
    requires n.Section?
    ensures Then(sections, NodeSlides(n, content, level))
         == Then(sections + TitleSlide(n.title, level), NodesSlides(n.nodes, content, level + 1))
  {
    var children := NodesSlides(n.nodes, content, level + 1);
    if children.Ok? {
      var t := TitleSlide(n.title, level);
      assert sections + (t + children.value) == sections + t + children.value;
    }
  }

  /** The loop of `visit_section` and `_process_part` over the child
      nodes. */
  method VisitSlidesChildren(nodes: seq<Node>, basedirs: seq<Paths.Path>, sections: seq<Slide>, level: int)
    returns (r: Result<seq<Slide>>)
    ensures r == Then(sections, NodesSlides(nodes, ContentIn(basedirs), level))
    decreases nodes, 2
  {
    ghost var content := ContentIn(basedirs);
    var out := sections;
    var i := 0;
    while i < |nodes|
      invariant 0 <= i <= |nodes|
      invariant NodesSlides(nodes[..i], content, level).Ok?
      invariant out == sections + NodesSlides(nodes[..i], content, level).value
    {
      var next := VisitSlides(nodes[i], basedirs, out, level);
      assert nodes[..i + 1][..i] == nodes[..i];
      if next.Err? {
        NodesSlidesPrefixErr(nodes, i + 1, content, level);
        return next;
      }
      out := next.value;
      i := i + 1;
    }
    assert nodes[..i] == nodes;
    return Ok(out);
  }

  /** The slides of one part. */
  function PartSlidesOf(part: Part, content: Paths.Path -> Result<string>): Result<PartSlides> {
    var sections :- NodesSlides(part.nodes, content, 0);
    Ok(PartSlides(part.title, sections))
  }

  /** The slides of every part of a deck under its name, in part order. */
  function DeckSlides(parts: Dicts.Dict<string, Part>, content: Paths.Path -> Result<string>)
    : (r: Result<Dicts.Dict<string, PartSlides>>)
    ensures r.Ok? <==> forall i :: 0 <= i < |parts| ==> PartSlidesOf(parts[i].1, content).Ok?
    ensures r.Ok? ==> |r.value| == |parts|
    ensures r.Ok? ==> forall i :: 0 <= i < |parts| ==>
                        r.value[i].0 == parts[i].0 && Ok(r.value[i].1) == PartSlidesOf(parts[i].1, content)
  {
    if |parts| == 0 then Ok([])
    else
      var init := parts[..|parts| - 1];
      assert forall i :: 0 <= i < |init| ==> init[i] == parts[i];
      var done :- DeckSlides(init, content);
      var slides :- PartSlidesOf(parts[|parts| - 1].1, content);
      Ok(done + [(parts[|parts| - 1].0, slides)])
  }

  /** `_SlidesNodeVisitor(basedirs).process(deck)`. */
  method ProcessSlides(deck: Deck, basedirs: seq<Paths.Path>) returns (r: Result<Dicts.Dict<string, PartSlides>>)
    requires deck.Valid()
    ensures r == DeckSlides(deck.parts, ContentIn(basedirs))
  {
    ghost var content := ContentIn(basedirs);
    var parts := deck.parts;
    var done: Dicts.Dict<string, PartSlides> := [];
    var i := 0;
    while i < |parts|
      invariant 0 <= i <= |parts|
      invariant DeckSlides(parts[..i], content) == Ok(done)
    {
      var sections := VisitSlidesChildren(parts[i].1.nodes, basedirs, [], 0);
      DeckSlidesStep(parts, i, content);
      if sections.Err? {
        DeckSlidesPrefixErr(parts, i + 1, content);
        return Err(sections.error);
      }
      done := done + [(parts[i].0, PartSlides(parts[i].1.title, sections.value))];
      i := i + 1;
    }
    assert parts[..i] == parts;
    return Ok(done);
  }

  /** One more part: its slides follow those of the parts before it. */
  lemma DeckSlidesStep(parts: Dicts.Dict<string, Part>, i: nat, content: Paths.Path -> Result<string>)
    requires i < |parts| && DeckSlides(parts[..i], content).Ok?
    ensures var slides := NodesSlides(parts[i].1.nodes, content, 0);
            && Then([], slides) == slides
            && DeckSlides(parts[..i + 1], content)
               == if slides.Err? then Err(slides.error)
                  else Ok(DeckSlides(parts[..i], content).value + [(parts[i].0, PartSlides(parts[i].1.title, slides.value))])
  {
    assert parts[..i + 1][..i] == parts[..i];
    var slides := NodesSlides(parts[i].1.nodes, content, 0);
    if slides.Ok? {
      assert [] + slides.value == slides.value;
    }
  }

  lemma {:induction false} DeckSlidesPrefixErr(parts: Dicts.Dict<string, Part>, j: nat, content: Paths.Path -> Result<string>)
    requires j <= |parts| && DeckSlides(parts[..j], content).Err?
    ensures DeckSlides(parts, content) == DeckSlides(parts[..j], content)
    decreases |parts|
  {
    if j < |parts| {
      var init := parts[..|parts| - 1];
      assert init[..j] == parts[..j];
      DeckSlidesPrefixErr(init, j, content);
    } else {
      assert parts[..j] == parts;
    }
  }

  // ---------------------------------------------------------- dependencies

  /** `node.accept(PartDependenciesNodeVisitor, dependencies)`, as the
      paths it adds. */
  function NodeDependencies(n: Node): set<Paths.Path>
    decreases n, 1
  {
    match n
    case File(_, _, resolved, _) => {resolved}
    case Section(_, _, _, _, _, nodes) => NodesDependencies(nodes)
  }

  function NodesDependencies(ns: seq<Node>): set<Paths.Path>
    decreases ns, 0
  {
    if |ns| == 0 then {} else NodesDependencies(ns[..|ns| - 1]) + NodeDependencies(ns[|ns| - 1])
  }

  /** The dependencies of a node are exactly the resolved paths of the
      files reachable from it: sections add nothing of their own. */
  lemma {:induction false} NodeDependenciesAreFiles(n: Node)
    ensures NodeDependencies(n) == Elements(NodeFiles(n))
    decreases n, 1
  {
    if n.Section? {
      NodesDependenciesAreFiles(n.nodes);
    }
  }

  lemma {:induction false} NodesDependenciesAreFiles(ns: seq<Node>)
    ensures NodesDependencies(ns) == Elements(NodesFiles(ns))
    decreases ns, 0
  {
    if |ns| > 0 {
      var init := ns[..|ns| - 1];
      var last := ns[|ns| - 1];
      NodesDependenciesAreFiles(init);
      NodeDependenciesAreFiles(last);
      var a := NodesFiles(init);
      var b := NodeFiles(last);
      assert Elements(a + b) == Elements(a) + Elements(b) by {
        forall x | x in a + b ensures x in Elements(a) + Elements(b) {
          if x !in a {
            assert x in b;
          }
        }
      }
    }
  }

  /** `node.accept(self, dependencies)`. */
  method VisitDependencies(n: Node, dependencies: set<Paths.Path>) returns (r: set<Paths.Path>)
    ensures r == dependencies + NodeDependencies(n)
    decreases n, 1
  {
    if n.File? {
      return dependencies + {n.resolvedPath};
    }
    r := VisitDependenciesChildren(n.nodes, dependencies);
  }

  /** The loop of `visit_section` and `_process_part`. */
  method VisitDependenciesChildren(nodes: seq<Node>, dependencies: set<Paths.Path>) returns (r: set<Paths.Path>)
    ensures r == dependencies + NodesDependencies(nodes)
    decreases nodes, 2
  {
    r := dependencies;
    var i := 0;
    while i < |nodes|
      invariant 0 <= i <= |nodes|
      invariant r == dependencies + NodesDependencies(nodes[..i])
    {
      assert nodes[..i + 1][..i] == nodes[..i];
      r := VisitDependencies(nodes[i], r);
      i := i + 1;
    }
    assert nodes[..i] == nodes;
  }

  /** The dependencies of every part, under its name, in part order. */
  function DeckDependencies(parts: Dicts.Dict<string, Part>): (r: Dicts.Dict<string, set<Paths.Path>>)
    ensures |r| == |parts|
    ensures forall i :: 0 <= i < |parts| ==> r[i].0 == parts[i].0 && r[i].1 == NodesDependencies(parts[i].1.nodes)
  {
    seq(|parts|, i requires 0 <= i < |parts| => (parts[i].0, NodesDependencies(parts[i].1.nodes)))
  }

  /** `PartDependenciesNodeVisitor().process(deck)`. */
  method ProcessDependencies(deck: Deck) returns (r: Dicts.Dict<string, set<Paths.Path>>)
    requires deck.Valid()
    ensures r == DeckDependencies(deck.parts)
  {
    var parts := deck.parts;
    r := [];
    var i := 0;
    while i < |parts|
      invariant 0 <= i <= |parts|
      invariant |r| == i
      invariant forall j :: 0 <= j < i ==> r[j] == (parts[j].0, NodesDependencies(parts[j].1.nodes))
    {
      var dependencies := VisitDependenciesChildren(parts[i].1.nodes, {});
      assert dependencies == NodesDependencies(parts[i].1.nodes);
      r := r + [(parts[i].0, dependencies)];
      i := i + 1;
    }
  }

  // ---------------------------------------------------------- compile items

  /** `CompileType`. */
  datatype CompileType = Handout | Presentation | PrintHandout {
    function Value(): string {
      match this
      case Handout => "handout"
      case Presentation => "presentation"
      case PrintHandout => "print-handout"
    }
  }

  /** `CompileItem`: the slides of the parts to compile, the files they
      need, the kind of document and whether it has a table of contents. */
  datatype CompileItem = CompileItem(parts: seq<PartSlides>, dependencies: set<Paths.Path>,
                                     compileType: CompileType, toc: bool)

  /** What a `DeckBuilder` is built from: the deck name, the variants to
      build and what the two visitors computed for the deck. */
  datatype Builder = Builder(
    deckName: string,
    buildPresentation: bool, buildHandout: bool, buildPrint: bool,
    partsSlides: Dicts.Dict<string, PartSlides>,
    dependencies: Dicts.Dict<string, set<Paths.Path>>)

  /** Both visitors saw the same parts: the dependencies of a part sit at
      the position of its slides, so `self._dependencies[name]` is the
      entry at that position. */
  predicate Aligned(b: Builder) {
    && |b.partsSlides| == |b.dependencies|
    && forall i :: 0 <= i < |b.partsSlides| ==> b.partsSlides[i].0 == b.dependencies[i].0
  }

  /** `DeckBuilder.__init__`: runs both visitors over the deck; the slides
      visitor's `ValueError` escapes. */
  method NewBuilder(deck: Deck, buildPresentation: bool, buildHandout: bool, buildPrint: bool,
                    basedirs: seq<Paths.Path>) returns (r: Result<Builder>)
    requires deck.Valid()
    ensures r.Ok? <==> DeckSlides(deck.parts, ContentIn(basedirs)).Ok?
    ensures r.Err? ==> r.error == DeckSlides(deck.parts, ContentIn(basedirs)).error
    ensures r.Ok? ==> Aligned(r.value)
    ensures r.Ok? ==> r.value == Builder(deck.name, buildPresentation, buildHandout, buildPrint,
                                         DeckSlides(deck.parts, ContentIn(basedirs)).value, DeckDependencies(deck.parts))
  {
    var slides := ProcessSlides(deck, basedirs);
    if slides.Err? {
      return Err(slides.error);
    }
    var dependencies := ProcessDependencies(deck);
    return Ok(Builder(deck.name, buildPresentation, buildHandout, buildPrint, slides.value, dependencies));
  }

  /** `_name_compile_item(compile_type, name)`: `deck-name-type` in lower
      case, or `deck-type` when there is no part name or it is empty. */
  function NameCompileItem(deckName: string, t: CompileType, name: Option<string>): (r: string)
    ensures |r| == |deckName| + 1 + |t.Value()| + (if name.Some? && name.value != "" then |name.value| + 1 else 0)
  {
    Strings.Lower(if name.Some? && name.value != "" then deckName + "-" + name.value + "-" + t.Value()
                  else deckName + "-" + t.Value())
  }

  /** A presentation of one part and a handout of another never share a
      name: the presentation's ends in `presentation`, the handout's in
      `-handout`, and these differ eight characters from the end. */
  lemma PresentationNotHandout(d: string, pn: Option<string>, hn: string)
    requires hn != ""
    ensures NameCompileItem(d, Presentation, pn) != NameCompileItem(d, Handout, Some(hn))
  {
    PresentationEnd(d, pn);
    HandoutEnd(d, hn);
  }

  /** A presentation's name is `e` eight characters from the end. */
  lemma PresentationEnd(d: string, pn: Option<string>)
    ensures var p := NameCompileItem(d, Presentation, pn); |p| >= 8 && p[|p| - 8] == 'e'
  {
    var pre := if pn.Some? && pn.value != "" then d + "-" + pn.value + "-" else d + "-";
    var ps := pre + Presentation.Value();
    assert NameCompileItem(d, Presentation, pn) == Strings.Lower(ps);
    EndChar(pre, Presentation.Value(), 8);
  }

  /** A part handout's name is `-` eight characters from the end. */
  lemma HandoutEnd(d: string, hn: string)
    requires hn != ""
    ensures var h := NameCompileItem(d, Handout, Some(hn)); |h| >= 8 && h[|h| - 8] == '-'
  {
    var hpre := d + "-" + hn + "-";
    var hs := hpre + Handout.Value();
    assert NameCompileItem(d, Handout, Some(hn)) == Strings.Lower(hs);
    EndChar(hpre, Handout.Value(), 8);
    EndChar(d + "-" + hn, "-", 1);
  }

  /** The character `k` places from the end of `a + b`. */
  lemma EndChar(a: string, b: string, k: nat)
    requires 0 < k <= |a| + |b|
    ensures (a + b)[|a| + |b| - k] == if k <= |b| then b[|b| - k] else a[|a| + |b| - k]
  {
  }

  /** The name of a part's item never collides with a whole-deck item's,
      except a handout of a part named `print` (in any case) with the
      print handout. */
  lemma PartNameNotWhole(d: string, t: CompileType, n: string, t': CompileType)
    requires n != ""
    requires t == Handout && t' == PrintHandout ==> Strings.Lower(n) != "print"
    ensures NameCompileItem(d, t, Some(n)) != NameCompileItem(d, t', None)
  {
    var a := NameCompileItem(d, t, Some(n));
    var b := NameCompileItem(d, t', None);
    if a == b {
      assert |n| + 1 + |t.Value()| == |t'.Value()|;
      if t' == Presentation {
        PresentationNotHandout(d, None, n);
      } else {
        assert t == Handout && t' == PrintHandout;
        PrintPartName(d, n);
      }
    }
  }

  /** A part handout named like the print handout belongs to a part whose
      name lower-cases to `print`. */
  lemma PrintPartName(d: string, n: string)
    requires NameCompileItem(d, Handout, Some(n)) == NameCompileItem(d, PrintHandout, None)
    ensures Strings.Lower(n) == "print"
  {
    assert n != "";
    assert |n| == 5;
    forall k | 0 <= k < 5 ensures Strings.Lower(n)[k] == "print"[k] {
      PartNameAt(d, Handout, n, k);
      PrintNameAt(d, k);
    }
  }

  /** The `k`-th character of a part's name, in the name of its item. */
  lemma PartNameAt(d: string, t: CompileType, n: string, k: nat)
    requires k < |n|
    ensures NameCompileItem(d, t, Some(n))[|d| + 1 + k] == Strings.LowerChar(n[k])
  {
    var y := d + "-" + n;
    var u := y + "-" + t.Value();
    assert NameCompileItem(d, t, Some(n)) == Strings.Lower(u);
    assert y[|d| + 1 + k] == n[k];
    assert u[|d| + 1 + k] == y[|d| + 1 + k];
  }

  /** The `k`-th character of `print` in the print handout's name. */
  lemma PrintNameAt(d: string, k: nat)
    requires k < 5
    ensures NameCompileItem(d, PrintHandout, None)[|d| + 1 + k] == "print"[k]
  {
    var v := d + "-" + PrintHandout.Value();
    assert NameCompileItem(d, PrintHandout, None) == Strings.Lower(v);
    assert v[|d| + 1 + k] == "print"[k];
  }

  /** The names of two part items differ when their kinds differ (among
      presentation and handout) or their non-empty part names lower-case
      differently. */
  lemma PartNamesDiffer(d: string, t: CompileType, n: string, t': CompileType, n': string)
    requires t != PrintHandout && t' != PrintHandout && n != ""
    requires t != t' || (n' != "" && Strings.Lower(n) != Strings.Lower(n'))
    ensures NameCompileItem(d, t, Some(n)) != NameCompileItem(d, t', Some(n'))
  {
    if n' == "" {
      PartNameNotWhole(d, t, n, t');
    } else if t == Presentation && t' == Handout {
      PresentationNotHandout(d, Some(n), n');
    } else if t == Handout && t' == Presentation {
      PresentationNotHandout(d, Some(n'), n);
    } else if NameCompileItem(d, t, Some(n)) == NameCompileItem(d, t', Some(n')) {
      SameKindNames(d, t, n, n');
    }
  }

  /** Two parts whose items of one kind share a name have names that
      lower-case alike. */
  lemma SameKindNames(d: string, t: CompileType, n: string, n': string)
    requires n != "" && n' != ""
    requires NameCompileItem(d, t, Some(n)) == NameCompileItem(d, t, Some(n'))
    ensures Strings.Lower(n) == Strings.Lower(n')
  {
    forall k | 0 <= k < |n| ensures Strings.Lower(n)[k] == Strings.Lower(n')[k] {
      PartNameAt(d, t, n, k);
      PartNameAt(d, t, n', k);
    }
  }

  /** `list(self._parts_slides.values())`. */
  function AllSlides(b: Builder): (r: seq<PartSlides>)
    ensures |r| == |b.partsSlides| && forall i :: 0 <= i < |r| ==> r[i] == b.partsSlides[i].1
  {
    seq(|b.partsSlides|, i requires 0 <= i < |b.partsSlides| => b.partsSlides[i].1)
  }

  /** `frozenset().union(*dependencies.values())`. */
  function AllDependencies(dependencies: Dicts.Dict<string, set<Paths.Path>>): (r: set<Paths.Path>)
    ensures forall p :: p in r <==> exists i :: 0 <= i < |dependencies| && p in dependencies[i].1
  {
    if |dependencies| == 0 then {}
    else
      var init := dependencies[..|dependencies| - 1];
      assert forall i :: 0 <= i < |init| ==> init[i] == dependencies[i];
      AllDependencies(init) + dependencies[|dependencies| - 1].1
  }

  /** The name of an item of a given kind, for the whole deck (`None`) or
      for a part. */
  type Namer = (CompileType, Option<string>) -> string

  /** `_name_compile_item` of one deck, as a function value. */
  function NameIn(deckName: string): Namer {
    (t, name) => NameCompileItem(deckName, t, name)
  }

  /** The whole-deck items: handout, then print handout (compiled as a
      handout). */
  function WholeEntries(b: Builder, name: Namer): seq<(string, CompileItem)> {
    var all := AllSlides(b);
    var deps := AllDependencies(b.dependencies);
    (if b.buildHandout then [(name(Handout, None), CompileItem(all, deps, Handout, true))] else [])
    + (if b.buildPrint then [(name(PrintHandout, None), CompileItem(all, deps, Handout, true))] else [])
  }

  /** The items of part `i`: presentation, then handout. */
  function PartEntries(b: Builder, name: Namer, i: nat): seq<(string, CompileItem)>
    requires Aligned(b) && i < |b.partsSlides|
  {
    var part := b.partsSlides[i].0;
    var slides := b.partsSlides[i].1;
    var deps := b.dependencies[i].1;
    (if b.buildPresentation then [(name(Presentation, Some(part)), CompileItem([slides], deps, Presentation, false))] else [])
    + (if b.buildHandout then [(name(Handout, Some(part)), CompileItem([slides], deps, Handout, false))] else [])
  }

  /** The assignments `_list_items` makes, in order, up to part `n`. */
  function Entries(b: Builder, name: Namer, n: nat): seq<(string, CompileItem)>
    requires Aligned(b) && n <= |b.partsSlides|
  {
    if n == 0 then WholeEntries(b, name) else Entries(b, name, n - 1) + PartEntries(b, name, n - 1)
  }

  /** The dict `_list_items` returns. */
  function Items(b: Builder): Dicts.Dict<string, CompileItem>
    requires Aligned(b)
  {
    Dicts.PutAll([], Entries(b, NameIn(b.deckName), |b.partsSlides|))
  }

  /** An assignment of `_list_items` is a whole-deck one or one of a
      part. */
  lemma {:induction false} EntriesMember(b: Builder, name: Namer, n: nat, e: (string, CompileItem))
    requires Aligned(b) && n <= |b.partsSlides|
    ensures e in Entries(b, name, n) <==> e in WholeEntries(b, name) || exists i :: 0 <= i < n && e in PartEntries(b, name, i)
  {
    if n > 0 {
      EntriesMember(b, name, n - 1, e);
      var es := Entries(b, name, n - 1);
      var ps := PartEntries(b, name, n - 1);
      assert Entries(b, name, n) == es + ps;
      assert e in es + ps <==> e in es || e in ps;
      if e in ps {
        assert 0 <= n - 1 < n && e in PartEntries(b, name, n - 1);
      }
      if e !in WholeEntries(b, name) && exists i :: 0 <= i < n && e in PartEntries(b, name, i) {
        var i :| 0 <= i < n && e in PartEntries(b, name, i);
        if i < n - 1 {
          assert e in es;
        } else {
          assert e in ps;
        }
      }
    }
  }

  /** The presentation item of part `i`, then its handout item, as
      `_list_items` sets them. */
  function PutPart(items: Dicts.Dict<string, CompileItem>, b: Builder, name: Namer, i: nat): Dicts.Dict<string, CompileItem>
    requires Aligned(b) && i < |b.partsSlides|
  {
    var part := b.partsSlides[i].0;
    var slides := b.partsSlides[i].1;
    var deps := b.dependencies[i].1;
    var withPresentation :=
      if b.buildPresentation then Dicts.Put(items, name(Presentation, Some(part)), CompileItem([slides], deps, Presentation, false))
      else items;
    if b.buildHandout then Dicts.Put(withPresentation, name(Handout, Some(part)), CompileItem([slides], deps, Handout, false))
    else withPresentation
  }

  /** Setting the items of one more part extends the assignments by that
      part's. */
  lemma PutPartStep(b: Builder, name: Namer, i: nat)
    requires Aligned(b) && i < |b.partsSlides|
    ensures Dicts.PutAll([], Entries(b, name, i + 1)) == PutPart(Dicts.PutAll([], Entries(b, name, i)), b, name, i)
  {
    var es := Entries(b, name, i);
    var pe := PartEntries(b, name, i);
    assert Entries(b, name, i + 1) == es + pe;
    if |pe| == 1 {
      Dicts.PutAllSnoc([], es, pe[0]);
    } else if |pe| == 2 {
      Dicts.PutAllSnoc([], es, pe[0]);
      Dicts.PutAllSnoc([], es + [pe[0]], pe[1]);
      assert es + pe == es + [pe[0]] + [pe[1]];
    } else {
      assert es + pe == es;
    }
  }

  /** The whole-deck items set before the parts'. */
  lemma PutWholeStep(b: Builder, name: Namer)
    requires Aligned(b)
    ensures var all := AllSlides(b);
            var deps := AllDependencies(b.dependencies);
            var withHandout := if b.buildHandout then Dicts.Put([], name(Handout, None), CompileItem(all, deps, Handout, true)) else [];
            Dicts.PutAll([], Entries(b, name, 0))
            == if b.buildPrint then Dicts.Put(withHandout, name(PrintHandout, None), CompileItem(all, deps, Handout, true)) else withHandout
  {
    var we := WholeEntries(b, name);
    assert Entries(b, name, 0) == we;
    if |we| == 1 {
      Dicts.PutAllSnoc([], [], we[0]);
      assert [] + [we[0]] == we;
    } else if |we| == 2 {
      Dicts.PutAllSnoc([], [], we[0]);
      Dicts.PutAllSnoc([], [we[0]], we[1]);
      assert [] + [we[0]] == [we[0]];
      assert [we[0]] + [we[1]] == we;
    }
  }

  /** The whole-deck items `_list_items` sets before the parts'. */
  method PutWholeItems(b: Builder, name: Namer) returns (items: Dicts.Dict<string, CompileItem>)
    requires Aligned(b)
    ensures items == Dicts.PutAll([], Entries(b, name, 0))
  {
    items := [];
    var all := AllSlides(b);
    var allDeps := AllDependencies(b.dependencies);
    if b.buildHandout {
      items := Dicts.Put(items, name(Handout, None), CompileItem(all, allDeps, Handout, true));
    }
    if b.buildPrint {
      items := Dicts.Put(items, name(PrintHandout, None), CompileItem(all, allDeps, Handout, true));
    }
    PutWholeStep(b, name);
  }

  /** The body of `_list_items`'s loop over the parts. */
  method PutPartItems(items: Dicts.Dict<string, CompileItem>, b: Builder, name: Namer, i: nat)
    returns (r: Dicts.Dict<string, CompileItem>)
    requires Aligned(b) && i < |b.partsSlides|
    ensures r == PutPart(items, b, name, i)
  {
    var part := b.partsSlides[i].0;
    var slides := b.partsSlides[i].1;
    var dependencies := b.dependencies[i].1;
    r := items;
    if b.buildPresentation {
      r := Dicts.Put(r, name(Presentation, Some(part)), CompileItem([slides], dependencies, Presentation, false));
    }
    if b.buildHandout {
      r := Dicts.Put(r, name(Handout, Some(part)), CompileItem([slides], dependencies, Handout, false));
    }
  }

  /** `_list_items()`. */
  method ListItems(b: Builder) returns (items: Dicts.Dict<string, CompileItem>)
    requires Aligned(b)
    ensures items == Items(b)
  {
    var name := NameIn(b.deckName);
    items := PutWholeItems(b, name);
    var i := 0;
    while i < |b.partsSlides|
      invariant 0 <= i <= |b.partsSlides|
      invariant items == Dicts.PutAll([], Entries(b, name, i))
    {
      PutPartStep(b, name, i);
      items := PutPartItems(items, b, name, i);
      i := i + 1;
    }
  }

  /** `k` names an item of part `i` of a kind asked for. */
  predicate PartItemName(b: Builder, i: nat, k: string)
    requires i < |b.partsSlides|
  {
    || (b.buildPresentation && k == NameCompileItem(b.deckName, Presentation, Some(b.partsSlides[i].0)))
    || (b.buildHandout && k == NameCompileItem(b.deckName, Handout, Some(b.partsSlides[i].0)))
  }

  /** `k` names a whole-deck item or a part item of a kind asked for. */
  predicate ItemName(b: Builder, k: string) {
    || (b.buildHandout && k == NameCompileItem(b.deckName, Handout, None))
    || (b.buildPrint && k == NameCompileItem(b.deckName, PrintHandout, None))
    || exists i :: 0 <= i < |b.partsSlides| && PartItemName(b, i, k)
  }

  /** The items are named after the whole deck and after each part, for
      the variants asked for, and nothing else. */
  lemma ItemsKeys(b: Builder, k: string)
    requires Aligned(b)
    ensures k in Dicts.Keys(Items(b)) <==> ItemName(b, k)
  {
    var n := |b.partsSlides|;
    var name := NameIn(b.deckName);
    var es := Entries(b, name, n);
    Dicts.PutAllKeys([], es);
    if k in Dicts.Keys(Items(b)) {
      var j :| 0 <= j < |es| && es[j].0 == k;
      ItemKeyNamed(b, es[j]);
    }
    if ItemName(b, k) {
      NamedIsKey(b, k);
    }
  }

  lemma NamedIsKey(b: Builder, k: string)
    requires Aligned(b) && ItemName(b, k)
    ensures k in Dicts.Keys(Entries(b, NameIn(b.deckName), |b.partsSlides|))
  {
    var es := Entries(b, NameIn(b.deckName), |b.partsSlides|);
    var e := ItemOfName(b, k);
    var j :| 0 <= j < |es| && es[j] == e;
    assert es[j].0 == k;
  }

  /** Every assignment is named by `ItemName`. */
  lemma ItemKeyNamed(b: Builder, e: (string, CompileItem))
    requires Aligned(b) && e in Entries(b, NameIn(b.deckName), |b.partsSlides|)
    ensures ItemName(b, e.0)
  {
    EntriesMember(b, NameIn(b.deckName), |b.partsSlides|, e);
    if e in WholeEntries(b, NameIn(b.deckName)) {
      WholeEntryNames(b, e);
    } else {
      var i :| 0 <= i < |b.partsSlides| && e in PartEntries(b, NameIn(b.deckName), i);
      PartEntryNames(b, i, e);
      assert PartItemName(b, i, e.0);
    }
  }

  /** Every name `ItemName` allows is assigned. */
  lemma ItemOfName(b: Builder, k: string) returns (e: (string, CompileItem))
    requires Aligned(b) && ItemName(b, k)
    ensures e in Entries(b, NameIn(b.deckName), |b.partsSlides|) && e.0 == k
  {
    var name := NameIn(b.deckName);
    var n := |b.partsSlides|;
    var all := AllSlides(b);
    var deps := AllDependencies(b.dependencies);
    if b.buildHandout && k == NameCompileItem(b.deckName, Handout, None) {
      assert name(Handout, None) == k;
      e := (k, CompileItem(all, deps, Handout, true));
      assert e in WholeEntries(b, name);
    } else if b.buildPrint && k == NameCompileItem(b.deckName, PrintHandout, None) {
      assert name(PrintHandout, None) == k;
      e := (k, CompileItem(all, deps, Handout, true));
      assert e in WholeEntries(b, name);
    } else {
      var i :| 0 <= i < n && PartItemName(b, i, k);
      var part := b.partsSlides[i].0;
      var t := if b.buildPresentation && k == NameCompileItem(b.deckName, Presentation, Some(part)) then Presentation else Handout;
      assert name(t, Some(part)) == k;
      e := (k, CompileItem([b.partsSlides[i].1], b.dependencies[i].1, t, false));
      assert e in PartEntries(b, name, i);
    }
    EntriesMember(b, name, n, e);
  }

  /** With handouts on, and no part with an empty name, the handout item
      of the whole deck holds the slides of every part in order and the
      union of their dependencies, with a table of contents. */
  lemma WholeHandoutItem(b: Builder)
    requires Aligned(b) && b.buildHandout
    requires forall i :: 0 <= i < |b.partsSlides| ==> b.partsSlides[i].0 != ""
    ensures Dicts.Get(Items(b), NameCompileItem(b.deckName, Handout, None))
            == Some(CompileItem(AllSlides(b), AllDependencies(b.dependencies), Handout, true))
  {
    var n := |b.partsSlides|;
    var name := NameIn(b.deckName);
    var k := NameCompileItem(b.deckName, Handout, None);
    var v := CompileItem(AllSlides(b), AllDependencies(b.dependencies), Handout, true);
    assert name(Handout, None) == k;
    EntriesMember(b, name, n, (k, v));
    forall e | e in Entries(b, name, n) && e.0 == k ensures e.1 == v {
      HandoutEntry(b, e);
    }
    Dicts.PutAllGet([], Entries(b, name, n), k, v);
  }

  /** With print handouts on, the print item holds the whole deck like the
      handout one and is compiled as a handout, unless a part named
      `print` (in any case) has its own handout under the same name. */
  lemma PrintHandoutItem(b: Builder)
    requires Aligned(b) && b.buildPrint
    requires b.buildHandout ==> forall i :: 0 <= i < |b.partsSlides| ==> Strings.Lower(b.partsSlides[i].0) != "print"
    ensures Dicts.Get(Items(b), NameCompileItem(b.deckName, PrintHandout, None))
            == Some(CompileItem(AllSlides(b), AllDependencies(b.dependencies), Handout, true))
  {
    var n := |b.partsSlides|;
    var name := NameIn(b.deckName);
    var k := NameCompileItem(b.deckName, PrintHandout, None);
    var v := CompileItem(AllSlides(b), AllDependencies(b.dependencies), Handout, true);
    assert name(PrintHandout, None) == k;
    EntriesMember(b, name, n, (k, v));
    forall e | e in Entries(b, name, n) && e.0 == k ensures e.1 == v {
      PrintEntry(b, e);
    }
    Dicts.PutAllGet([], Entries(b, name, n), k, v);
  }

  /** With no part named empty, the only assignment to the whole-deck
      handout's name is the handout item. */
  lemma HandoutEntry(b: Builder, e: (string, CompileItem))
    requires Aligned(b) && b.buildHandout
    requires forall i :: 0 <= i < |b.partsSlides| ==> b.partsSlides[i].0 != ""
    requires e in Entries(b, NameIn(b.deckName), |b.partsSlides|)
    requires e.0 == NameCompileItem(b.deckName, Handout, None)
    ensures e.1 == CompileItem(AllSlides(b), AllDependencies(b.dependencies), Handout, true)
  {
    var name := NameIn(b.deckName);
    EntriesMember(b, name, |b.partsSlides|, e);
    if e in WholeEntries(b, name) {
      WholeEntryNames(b, e);
    } else {
      var i :| 0 <= i < |b.partsSlides| && e in PartEntries(b, name, i);
      PartEntryNames(b, i, e);
      PartNameNotWhole(b.deckName, Presentation, b.partsSlides[i].0, Handout);
      PartNameNotWhole(b.deckName, Handout, b.partsSlides[i].0, Handout);
    }
  }

  /** The only assignment to the print handout's name is the print item. */
  lemma PrintEntry(b: Builder, e: (string, CompileItem))
    requires Aligned(b) && b.buildPrint
    requires b.buildHandout ==> forall i :: 0 <= i < |b.partsSlides| ==> Strings.Lower(b.partsSlides[i].0) != "print"
    requires e in Entries(b, NameIn(b.deckName), |b.partsSlides|)
    requires e.0 == NameCompileItem(b.deckName, PrintHandout, None)
    ensures e.1 == CompileItem(AllSlides(b), AllDependencies(b.dependencies), Handout, true)
  {
    var name := NameIn(b.deckName);
    EntriesMember(b, name, |b.partsSlides|, e);
    if e in WholeEntries(b, name) {
      WholeEntryNames(b, e);
    } else {
      var i :| 0 <= i < |b.partsSlides| && e in PartEntries(b, name, i);
      PartEntryNotPrint(b, i, e);
    }
  }

  /** No part item takes the print handout's name, unless a part handout
      is named `print`. */
  lemma PartEntryNotPrint(b: Builder, i: nat, e: (string, CompileItem))
    requires Aligned(b) && i < |b.partsSlides|
    requires e in PartEntries(b, NameIn(b.deckName), i)
    requires b.buildHandout ==> Strings.Lower(b.partsSlides[i].0) != "print"
    ensures e.0 != NameCompileItem(b.deckName, PrintHandout, None)
  {
    PartEntryNames(b, i, e);
    var part := b.partsSlides[i].0;
    if part != "" {
      PartNameNotWhole(b.deckName, Presentation, part, PrintHandout);
      if b.buildHandout {
        PartNameNotWhole(b.deckName, Handout, part, PrintHandout);
      }
    }
  }

  /** Each part with a non-empty name that no other part shares (up to
      case), and that is not `print` when handouts are on, has its own
      presentation and handout items holding exactly its slides and
      dependencies, without a table of contents. */
  lemma PartItems(b: Builder, i: nat)
    requires Aligned(b) && i < |b.partsSlides|
    requires b.partsSlides[i].0 != ""
    requires b.buildHandout ==> Strings.Lower(b.partsSlides[i].0) != "print"
    requires forall j :: 0 <= j < |b.partsSlides| && j != i ==> Strings.Lower(b.partsSlides[j].0) != Strings.Lower(b.partsSlides[i].0)
    ensures b.buildPresentation ==>
              Dicts.Get(Items(b), NameCompileItem(b.deckName, Presentation, Some(b.partsSlides[i].0)))
              == Some(CompileItem([b.partsSlides[i].1], b.dependencies[i].1, Presentation, false))
    ensures b.buildHandout ==>
              Dicts.Get(Items(b), NameCompileItem(b.deckName, Handout, Some(b.partsSlides[i].0)))
              == Some(CompileItem([b.partsSlides[i].1], b.dependencies[i].1, Handout, false))
  {
    if b.buildPresentation {
      PartItem(b, i, Presentation);
    }
    if b.buildHandout {
      PartItem(b, i, Handout);
    }
  }

  lemma PartItem(b: Builder, i: nat, t: CompileType)
    requires Aligned(b) && i < |b.partsSlides|
    requires b.partsSlides[i].0 != ""
    requires b.buildHandout ==> Strings.Lower(b.partsSlides[i].0) != "print"
    requires forall j :: 0 <= j < |b.partsSlides| && j != i ==> Strings.Lower(b.partsSlides[j].0) != Strings.Lower(b.partsSlides[i].0)
    requires (t == Presentation && b.buildPresentation) || (t == Handout && b.buildHandout)
    ensures Dicts.Get(Items(b), NameCompileItem(b.deckName, t, Some(b.partsSlides[i].0)))
            == Some(CompileItem([b.partsSlides[i].1], b.dependencies[i].1, t, false))
  {
    var n := |b.partsSlides|;
    var name := NameIn(b.deckName);
    var part := b.partsSlides[i].0;
    var k := NameCompileItem(b.deckName, t, Some(part));
    var v := CompileItem([b.partsSlides[i].1], b.dependencies[i].1, t, false);
    assert name(t, Some(part)) == k;
    assert (k, v) in PartEntries(b, name, i);
    EntriesMember(b, name, n, (k, v));
    forall e | e in Entries(b, name, n) && e.0 == k ensures e.1 == v {
      EntriesMember(b, name, n, e);
      if e in WholeEntries(b, name) {
        PartNameNotWhole(b.deckName, t, part, Handout);
        PartNameNotWhole(b.deckName, t, part, PrintHandout);
        WholeEntryNames(b, e);
      } else {
        var j :| 0 <= j < n && e in PartEntries(b, name, j);
        PartEntryNames(b, j, e);
        PartEntryOwner(b, i, t, j, e);
      }
    }
    Dicts.PutAllGet([], Entries(b, name, n), k, v);
  }

  /** A whole-deck assignment is named after the whole deck and holds
      the whole deck. */
  lemma WholeEntryNames(b: Builder, e: (string, CompileItem))
    requires e in WholeEntries(b, NameIn(b.deckName))
    ensures (b.buildHandout && e.0 == NameCompileItem(b.deckName, Handout, None))
            || (b.buildPrint && e.0 == NameCompileItem(b.deckName, PrintHandout, None))
    ensures e.1 == CompileItem(AllSlides(b), AllDependencies(b.dependencies), Handout, true)
  {
  }

  /** An assignment of part `j` is named after that part. */
  lemma PartEntryNames(b: Builder, j: nat, e: (string, CompileItem))
    requires Aligned(b) && j < |b.partsSlides|
    requires e in PartEntries(b, NameIn(b.deckName), j)
    ensures (b.buildPresentation && e.0 == NameCompileItem(b.deckName, Presentation, Some(b.partsSlides[j].0)))
            || (b.buildHandout && e.0 == NameCompileItem(b.deckName, Handout, Some(b.partsSlides[j].0)))
  {
  }

  /** An assignment of part `j` named like part `i`'s item of kind `t` is
      that item. */
  lemma PartEntryOwner(b: Builder, i: nat, t: CompileType, j: nat, e: (string, CompileItem))
    requires Aligned(b) && i < |b.partsSlides| && j < |b.partsSlides|
    requires b.partsSlides[i].0 != ""
    requires j != i ==> Strings.Lower(b.partsSlides[j].0) != Strings.Lower(b.partsSlides[i].0)
    requires t == Presentation || t == Handout
    requires e in PartEntries(b, NameIn(b.deckName), j)
    requires e.0 == NameCompileItem(b.deckName, t, Some(b.partsSlides[i].0))
    ensures e.1 == CompileItem([b.partsSlides[i].1], b.dependencies[i].1, t, false)
  {
    var part := b.partsSlides[i].0;
    var other := b.partsSlides[j].0;
    var p := NameCompileItem(b.deckName, Presentation, Some(other));
    var h := NameCompileItem(b.deckName, Handout, Some(other));
    assert e.0 == p || e.0 == h;
    if j != i {
      PartNamesDiffer(b.deckName, t, part, Presentation, other);
      PartNamesDiffer(b.deckName, t, part, Handout, other);
    } else {
      PartNamesDiffer(b.deckName, t, part, if t == Presentation then Handout else Presentation, part);
    }
  }

  // --------------------------------------------------------------- rendering

  /** The switches `_render_latex` hands to the template. */
  datatype RenderArgs = RenderArgs(parts: seq<PartSlides>, handout: bool, toc: bool, printing: bool)

  /** `_render_latex(item, output_path)`: the template sees the item's
      parts and table-of-contents flag, `handout` for handouts and print
      handouts, `print` (here `printing`) for print handouts only. */
  function RenderLatexArgs(item: CompileItem): (r: RenderArgs)
    ensures r.handout <==> item.compileType != Presentation
    ensures r.printing <==> item.compileType == PrintHandout
    ensures r.parts == item.parts && r.toc == item.toc
  {
    RenderArgs(item.parts, item.compileType in [Handout, PrintHandout], item.toc, item.compileType == PrintHandout)
  }

  /** No item `_list_items` plans is rendered with the `print` switch on:
      even the print handout is compiled as a plain handout. */
  lemma NoItemPrints(b: Builder, k: string)
    requires Aligned(b) && k in Dicts.Keys(Items(b))
    ensures !RenderLatexArgs(Dicts.Get(Items(b), k).value).printing
  {
    var n := |b.partsSlides|;
    var name := NameIn(b.deckName);
    var es := Entries(b, name, n);
    forall e | e in es ensures e.1.compileType != PrintHandout {
      EntriesMember(b, name, n, e);
    }
    Dicts.PutAllFrom([], es, k);
  }

  // ------------------------------------------------------------- building

  /** `build_deck()`: every item is built (the pool runs them all), the PDF
      of each item the compiler accepts is copied to the output directory,
      and the run succeeds exactly when every item compiled.  `compile`
      is the compiler's verdict on an item.  The pool gets one process per
      item at most, so with no item at all it cannot be created and the
      build fails with `ValueError` before anything is compiled. */
  method BuildDeck(items: Dicts.Dict<string, CompileItem>, compile: (string, CompileItem) -> bool)
    returns (r: Result<bool>, outputs: set<string>)
    ensures r.Err? <==> |items| == 0
    ensures r.Err? ==> r.error == ValueError("Number of processes must be at least 1") && outputs == {}
    ensures r.Ok? ==> (r.value <==> forall i :: 0 <= i < |items| ==> compile(items[i].0, items[i].1))
    ensures outputs == set i | 0 <= i < |items| && compile(items[i].0, items[i].1) :: items[i].0
  {
    if |items| == 0 {
      return Err(ValueError("Number of processes must be at least 1")), {};
    }
    var results: seq<bool> := [];
    outputs := {};
    var i := 0;
    while i < |items|
      invariant 0 <= i <= |items| && |results| == i
      invariant forall j :: 0 <= j < i ==> results[j] == compile(items[j].0, items[j].1)
      invariant outputs == set j | 0 <= j < i && compile(items[j].0, items[j].1) :: items[j].0
    {
      var result := compile(items[i].0, items[i].1);
      if result {
        outputs := outputs + {items[i].0};
      }
      results := results + [result];
      i := i + 1;
    }
    var ok := true;
    var j := 0;
    while j < |results|
      invariant 0 <= j <= |results|
      invariant ok <==> forall m :: 0 <= m < j ==> results[m]
    {
      ok := ok && results[j];
      j := j + 1;
    }
    r := Ok(ok);
  }

  /** Where a dependency is copied in the build directory of an item:
      its path relative to the first base directory containing it, below
      the build directory, with the suffix `.tex.j2`; a bare `ValueError`
      when no base directory contains it. */
  function BuildPath(basedirs: seq<Paths.Path>, target: Paths.Path, dependency: Paths.Path): (r: Result<Paths.Path>)
  {
    match FirstBasedir(basedirs, dependency)
    case None => Err(ValueError(""))
    case Some(i) => Paths.WithSuffix(Paths.Concat(target, Paths.RelativeTo(dependency, basedirs[i]).value), ".tex.j2")
  }

  /** A dependency no base directory holds has no build path; one held
      strictly below its base directory is copied inside the build
      directory, at its place relative to that base directory. */
  lemma BuildPathSpec(basedirs: seq<Paths.Path>, target: Paths.Path, dependency: Paths.Path)
    ensures (forall j :: 0 <= j < |basedirs| ==> !Paths.IsRelativeTo(dependency, basedirs[j])) ==>
              BuildPath(basedirs, target, dependency) == Err(ValueError(""))
    ensures var first := FirstBasedir(basedirs, dependency);
            first.Some? && |dependency.parts| > |basedirs[first.value].parts| ==>
              BuildPath(basedirs, target, dependency).Ok?
              && Paths.IsRelativeTo(BuildPath(basedirs, target, dependency).value, target)
  {
    FirstBasedirSpec(basedirs, dependency);
    var first := FirstBasedir(basedirs, dependency);
    if first.Some? && |dependency.parts| > |basedirs[first.value].parts| {
      SuffixedInside(target, Paths.RelativeTo(dependency, basedirs[first.value]).value, ".tex.j2");
    }
  }

  /** Sequences that agree on their first `n` elements agree on their
      first `t <= n`. */
  lemma PrefixOfPrefix<T>(a: seq<T>, b: seq<T>, n: nat, t: nat)
    requires t <= n <= |a| && n <= |b| && a[..n] == b[..n]
    ensures a[..t] == b[..t]
  {
    assert a[..t] == a[..n][..t];
    assert b[..t] == b[..n][..t];
  }

  /** A relative path with at least one component, put below `target`
      and given a valid suffix, stays below `target`. */
  lemma SuffixedInside(target: Paths.Path, rel: Paths.Path, suffix: string)
    requires !rel.rooted && |rel.parts| > 0
    requires '/' !in suffix && |suffix| > 1 && suffix[0] == '.'
    ensures Paths.WithSuffix(Paths.Concat(target, rel), suffix).Ok?
    ensures Paths.IsRelativeTo(Paths.WithSuffix(Paths.Concat(target, rel), suffix).value, target)
  {
    var joined := Paths.Concat(target, rel);
    var r := Paths.WithSuffix(joined, suffix).value;
    var n, t := |joined.parts|, |target.parts|;
    assert joined.parts == target.parts + rel.parts && t < n;
    PrefixOfPrefix(r.parts, joined.parts, n - 1, t);
    assert joined.parts[..t] == target.parts;
  }


  /** The search for the base directory of a dependency, then its build
      path. */
  method ComputeBuildPath(basedirs: seq<Paths.Path>, target: Paths.Path, dependency: Paths.Path)
    returns (r: Result<Paths.Path>)
    ensures r == BuildPath(basedirs, target, dependency)
  {
    var rel := RelativeToBasedir(basedirs, dependency);
    if rel.None? {
      return Err(ValueError(""));
    }
    return Paths.WithSuffix(Paths.Concat(target, rel.value), ".tex.j2");
  }

  /** `BuildPath` for fixed base directories and build directory, as a
      function value. */
  function BuildPathIn(basedirs: seq<Paths.Path>, target: Paths.Path): Paths.Path -> Result<Paths.Path> {
    p => BuildPath(basedirs, target, p)
  }

  /** The components of each path of `ps`. */
  ghost function Parts(ps: seq<Paths.Path>): set<seq<string>> {
    set p | p in ps :: p.parts
  }

  /** The proper ancestors of each path of `ps`. */
  ghost function Ancestors(ps: seq<Paths.Path>): set<seq<string>> {
    set p, k | p in ps && 0 <= k < |p.parts| :: p.parts[..k]
  }

  /** `a` is `b` or one of its ancestors. */
  ghost predicate Below(a: seq<string>, b: seq<string>) {
    |a| <= |b| && b[..|a|] == a
  }

  /** No build path is another one or below it, and no dependency is a
      build path or below one: each copy then reads and writes files that
      no other copy touches. */
  ghost predicate Separate(deps: seq<Paths.Path>, mapped: seq<Paths.Path>) {
    && |deps| == |mapped|
    && (forall i, j :: 0 <= i < |mapped| && 0 <= j < |mapped| && i != j ==> !Below(mapped[i].parts, mapped[j].parts))
    && (forall i, j :: 0 <= i < |deps| && 0 <= j < |mapped| ==> !Below(deps[i].parts, mapped[j].parts))
  }

  /** The disk after copying `copied`, from a disk that held `files0`,
      `dirs0` and `mtimes0`: the copies are new or rewritten files, their
      ancestors new or kept directories, everything else untouched, and
      every new or rewritten entry stamped `now`. */
  ghost predicate CopiedState(files0: map<seq<string>, string>, dirs0: set<seq<string>>, mtimes0: map<seq<string>, int>,
                              copied: seq<Paths.Path>, now: int,
                              files: map<seq<string>, string>, dirs: set<seq<string>>, mtimes: map<seq<string>, int>) {
    && files.Keys == files0.Keys + Parts(copied)
    && (forall q :: q in files0 && q !in Parts(copied) ==> files[q] == files0[q])
    && dirs == dirs0 + Ancestors(copied)
    && (forall q :: q in mtimes ==> mtimes[q] == if q in mtimes0 && q !in Parts(copied) then mtimes0[q] else now)
  }

  /** When the copies are separate, the `j`-th build path was copied
      exactly when it was not more recent than its dependency on the
      original disk, and then holds that dependency's original content. */
  ghost predicate CopiedDecisions(files0: map<seq<string>, string>, mtimes0: map<seq<string>, int>,
                                  deps: seq<Paths.Path>, mapped: seq<Paths.Path>, copied: seq<Paths.Path>,
                                  files: map<seq<string>, string>) {
    Separate(deps, mapped) ==>
      forall j :: 0 <= j < |mapped| ==>
        && (mapped[j] in copied <==> !Utils.Newer(mtimes0, mapped[j].parts, deps[j].parts))
        && (mapped[j] in copied ==>
              deps[j].parts in files0 && mapped[j].parts in files && files[mapped[j].parts] == files0[deps[j].parts])
  }

  /** A copy whose build path and dependency are separate from the earlier
      build paths finds both with their original timestamps and the
      dependency with its original content. */
  lemma SeparateUntouched(files0: map<seq<string>, string>, dirs0: set<seq<string>>, mtimes0: map<seq<string>, int>,
                          copied: seq<Paths.Path>, mapped: seq<Paths.Path>, now: int,
                          files: map<seq<string>, string>, dirs: set<seq<string>>, mtimes: map<seq<string>, int>,
                          q: seq<string>)
    requires Utils.Consistent(files0, dirs0, mtimes0) && Utils.Consistent(files, dirs, mtimes)
    requires CopiedState(files0, dirs0, mtimes0, copied, now, files, dirs, mtimes)
    requires forall p :: p in copied ==> p in mapped
    requires forall j :: 0 <= j < |mapped| ==> !Below(q, mapped[j].parts)
    ensures q in mtimes <==> q in mtimes0
    ensures q in mtimes ==> mtimes[q] == mtimes0[q]
    ensures q in files <==> q in files0
    ensures q in files ==> files[q] == files0[q]
  {
  }

  /** The parts and ancestors of one more copied path. */
  lemma PartsSnoc(copied: seq<Paths.Path>, bp: Paths.Path)
    ensures Parts(copied + [bp]) == Parts(copied) + {bp.parts}
    ensures Ancestors(copied + [bp]) == Ancestors(copied) + Utils.Prefixes(bp.parts, |bp.parts|)
  {
    var c := copied + [bp];
    assert forall p :: p in c <==> p in copied || p == bp;
    forall q | q in Utils.Prefixes(bp.parts, |bp.parts|) ensures q in Ancestors(c) {
      var k :| 0 <= k < |bp.parts| && k <= |bp.parts| && q == bp.parts[..k];
      assert bp in c;
    }
  }

  /** One copy step keeps `CopiedState`. */
  lemma CopiedStateStep(files0: map<seq<string>, string>, dirs0: set<seq<string>>, mtimes0: map<seq<string>, int>,
                        copied: seq<Paths.Path>, now: int,
                        files: map<seq<string>, string>, dirs: set<seq<string>>, mtimes: map<seq<string>, int>,
                        files': map<seq<string>, string>, dirs': set<seq<string>>, mtimes': map<seq<string>, int>,
                        dep: Paths.Path, bp: Paths.Path)
    requires Utils.Consistent(files0, dirs0, mtimes0) && Utils.Consistent(files, dirs, mtimes)
    requires CopiedState(files0, dirs0, mtimes0, copied, now, files, dirs, mtimes)
    requires dep.parts in files && files' == files[bp.parts := files[dep.parts]]
    requires dirs' == dirs + Utils.Prefixes(bp.parts, |bp.parts|)
    requires forall q :: q in mtimes' ==> mtimes'[q] == if q in mtimes && q != bp.parts then mtimes[q] else now
    ensures CopiedState(files0, dirs0, mtimes0, copied + [bp], now, files', dirs', mtimes')
  {
    PartsSnoc(copied, bp);
    var c := copied + [bp];
    assert files'.Keys == files0.Keys + Parts(c);
    assert mtimes0.Keys <= mtimes.Keys;
    forall q | q in mtimes'
      ensures mtimes'[q] == if q in mtimes0 && q !in Parts(c) then mtimes0[q] else now
    {
      if q != bp.parts && q in mtimes {
        assert mtimes'[q] == mtimes[q];
      }
    }
  }

  /** One copy step keeps `CopiedDecisions`. */
  lemma CopiedDecisionsStep(files0: map<seq<string>, string>, dirs0: set<seq<string>>, mtimes0: map<seq<string>, int>,
                            deps: seq<Paths.Path>, mapped: seq<Paths.Path>, copied: seq<Paths.Path>, now: int,
                            files: map<seq<string>, string>, dirs: set<seq<string>>, mtimes: map<seq<string>, int>,
                            files': map<seq<string>, string>, dep: Paths.Path, bp: Paths.Path, added: bool)
    requires Utils.Consistent(files0, dirs0, mtimes0) && Utils.Consistent(files, dirs, mtimes)
    requires |deps| == |mapped|
    requires forall p :: p in copied ==> p in mapped
    requires CopiedState(files0, dirs0, mtimes0, copied, now, files, dirs, mtimes)
    requires CopiedDecisions(files0, mtimes0, deps, mapped, copied, files)
    requires added <==> !Utils.Newer(mtimes, bp.parts, dep.parts)
    requires !added ==> files' == files
    requires added ==> dep.parts in files && files' == files[bp.parts := files[dep.parts]]
    ensures CopiedDecisions(files0, mtimes0, deps + [dep], mapped + [bp], if added then copied + [bp] else copied, files')
  {
    var deps', mapped' := deps + [dep], mapped + [bp];
    var c := if added then copied + [bp] else copied;
    if Separate(deps', mapped') {
      var n := |mapped|;
      assert Separate(deps, mapped) by {
        forall i, j | 0 <= i < n && 0 <= j < n && i != j ensures !Below(mapped[i].parts, mapped[j].parts) {
          assert mapped'[i] == mapped[i] && mapped'[j] == mapped[j];
        }
        forall i, j | 0 <= i < n && 0 <= j < n ensures !Below(deps[i].parts, mapped[j].parts) {
          assert deps'[i] == deps[i] && mapped'[j] == mapped[j];
        }
      }
      forall j | 0 <= j < n ensures !Below(bp.parts, mapped[j].parts) && !Below(dep.parts, mapped[j].parts) {
        assert mapped'[n] == bp && deps'[n] == dep && mapped'[j] == mapped[j];
      }
      SeparateUntouched(files0, dirs0, mtimes0, copied, mapped, now, files, dirs, mtimes, bp.parts);
      SeparateUntouched(files0, dirs0, mtimes0, copied, mapped, now, files, dirs, mtimes, dep.parts);
      assert bp !in copied;
      forall j | 0 <= j < |mapped'|
        ensures mapped'[j] in c <==> !Utils.Newer(mtimes0, mapped'[j].parts, deps'[j].parts)
        ensures mapped'[j] in c ==>
                  deps'[j].parts in files0 && mapped'[j].parts in files' && files'[mapped'[j].parts] == files0[deps'[j].parts]
      {
        if j < n {
          assert mapped'[j] == mapped[j] && deps'[j] == deps[j];
          assert mapped[j].parts != bp.parts by {
            assert mapped'[n] == bp;
          }
        }
      }
    }
  }

  /** `copy_file_if_newer(dependency, build_path)` inside the copying
      loop: its effect extends the copies made so far. */
  method CopyBuilt(disk: Utils.Disk, dependency: Paths.Path, buildPath: Paths.Path, now: int,
                   ghost files0: map<seq<string>, string>, ghost dirs0: set<seq<string>>,
                   ghost mtimes0: map<seq<string>, int>,
                   ghost deps: seq<Paths.Path>, ghost mapped: seq<Paths.Path>, ghost copied: seq<Paths.Path>)
    returns (r: Result<bool>)
    requires disk.Valid() && Utils.Consistent(files0, dirs0, mtimes0)
    requires |deps| == |mapped| && forall p :: p in copied ==> p in mapped
    requires CopiedState(files0, dirs0, mtimes0, copied, now, disk.files, disk.dirs, disk.mtimes)
    requires CopiedDecisions(files0, mtimes0, deps, mapped, copied, disk.files)
    modifies disk
    ensures disk.Valid()
    ensures r.Ok? ==> CopiedState(files0, dirs0, mtimes0, if r.value then copied + [buildPath] else copied, now,
                                  disk.files, disk.dirs, disk.mtimes)
    ensures r.Ok? ==> CopiedDecisions(files0, mtimes0, deps + [dependency], mapped + [buildPath],
                                      if r.value then copied + [buildPath] else copied, disk.files)
  {
    ghost var files, dirs, mtimes := disk.files, disk.dirs, disk.mtimes;
    r := disk.CopyFileIfNewer(dependency.parts, buildPath.parts, now);
    if r.Ok? {
      if r.value {
        CopiedStateStep(files0, dirs0, mtimes0, copied, now, files, dirs, mtimes,
                        disk.files, disk.dirs, disk.mtimes, dependency, buildPath);
      }
      CopiedDecisionsStep(files0, dirs0, mtimes0, deps, mapped, copied, now, files, dirs, mtimes,
                          disk.files, dependency, buildPath, r.value);
    }
  }

  /** The state of the copying loop once the dependencies `seen` are
      done: their build paths are `mapped`, and the copies `copied` made
      so far account for the whole change of the disk. */
  ghost predicate Copying(f: Paths.Path -> Result<Paths.Path>,
                          files0: map<seq<string>, string>, dirs0: set<seq<string>>, mtimes0: map<seq<string>, int>,
                          now: int, seen: seq<Paths.Path>, mapped: seq<Paths.Path>, copied: seq<Paths.Path>,
                          files: map<seq<string>, string>, dirs: set<seq<string>>, mtimes: map<seq<string>, int>) {
    && Utils.Consistent(files0, dirs0, mtimes0)
    && MapAll(seen, f) == Ok(mapped)
    && (forall p :: p in copied ==> p in mapped)
    && CopiedState(files0, dirs0, mtimes0, copied, now, files, dirs, mtimes)
    && CopiedDecisions(files0, mtimes0, seen, mapped, copied, files)
  }

  /** One turn of the copying loop, for the next dependency after the
      dependencies `seen`: its build path, then the copy, which extends
      the build paths and the copies made so far. */
  method CopyOne(disk: Utils.Disk, dependency: Paths.Path, basedirs: seq<Paths.Path>, target: Paths.Path, now: int,
                 ghost files0: map<seq<string>, string>, ghost dirs0: set<seq<string>>,
                 ghost mtimes0: map<seq<string>, int>,
                 ghost seen: seq<Paths.Path>, ghost mapped: seq<Paths.Path>, ghost copied: seq<Paths.Path>)
    returns (r: Result<(Paths.Path, bool)>)
    requires disk.Valid()
    requires Copying(BuildPathIn(basedirs, target), files0, dirs0, mtimes0, now, seen, mapped, copied,
                     disk.files, disk.dirs, disk.mtimes)
    modifies disk
    ensures disk.Valid()
    ensures r.Ok? ==> Copying(BuildPathIn(basedirs, target), files0, dirs0, mtimes0, now,
                              seen + [dependency], mapped + [r.value.0],
                              if r.value.1 then copied + [r.value.0] else copied, disk.files, disk.dirs, disk.mtimes)
  {
    var buildPath := ComputeBuildPath(basedirs, target, dependency);
    if buildPath.Err? {
      return Err(buildPath.error);
    }
    MapAllSnoc(seen, dependency, BuildPathIn(basedirs, target));
    var done := CopyBuilt(disk, dependency, buildPath.value, now, files0, dirs0, mtimes0, seen, mapped, copied);
    if done.Err? {
      return Err(done.error);
    }
    return Ok((buildPath.value, done.value));
  }

  /** `_copy_dependencies(dependencies, target_build_dir)` at time `now`,
      the dependencies taken in the order the set is iterated: each one
      is copied to its build path unless that path is already more
      recent, and the copied paths are listed in order.  A dependency
      without a build path, or a copy that fails, stops the copying with
      its error.  The disk afterwards holds the copies, their parents and
      nothing else new; when the copies are separate, each build path was
      copied exactly when it was not newer than its dependency on the
      disk as it was, and holds that dependency's content. */
  method CopyDependencies(disk: Utils.Disk, dependencies: seq<Paths.Path>, basedirs: seq<Paths.Path>,
                          target: Paths.Path, now: int) returns (r: Result<seq<Paths.Path>>)
    requires disk.Valid()
    modifies disk
    ensures disk.Valid()
    ensures MapAll(dependencies, BuildPathIn(basedirs, target)).Err? ==> r.Err?
    ensures r.Ok? ==> MapAll(dependencies, BuildPathIn(basedirs, target)).Ok? && |r.value| <= |dependencies|
    ensures r.Ok? ==> forall p :: p in r.value ==> p.parts in disk.files
    ensures r.Ok? ==> forall p :: p in r.value ==> p in MapAll(dependencies, BuildPathIn(basedirs, target)).value
    ensures r.Ok? ==> CopiedState(old(disk.files), old(disk.dirs), old(disk.mtimes), r.value, now,
                                  disk.files, disk.dirs, disk.mtimes)
    ensures r.Ok? ==> CopiedDecisions(old(disk.files), old(disk.mtimes), dependencies,
                                      MapAll(dependencies, BuildPathIn(basedirs, target)).value, r.value, disk.files)
  {
    ghost var files0, dirs0, mtimes0 := disk.files, disk.dirs, disk.mtimes;
    ghost var mapped: seq<Paths.Path> := [];
    ghost var seen: seq<Paths.Path> := [];
    var copied: seq<Paths.Path> := [];
    var i := 0;
    while i < |dependencies|
      invariant 0 <= i <= |dependencies| && |copied| <= i
      invariant seen == dependencies[..i]
      invariant disk.Valid()
      invariant Copying(BuildPathIn(basedirs, target), files0, dirs0, mtimes0, now, seen, mapped, copied,
                        disk.files, disk.dirs, disk.mtimes)
    {
      var step := CopyOne(disk, dependencies[i], basedirs, target, now, files0, dirs0, mtimes0, seen, mapped, copied);
      if step.Err? {
        return Err(step.error);
      }
      PrefixSnoc(dependencies, i);
      seen := seen + [dependencies[i]];
      mapped := mapped + [step.value.0];
      if step.value.1 {
        copied := copied + [step.value.0];
      }
      i := i + 1;
    }
    assert seen == dependencies[..|dependencies|] == dependencies;
    forall p | p in copied ensures p.parts in disk.files {
      assert p.parts in Parts(copied);
    }
    return Ok(copied);
  }
}
