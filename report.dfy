/** The error report of a parsed deck (`RichTreeVisitor` with
    `only_errors`): a tree that keeps only the branches leading to a node
    with a parsing error.

    A part appears exactly when one of its nodes has an error somewhere
    below it, and the deck tree exists exactly when some part appears.
    Each node is labelled with its unresolved path taken relative to its
    parent section's unresolved path when it lies below it; an erroneous
    node's label is marked red and carries the error. */
module Reports {
  import opened Common
  import Dicts
  import Paths
  import opened Decks

  /** A `rich.tree.Tree`: a label and its children in order. */
  datatype Tree = Tree(text: string, children: seq<Tree>)

  /** The present values of a list of optional trees, in order. */
  function Somes(ts: seq<Option<Tree>>): (r: seq<Tree>)
    ensures |r| <= |ts|
    ensures |r| == 0 <==> forall i :: 0 <= i < |ts| ==> ts[i].None?
  {
    if |ts| == 0 then []
    else
      var init := Somes(ts[..|ts| - 1]);
      var last := ts[|ts| - 1];
      assert forall i :: 0 <= i < |ts| - 1 ==> ts[..|ts| - 1][i] == ts[i];
      if last.Some? then init + [last.value] else init
  }

  /** One more optional tree adds its value, if any, at the end. */
  lemma SomesSnoc(ts: seq<Option<Tree>>, i: nat)
    requires i < |ts|
    ensures Somes(ts[..i + 1]) == Somes(ts[..i]) + (if ts[i].Some? then [ts[i].value] else [])
  {
    assert ts[..i + 1][..i] == ts[..i];
  }

  /** The path shown for a node below `base`. */
  function ShownPath(p: Paths.Path, base: Paths.Path): (r: string)
    ensures !Paths.IsRelativeTo(p, base) ==> r == Paths.ToString(p)
    ensures Paths.IsRelativeTo(p, base) ==>
              var rel := Paths.RelativeTo(p, base).value;
              r == Paths.ToString(rel) && Paths.Concat(base, rel) == p
  {
    match Paths.RelativeTo(p, base)
    case Some(rel) => Paths.ToString(rel)
    case None => Paths.ToString(p)
  }

  /** The label of a node: its shown path (and flavor, for a section),
      marked red with its error when it has one. */
  function Label(n: Node, base: Paths.Path): (r: string)
    ensures n.parsingError.None? ==>
              r == ShownPath(n.unresolvedPath, base) + (if n.Section? then "@" + n.flavor else "")
    ensures n.parsingError.Some? ==>
              r == "[red]" + ShownPath(n.unresolvedPath, base) + (if n.Section? then "@" + n.flavor else "")
                   + " (" + n.parsingError.value + ")[/]"
  {
    var shown := ShownPath(n.unresolvedPath, base) + (if n.Section? then "@" + n.flavor else "");
    match n.parsingError
    case None => shown
    case Some(e) => "[red]" + shown + " (" + e + ")[/]"
  }

  /** `visit_file` / `visit_section` with `only_errors`: the report of the
      subtree rooted at `n`, a node below the section whose unresolved path
      is `base`. */
  function NodeTree(n: Node, base: Paths.Path): Option<Tree>
    decreases n, 0
  {
    match n
    case File(_, _, _, error) =>
      if error.None? then None else Some(Tree(Label(n, base), []))
    case Section(_, unresolved, _, error, _, nodes) =>
      var trees := Somes(NodeReports(nodes, unresolved));
      if error.None? && |trees| == 0 then None else Some(Tree(Label(n, base), trees))
  }

  /** The reports of the parts of a deck, one per part. */
  function PartReports(parts: Dicts.Dict<string, Part>): (r: seq<Option<Tree>>)
    ensures |r| == |parts|
  {
    seq(|parts|, i requires 0 <= i < |parts| => PartTree(parts[i].0, parts[i].1))
  }

  /** The reports of a list of nodes below `base`, one per node. */
  function NodeReports(nodes: seq<Node>, base: Paths.Path): (r: seq<Option<Tree>>)
    ensures |r| == |nodes|
    decreases nodes, 1
  {
    seq(|nodes|, i requires 0 <= i < |nodes| => NodeTree(nodes[i], base))
  }

  /** A node is reported exactly when it or a node below it has an
      error. */
  lemma {:induction false} NodeTreeReportsErrors(n: Node, base: Paths.Path)
    ensures NodeTree(n, base).Some? <==> NodeHasError(n)
    decreases n
  {
    if n.Section? {
      var children := NodeReports(n.nodes, n.unresolvedPath);
      forall i | 0 <= i < |n.nodes| ensures children[i].Some? <==> NodeHasError(n.nodes[i]) {
        NodeTreeReportsErrors(n.nodes[i], n.unresolvedPath);
      }
    }
  }

  /** `_process_part`: the part's name over the reports of its nodes, all
      below the empty path, or nothing when no node has an error. */
  function PartTree(name: string, part: Part): (r: Option<Tree>)
    ensures r.Some? <==> NodesHaveError(part.nodes)
    ensures r.Some? ==> r.value.text == name
  {
    var children := NodeReports(part.nodes, EmptyPath);
    forall i | 0 <= i < |part.nodes| ensures children[i].Some? <==> NodeHasError(part.nodes[i]) {
      NodeTreeReportsErrors(part.nodes[i], EmptyPath);
    }
    if NodesHaveError(part.nodes) then Some(Tree(name, Somes(children))) else None
  }

  /** The report of a part, given the reports of its nodes. */
  lemma PartTreeOf(name: string, part: Part, trees: seq<Tree>)
    requires trees == Somes(NodeReports(part.nodes, EmptyPath))
    ensures PartTree(name, part) == if NodesHaveError(part.nodes) then Some(Tree(name, trees)) else None
  {
  }

  /** `process`: the deck's name over the reports of its parts, or nothing
      when no part is reported. */
  function DeckTree(name: string, parts: Dicts.Dict<string, Part>): (r: Option<Tree>)
    ensures r.Some? <==> PartsHaveError(parts)
    ensures r.Some? ==> r.value.text == name
  {
    var reports := PartReports(parts);
    assert forall i :: 0 <= i < |parts| ==> (reports[i].Some? <==> NodesHaveError(parts[i].1.nodes));
    var trees := Somes(reports);
    if |trees| == 0 then None else Some(Tree(name, trees))
  }

  /** One more part adds its report, when it has one, to those before it. */
  lemma PartStep(parts: Dicts.Dict<string, Part>, i: nat, partTrees: seq<Tree>, trees: seq<Tree>)
    requires i < |parts|
    requires partTrees == Somes(PartReports(parts)[..i])
    requires trees == Somes(NodeReports(parts[i].1.nodes, EmptyPath))
    ensures Somes(PartReports(parts)[..i + 1])
         == partTrees + (if NodesHaveError(parts[i].1.nodes) then [Tree(parts[i].0, trees)] else [])
  {
    var reports := PartReports(parts);
    SomesSnoc(reports, i);
    PartTreeOf(parts[i].0, parts[i].1, trees);
  }

  /** The report of a deck, given the reports of its parts. */
  lemma DeckTreeOf(name: string, parts: Dicts.Dict<string, Part>, trees: seq<Tree>)
    requires trees == Somes(PartReports(parts))
    ensures DeckTree(name, parts) == if |trees| == 0 then None else Some(Tree(name, trees))
  {
  }

  /** The loop of `visit_section` and `_process_part`: visit each child
      below `base`, keeping the reports that exist and whether any child
      has an error. */
  method VisitChildren(nodes: seq<Node>, base: Paths.Path) returns (trees: seq<Tree>, error: bool)
    ensures trees == Somes(NodeReports(nodes, base))
    ensures error == NodesHaveError(nodes)
    decreases nodes, 2
  {
    ghost var children := NodeReports(nodes, base);
    trees := [];
    error := false;
    var i := 0;
    while i < |nodes|
      invariant 0 <= i <= |nodes|
      invariant trees == Somes(children[..i])
      invariant error == NodesHaveError(nodes[..i])
    {
      var tree, childError := VisitNode(nodes[i], base);
      assert children[i] == tree;
      SomesSnoc(children, i);
      ErrorSnoc(nodes, i);
      error := error || childError;
      if tree.Some? {
        trees := trees + [tree.value];
      }
      i := i + 1;
    }
    assert children[..i] == children;
    assert nodes[..i] == nodes;
  }

  lemma ErrorSnoc(nodes: seq<Node>, i: nat)
    requires i < |nodes|
    ensures NodesHaveError(nodes[..i + 1]) == (NodesHaveError(nodes[..i]) || NodeHasError(nodes[i]))
  {
    var next := nodes[..i + 1];
    assert next[i] == nodes[i];
    assert forall j :: 0 <= j < i ==> next[j] == nodes[..i][j];
  }

  /** `node.accept(visitor, base)`: the report of the subtree rooted at
      `n` and whether it holds an error. */
  method VisitNode(n: Node, base: Paths.Path) returns (tree: Option<Tree>, error: bool)
    ensures tree == NodeTree(n, base)
    ensures error == NodeHasError(n)
    decreases n, 0
  {
    NodeTreeReportsErrors(n, base);
    if n.File? {
      if n.parsingError.None? {
        return None, false;
      }
      return Some(Tree(Label(n, base), [])), true;
    }
    var trees, childError := VisitChildren(n.nodes, n.unresolvedPath);
    error := n.parsingError.Some? || childError;
    if !error {
      return None, false;
    }
    return Some(Tree(Label(n, base), trees)), true;
  }

  /** `RichTreeVisitor.process`: the report of a whole deck. */
  method Process(deck: Deck) returns (tree: Option<Tree>)
    ensures tree == DeckTree(deck.name, deck.parts)
  {
    var parts := deck.parts;
    ghost var reports := PartReports(parts);
    var partTrees: seq<Tree> := [];
    var i := 0;
    while i < |parts|
      invariant 0 <= i <= |parts|
      invariant partTrees == Somes(reports[..i])
    {
      var trees, error := VisitChildren(parts[i].1.nodes, EmptyPath);
      PartStep(parts, i, partTrees, trees);
      if error {
        partTrees := partTrees + [Tree(parts[i].0, trees)];
      }
      i := i + 1;
    }
    assert reports[..i] == reports;
    DeckTreeOf(deck.name, parts, partTrees);
    if |partTrees| == 0 {
      return None;
    }
    return Some(Tree(deck.name, partTrees));
  }

  /** `Parser._validate`: a deck fails validation, with "deck parsing
      failed", exactly when some node of some part has an error. */
  method Validate(deck: Deck) returns (r: Result<()>)
    ensures r.Err? <==> PartsHaveError(deck.parts)
    ensures r.Err? ==> r.error == DeckzError("deck parsing failed")
  {
    var tree := Process(deck);
    if tree.Some? {
      return Err(DeckzError("deck parsing failed"));
    }
    return Ok(());
  }
}
