/** Which shared sections the decks use, and with which flavors.

    A usage maps the unresolved path of a section to the names of the
    flavors it is included with.  The visitor collects one usage per part
    of a deck, counting only the sections found under the shared LaTeX
    directory; from the usages of all parts of all decks the analyzer
    derives the flavors of shared sections that nothing uses, and the parts
    that use a given section.  The decks and the definitions of the shared
    sections arrive as values: finding and reading them on disk is not part
    of this model.  Python's dicts are Dafny maps here: nothing in this
    module depends on their order. */
module SectionsAnalyzer {
  import opened Common
  import Dicts
  import Paths
  import Definitions
  import opened Decks
  import opened Groups

  /** Flavor names per section, keyed by unresolved path. */
  type Usage = map<Paths.Path, set<string>>

  // ------------------------------------------------------ the usage visitor

  /** The pairs the visitor records for the tree rooted at `n`: a section
      below `shared` gives its unresolved path and its flavor, files give
      nothing, and every section is searched whatever its own path. */
  function NodeUses(shared: Paths.Path, n: Node): set<(Paths.Path, string)>
    decreases n, 1
  {
    match n
    case File(_, _, _, _) => {}
    case Section(_, unresolved, resolved, _, flavor, nodes) =>
      (if Paths.IsRelativeTo(resolved, shared) then {(unresolved, flavor)} else {}) + NodesUses(shared, nodes)
  }

  function NodesUses(shared: Paths.Path, ns: seq<Node>): set<(Paths.Path, string)>
    decreases ns, 0
  {
    if |ns| == 0 then {} else NodesUses(shared, ns[..|ns| - 1]) + NodeUses(shared, ns[|ns| - 1])
  }

  /** `m` is `n` or lies somewhere below it. */
  predicate Reaches(n: Node, m: Node)
    decreases n
  {
    n == m || (n.Section? && exists i :: 0 <= i < |n.nodes| && Reaches(n.nodes[i], m))
  }

  /** The pairs of a list of nodes are those of its members. */
  lemma {:induction false} NodesUsesAt(shared: Paths.Path, ns: seq<Node>, e: (Paths.Path, string))
    ensures e in NodesUses(shared, ns) <==> exists i :: 0 <= i < |ns| && e in NodeUses(shared, ns[i])
  {
    if |ns| > 0 {
      var init := ns[..|ns| - 1];
      NodesUsesAt(shared, init, e);
      if e in NodesUses(shared, init) {
        var i :| 0 <= i < |init| && e in NodeUses(shared, init[i]);
        assert ns[i] == init[i];
      }
      if exists i :: 0 <= i < |ns| && e in NodeUses(shared, ns[i]) {
        var i :| 0 <= i < |ns| && e in NodeUses(shared, ns[i]);
        if i < |init| {
          assert init[i] == ns[i];
        }
      }
    }
  }

  /** The visitor records exactly the sections reachable from a node whose
      resolved path lies below the shared directory, each under its
      unresolved path with its flavor; no file ever adds anything. */
  lemma {:induction false} NodeUsesSpec(shared: Paths.Path, n: Node, e: (Paths.Path, string))
    ensures e in NodeUses(shared, n) <==>
              exists m :: Reaches(n, m) && m.Section? && Paths.IsRelativeTo(m.resolvedPath, shared)
                          && e == (m.unresolvedPath, m.flavor)
    decreases n
  {
    if n.Section? {
      NodesUsesAt(shared, n.nodes, e);
      if e in NodeUses(shared, n) {
        if !(Paths.IsRelativeTo(n.resolvedPath, shared) && e == (n.unresolvedPath, n.flavor)) {
          var i :| 0 <= i < |n.nodes| && e in NodeUses(shared, n.nodes[i]);
          NodeUsesSpec(shared, n.nodes[i], e);
          var m :| Reaches(n.nodes[i], m) && m.Section? && Paths.IsRelativeTo(m.resolvedPath, shared)
                   && e == (m.unresolvedPath, m.flavor);
          assert Reaches(n, m);
        } else {
          assert Reaches(n, n);
        }
      }
      if exists m :: Reaches(n, m) && m.Section? && Paths.IsRelativeTo(m.resolvedPath, shared)
                     && e == (m.unresolvedPath, m.flavor) {
        var m :| Reaches(n, m) && m.Section? && Paths.IsRelativeTo(m.resolvedPath, shared)
                 && e == (m.unresolvedPath, m.flavor);
        if m != n {
          var i :| 0 <= i < |n.nodes| && Reaches(n.nodes[i], m);
          NodeUsesSpec(shared, n.nodes[i], e);
        }
      }
    }
  }

  /** `visit_section` and `visit_file` with the shared `section_stats`. */
  method VisitUsage(shared: Paths.Path, n: Node, stats: Usage) returns (r: Usage)
    ensures Extends(r, stats, NodeUses(shared, n))
    decreases n, 1
  {
    r := stats;
    if n.Section? {
      if Paths.IsRelativeTo(n.resolvedPath, shared) {
        if n.unresolvedPath !in r {
          r := r[n.unresolvedPath := {}];
        }
        r := r[n.unresolvedPath := r[n.unresolvedPath] + {n.flavor}];
        AddToExtends(stats, n.unresolvedPath, n.flavor);
      }
      r := VisitUsageChildren(shared, n.nodes, r);
      ghost var mine: set<(Paths.Path, string)> :=
        if Paths.IsRelativeTo(n.resolvedPath, shared) then {(n.unresolvedPath, n.flavor)} else {};
      FirstsUnion(mine, NodesUses(shared, n.nodes));
    }
  }

  /** The loop over the children of a section or the nodes of a part. */
  method VisitUsageChildren(shared: Paths.Path, nodes: seq<Node>, stats: Usage) returns (r: Usage)
    ensures Extends(r, stats, NodesUses(shared, nodes))
    decreases nodes, 2
  {
    r := stats;
    var i := 0;
    while i < |nodes|
      invariant 0 <= i <= |nodes|
      invariant Extends(r, stats, NodesUses(shared, nodes[..i]))
    {
      assert nodes[..i + 1][..i] == nodes[..i];
      r := VisitUsage(shared, nodes[i], r);
      FirstsUnion(NodesUses(shared, nodes[..i]), NodeUses(shared, nodes[i]));
      i := i + 1;
    }
    assert nodes[..i] == nodes;
  }

  /** The usage of one part. */
  function PartUsage(shared: Paths.Path, part: Part): Usage {
    Group(NodesUses(shared, part.nodes))
  }

  /** A part uses a section with a flavor exactly when one of its nodes
      reaches such a section below the shared directory; a section it
      lists always has some flavor. */
  lemma PartUsageSpec(shared: Paths.Path, part: Part, p: Paths.Path, f: string)
    ensures (p in PartUsage(shared, part) && f in PartUsage(shared, part)[p]) <==>
              exists i :: 0 <= i < |part.nodes| && (p, f) in NodeUses(shared, part.nodes[i])
    ensures p in PartUsage(shared, part) ==> PartUsage(shared, part)[p] != {}
  {
    GroupPairs(NodesUses(shared, part.nodes));
    NodesUsesAt(shared, part.nodes, (p, f));
    assert (p in PartUsage(shared, part) && f in PartUsage(shared, part)[p]) <==> (p, f) in Pairs(PartUsage(shared, part));
  }

  /** `_process_part(part)`. */
  method ProcessPart(shared: Paths.Path, part: Part) returns (r: Usage)
    ensures r == PartUsage(shared, part)
  {
    r := map[];
    assert Pairs(r) == {};
    r := VisitUsageChildren(shared, part.nodes, r);
    ExtendsEmpty(r, NodesUses(shared, part.nodes));
  }

  /** The usage of every part of a deck, by part name. */
  function DeckUsage(shared: Paths.Path, parts: Dicts.Dict<string, Part>): map<string, Usage> {
    map k | k in Dicts.Keys(parts) :: PartUsage(shared, Dicts.Get(parts, k).value)
  }

  /** `process(deck)`. */
  method Process(shared: Paths.Path, deck: Deck) returns (r: map<string, Usage>)
    requires deck.Valid()
    ensures r == DeckUsage(shared, deck.parts)
  {
    var parts := deck.parts;
    r := map[];
    var i := 0;
    while i < |parts|
      invariant 0 <= i <= |parts|
      invariant r.Keys == Dicts.Keys(parts[..i])
      invariant forall k :: k in r ==> Dicts.Get(parts, k).Some? && r[k] == PartUsage(shared, Dicts.Get(parts, k).value)
    {
      var usage := ProcessPart(shared, parts[i].1);
      Dicts.GetAt(parts, i);
      KeysSnoc(parts, i);
      r := r[parts[i].0 := usage];
      i := i + 1;
    }
    assert parts[..i] == parts;
  }

  lemma KeysSnoc<V>(d: Dicts.Dict<string, V>, i: nat)
    requires i < |d|
    ensures Dicts.Keys(d[..i + 1]) == Dicts.Keys(d[..i]) + {d[i].0}
  {
    assert d[..i + 1] == d[..i] + [d[i]];
    KeysAppend(d[..i], d[i]);
  }

  lemma KeysAppend<V>(d: Dicts.Dict<string, V>, e: (string, V))
    ensures Dicts.Keys(d + [e]) == Dicts.Keys(d) + {e.0}
  {
    var s := d + [e];
    forall k | k in Dicts.Keys(d) ensures k in Dicts.Keys(s) {
      var i :| 0 <= i < |d| && d[i].0 == k;
      assert s[i] == d[i];
    }
    assert s[|d|] == e;
  }

  /** `_sections_usage`: deck path, then part name, then section. */
  function SectionsUsage(shared: Paths.Path, decks: map<Paths.Path, Dicts.Dict<string, Part>>)
    : map<Paths.Path, map<string, Usage>>
  {
    map d | d in decks :: DeckUsage(shared, decks[d])
  }

  // --------------------------------------------------------- unused flavors

  /** The names of the flavors of a section definition. */
  function FlavorNames(def: Definitions.SectionDefinition): set<string> {
    set f | f in def.flavors :: f.name
  }

  /** The starting point: every shared section with all its flavors. */
  function InitialUnused(sections: map<Paths.Path, Definitions.SectionDefinition>): Usage {
    map p | p in sections :: FlavorNames(sections[p])
  }

  /** The pairs used by the given decks, any part. */
  function UsedIn(usage: map<Paths.Path, map<string, Usage>>, decks: set<Paths.Path>): set<(Paths.Path, string)> {
    set d, k, e | d in decks && d in usage && k in usage[d] && e in Pairs(usage[d][k]) :: e
  }

  /** The pairs used by the given parts of one deck. */
  function UsedByParts(parts: map<string, Usage>, names: set<string>): set<(Paths.Path, string)> {
    set k, e | k in names && k in parts && e in Pairs(parts[k]) :: e
  }

  /** The pairs used by some part of some deck. */
  function UsedPairs(usage: map<Paths.Path, map<string, Usage>>): set<(Paths.Path, string)> {
    UsedIn(usage, usage.Keys)
  }

  /** The flavors of section `p` among `removed`. */
  function Gone(removed: set<(Paths.Path, string)>, p: Paths.Path): set<string> {
    set e | e in removed && e.0 == p :: e.1
  }

  /** What is left of `init` once the pairs of `removed` are taken out, a
      section disappearing with its last flavor.  A section that had no
      flavor to begin with loses none, so it stays. */
  function Remaining(init: Usage, removed: set<(Paths.Path, string)>): Usage {
    map p | p in init && (init[p] == {} || init[p] - Gone(removed, p) != {}) :: init[p] - Gone(removed, p)
  }

  /** A flavor is gone from a section exactly when that pair was removed. */
  lemma GoneSpec(removed: set<(Paths.Path, string)>, p: Paths.Path, f: string)
    ensures f in Gone(removed, p) <==> (p, f) in removed
  {
    if f in Gone(removed, p) {
      var e :| e in removed && e.0 == p && e.1 == f;
      assert e == (p, f);
    }
  }

  /** Remaining flavors are a sub-map of the initial ones; a pair remains
      exactly when it was there and was not removed; a section left with
      no flavor is one that never had any. */
  lemma RemainingSpec(init: Usage, removed: set<(Paths.Path, string)>)
    ensures Remaining(init, removed).Keys <= init.Keys
    ensures forall p :: p in Remaining(init, removed) ==> Remaining(init, removed)[p] <= init[p]
    ensures forall p, f :: p in Remaining(init, removed) && f in Remaining(init, removed)[p] <==>
                           p in init && f in init[p] && (p, f) !in removed
    ensures forall p :: p in Remaining(init, removed) && Remaining(init, removed)[p] == {} ==> init[p] == {}
    ensures forall p :: p in init && init[p] == {} ==> p in Remaining(init, removed)
  {
    var r := Remaining(init, removed);
    forall p, f | p in init && f in init[p] && (p, f) !in removed
      ensures p in r && f in r[p]
    {
      GoneSpec(removed, p, f);
      assert f in init[p] - Gone(removed, p);
    }
    forall p, f | p in r && f in r[p]
      ensures (p, f) !in removed
    {
      GoneSpec(removed, p, f);
    }
  }

  /** One turn of the innermost loop of `unused_flavors`: removing a pair
      from what remains is the same as counting it among the removed ones. */
  lemma DiscardStep(init: Usage, removed: set<(Paths.Path, string)>, p: Paths.Path, f: string, r: Usage)
    requires r == (var s := Remaining(init, removed);
                   if p in s && f in s[p] then
                     (if s[p] - {f} == {} then s - {p} else s[p := s[p] - {f}])
                   else s)
    ensures r == Remaining(init, removed + {(p, f)})
  {
    var s := Remaining(init, removed);
    var t := Remaining(init, removed + {(p, f)});
    var g := Gone(removed, p);
    GoneSpec(removed, p, f);
    assert Gone(removed + {(p, f)}, p) == g + {f};
    forall q | q != p ensures (q in r <==> q in t) && (q in t ==> r[q] == t[q]) {
      assert Gone(removed + {(p, f)}, q) == Gone(removed, q);
      assert q in r <==> q in s;
      assert q in r ==> r[q] == s[q];
    }
    if p in init && f in init[p] && f !in g {
      assert f in init[p] - g;
      assert p in s && f in s[p];
      assert s[p] - {f} == init[p] - (g + {f});
    } else {
      assert r == s;
      if p in init {
        assert init[p] - (g + {f}) == init[p] - g;
      }
    }
    assert (p in r <==> p in t) && (p in t ==> r[p] == t[p]);
    assert r.Keys == t.Keys;
  }

  /** Nothing removed leaves every section with all its flavors. */
  lemma RemainingNothing(init: Usage)
    ensures Remaining(init, {}) == init
  {
    forall p | p in init ensures p in Remaining(init, {}) && Remaining(init, {})[p] == init[p] {
      assert Gone({}, p) == {};
    }
  }

  /** The pairs of one section with each of the given flavors. */
  function Tagged(p: Paths.Path, flavors: set<string>): set<(Paths.Path, string)> {
    set f | f in flavors :: (p, f)
  }

  /** The pairs of a usage whose section is among `paths`. */
  function PairsAt(u: Usage, paths: set<Paths.Path>): set<(Paths.Path, string)> {
    set p, f | p in paths && p in u && f in u[p] :: (p, f)
  }

  /** The innermost loop of `unused_flavors`: the flavors of one section
      used by one part. */
  method DiscardFlavors(ghost init: Usage, ghost removed: set<(Paths.Path, string)>, unused: Usage,
                        path: Paths.Path, flavors: set<string>) returns (r: Usage)
    requires unused == Remaining(init, removed)
    ensures r == Remaining(init, removed + Tagged(path, flavors))
  {
    r := unused;
    var todo := flavors;
    ghost var gone := removed;
    assert Tagged(path, flavors - todo) == {};
    while todo != {}
      invariant todo <= flavors
      invariant gone == removed + Tagged(path, flavors - todo)
      invariant r == Remaining(init, gone)
      decreases todo
    {
      var flavor :| flavor in todo;
      if path in r && flavor in r[path] {
        r := r[path := r[path] - {flavor}];
        if r[path] == {} {
          r := r - {path};
        }
      }
      DiscardStep(init, gone, path, flavor, r);
      gone := gone + {(path, flavor)};
      assert Tagged(path, flavors - (todo - {flavor})) == Tagged(path, flavors - todo) + {(path, flavor)};
      todo := todo - {flavor};
    }
    assert flavors - todo == flavors;
  }

  /** The loop over the sections of one part's usage. */
  method DiscardPart(ghost init: Usage, ghost removed: set<(Paths.Path, string)>, unused: Usage, u: Usage)
    returns (r: Usage)
    requires unused == Remaining(init, removed)
    ensures r == Remaining(init, removed + Pairs(u))
  {
    r := unused;
    var paths := u.Keys;
    ghost var gone := removed;
    assert PairsAt(u, u.Keys - paths) == {};
    while paths != {}
      invariant paths <= u.Keys
      invariant gone == removed + PairsAt(u, u.Keys - paths)
      invariant r == Remaining(init, gone)
      decreases paths
    {
      var path :| path in paths;
      r := DiscardFlavors(init, gone, r, path, u[path]);
      gone := gone + Tagged(path, u[path]);
      assert PairsAt(u, u.Keys - (paths - {path})) == PairsAt(u, u.Keys - paths) + Tagged(path, u[path]);
      paths := paths - {path};
    }
    assert PairsAt(u, u.Keys - paths) == Pairs(u);
  }

  lemma UsedByPartsStep(parts: map<string, Usage>, names: set<string>, k: string)
    requires k in parts
    ensures UsedByParts(parts, names + {k}) == UsedByParts(parts, names) + Pairs(parts[k])
  {
  }

  /** The loop over the parts of one deck. */
  method DiscardDeck(ghost init: Usage, ghost removed: set<(Paths.Path, string)>, unused: Usage,
                     parts: map<string, Usage>) returns (r: Usage)
    requires unused == Remaining(init, removed)
    ensures r == Remaining(init, removed + UsedByParts(parts, parts.Keys))
  {
    r := unused;
    var names := parts.Keys;
    ghost var gone := removed;
    assert UsedByParts(parts, parts.Keys - names) == {};
    while names != {}
      invariant names <= parts.Keys
      invariant gone == removed + UsedByParts(parts, parts.Keys - names)
      invariant r == Remaining(init, gone)
      decreases names
    {
      var name :| name in names;
      ghost var done := parts.Keys - names;
      r := DiscardPart(init, gone, r, parts[name]);
      gone := gone + Pairs(parts[name]);
      UsedByPartsStep(parts, done, name);
      assert parts.Keys - (names - {name}) == done + {name};
      names := names - {name};
    }
    assert parts.Keys - names == parts.Keys;
  }

  lemma UsedInStep(usage: map<Paths.Path, map<string, Usage>>, decks: set<Paths.Path>, d: Paths.Path)
    requires d in usage
    ensures UsedIn(usage, decks + {d}) == UsedIn(usage, decks) + UsedByParts(usage[d], usage[d].Keys)
  {
    forall e | e in UsedByParts(usage[d], usage[d].Keys) ensures e in UsedIn(usage, decks + {d}) {
      var k :| k in usage[d] && e in Pairs(usage[d][k]);
    }
  }

  /** `unused_flavors()`: the flavors of shared sections that no part of
      any deck uses. */
  method UnusedFlavors(sections: map<Paths.Path, Definitions.SectionDefinition>,
                       usage: map<Paths.Path, map<string, Usage>>) returns (r: Usage)
    ensures r == Remaining(InitialUnused(sections), UsedPairs(usage))
  {
    ghost var init := InitialUnused(sections);
    r := map p | p in sections :: FlavorNames(sections[p]);
    RemainingNothing(init);
    var decks := usage.Keys;
    ghost var gone: set<(Paths.Path, string)> := {};
    assert UsedIn(usage, usage.Keys - decks) == {};
    while decks != {}
      invariant decks <= usage.Keys
      invariant gone == UsedIn(usage, usage.Keys - decks)
      invariant r == Remaining(init, gone)
      decreases decks
    {
      var deck :| deck in decks;
      ghost var done := usage.Keys - decks;
      r := DiscardDeck(init, gone, r, usage[deck]);
      gone := gone + UsedByParts(usage[deck], usage[deck].Keys);
      UsedInStep(usage, done, deck);
      assert usage.Keys - (decks - {deck}) == done + {deck};
      decks := decks - {deck};
    }
    assert usage.Keys - decks == usage.Keys;
  }

  // ----------------------------------------------------- parts using flavor

  /** A part's usage holds `section`, with `flavor` when one is given. */
  predicate Uses(u: Usage, section: Paths.Path, flavor: Option<string>) {
    section in u && (flavor.None? || flavor.value in u[section])
  }

  /** The named parts that use `section` with `flavor`. */
  function PartsUsing(parts: map<string, Usage>, names: set<string>, section: Paths.Path, flavor: Option<string>)
    : set<string>
  {
    set k | k in names && k in parts && Uses(parts[k], section, flavor)
  }

  /** Among the given decks, those with a part using `section` with
      `flavor`, each with those parts. */
  function UsingIn(usage: map<Paths.Path, map<string, Usage>>, decks: set<Paths.Path>,
                   section: Paths.Path, flavor: Option<string>): map<Paths.Path, set<string>>
  {
    map d | d in decks && d in usage && PartsUsing(usage[d], usage[d].Keys, section, flavor) != {} ::
      PartsUsing(usage[d], usage[d].Keys, section, flavor)
  }

  /** `base` with deck `d` mapped to `names`, when there are any. */
  function WithParts(base: map<Paths.Path, set<string>>, d: Paths.Path, names: set<string>): map<Paths.Path, set<string>> {
    if names == {} then base else base[d := names]
  }

  /** `using[deck]` created when missing, then `part` added to it. */
  function AddUser(using: map<Paths.Path, set<string>>, deck: Paths.Path, part: string): map<Paths.Path, set<string>> {
    using[deck := (if deck in using then using[deck] else {}) + {part}]
  }

  /** The innermost loop of `parts_using_flavor`: the sections of one part. */
  method AddPartUser(u: Usage, sectionPath: Paths.Path, flavor: Option<string>, deck: Paths.Path, part: string,
                     using: map<Paths.Path, set<string>>) returns (r: map<Paths.Path, set<string>>)
    ensures r == if Uses(u, sectionPath, flavor) then AddUser(using, deck, part) else using
  {
    r := using;
    var paths := u.Keys;
    ghost var hit := false;
    while paths != {}
      invariant paths <= u.Keys
      invariant hit <==> sectionPath in u.Keys - paths && Uses(u, sectionPath, flavor)
      invariant r == if hit then AddUser(using, deck, part) else using
      decreases paths
    {
      var path :| path in paths;
      if path == sectionPath && (flavor.None? || flavor.value in u[path]) {
        if deck !in r {
          r := r[deck := {}];
        }
        r := r[deck := r[deck] + {part}];
        hit := true;
      }
      paths := paths - {path};
    }
  }

  /** Adding a part to the deck's entry, created on demand. */
  lemma WithPartsAdd(using: map<Paths.Path, set<string>>, deck: Paths.Path, names: set<string>, part: string)
    requires deck !in using
    ensures AddUser(WithParts(using, deck, names), deck, part) == WithParts(using, deck, names + {part})
  {
  }

  /** The loop over the parts of one deck, which `using` does not hold yet. */
  method AddDeckUsers(parts: map<string, Usage>, sectionPath: Paths.Path, flavor: Option<string>, deck: Paths.Path,
                      using: map<Paths.Path, set<string>>) returns (r: map<Paths.Path, set<string>>)
    requires deck !in using
    ensures r == WithParts(using, deck, PartsUsing(parts, parts.Keys, sectionPath, flavor))
  {
    r := using;
    var names := parts.Keys;
    while names != {}
      invariant names <= parts.Keys
      invariant r == WithParts(using, deck, PartsUsing(parts, parts.Keys - names, sectionPath, flavor))
      decreases names
    {
      var name :| name in names;
      ghost var done := PartsUsing(parts, parts.Keys - names, sectionPath, flavor);
      r := AddPartUser(parts[name], sectionPath, flavor, deck, name, r);
      ghost var next := PartsUsing(parts, parts.Keys - (names - {name}), sectionPath, flavor);
      if Uses(parts[name], sectionPath, flavor) {
        WithPartsAdd(using, deck, done, name);
        assert next == done + {name};
      } else {
        assert next == done;
      }
      names := names - {name};
    }
    assert parts.Keys - names == parts.Keys;
  }

  lemma UsingInStep(usage: map<Paths.Path, map<string, Usage>>, decks: set<Paths.Path>, d: Paths.Path,
                    section: Paths.Path, flavor: Option<string>)
    requires d in usage && d !in decks
    ensures d !in UsingIn(usage, decks, section, flavor)
    ensures UsingIn(usage, decks + {d}, section, flavor) ==
            WithParts(UsingIn(usage, decks, section, flavor), d, PartsUsing(usage[d], usage[d].Keys, section, flavor))
  {
  }

  /** `parts_using_flavor(section, flavor)`: each deck with a part that
      uses the section (with the flavor, when one is given), mapped to
      those parts. */
  method PartsUsingFlavor(usage: map<Paths.Path, map<string, Usage>>, section: string, flavor: Option<string>)
    returns (using: map<Paths.Path, set<string>>)
    ensures using == UsingIn(usage, usage.Keys, Paths.FromString(section), flavor)
  {
    var sectionPath := Paths.FromString(section);
    using := map[];
    var decks := usage.Keys;
    while decks != {}
      invariant decks <= usage.Keys
      invariant using == UsingIn(usage, usage.Keys - decks, sectionPath, flavor)
      decreases decks
    {
      var deck :| deck in decks;
      ghost var done := usage.Keys - decks;
      UsingInStep(usage, done, deck, sectionPath, flavor);
      using := AddDeckUsers(usage[deck], sectionPath, flavor, deck, using);
      assert usage.Keys - (decks - {deck}) == done + {deck};
      decks := decks - {deck};
    }
    assert usage.Keys - decks == usage.Keys;
  }

  /** A pair is counted as used exactly when asking which parts use that
      section with that flavor finds some deck. */
  lemma UsedIffSomePart(usage: map<Paths.Path, map<string, Usage>>, p: Paths.Path, f: string)
    ensures (p, f) in UsedPairs(usage) <==> UsingIn(usage, usage.Keys, p, Some(f)) != map[]
  {
    var using := UsingIn(usage, usage.Keys, p, Some(f));
    if (p, f) in UsedPairs(usage) {
      var d, k :| d in usage && k in usage[d] && (p, f) in Pairs(usage[d][k]);
      assert k in PartsUsing(usage[d], usage[d].Keys, p, Some(f));
      assert d in using;
    }
    if using != map[] {
      var d :| d in using;
      var k :| k in PartsUsing(usage[d], usage[d].Keys, p, Some(f));
      assert (p, f) in Pairs(usage[d][k]);
    }
  }

  /** Over decks read from their parts, a pair of a shared section is
      unused exactly when no node of any part of any deck reaches a section
      below the shared directory with that unresolved path and flavor. */
  lemma UnusedFlavorsOfDecks(shared: Paths.Path, decks: map<Paths.Path, Dicts.Dict<string, Part>>,
                             sections: map<Paths.Path, Definitions.SectionDefinition>, p: Paths.Path, f: string)
    requires p in sections && f in FlavorNames(sections[p])
    ensures var r := Remaining(InitialUnused(sections), UsedPairs(SectionsUsage(shared, decks)));
            (p in r && f in r[p]) <==>
              forall d, k :: d in decks && k in Dicts.Keys(decks[d]) ==>
                (p, f) !in NodesUses(shared, Dicts.Get(decks[d], k).value.nodes)
  {
    var usage := SectionsUsage(shared, decks);
    RemainingSpec(InitialUnused(sections), UsedPairs(usage));
    if (p, f) in UsedPairs(usage) {
      var d, k :| d in usage && k in usage[d] && (p, f) in Pairs(usage[d][k]);
      GroupPairs(NodesUses(shared, Dicts.Get(decks[d], k).value.nodes));
    }
    forall d, k | d in decks && k in Dicts.Keys(decks[d])
      ensures (p, f) in NodesUses(shared, Dicts.Get(decks[d], k).value.nodes) ==> (p, f) in UsedPairs(usage)
    {
      var s := NodesUses(shared, Dicts.Get(decks[d], k).value.nodes);
      GroupPairs(s);
      assert usage[d][k] == Group(s);
      if (p, f) in s {
        assert (p, f) in Pairs(usage[d][k]);
      }
    }
  }
}
