/** The images of shared sections that have no license.

    The visitor files every dependency of a deck under the unresolved path
    of the section that holds it directly (the empty path for a file
    placed at the top of a part); the analyzer unions these across decks,
    asks the renderer which assets each dependency uses, and keeps the
    assets whose metadata file is missing or has no `license` key.  The
    decks arrive as the values of their parts, the renderer as the asset
    names each rendering asks for, and the disk as a read-only file
    system. */
module AssetsAnalyzer {
  import opened Common
  import Dicts
  import Paths
  import Strings
  import Yaml
  import opened Decks
  import opened Groups

  /** Resolved dependency paths per section, keyed by unresolved path. */
  type Dependencies = map<Paths.Path, set<Paths.Path>>

  // ----------------------------------------------------------- the visitor

  /** The pairs the visitor records for the tree rooted at `n`, whose
      enclosing section is `base`: a file goes under `base`, and a section
      passes its own unresolved path down to its children. */
  function NodeDeps(base: Paths.Path, n: Node): set<(Paths.Path, Paths.Path)>
    decreases n, 1
  {
    match n
    case File(_, _, resolved, _) => {(base, resolved)}
    case Section(_, unresolved, _, _, _, nodes) => NodesDeps(unresolved, nodes)
  }

  function NodesDeps(base: Paths.Path, ns: seq<Node>): set<(Paths.Path, Paths.Path)>
    decreases ns, 0
  {
    if |ns| == 0 then {} else NodesDeps(base, ns[..|ns| - 1]) + NodeDeps(base, ns[|ns| - 1])
  }

  /** `m` is `n` or lies below it, and `key` is the unresolved path of the
      section that holds `m` directly (`base` when `m` is `n` itself). */
  predicate HeldBy(n: Node, base: Paths.Path, m: Node, key: Paths.Path)
    decreases n
  {
    (n == m && key == base)
    || (n.Section? && exists i :: 0 <= i < |n.nodes| && HeldBy(n.nodes[i], n.unresolvedPath, m, key))
  }

  lemma {:induction false} NodesDepsAt(base: Paths.Path, ns: seq<Node>, e: (Paths.Path, Paths.Path))
    ensures e in NodesDeps(base, ns) <==> exists i :: 0 <= i < |ns| && e in NodeDeps(base, ns[i])
  {
    if |ns| > 0 {
      var init := ns[..|ns| - 1];
      NodesDepsAt(base, init, e);
      if e in NodesDeps(base, init) {
        var i :| 0 <= i < |init| && e in NodeDeps(base, init[i]);
        assert ns[i] == init[i];
      }
      if exists i :: 0 <= i < |ns| && e in NodeDeps(base, ns[i]) {
        var i :| 0 <= i < |ns| && e in NodeDeps(base, ns[i]);
        if i < |init| {
          assert init[i] == ns[i];
        }
      }
    }
  }

  /** The visitor records exactly the files reachable from a node, each
      under the section holding it directly: sections themselves record
      nothing, so a section none of whose children is a file gets no entry
      of its own. */
  lemma {:induction false} NodeDepsSpec(base: Paths.Path, n: Node, e: (Paths.Path, Paths.Path))
    ensures e in NodeDeps(base, n) <==> exists m :: HeldBy(n, base, m, e.0) && m.File? && m.resolvedPath == e.1
    decreases n
  {
    if n.Section? {
      NodesDepsAt(n.unresolvedPath, n.nodes, e);
      if e in NodeDeps(base, n) {
        var i :| 0 <= i < |n.nodes| && e in NodeDeps(n.unresolvedPath, n.nodes[i]);
        NodeDepsSpec(n.unresolvedPath, n.nodes[i], e);
        var m :| HeldBy(n.nodes[i], n.unresolvedPath, m, e.0) && m.File? && m.resolvedPath == e.1;
        assert HeldBy(n, base, m, e.0);
      }
      if exists m :: HeldBy(n, base, m, e.0) && m.File? && m.resolvedPath == e.1 {
        var m :| HeldBy(n, base, m, e.0) && m.File? && m.resolvedPath == e.1;
        var i :| 0 <= i < |n.nodes| && HeldBy(n.nodes[i], n.unresolvedPath, m, e.0);
        NodeDepsSpec(n.unresolvedPath, n.nodes[i], e);
      }
    } else {
      assert HeldBy(n, base, n, base);
    }
  }

  /** `visit_file` and `visit_section` with the shared dependencies. */
  method VisitDeps(n: Node, deps: Dependencies, base: Paths.Path) returns (r: Dependencies)
    ensures Extends(r, deps, NodeDeps(base, n))
    decreases n, 1
  {
    if n.File? {
      r := deps;
      if base !in r {
        r := r[base := {}];
      }
      r := r[base := r[base] + {n.resolvedPath}];
      AddToExtends(deps, base, n.resolvedPath);
    } else {
      r := VisitDepsChildren(n.nodes, deps, n.unresolvedPath);
    }
  }

  /** The loop of `visit_section` and of `_process_part`. */
  method VisitDepsChildren(nodes: seq<Node>, deps: Dependencies, base: Paths.Path) returns (r: Dependencies)
    ensures Extends(r, deps, NodesDeps(base, nodes))
    decreases nodes, 2
  {
    r := deps;
    var i := 0;
    while i < |nodes|
      invariant 0 <= i <= |nodes|
      invariant Extends(r, deps, NodesDeps(base, nodes[..i]))
    {
      assert nodes[..i + 1][..i] == nodes[..i];
      r := VisitDeps(nodes[i], r, base);
      FirstsUnion(NodesDeps(base, nodes[..i]), NodeDeps(base, nodes[i]));
      i := i + 1;
    }
    assert nodes[..i] == nodes;
  }

  /** The pairs of all parts of a deck, each part starting from the empty
      path. */
  function DeckDeps(parts: Dicts.Dict<string, Part>): set<(Paths.Path, Paths.Path)> {
    if |parts| == 0 then {}
    else DeckDeps(parts[..|parts| - 1]) + NodesDeps(EmptyPath, parts[|parts| - 1].1.nodes)
  }

  /** `process(deck)`: the dependencies of every part, one dict for the
      whole deck. */
  method Process(parts: Dicts.Dict<string, Part>) returns (r: Dependencies)
    ensures r == Group(DeckDeps(parts))
  {
    r := map[];
    assert Pairs(r) == {};
    var i := 0;
    while i < |parts|
      invariant 0 <= i <= |parts|
      invariant Extends(r, map[], DeckDeps(parts[..i]))
    {
      ghost var prev := r;
      r := VisitDepsChildren(parts[i].1.nodes, r, EmptyPath);
      ExtendsTrans(r, prev, map[], DeckDeps(parts[..i]), NodesDeps(EmptyPath, parts[i].1.nodes));
      DeckDepsSnoc(parts, i);
      i := i + 1;
    }
    assert parts[..i] == parts;
    ExtendsEmpty(r, DeckDeps(parts));
  }

  lemma DeckDepsSnoc(parts: Dicts.Dict<string, Part>, i: nat)
    requires i < |parts|
    ensures DeckDeps(parts[..i + 1]) == DeckDeps(parts[..i]) + NodesDeps(EmptyPath, parts[i].1.nodes)
  {
    assert parts[..i + 1][..i] == parts[..i];
  }

  /** The pairs of all decks. */
  function AllDeps(decks: seq<Dicts.Dict<string, Part>>): set<(Paths.Path, Paths.Path)> {
    if |decks| == 0 then {} else AllDeps(decks[..|decks| - 1]) + DeckDeps(decks[|decks| - 1])
  }

  /** The pairs of `g` whose key is among `keys`. */
  function PairsAt(g: Dependencies, keys: set<Paths.Path>): set<(Paths.Path, Paths.Path)> {
    set k, v | k in keys && k in g && v in g[k] :: (k, v)
  }

  lemma PairsAtStep(g: Dependencies, keys: set<Paths.Path>, k: Paths.Path)
    requires k in g
    ensures PairsAt(g, keys + {k}) == PairsAt(g, keys) + set v | v in g[k] :: (k, v)
  {
  }

  /** `result.setdefault(path, set()).update(deps)` for a non-empty `deps`. */
  lemma UpdateExtends(g: Dependencies, k: Paths.Path, vs: set<Paths.Path>, r: Dependencies)
    requires vs != {}
    requires r == (if k in g then g else g[k := {}])[k := (if k in g then g[k] else {}) + vs]
    ensures Extends(r, g, set v | v in vs :: (k, v))
  {
    var s := set v | v in vs :: (k, v);
    var v :| v in vs;
    assert (k, v) in s;
    assert Firsts(s) == {k};
    forall e | e in Pairs(r) ensures e in Pairs(g) + s {
      if e.0 != k {
        assert e.1 in g[e.0];
      }
    }
  }

  /** The loop of `_section_dependencies` over the entries of one deck's
      dependencies, none of whose sets is empty. */
  method MergeDeck(result: Dependencies, sectionDeps: Dependencies) returns (r: Dependencies)
    requires forall k :: k in sectionDeps ==> sectionDeps[k] != {}
    ensures Extends(r, result, Pairs(sectionDeps))
  {
    r := result;
    var paths := sectionDeps.Keys;
    assert PairsAt(sectionDeps, sectionDeps.Keys - paths) == {};
    while paths != {}
      invariant paths <= sectionDeps.Keys
      invariant Extends(r, result, PairsAt(sectionDeps, sectionDeps.Keys - paths))
      decreases paths
    {
      var path :| path in paths;
      ghost var prev := r;
      ghost var done := sectionDeps.Keys - paths;
      if path !in r {
        r := r[path := {}];
      }
      r := r[path := r[path] + sectionDeps[path]];
      UpdateExtends(prev, path, sectionDeps[path], r);
      ExtendsTrans(r, prev, result, PairsAt(sectionDeps, done), set v | v in sectionDeps[path] :: (path, v));
      PairsAtStep(sectionDeps, done, path);
      assert sectionDeps.Keys - (paths - {path}) == done + {path};
      paths := paths - {path};
    }
    assert PairsAt(sectionDeps, sectionDeps.Keys - paths) == Pairs(sectionDeps);
  }

  /** `_section_dependencies`: the dependencies of every deck, a section's
      sets united across decks. */
  method SectionDependencies(decks: seq<Dicts.Dict<string, Part>>) returns (r: Dependencies)
    ensures r == Group(AllDeps(decks))
  {
    r := map[];
    assert Pairs(r) == {};
    var i := 0;
    while i < |decks|
      invariant 0 <= i <= |decks|
      invariant Extends(r, map[], AllDeps(decks[..i]))
    {
      var sectionDeps := Process(decks[i]);
      GroupPairs(DeckDeps(decks[i]));
      ghost var prev := r;
      r := MergeDeck(r, sectionDeps);
      ExtendsTrans(r, prev, map[], AllDeps(decks[..i]), DeckDeps(decks[i]));
      AllDepsSnoc(decks, i);
      i := i + 1;
    }
    assert decks[..i] == decks;
    ExtendsEmpty(r, AllDeps(decks));
  }

  lemma AllDepsSnoc(decks: seq<Dicts.Dict<string, Part>>, i: nat)
    requires i < |decks|
    ensures AllDeps(decks[..i + 1]) == AllDeps(decks[..i]) + DeckDeps(decks[i])
  {
    assert decks[..i + 1][..i] == decks[..i];
  }

  /** A dependency of a section, resolved, comes from some deck's part:
      the sets of the decks are united, not replaced. */
  lemma SectionDependenciesUnion(decks: seq<Dicts.Dict<string, Part>>, k: Paths.Path, v: Paths.Path)
    ensures (k in Group(AllDeps(decks)) && v in Group(AllDeps(decks))[k]) <==>
              exists i :: 0 <= i < |decks| && k in Group(DeckDeps(decks[i])) && v in Group(DeckDeps(decks[i]))[k]
  {
    GroupPairs(AllDeps(decks));
    AllDepsAt(decks, (k, v));
    assert (k in Group(AllDeps(decks)) && v in Group(AllDeps(decks))[k]) <==> (k, v) in Pairs(Group(AllDeps(decks)));
    forall i | 0 <= i < |decks|
      ensures (k, v) in DeckDeps(decks[i]) <==> k in Group(DeckDeps(decks[i])) && v in Group(DeckDeps(decks[i]))[k]
    {
      GroupPairs(DeckDeps(decks[i]));
      assert (k in Group(DeckDeps(decks[i])) && v in Group(DeckDeps(decks[i]))[k]) <==>
             (k, v) in Pairs(Group(DeckDeps(decks[i])));
    }
  }

  lemma {:induction false} AllDepsAt(decks: seq<Dicts.Dict<string, Part>>, e: (Paths.Path, Paths.Path))
    ensures e in AllDeps(decks) <==> exists i :: 0 <= i < |decks| && e in DeckDeps(decks[i])
  {
    if |decks| > 0 {
      var init := decks[..|decks| - 1];
      AllDepsAt(init, e);
      if e in AllDeps(init) {
        var i :| 0 <= i < |init| && e in DeckDeps(init[i]);
        assert decks[i] == init[i];
      }
      if exists i :: 0 <= i < |decks| && e in DeckDeps(decks[i]) {
        var i :| 0 <= i < |decks| && e in DeckDeps(decks[i]);
        if i < |init| {
          assert init[i] == decks[i];
        }
      }
    }
  }

  // ---------------------------------------------------------------- licenses

  /** `_is_image_licensed(path)`. */
  function IsImageLicensed(fs: Yaml.FileSystem, path: Paths.Path): (r: Result<bool>)
    ensures Paths.WithSuffix(path, ".yml").Err? ==> r.Err?
    ensures Paths.WithSuffix(path, ".yml").Ok? ==>
              var metadata := Paths.WithSuffix(path, ".yml").value;
              && (metadata.parts !in fs ==> r == Ok(false))
              && (r == Ok(true) ==> Yaml.IsFile(fs, metadata.parts))
              && (Yaml.IsFile(fs, metadata.parts) && fs[metadata.parts].content.Some?
                  && fs[metadata.parts].content.value.Map? ==>
                    r == Ok("license" in Dicts.Keys(fs[metadata.parts].content.value.entries)))
  {
    var metadata :- Paths.WithSuffix(path, ".yml");
    if metadata.parts !in fs then Ok(false)
    else
      var document :- Yaml.Load(fs, metadata);
      Yaml.In("license", document)
  }

  /** `IsImageLicensed` on a fixed file system, as a function value. */
  function LicensedIn(fs: Yaml.FileSystem): Paths.Path -> Result<bool> {
    p => IsImageLicensed(fs, p)
  }

  /** Running the check of `_is_image_licensed` on the disk. */
  method CheckLicense(fs: Yaml.FileSystem, path: Paths.Path) returns (r: Result<bool>)
    ensures r == LicensedIn(fs)(path)
  {
    r := IsImageLicensed(fs, path);
  }

  /** `assets_dir / asset`. */
  function AssetPath(assetsDir: Paths.Path, asset: string): Paths.Path {
    Paths.Concat(assetsDir, Paths.FromString(asset))
  }

  method ComputeAssetPath(assetsDir: Paths.Path, asset: string) returns (r: Paths.Path)
    ensures r == AssetIn(assetsDir)(asset)
  {
    r := AssetPath(assetsDir, asset);
  }

  /** `AssetPath` below a fixed assets directory, as a function value. */
  function AssetIn(assetsDir: Paths.Path): string -> Paths.Path {
    a => AssetPath(assetsDir, a)
  }

  /** The paths of the given asset names. */
  function Images(assetOf: string -> Paths.Path, assets: seq<string>): set<Paths.Path> {
    set a | a in assets :: assetOf(a)
  }

  /** `_section_assets(dependencies)`: the assets the rendering of each
      dependency asks for. */
  function SectionAssets(assetOf: string -> Paths.Path, rendered: Paths.Path -> seq<string>, deps: set<Paths.Path>)
    : set<Paths.Path>
  {
    set p, a | p in deps && a in rendered(p) :: assetOf(a)
  }

  /** Every check among `images` succeeds. */
  predicate AllChecked(licensed: Paths.Path -> Result<bool>, images: set<Paths.Path>) {
    forall i :: i in images ==> licensed(i).Ok?
  }

  /** The images whose check says they have no license. */
  function Unlicensed(licensed: Paths.Path -> Result<bool>, images: set<Paths.Path>): set<Paths.Path> {
    set i | i in images && licensed(i) == Ok(false)
  }

  /** The check of one of `images` fails with `e`. */
  predicate FailsWith(licensed: Paths.Path -> Result<bool>, images: set<Paths.Path>, e: Error) {
    exists i :: i in images && licensed(i) == Err(e)
  }

  lemma ImagesSnoc(assetOf: string -> Paths.Path, assets: seq<string>, k: nat)
    requires k < |assets|
    ensures Images(assetOf, assets[..k + 1]) == Images(assetOf, assets[..k]) + {assetOf(assets[k])}
    ensures assetOf(assets[k]) in Images(assetOf, assets)
  {
    assert assets[..k + 1] == assets[..k] + [assets[k]];
  }

  /** Checking one more image. */
  lemma CheckedStep(licensed: Paths.Path -> Result<bool>, images: set<Paths.Path>, i: Paths.Path)
    ensures AllChecked(licensed, images + {i}) <==> AllChecked(licensed, images) && licensed(i).Ok?
    ensures Unlicensed(licensed, images + {i}) ==
            Unlicensed(licensed, images) + if licensed(i) == Ok(false) then {i} else {}
  {
  }

  /** Checking the image of the `k`-th asset: its failure is a failure of
      the whole, its success extends what was checked. */
  lemma FileStep(assetOf: string -> Paths.Path, licensed: Paths.Path -> Result<bool>, assets: seq<string>,
                 k: nat, acc: set<Paths.Path>, found: set<Paths.Path>)
    requires k < |assets|
    requires found == acc + Unlicensed(licensed, Images(assetOf, assets[..k]))
    ensures var i := assetOf(assets[k]);
            && (licensed(i).Err? ==>
                  !AllChecked(licensed, Images(assetOf, assets)) &&
                  FailsWith(licensed, Images(assetOf, assets), licensed(i).error))
            && (AllChecked(licensed, Images(assetOf, assets[..k])) && licensed(i).Ok? ==>
                  AllChecked(licensed, Images(assetOf, assets[..k + 1])) &&
                  (if licensed(i) == Ok(false) then found + {i} else found) ==
                    acc + Unlicensed(licensed, Images(assetOf, assets[..k + 1])))
  {
    ImagesSnoc(assetOf, assets, k);
    CheckedStep(licensed, Images(assetOf, assets[..k]), assetOf(assets[k]));
  }

  /** The generator over the assets of one dependency. */
  method UnlicensedOfFile(fs: Yaml.FileSystem, assetsDir: Paths.Path, assets: seq<string>, acc: set<Paths.Path>)
    returns (r: Result<set<Paths.Path>>)
    ensures r.Ok? <==> AllChecked(LicensedIn(fs), Images(AssetIn(assetsDir), assets))
    ensures r.Ok? ==> r.value == acc + Unlicensed(LicensedIn(fs), Images(AssetIn(assetsDir), assets))
    ensures r.Err? ==> FailsWith(LicensedIn(fs), Images(AssetIn(assetsDir), assets), r.error)
  {
    ghost var assetOf := AssetIn(assetsDir);
    ghost var licensedIn := LicensedIn(fs);
    var found := acc;
    var k := 0;
    while k < |assets|
      invariant 0 <= k <= |assets|
      invariant AllChecked(licensedIn, Images(assetOf, assets[..k]))
      invariant found == acc + Unlicensed(licensedIn, Images(assetOf, assets[..k]))
    {
      var image := ComputeAssetPath(assetsDir, assets[k]);
      FileStep(assetOf, licensedIn, assets, k, acc, found);
      var licensed := CheckLicense(fs, image);
      if licensed.Err? {
        return Err(licensed.error);
      }
      if !licensed.value {
        found := found + {image};
      }
      k := k + 1;
    }
    assert assets[..k] == assets;
    return Ok(found);
  }

  /** `frozenset(i for i in _section_assets(d) if not _is_image_licensed(i))`. */
  method UnlicensedOfSection(fs: Yaml.FileSystem, assetsDir: Paths.Path, rendered: Paths.Path -> seq<string>,
                             deps: set<Paths.Path>) returns (r: Result<set<Paths.Path>>)
    ensures r.Ok? <==> AllChecked(LicensedIn(fs), SectionAssets(AssetIn(assetsDir), rendered, deps))
    ensures r.Ok? ==> r.value == Unlicensed(LicensedIn(fs), SectionAssets(AssetIn(assetsDir), rendered, deps))
    ensures r.Err? ==> FailsWith(LicensedIn(fs), SectionAssets(AssetIn(assetsDir), rendered, deps), r.error)
  {
    var found: set<Paths.Path> := {};
    var todo := deps;
    assert SectionAssets(AssetIn(assetsDir), rendered, deps - todo) == {};
    while todo != {}
      invariant todo <= deps
      invariant AllChecked(LicensedIn(fs), SectionAssets(AssetIn(assetsDir), rendered, deps - todo))
      invariant found == Unlicensed(LicensedIn(fs), SectionAssets(AssetIn(assetsDir), rendered, deps - todo))
      decreases todo
    {
      var path :| path in todo;
      ghost var done := deps - todo;
      SectionAssetsStep(AssetIn(assetsDir), rendered, done, path);
      SectionAssetsMono(AssetIn(assetsDir), rendered, {path}, deps);
      var more := UnlicensedOfFile(fs, assetsDir, rendered(path), found);
      if more.Err? {
        return Err(more.error);
      }
      found := more.value;
      assert deps - (todo - {path}) == done + {path};
      todo := todo - {path};
    }
    assert deps - todo == deps;
    return Ok(found);
  }

  lemma SectionAssetsStep(assetOf: string -> Paths.Path, rendered: Paths.Path -> seq<string>, done: set<Paths.Path>,
                          path: Paths.Path)
    ensures SectionAssets(assetOf, rendered, done + {path}) ==
            SectionAssets(assetOf, rendered, done) + Images(assetOf, rendered(path))
  {
  }

  lemma SectionAssetsMono(assetOf: string -> Paths.Path, rendered: Paths.Path -> seq<string>, a: set<Paths.Path>,
                          b: set<Paths.Path>)
    requires a <= b
    ensures SectionAssets(assetOf, rendered, a) <= SectionAssets(assetOf, rendered, b)
  {
  }

  /** The result of `sections_unlicensed_images`, when every check
      succeeds: each section with the unlicensed assets of its
      dependencies. */
  function UnlicensedImages(fs: Yaml.FileSystem, assetsDir: Paths.Path, rendered: Paths.Path -> seq<string>,
                            deps: Dependencies): map<Paths.Path, set<Paths.Path>>
  {
    map s | s in deps :: Unlicensed(LicensedIn(fs), SectionAssets(AssetIn(assetsDir), rendered, deps[s]))
  }

  /** `sections_unlicensed_images()` over the given section dependencies:
      the same sections, each keeping only the assets without a license;
      the first failing check, in iteration order, is the error. */
  method SectionsUnlicensedImages(fs: Yaml.FileSystem, assetsDir: Paths.Path, rendered: Paths.Path -> seq<string>,
                                  deps: Dependencies) returns (r: Result<map<Paths.Path, set<Paths.Path>>>)
    ensures r.Ok? <==> forall s :: s in deps ==> AllChecked(LicensedIn(fs), SectionAssets(AssetIn(assetsDir), rendered, deps[s]))
    ensures r.Ok? ==> r.value == UnlicensedImages(fs, assetsDir, rendered, deps)
    ensures r.Err? ==> exists s :: s in deps && FailsWith(LicensedIn(fs), SectionAssets(AssetIn(assetsDir), rendered, deps[s]), r.error)
  {
    var result: map<Paths.Path, set<Paths.Path>> := map[];
    var todo := deps.Keys;
    while todo != {}
      invariant todo <= deps.Keys
      invariant forall s :: s in deps.Keys - todo ==> AllChecked(LicensedIn(fs), SectionAssets(AssetIn(assetsDir), rendered, deps[s]))
      invariant result.Keys == deps.Keys - todo
      invariant forall s :: s in result ==> result[s] == Unlicensed(LicensedIn(fs), SectionAssets(AssetIn(assetsDir), rendered, deps[s]))
      decreases todo
    {
      var s :| s in todo;
      var images := UnlicensedOfSection(fs, assetsDir, rendered, deps[s]);
      if images.Err? {
        return Err(images.error);
      }
      result := result[s := images.value];
      todo := todo - {s};
    }
    return Ok(result);
  }

  /** The unlicensed images have exactly the sections of the dependencies,
      and each keeps a subset of its section's assets: those whose
      metadata file is missing or, for a mapping, has no `license` key. */
  lemma UnlicensedImagesSpec(fs: Yaml.FileSystem, assetsDir: Paths.Path, rendered: Paths.Path -> seq<string>,
                             deps: Dependencies, s: Paths.Path, i: Paths.Path)
    requires s in deps && i in SectionAssets(AssetIn(assetsDir), rendered, deps[s])
    requires Paths.WithSuffix(i, ".yml").Ok?
    ensures UnlicensedImages(fs, assetsDir, rendered, deps).Keys == deps.Keys
    ensures UnlicensedImages(fs, assetsDir, rendered, deps)[s] <= SectionAssets(AssetIn(assetsDir), rendered, deps[s])
    ensures Paths.WithSuffix(i, ".yml").value.parts !in fs ==> i in UnlicensedImages(fs, assetsDir, rendered, deps)[s]
    ensures var m := Paths.WithSuffix(i, ".yml").value.parts;
            Yaml.IsFile(fs, m) && fs[m].content.Some? && fs[m].content.value.Map? ==>
              (i in UnlicensedImages(fs, assetsDir, rendered, deps)[s] <==>
                 "license" !in Dicts.Keys(fs[m].content.value.entries))
  {
    assert LicensedIn(fs)(i) == IsImageLicensed(fs, i);
  }
}
