/** The builder of the first deckz tree (`deckz/building.py`): the
    compilations a set of targets asks for, sorted by target name then
    variant, the verdict on each variant, and the outputs that follow
    from them.  The compiler is a function of the item giving its `ok`
    flag. */
module LegacyBuilding {
  import opened Common
  import Strings
  import LegacyTargets

  type Target = LegacyTargets.Target

  /** `CompileType`. */
  datatype CompileType = Handout | Presentation | Print | PrintHandout {
    function Value(): string {
      match this
      case Handout => "handout"
      case Presentation => "presentation"
      case Print => "print"
      case PrintHandout => "print-handout"
    }
  }

  /** `CompileItem`: no target for the whole-deck print. */
  datatype CompileItem = CompileItem(target: Option<Target>, compileType: CompileType, copyResult: bool)

  /** The variants to build. */
  datatype Variants = Variants(presentation: bool, handout: bool, printing: bool)

  // ------------------------------------------------------------ listing

  /** The items of one target, in the order `_list_items` appends them. */
  function TargetItems(t: Target, v: Variants): seq<CompileItem> {
    (if v.presentation then [CompileItem(Some(t), Presentation, true)] else [])
    + (if v.handout then [CompileItem(Some(t), Handout, true)] else [])
    + (if v.printing then [CompileItem(Some(t), PrintHandout, false)] else [])
  }

  /** The items before sorting: those of each target in turn. */
  function Listed(targets: seq<Target>, v: Variants): seq<CompileItem> {
    if |targets| == 0 then [] else Listed(targets[..|targets| - 1], v) + TargetItems(targets[|targets| - 1], v)
  }

  /** Whether a variant is asked for. */
  predicate Enabled(v: Variants, t: CompileType) {
    (t == Presentation && v.presentation) || (t == Handout && v.handout) || (t == PrintHandout && v.printing)
  }

  /** The number of variants asked for. */
  function Count(v: Variants): nat {
    (if v.presentation then 1 else 0) + (if v.handout then 1 else 0) + (if v.printing then 1 else 0)
  }

  /** One target's items: one per enabled variant, copied unless it is
      the print handout. */
  lemma TargetItemsSpec(t: Target, v: Variants, x: CompileItem)
    ensures |TargetItems(t, v)| == Count(v)
    ensures x in TargetItems(t, v) <==>
              x.target == Some(t) && Enabled(v, x.compileType) && (x.copyResult <==> x.compileType != PrintHandout)
  {
  }

  /** An item `_list_items` plans for the targets: a target's, of an
      enabled variant, copied unless it is the print handout. */
  predicate Planned(targets: seq<Target>, v: Variants, x: CompileItem) {
    && x.target.Some? && x.target.value in targets && Enabled(v, x.compileType)
    && (x.copyResult <==> x.compileType != PrintHandout)
  }

  /** One item per target and enabled variant. */
  lemma {:induction false} ListedCount(targets: seq<Target>, v: Variants)
    ensures |Listed(targets, v)| == |targets| * Count(v)
  {
    if |targets| > 0 {
      ListedCount(targets[..|targets| - 1], v);
    }
  }

  /** The items of the targets are the planned ones. */
  lemma {:induction false} ListedSpec(targets: seq<Target>, v: Variants, x: CompileItem)
    ensures x in Listed(targets, v) <==> Planned(targets, v, x)
  {
    if |targets| > 0 {
      var init := targets[..|targets| - 1];
      var last := targets[|targets| - 1];
      ListedSpec(init, v, x);
      TargetItemsSpec(last, v, x);
      assert x in Listed(targets, v) <==> x in Listed(init, v) || x in TargetItems(last, v);
      assert targets == init + [last];
      assert Planned(targets, v, x) <==> Planned(init, v, x) || x in TargetItems(last, v);
    }
  }

  /** The sort key of `_list_items`: target name, then variant value. */
  function Key(x: CompileItem): (string, string) {
    (if x.target.Some? then x.target.value.name else "", x.compileType.Value())
  }

  /** Python's `<` on pairs of strings. */
  predicate KeyLess(a: (string, string), b: (string, string)) {
    Strings.Less(a.0, b.0) || (a.0 == b.0 && Strings.Less(a.1, b.1))
  }

  /** `x` may come before `y` in a sorted list. */
  predicate Ordered(x: CompileItem, y: CompileItem) {
    !KeyLess(Key(y), Key(x))
  }

  predicate Sorted(s: seq<CompileItem>) {
    forall i, j :: 0 <= i < j < |s| ==> Ordered(s[i], s[j])
  }

  /** `x` placed before the first element of `s` that does not sort
      before it, as a stable sort does for an earlier element. */
  function Insert(x: CompileItem, s: seq<CompileItem>): (r: seq<CompileItem>)
    ensures multiset(r) == multiset{x} + multiset(s)
  {
    if |s| == 0 || Ordered(x, s[0]) then [x] + s
    else
      assert s == [s[0]] + s[1..];
      [s[0]] + Insert(x, s[1..])
  }

  /** `list.sort(key=...)` on values. */
  function SortItems(s: seq<CompileItem>): (r: seq<CompileItem>)
    ensures multiset(r) == multiset(s)
  {
    if |s| == 0 then []
    else
      assert s == [s[0]] + s[1..];
      Insert(s[0], SortItems(s[1..]))
  }

  lemma OrderedTotal(x: CompileItem, y: CompileItem)
    ensures Ordered(x, y) || Ordered(y, x)
  {
    if KeyLess(Key(y), Key(x)) && Strings.Less(Key(y).0, Key(x).0) {
      Strings.LessAsymmetric(Key(y).0, Key(x).0);
      Strings.LessIrreflexive(Key(x).0);
    } else if KeyLess(Key(y), Key(x)) {
      Strings.LessAsymmetric(Key(y).1, Key(x).1);
      Strings.LessIrreflexive(Key(x).0);
    }
  }

  lemma KeyLessTransitive(a: (string, string), b: (string, string), c: (string, string))
    requires KeyLess(a, b) && KeyLess(b, c)
    ensures KeyLess(a, c)
  {
    if Strings.Less(a.0, b.0) && Strings.Less(b.0, c.0) {
      Strings.LessTransitive(a.0, b.0, c.0);
    } else if a.0 == b.0 && b.0 == c.0 {
      Strings.LessTransitive(a.1, b.1, c.1);
    }
  }

  lemma OrderedTransitive(x: CompileItem, y: CompileItem, z: CompileItem)
    requires Ordered(x, y) && Ordered(y, z)
    ensures Ordered(x, z)
  {
    var a, b, c := Key(x), Key(y), Key(z);
    if KeyLess(c, a) {
      Strings.LessTotal(b.0, c.0);
      Strings.LessTotal(b.1, c.1);
      if b == c {
      } else if KeyLess(b, c) {
        KeyLessTransitive(b, c, a);
      } else {
        assert KeyLess(c, b);
      }
    }
  }

  /** An element that may come before every element of a sorted list
      heads a sorted list. */
  lemma ConsSorted(x: CompileItem, s: seq<CompileItem>)
    requires Sorted(s) && forall k :: 0 <= k < |s| ==> Ordered(x, s[k])
    ensures Sorted([x] + s)
  {
    forall i, j | 0 <= i < j < |[x] + s| ensures Ordered(([x] + s)[i], ([x] + s)[j]) {
      assert ([x] + s)[j] == s[j - 1];
      if i > 0 {
        assert ([x] + s)[i] == s[i - 1];
      }
    }
  }

  lemma {:induction false} InsertSorted(x: CompileItem, s: seq<CompileItem>)
    requires Sorted(s)
    ensures Sorted(Insert(x, s))
  {
    if |s| == 0 {
    } else if Ordered(x, s[0]) {
      forall k | 0 <= k < |s| ensures Ordered(x, s[k]) {
        if k > 0 { OrderedTransitive(x, s[0], s[k]); }
      }
      ConsSorted(x, s);
    } else {
      var tail := s[1..];
      assert Sorted(tail) by {
        forall i, j | 0 <= i < j < |tail| ensures Ordered(tail[i], tail[j]) {
          assert tail[i] == s[i + 1] && tail[j] == s[j + 1];
        }
      }
      InsertSorted(x, tail);
      var rest := Insert(x, tail);
      OrderedTotal(x, s[0]);
      forall k | 0 <= k < |rest| ensures Ordered(s[0], rest[k]) {
        var y := rest[k];
        assert y in multiset(rest);
        if y != x {
          assert y in multiset(tail);
          var j :| 0 <= j < |tail| && tail[j] == y;
          assert s[j + 1] == y;
        }
      }
      ConsSorted(s[0], rest);
    }
  }

  lemma {:induction false} SortItemsSorted(s: seq<CompileItem>)
    ensures Sorted(SortItems(s))
  {
    if |s| > 0 {
      SortItemsSorted(s[1..]);
      InsertSorted(s[0], SortItems(s[1..]));
    }
  }

  /** `_list_items()`: every requested compilation of every target,
      sorted by target name then variant, as a permutation of the items in
      the order they were appended. */
  method ListItems(targets: seq<Target>, v: Variants) returns (r: seq<CompileItem>)
    ensures r == SortItems(Listed(targets, v))
    ensures Sorted(r) && multiset(r) == multiset(Listed(targets, v))
  {
    var toCompile: seq<CompileItem> := [];
    for i := 0 to |targets|
      invariant toCompile == Listed(targets[..i], v)
    {
      assert targets[..i + 1][..i] == targets[..i];
      var t := targets[i];
      if v.presentation {
        toCompile := toCompile + [CompileItem(Some(t), Presentation, true)];
      }
      if v.handout {
        toCompile := toCompile + [CompileItem(Some(t), Handout, true)];
      }
      if v.printing {
        toCompile := toCompile + [CompileItem(Some(t), PrintHandout, false)];
      }
    }
    assert targets[..|targets|] == targets;
    SortItemsSorted(toCompile);
    r := SortItems(toCompile);
  }

  /** The planned items are the listed ones: one per target and enabled
      variant, copied unless it is the print handout. */
  lemma PlannedItems(targets: seq<Target>, v: Variants, x: CompileItem)
    ensures |SortItems(Listed(targets, v))| == |targets| * Count(v)
    ensures x in SortItems(Listed(targets, v)) <==> Planned(targets, v, x)
  {
    ListedCount(targets, v);
    ListedSpec(targets, v, x);
    var s := Listed(targets, v);
    assert |multiset(SortItems(s))| == |multiset(s)|;
    assert x in SortItems(s) <==> x in multiset(SortItems(s));
  }

  // -------------------------------------------------------- aggregation

  /** Reading the `defaultdict(lambda: True)` of verdicts. */
  function OkFor(byType: map<CompileType, bool>, t: CompileType): bool {
    if t in byType then byType[t] else true
  }

  /** The verdicts the zip of the first `n` results and items pairs
      with `t` all hold. */
  predicate AllOkOf(results: seq<bool>, items: seq<CompileItem>, n: nat, t: CompileType)
    requires n <= |results| && n <= |items|
  {
    forall i :: 0 <= i < n && items[i].compileType == t ==> results[i]
  }

  lemma AllOkOfStep(results: seq<bool>, items: seq<CompileItem>, i: nat, t: CompileType)
    requires i < |results| && i < |items|
    ensures AllOkOf(results, items, i + 1, t) <==> AllOkOf(results, items, i, t) && (items[i].compileType == t ==> results[i])
  {
    if AllOkOf(results, items, i, t) && (items[i].compileType == t ==> results[i]) {
      forall j | 0 <= j < i + 1 && items[j].compileType == t ensures results[j] {
        if j < i { assert items[j].compileType == t; }
      }
    }
  }

  /** The zip stops at the shorter list. */
  function Zipped(results: seq<bool>, items: seq<CompileItem>): (n: nat)
    ensures n <= |results| && n <= |items|
    ensures n == |results| || n == |items|
  {
    if |results| < |items| then |results| else |items|
  }

  /** `_aggregate_compilation_results_by_type(results, items)`: per
      variant, the conjunction of the verdicts of its items, true for a
      variant without items; only variants with items are stored. */
  method Aggregate(results: seq<bool>, items: seq<CompileItem>) returns (r: map<CompileType, bool>)
    ensures forall t :: OkFor(r, t) <==> AllOkOf(results, items, Zipped(results, items), t)
    ensures r.Keys == set i | 0 <= i < Zipped(results, items) :: items[i].compileType
  {
    r := map[];
    var n := Zipped(results, items);
    for i := 0 to n
      invariant forall t :: OkFor(r, t) <==> AllOkOf(results, items, i, t)
      invariant r.Keys == set j | 0 <= j < i :: items[j].compileType
    {
      var t := items[i].compileType;
      ghost var before := r;
      r := r[t := OkFor(r, t) && results[i]];
      forall t' ensures OkFor(r, t') <==> AllOkOf(results, items, i + 1, t') {
        assert OkFor(r, t') == if t' == t then OkFor(before, t) && results[i] else OkFor(before, t');
        AllOkOfStep(results, items, i, t');
      }
    }
  }

  // ------------------------------------------------------------- names

  /** `_get_filename(target, compile_type)`: the deck acronym, the target
      name when there is a target, and the variant, joined by `-` and in
      lower case. */
  function Filename(acronym: string, target: Option<Target>, t: CompileType): string {
    Strings.Lower(acronym + (if target.Some? then "-" + target.value.name else "") + "-" + t.Value())
  }

  /** The variant values are in lower case already. */
  lemma LowerValue(t: CompileType)
    ensures Strings.Lower(t.Value()) == t.Value()
  {
    var v := t.Value();
    forall k | 0 <= k < |v| ensures Strings.Lower(v)[k] == v[k] {
      assert v[k] == '-' || 'a' <= v[k] <= 'z';
    }
  }

  /** A file name starts with the acronym in lower case and ends with a
      dash and the variant, the target name between them when there is
      one. */
  lemma FilenameShape(acronym: string, target: Option<Target>, t: CompileType)
    ensures var r := Filename(acronym, target, t);
            && |r| == |acronym| + (if target.Some? then |target.value.name| + 1 else 0) + 1 + |t.Value()|
            && r[..|acronym|] == Strings.Lower(acronym)
            && r[|r| - |t.Value()| - 1..] == "-" + t.Value()
  {
    var middle := if target.Some? then "-" + target.value.name else "";
    var pre := acronym + middle;
    var tail := "-" + t.Value();
    assert acronym + middle + "-" + t.Value() == pre + tail;
    Strings.LowerAppend(pre, tail);
    Strings.LowerAppend(acronym, middle);
    Strings.LowerAppend("-", t.Value());
    LowerValue(t);
    assert Strings.Lower("-") == "-";
  }

  /** One target's variants never share a file name: the four values
      have four lengths. */
  lemma FilenamesDiffer(acronym: string, target: Option<Target>, t: CompileType, t': CompileType)
    requires t != t'
    ensures Filename(acronym, target, t) != Filename(acronym, target, t')
  {
    FilenameShape(acronym, target, t);
    FilenameShape(acronym, target, t');
  }

  /** The template arguments `_write_main_latex` chooses: handout layout
      for the two handouts, print layout for the print handout only. */
  datatype MainArgs = MainArgs(target: Option<Target>, handout: bool, printing: bool)

  function MainLatexArgs(target: Option<Target>, t: CompileType): (r: MainArgs)
    ensures r.handout <==> t == Handout || t == PrintHandout
    ensures r.printing ==> r.handout
    ensures r.printing <==> t == PrintHandout
  {
    MainArgs(target, t in [Handout, PrintHandout], t == PrintHandout)
  }

  /** Among the planned items, the print layout is used exactly for
      those whose result is not copied. */
  lemma PrintLayoutNotCopied(targets: seq<Target>, v: Variants, x: CompileItem)
    requires x in SortItems(Listed(targets, v))
    ensures MainLatexArgs(x.target, x.compileType).printing <==> !x.copyResult
  {
    PlannedItems(targets, v, x);
  }

  /** `_write_print_latex(targets, ...)`: the print template receives, per
      target and in target order, the relative path of that target's print
      handout. */
  function PrintPdfPaths(acronym: string, targets: seq<Target>): (r: seq<string>)
    ensures |r| == |targets|
    ensures forall i :: 0 <= i < |targets| ==>
              r[i] == "../" + targets[i].name + "/print-handout/" + Filename(acronym, Some(targets[i]), PrintHandout)
  {
    var folder := "/" + PrintHandout.Value() + "/";
    assert folder == "/print-handout/";
    seq(|targets|, i requires 0 <= i < |targets| => "../" + targets[i].name + folder + Filename(acronym, Some(targets[i]), PrintHandout))
  }

  // ----------------------------------------------------------- building

  /** Every item of variant `t` compiles. */
  predicate AllCompiled(items: seq<CompileItem>, compile: CompileItem -> bool, t: CompileType) {
    forall i :: 0 <= i < |items| && items[i].compileType == t ==> compile(items[i])
  }

  /** `f` is the PDF `_finalize` copies for `x`: the item is copied and
      compiles, and `f` is its file name. */
  predicate CopiedAs(acronym: string, x: CompileItem, compile: CompileItem -> bool, f: string) {
    x.copyResult && compile(x) && f == Filename(acronym, x.target, x.compileType)
  }

  /** The PDFs `_finalize` copies over the items. */
  function CopiedOf(acronym: string, items: seq<CompileItem>, compile: CompileItem -> bool): set<string> {
    if |items| == 0 then {}
    else
      var last := items[|items| - 1];
      CopiedOf(acronym, items[..|items| - 1], compile)
      + (if last.copyResult && compile(last) then {Filename(acronym, last.target, last.compileType)} else {})
  }

  /** A file name is copied exactly when it is the name of an item that
      is copied and compiles. */
  lemma {:induction false} CopiedOfSpec(acronym: string, items: seq<CompileItem>, compile: CompileItem -> bool, f: string)
    ensures f in CopiedOf(acronym, items, compile) <==>
              exists i :: 0 <= i < |items| && CopiedAs(acronym, items[i], compile, f)
  {
    if |items| > 0 {
      var init := items[..|items| - 1];
      var last := items[|items| - 1];
      CopiedOfSpec(acronym, init, compile, f);
      assert f in CopiedOf(acronym, items, compile) <==>
             f in CopiedOf(acronym, init, compile) || CopiedAs(acronym, last, compile, f);
      if exists i :: 0 <= i < |items| && CopiedAs(acronym, items[i], compile, f) {
        var i :| 0 <= i < |items| && CopiedAs(acronym, items[i], compile, f);
        if i < |init| {
          assert init[i] == items[i];
        }
      }
      if f in CopiedOf(acronym, init, compile) {
        var i :| 0 <= i < |init| && CopiedAs(acronym, init[i], compile, f);
        assert init[i] == items[i];
      }
    }
  }

  /** The loop of `build` over the items: each is compiled, and
      finalized by copying its PDF when it is copied and compiled. */
  method CompileItems(acronym: string, items: seq<CompileItem>, compile: CompileItem -> bool)
    returns (results: seq<bool>, copied: set<string>)
    ensures |results| == |items| && forall j :: 0 <= j < |items| ==> results[j] == compile(items[j])
    ensures copied == CopiedOf(acronym, items, compile)
  {
    results := [];
    copied := {};
    for i := 0 to |items|
      invariant |results| == i && forall j :: 0 <= j < i ==> results[j] == compile(items[j])
      invariant copied == CopiedOf(acronym, items[..i], compile)
    {
      assert items[..i + 1][..i] == items[..i];
      var result := compile(items[i]);
      results := results + [result];
      if items[i].copyResult && result {
        copied := copied + {Filename(acronym, items[i].target, items[i].compileType)};
      }
    }
    assert items[..|items|] == items;
  }

  /** `all(result.ok for result in results)`. */
  method AllOk(results: seq<bool>) returns (ok: bool)
    ensures ok <==> forall j :: 0 <= j < |results| ==> results[j]
  {
    ok := true;
    for i := 0 to |results|
      invariant ok <==> forall j :: 0 <= j < i ==> results[j]
    {
      ok := ok && results[i];
    }
  }

  /** The aggregated verdict of a variant is whether all its items
      compile. */
  lemma VerdictsCompiled(results: seq<bool>, items: seq<CompileItem>, compile: CompileItem -> bool, t: CompileType)
    requires |results| == |items| && forall j :: 0 <= j < |items| ==> results[j] == compile(items[j])
    ensures Zipped(results, items) == |items|
    ensures AllOkOf(results, items, |items|, t) <==> AllCompiled(items, compile, t)
  {
  }

  /** The results of the build: those of the items, then the print
      output's when it was compiled. */
  lemma AllResults(results: seq<bool>, items: seq<CompileItem>, compile: CompileItem -> bool, printed: bool)
    requires |results| == |items| + (if printed then 1 else 0)
    requires forall j :: 0 <= j < |items| ==> results[j] == compile(items[j])
    requires printed ==> results[|items|] == compile(CompileItem(None, Print, true))
    ensures (forall j :: 0 <= j < |results| ==> results[j])
        <==> (forall i :: 0 <= i < |items| ==> compile(items[i])) && (printed ==> compile(CompileItem(None, Print, true)))
  {
  }

  /** What a build leaves: whether it succeeded, the PDFs copied to the
      output directory, whether the print output was compiled and whether
      the handouts were merged. */
  datatype Outcome = Outcome(ok: bool, copied: set<string>, printed: bool, merged: bool)

  /** `build()`.  Every planned item is compiled and, when its result is
      copied and it compiled, its PDF is copied.  The print output is
      compiled only when every print handout compiled, the handouts are
      merged (and the merge copied) only when every handout compiled, and
      the build succeeds exactly when every compilation it made
      succeeded. */
  method Build(acronym: string, targets: seq<Target>, v: Variants, compile: CompileItem -> bool)
    returns (r: Outcome)
    ensures var items := SortItems(Listed(targets, v));
            && (r.printed <==> v.printing && AllCompiled(items, compile, PrintHandout))
            && (r.merged <==> v.handout && AllCompiled(items, compile, Handout))
            && (r.ok <==> (forall i :: 0 <= i < |items| ==> compile(items[i]))
                          && (r.printed ==> compile(CompileItem(None, Print, true))))
            && r.copied == CopiedOf(acronym, items, compile) + (if r.merged then {Filename(acronym, None, Handout)} else {})
    ensures r.ok ==> (v.printing ==> r.printed) && (v.handout ==> r.merged)
  {
    var items := ListItems(targets, v);
    var results, copied := CompileItems(acronym, items, compile);
    var okByType := Aggregate(results, items);
    VerdictsCompiled(results, items, compile, PrintHandout);
    VerdictsCompiled(results, items, compile, Handout);
    var printed := false;
    if v.printing && OkFor(okByType, PrintHandout) {
      results := results + [compile(CompileItem(None, Print, true))];
      printed := true;
    }
    var merged := false;
    if v.handout && OkFor(okByType, Handout) {
      copied := copied + {Filename(acronym, None, Handout)};
      merged := true;
    }
    var ok := AllOk(results);
    AllResults(results, items, compile, printed);
    r := Outcome(ok, copied, printed, merged);
  }
}
