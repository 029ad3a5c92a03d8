/** Parsed decks: parts made of nodes, a node being a file or a section
    that holds nodes of its own.

    Nodes are values: the parser builds each node once and nothing shares
    it.  A node that failed to parse carries its error message and keeps
    the empty path as its resolved path. */
module Decks {
  import opened Common
  import Dicts
  import Paths

  datatype Node =
    | File(title: Option<string>, unresolvedPath: Paths.Path, resolvedPath: Paths.Path,
           parsingError: Option<string>)
    | Section(title: Option<string>, unresolvedPath: Paths.Path, resolvedPath: Paths.Path,
              parsingError: Option<string>, flavor: string, nodes: seq<Node>)

  datatype Part = Part(title: Option<string>, nodes: seq<Node>)

  /** `Path()`, the resolved path of a node before resolution. */
  const EmptyPath := Paths.Path(false, [])

  /** Some node of the tree rooted at `n` has a parsing error. */
  predicate NodeHasError(n: Node) {
    n.parsingError.Some? || (n.Section? && exists i :: 0 <= i < |n.nodes| && NodeHasError(n.nodes[i]))
  }

  predicate NodesHaveError(ns: seq<Node>) {
    exists i :: 0 <= i < |ns| && NodeHasError(ns[i])
  }

  predicate PartsHaveError(parts: Dicts.Dict<string, Part>) {
    exists i :: 0 <= i < |parts| && NodesHaveError(parts[i].1.nodes)
  }

  /** `frozenset(xs)`. */
  function Elements<T>(xs: seq<T>): set<T> {
    set x | x in xs
  }

  /** `r` is `d` with some entries left out, the others in their order. */
  ghost predicate IsSubsequence<T>(r: seq<T>, d: seq<T>)
    decreases |d|
  {
    if |r| == 0 then true
    else if |d| == 0 then false
    else (r[0] == d[0] && IsSubsequence(r[1..], d[1..])) || IsSubsequence(r, d[1..])
  }

  class Deck {
    var name: string
    var parts: Dicts.Dict<string, Part>

    /** Part names are distinct, as dict keys are. */
    predicate Valid()
      reads this
    {
      Dicts.Unique(parts)
    }

    constructor(name: string, parts: Dicts.Dict<string, Part>)
      requires Dicts.Unique(parts)
      ensures Valid() && this.name == name && this.parts == parts
    {
      this.name := name;
      this.parts := parts;
    }

    /** `Deck.filter`: fails, changing nothing, when the whitelist names a
        part the deck lacks; otherwise keeps exactly the whitelisted parts,
        in their order and with their values. */
    method Filter(whitelist: seq<string>) returns (r: Result<()>)
      requires Valid()
      modifies this
      ensures Valid() && name == old(name)
      ensures r.Err? <==> !(Elements(whitelist) <= Dicts.Keys(old(parts)))
      ensures r.Err? ==> r.error.ValueError? && parts == old(parts)
      ensures r.Ok? ==> parts == Dicts.Restrict(old(parts), Elements(whitelist))
    {
      var allowed := Elements(whitelist);
      if !(allowed <= Dicts.Keys(parts)) {
        return Err(ValueError("provided whitelist has part names not in the deck"));
      }
      var toRemove := Dicts.Keys(parts) - allowed;
      ghost var original := parts;
      Dicts.RestrictAll(original);
      Dicts.RestrictSame(original, Dicts.Keys(original), allowed + toRemove);
      while toRemove != {}
        invariant toRemove !! allowed && name == old(name)
        invariant parts == Dicts.Restrict(original, allowed + toRemove)
        decreases toRemove
      {
        var partName :| partName in toRemove;
        RemoveStep(original, allowed, toRemove, partName);
        parts := Dicts.Remove(parts, partName);
        toRemove := toRemove - {partName};
      }
      assert allowed + toRemove == allowed;
      return Ok(());
    }
  }

  /** One more deletion in the filter loop keeps the parts a restriction
      of the original ones. */
  lemma RemoveStep<V>(d: Dicts.Dict<string, V>, allowed: set<string>, toRemove: set<string>, k: string)
    requires k in toRemove && toRemove !! allowed
    ensures Dicts.Remove(Dicts.Restrict(d, allowed + toRemove), k) == Dicts.Restrict(d, allowed + (toRemove - {k}))
  {
    var keep := allowed + toRemove;
    assert keep - {k} == allowed + (toRemove - {k});
    var inner := Dicts.Restrict(d, keep);
    RestrictRestrict(d, keep, Dicts.Keys(inner) - {k});
    Dicts.RestrictSame(d, keep * (Dicts.Keys(inner) - {k}), keep - {k});
  }

  /** Restricting twice is restricting to the intersection. */
  lemma {:induction false} RestrictRestrict<V>(d: Dicts.Dict<string, V>, a: set<string>, b: set<string>)
    ensures Dicts.Restrict(Dicts.Restrict(d, a), b) == Dicts.Restrict(d, a * b)
  {
    if |d| > 0 {
      RestrictRestrict(d[1..], a, b);
    }
  }

  /** Filtering twice with the same whitelist is filtering once. */
  lemma FilterIdempotent<V>(d: Dicts.Dict<string, V>, w: set<string>)
    ensures Dicts.Restrict(Dicts.Restrict(d, w), w) == Dicts.Restrict(d, w)
  {
    RestrictRestrict(d, w, w);
    assert w * w == w;
  }

  /** After a successful filter the part names are exactly the whitelist,
      and every surviving part keeps its value. */
  lemma FilterKeepsWhitelist<V>(d: Dicts.Dict<string, V>, w: set<string>)
    requires Dicts.Unique(d) && w <= Dicts.Keys(d)
    ensures Dicts.Keys(Dicts.Restrict(d, w)) == w
    ensures forall k :: k in w ==> Dicts.Get(Dicts.Restrict(d, w), k) == Dicts.Get(d, k)
  {
    forall k | k in w ensures Dicts.Get(Dicts.Restrict(d, w), k) == Dicts.Get(d, k) {
      Dicts.RestrictGet(d, w, k);
    }
  }

  /** Surviving parts keep their values and their relative order. */
  lemma {:induction false} FilterKeepsOrder<V>(d: Dicts.Dict<string, V>, w: set<string>)
    ensures IsSubsequence(Dicts.Restrict(d, w), d)
  {
    if |d| > 0 {
      FilterKeepsOrder(d[1..], w);
      var rest := Dicts.Restrict(d[1..], w);
      if d[0].0 in w {
        assert ([d[0]] + rest)[1..] == rest;
      }
    }
  }

  /** An empty whitelist removes every part. */
  lemma FilterEmpty<V>(d: Dicts.Dict<string, V>)
    ensures Dicts.Restrict(d, {}) == []
  {
  }
}
