/** Dicts from a key to a set of values, as the analyzers fill them: a
    key is created with an empty set on first use (`setdefault`) and values
    are added to its set.  Such a dict is read here as the set of its
    (key, value) pairs together with its keys. */
module Groups {
  /** The (key, value) pairs of `g`. */
  function Pairs<K(==), V(==)>(g: map<K, set<V>>): set<(K, V)> {
    set k, v | k in g && v in g[k] :: (k, v)
  }

  /** The keys of a set of pairs. */
  function Firsts<K(==), V(==)>(s: set<(K, V)>): set<K> {
    set e | e in s :: e.0
  }

  /** The dict holding exactly the pairs of `s`, with no empty set. */
  function Group<K(==), V(==)>(s: set<(K, V)>): map<K, set<V>> {
    map k | k in Firsts(s) :: set e | e in s && e.0 == k :: e.1
  }

  /** `r` is `g` with the pairs of `s` added, creating the keys it lacks. */
  predicate Extends<K(==), V(==)>(r: map<K, set<V>>, g: map<K, set<V>>, s: set<(K, V)>) {
    Pairs(r) == Pairs(g) + s && r.Keys == g.Keys + Firsts(s)
  }

  lemma FirstsUnion<K, V>(a: set<(K, V)>, b: set<(K, V)>)
    ensures Firsts(a + b) == Firsts(a) + Firsts(b)
  {
  }

  /** The grouped dict holds exactly the pairs it was built from, and no
      key of it has an empty set. */
  lemma GroupPairs<K, V>(s: set<(K, V)>)
    ensures Pairs(Group(s)) == s
    ensures forall k :: k in Group(s) ==> Group(s)[k] != {}
  {
    var g := Group(s);
    forall e | e in s ensures e in Pairs(g) {
      assert e.0 in Firsts(s);
      assert e.1 in g[e.0];
    }
    forall k | k in g ensures g[k] != {} {
      var e :| e in s && e.0 == k;
      assert e.1 in g[k];
    }
  }

  /** A dict of sets is determined by its pairs and its keys. */
  lemma GroupOf<K, V>(g: map<K, set<V>>, s: set<(K, V)>)
    requires Pairs(g) == s && g.Keys == Firsts(s)
    ensures g == Group(s)
  {
    var h := Group(s);
    forall k | k in g ensures g[k] == h[k] {
      forall v | v in g[k] ensures v in h[k] {
        assert (k, v) in Pairs(g);
      }
      forall v | v in h[k] ensures v in g[k] {
        var e :| e in s && e.0 == k && e.1 == v;
        assert e in Pairs(g);
      }
    }
  }

  /** A dict filled from an empty one with the pairs of `s` is their group. */
  lemma ExtendsEmpty<K, V>(g: map<K, set<V>>, s: set<(K, V)>)
    requires Extends(g, map[], s)
    ensures g == Group(s)
  {
    var empty: map<K, set<V>> := map[];
    assert Pairs(empty) == {};
    GroupOf(g, s);
  }

  /** `g.setdefault(k, set()).add(v)`, written as the analyzers write it. */
  function AddTo<K(==), V(==)>(g: map<K, set<V>>, k: K, v: V): map<K, set<V>> {
    (if k in g then g else g[k := {}])[k := (if k in g then g[k] else {}) + {v}]
  }

  /** Adding one value records exactly that one pair. */
  lemma AddToExtends<K, V>(g: map<K, set<V>>, k: K, v: V)
    ensures Extends(AddTo(g, k, v), g, {(k, v)})
  {
    var r := AddTo(g, k, v);
    assert Firsts({(k, v)}) == {k};
    forall e | e in Pairs(r) ensures e in Pairs(g) + {(k, v)} {
      if e.0 != k {
        assert e.1 in g[e.0];
      }
    }
  }

  /** Adding pairs in two steps adds them all. */
  lemma ExtendsTrans<K, V>(r: map<K, set<V>>, m: map<K, set<V>>, g: map<K, set<V>>, a: set<(K, V)>, b: set<(K, V)>)
    requires Extends(m, g, a) && Extends(r, m, b)
    ensures Extends(r, g, a + b)
  {
    FirstsUnion(a, b);
  }
}
