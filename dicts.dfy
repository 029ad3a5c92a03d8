/** Python dictionaries as ordered sequences of entries.

    A Python `dict` remembers insertion order: assigning to a present key
    keeps its position, assigning to a new key appends it, `{**a, **b}`
    keeps the entries of `a` in place (with `b`'s values) and then appends
    the new keys of `b`.  Order is observable in the modelled code (parts of
    a deck, compile items), so a dict is modelled as a sequence of pairs. */
module Dicts {
  import opened Common
  import opened Strings

  type Dict<K, V> = seq<(K, V)>

  function Keys<K, V>(d: Dict<K, V>): set<K> {
    set i | 0 <= i < |d| :: d[i].0
  }

  lemma KeysCons<K, V>(e: (K, V), d: Dict<K, V>)
    ensures Keys([e] + d) == {e.0} + Keys(d)
  {
    var s := [e] + d;
    forall k | k in Keys(d) ensures k in Keys(s) {
      var i :| 0 <= i < |d| && d[i].0 == k;
      assert s[i + 1] == d[i];
    }
    assert s[0] == e;
  }

  /** Keys of a dict are pairwise distinct. */
  predicate Unique<K(==), V>(d: Dict<K, V>) {
    forall i, j :: 0 <= i < j < |d| ==> d[i].0 != d[j].0
  }

  /** `d.get(k)`. */
  function Get<K(==,!new), V>(d: Dict<K, V>, k: K): (r: Option<V>)
    ensures r.Some? <==> k in Keys(d)
  {
    if |d| == 0 then None
    else if d[0].0 == k then Some(d[0].1)
    else
      assert Keys(d) == {d[0].0} + Keys(d[1..]);
      Get(d[1..], k)
  }

  /** The value stored at a position of a dict whose keys are distinct is
      what `Get` returns for its key. */
  lemma {:induction false} GetAt<K(!new), V>(d: Dict<K, V>, i: nat)
    requires Unique(d) && i < |d|
    ensures Get(d, d[i].0) == Some(d[i].1)
  {
    if i > 0 {
      GetAt(d[1..], i - 1);
    }
  }

  /** `d[k] = v`: replaces the value in place when `k` is present, appends
      the entry otherwise. */
  function Put<K(==,!new), V>(d: Dict<K, V>, k: K, v: V): (r: Dict<K, V>)
    ensures Keys(r) == Keys(d) + {k}
    ensures k !in Keys(d) ==> r == d + [(k, v)]
    ensures |r| == if k in Keys(d) then |d| else |d| + 1
  {
    if |d| == 0 then
      KeysCons((k, v), d);
      [(k, v)]
    else
      assert d == [d[0]] + d[1..];
      KeysCons(d[0], d[1..]);
      if d[0].0 == k then
        KeysCons((k, v), d[1..]);
        [(k, v)] + d[1..]
      else
        var rest := Put(d[1..], k, v);
        KeysCons(d[0], rest);
        [d[0]] + rest
  }

  /** `d[k] = v` keeps every present key at its position. */
  lemma {:induction false} PutPositions<K(!new), V>(d: Dict<K, V>, k: K, v: V)
    ensures forall i :: 0 <= i < |d| ==> Put(d, k, v)[i].0 == d[i].0
  {
    if |d| > 0 && d[0].0 != k {
      PutPositions(d[1..], k, v);
      var r := Put(d, k, v);
      assert r == [d[0]] + Put(d[1..], k, v);
      forall i | 0 < i < |d| ensures r[i].0 == d[i].0 {
        assert d[i] == d[1..][i - 1];
      }
    }
  }

  /** After `d[k] = v`, `k` maps to `v` and every other key is unchanged. */
  lemma {:induction false} PutGet<K(!new), V>(d: Dict<K, V>, k: K, v: V, k': K)
    ensures Get(Put(d, k, v), k') == if k' == k then Some(v) else Get(d, k')
  {
    if |d| > 0 && d[0].0 != k {
      PutGet(d[1..], k, v, k');
    }
  }

  /** `d[k] = v` keeps keys distinct. */
  lemma {:induction false} PutUnique<K(!new), V>(d: Dict<K, V>, k: K, v: V)
    requires Unique(d)
    ensures Unique(Put(d, k, v))
  {
    if |d| > 0 && d[0].0 != k {
      var tail := d[1..];
      PutUnique(tail, k, v);
      var rest := Put(tail, k, v);
      var r := Put(d, k, v);
      assert r == [d[0]] + rest;
      assert d[0].0 !in Keys(tail) by {
        forall j | 0 <= j < |tail| ensures tail[j].0 != d[0].0 {
          assert tail[j] == d[j + 1];
        }
      }
      assert d[0].0 !in Keys(rest);
      forall i, j | 0 <= i < j < |r| ensures r[i].0 != r[j].0 {
        assert r[j] == rest[j - 1];
        if i == 0 {
          assert rest[j - 1].0 in Keys(rest);
        } else {
          assert r[i] == rest[i - 1];
        }
      }
    }
  }

  /** `del d[k]` (no-op when absent). */
  function Remove<K(==,!new), V>(d: Dict<K, V>, k: K): (r: Dict<K, V>)
    ensures Keys(r) == Keys(d) - {k}
    ensures Unique(d) ==> Unique(r)
  {
    Restrict(d, Keys(d) - {k})
  }

  /** The entries of `d` whose key is in `keep`, in their order. */
  function Restrict<K(==,!new), V>(d: Dict<K, V>, keep: set<K>): (r: Dict<K, V>)
    ensures Keys(r) == Keys(d) * keep
    ensures Unique(d) ==> Unique(r)
  {
    if |d| == 0 then []
    else
      assert d == [d[0]] + d[1..];
      KeysCons(d[0], d[1..]);
      var rest := Restrict(d[1..], keep);
      if d[0].0 in keep then
        KeysCons(d[0], rest);
        [d[0]] + rest
      else rest
  }

  /** A restriction agrees with the dict on every kept key. */
  lemma {:induction false} RestrictGet<K(!new), V>(d: Dict<K, V>, keep: set<K>, k: K)
    requires k in keep
    ensures Get(Restrict(d, keep), k) == Get(d, k)
  {
    if |d| > 0 {
      RestrictGet(d[1..], keep, k);
    }
  }

  /** Restricting to all of a dict's keys changes nothing. */
  lemma {:induction false} RestrictAll<K(!new), V>(d: Dict<K, V>)
    ensures Restrict(d, Keys(d)) == d
  {
    RestrictSame(d, Keys(d), Keys(d) + {});
    if |d| > 0 {
      KeysCons(d[0], d[1..]);
      assert d == [d[0]] + d[1..];
      RestrictAll(d[1..]);
      RestrictSame(d[1..], Keys(d), Keys(d[1..]));
    }
  }

  /** Only the kept keys a dict actually has matter to `Restrict`. */
  lemma {:induction false} RestrictSame<K(!new), V>(d: Dict<K, V>, a: set<K>, b: set<K>)
    requires a * Keys(d) == b * Keys(d)
    ensures Restrict(d, a) == Restrict(d, b)
  {
    if |d| > 0 {
      KeysCons(d[0], d[1..]);
      assert d == [d[0]] + d[1..];
      var keys := Keys(d);
      assert d[0].0 in keys;
      assert d[0].0 in a * keys <==> d[0].0 in b * keys;
      assert Keys(d[1..]) <= keys;
      assert a * Keys(d[1..]) == (a * keys) * Keys(d[1..]);
      assert b * Keys(d[1..]) == (b * keys) * Keys(d[1..]);
      RestrictSame(d[1..], a, b);
    }
  }

  /** After `del d[k]`, `k` is absent and every other key keeps its value. */
  lemma RemoveGet<K(!new), V>(d: Dict<K, V>, k: K, j: K)
    ensures Get(Remove(d, k), j) == if j == k then None else Get(d, j)
  {
    if j != k && j in Keys(d) {
      RestrictGet(d, Keys(d) - {k}, j);
    }
  }

  /** Deleting an absent key changes nothing. */
  lemma RemoveAbsent<K(!new), V>(d: Dict<K, V>, k: K)
    requires k !in Keys(d)
    ensures Remove(d, k) == d
  {
    RestrictSame(d, Keys(d) - {k}, Keys(d));
    RestrictAll(d);
  }

  /** `{**a, **b}`: the entries of `a` in place, then the new keys of `b`
      in their order. */
  function Merge<K(==,!new), V>(a: Dict<K, V>, b: Dict<K, V>): (r: Dict<K, V>)
    ensures Keys(r) == Keys(a) + Keys(b)
    ensures |a| <= |r| && forall i :: 0 <= i < |a| ==> r[i].0 == a[i].0
    decreases |b|
  {
    if |b| == 0 then a
    else
      assert b == [b[0]] + b[1..];
      KeysCons(b[0], b[1..]);
      PutPositions(a, b[0].0, b[0].1);
      Merge(Put(a, b[0].0, b[0].1), b[1..])
  }

  /** In `{**a, **b}` the value of `b` wins wherever `b` has the key. */
  lemma {:induction false} MergeGet<K(!new), V>(a: Dict<K, V>, b: Dict<K, V>, k: K)
    requires Unique(b)
    ensures Get(Merge(a, b), k) == if k in Keys(b) then Get(b, k) else Get(a, k)
    decreases |b|
  {
    if |b| > 0 {
      assert b == [b[0]] + b[1..];
      KeysCons(b[0], b[1..]);
      assert Unique(b[1..]);
      MergeGet(Put(a, b[0].0, b[0].1), b[1..], k);
      PutGet(a, b[0].0, b[0].1, k);
      if k == b[0].0 {
        assert k !in Keys(b[1..]);
      }
    }
  }

  /** `{**a, **b}` keeps keys distinct. */
  lemma {:induction false} MergeUnique<K(!new), V>(a: Dict<K, V>, b: Dict<K, V>)
    requires Unique(a)
    ensures Unique(Merge(a, b))
    decreases |b|
  {
    if |b| > 0 {
      PutUnique(a, b[0].0, b[0].1);
      MergeUnique(Put(a, b[0].0, b[0].1), b[1..]);
    }
  }

  /** `reduce(lambda a, b: {**a, **b}, ds, {})`: the dicts merged from
      first to last, a later dict winning on a shared key. */
  function MergeAll<K(==,!new), V>(ds: seq<Dict<K, V>>): (r: Dict<K, V>)
    decreases |ds|
  {
    if |ds| == 0 then [] else Merge(MergeAll(ds[..|ds| - 1]), ds[|ds| - 1])
  }

  /** The merged dict has exactly the keys of the merged dicts. */
  lemma {:induction false} MergeAllKeys<K(!new), V>(ds: seq<Dict<K, V>>, k: K)
    ensures k in Keys(MergeAll(ds)) <==> exists i :: 0 <= i < |ds| && k in Keys(ds[i])
    decreases |ds|
  {
    if |ds| > 0 {
      var init := ds[..|ds| - 1];
      MergeAllKeys(init, k);
      assert forall i :: 0 <= i < |init| ==> init[i] == ds[i];
      if k in Keys(MergeAll(init)) {
        var i :| 0 <= i < |init| && k in Keys(init[i]);
        assert k in Keys(ds[i]);
      }
    }
  }

  /** The merged dict has distinct keys, whatever the merged dicts. */
  lemma {:induction false} MergeAllUnique<K(!new), V>(ds: seq<Dict<K, V>>)
    ensures Unique(MergeAll(ds))
    decreases |ds|
  {
    if |ds| > 0 {
      MergeAllUnique(ds[..|ds| - 1]);
      MergeUnique(MergeAll(ds[..|ds| - 1]), ds[|ds| - 1]);
    }
  }

  /** A key takes its value from the last dict that has it. */
  lemma {:induction false} MergeAllGet<K(!new), V>(ds: seq<Dict<K, V>>, i: nat, k: K)
    requires forall j :: 0 <= j < |ds| ==> Unique(ds[j])
    requires i < |ds| && k in Keys(ds[i])
    requires forall j :: i < j < |ds| ==> k !in Keys(ds[j])
    ensures Get(MergeAll(ds), k) == Get(ds[i], k)
    decreases |ds|
  {
    var init := ds[..|ds| - 1];
    MergeGet(MergeAll(init), ds[|ds| - 1], k);
    if i < |ds| - 1 {
      assert forall j :: 0 <= j < |init| ==> init[j] == ds[j];
      MergeAllGet(init, i, k);
    }
  }

  /** The dicts in the opposite order. */
  function Reverse<T>(s: seq<T>): (r: seq<T>)
    ensures |r| == |s| && forall i :: 0 <= i < |s| ==> r[i] == s[|s| - 1 - i]
  {
    seq(|s|, i requires 0 <= i < |s| => s[|s| - 1 - i])
  }

  /** `dict(ChainMap(*ds))`: a key takes its value from the first dict
      that has it. */
  function ChainMap<K(==,!new), V>(ds: seq<Dict<K, V>>): (r: Dict<K, V>)
    ensures Unique(r)
  {
    MergeAllUnique(Reverse(ds));
    MergeAll(Reverse(ds))
  }

  /** The chain has exactly the keys of its dicts. */
  lemma ChainMapKeys<K(!new), V>(ds: seq<Dict<K, V>>, k: K)
    ensures k in Keys(ChainMap(ds)) <==> exists i :: 0 <= i < |ds| && k in Keys(ds[i])
  {
    var rs := Reverse(ds);
    MergeAllKeys(rs, k);
    if exists i :: 0 <= i < |ds| && k in Keys(ds[i]) {
      var i :| 0 <= i < |ds| && k in Keys(ds[i]);
      assert k in Keys(rs[|ds| - 1 - i]);
    }
  }

  /** A key takes its value from the first dict of the chain that has it. */
  lemma ChainMapGet<K(!new), V>(ds: seq<Dict<K, V>>, i: nat, k: K)
    requires forall j :: 0 <= j < |ds| ==> Unique(ds[j])
    requires i < |ds| && k in Keys(ds[i])
    requires forall j :: 0 <= j < i ==> k !in Keys(ds[j])
    ensures Get(ChainMap(ds), k) == Get(ds[i], k)
  {
    var rs := Reverse(ds);
    var n := |ds| - 1;
    forall j | n - i < j < |rs| ensures k !in Keys(rs[j]) {
      assert rs[j] == ds[n - j];
    }
    MergeAllGet(rs, n - i, k);
  }

  /** `for x in xs: d[key(x)] = value(x)` from an empty dict, where
      computing a value may fail and the first failure ends the loop. */
  function PutEach<A, K(==,!new), V>(xs: seq<A>, key: A -> K, value: A -> Result<V>): (r: Result<Dict<K, V>>)
    ensures r.Ok? ==> |r.value| <= |xs|
    decreases |xs|
  {
    if |xs| == 0 then Ok([])
    else
      var init := xs[..|xs| - 1];
      var last := xs[|xs| - 1];
      var d :- PutEach(init, key, value);
      var v :- value(last);
      Ok(Put(d, key(last), v))
  }

  /** One more element: the loop goes on exactly when the earlier ones and
      this one succeed. */
  lemma PutEachOkStep<A, K(!new), V>(xs: seq<A>, key: A -> K, value: A -> Result<V>)
    requires |xs| > 0
    ensures PutEach(xs, key, value).Ok? <==> PutEach(xs[..|xs| - 1], key, value).Ok? && value(xs[|xs| - 1]).Ok?
  {
  }

  /** Every element's value succeeds exactly when those before the last
      one and the last one do. */
  lemma AllOkSnoc<A, V>(xs: seq<A>, init: seq<A>, value: A -> Result<V>)
    requires |xs| > 0 && init == xs[..|xs| - 1]
    ensures (forall i :: 0 <= i < |xs| ==> value(xs[i]).Ok?) <==>
            (forall i :: 0 <= i < |init| ==> value(init[i]).Ok?) && value(xs[|xs| - 1]).Ok?
  {
    assert forall i :: 0 <= i < |init| ==> init[i] == xs[i];
  }

  /** The loop keeps keys distinct. */
  lemma {:induction false} PutEachUnique<A, K(!new), V>(xs: seq<A>, key: A -> K, value: A -> Result<V>)
    requires PutEach(xs, key, value).Ok?
    ensures Unique(PutEach(xs, key, value).value)
    decreases |xs|
  {
    if |xs| > 0 {
      var init := xs[..|xs| - 1];
      var last := xs[|xs| - 1];
      PutEachUnique(init, key, value);
      PutUnique(PutEach(init, key, value).value, key(last), value(last).value);
    }
  }

  lemma {:induction false} PutEachPrefixErr<A, K(!new), V>(xs: seq<A>, j: nat, key: A -> K, value: A -> Result<V>)
    requires j <= |xs| && PutEach(xs[..j], key, value).Err?
    ensures PutEach(xs, key, value) == PutEach(xs[..j], key, value)
    decreases |xs|
  {
    if j < |xs| {
      var init := xs[..|xs| - 1];
      assert init[..j] == xs[..j];
      PutEachPrefixErr(init, j, key, value);
    } else {
      assert xs[..j] == xs;
    }
  }

  /** The loop succeeds exactly when every value does. */
  lemma {:induction false} PutEachOk<A, K(!new), V>(xs: seq<A>, key: A -> K, value: A -> Result<V>)
    ensures PutEach(xs, key, value).Ok? <==> forall i :: 0 <= i < |xs| ==> value(xs[i]).Ok?
    decreases |xs|
  {
    if |xs| > 0 {
      var init := xs[..|xs| - 1];
      var last := xs[|xs| - 1];
      PutEachOk(init, key, value);
      PutEachOkStep(xs, key, value);
      AllOkSnoc(xs, init, value);
    }
  }

  /** A failing loop fails with the error of some element's value. */
  lemma {:induction false} PutEachErr<A, K(!new), V>(xs: seq<A>, key: A -> K, value: A -> Result<V>)
    requires PutEach(xs, key, value).Err?
    ensures exists i :: 0 <= i < |xs| && value(xs[i]) == Err(PutEach(xs, key, value).error)
    decreases |xs|
  {
    var init := xs[..|xs| - 1];
    if PutEach(init, key, value).Err? {
      PutEachErr(init, key, value);
      var i :| 0 <= i < |init| && value(init[i]) == Err(PutEach(init, key, value).error);
      assert init[i] == xs[i];
    }
  }

  /** The value stored under a key is the one computed for the last element
      with that key. */
  lemma {:induction false} PutEachLastWins<A, K(!new), V>(xs: seq<A>, key: A -> K, value: A -> Result<V>, i: nat)
    requires PutEach(xs, key, value).Ok? && i < |xs|
    requires forall j :: i < j < |xs| ==> key(xs[j]) != key(xs[i])
    ensures value(xs[i]).Ok? && Get(PutEach(xs, key, value).value, key(xs[i])) == Some(value(xs[i]).value)
    decreases |xs|
  {
    var init := xs[..|xs| - 1];
    var last := xs[|xs| - 1];
    var d := PutEach(init, key, value).value;
    PutGet(d, key(last), value(last).value, key(xs[i]));
    if i < |xs| - 1 {
      assert init[i] == xs[i];
      assert forall j :: i < j < |init| ==> init[j] == xs[j];
      PutEachLastWins(init, key, value, i);
    }
  }

  /** With distinct keys the loop stores one entry per element, in order. */
  lemma {:induction false} PutEachOrder<A, K(!new), V>(xs: seq<A>, key: A -> K, value: A -> Result<V>)
    requires forall i, j :: 0 <= i < j < |xs| ==> key(xs[i]) != key(xs[j])
    requires PutEach(xs, key, value).Ok?
    ensures var r := PutEach(xs, key, value).value;
            |r| == |xs| && forall i :: 0 <= i < |r| ==> r[i].0 == key(xs[i]) && value(xs[i]) == Ok(r[i].1)
    decreases |xs|
  {
    if |xs| > 0 {
      var init := xs[..|xs| - 1];
      var last := xs[|xs| - 1];
      forall i, j | 0 <= i < j < |init| ensures key(init[i]) != key(init[j]) {
        assert init[i] == xs[i] && init[j] == xs[j];
      }
      PutEachOkStep(xs, key, value);
      PutEachOrder(init, key, value);
      var d := PutEach(init, key, value).value;
      assert key(last) !in Keys(d) by {
        forall j | 0 <= j < |d| ensures d[j].0 != key(last) {
          assert init[j] == xs[j];
        }
      }
      PutEachAppend(xs, key, value);
      var r := d + [(key(last), value(last).value)];
      forall i | 0 <= i < |r| ensures r[i].0 == key(xs[i]) && value(xs[i]) == Ok(r[i].1) {
        if i < |d| {
          assert r[i] == d[i] && init[i] == xs[i];
        }
      }
    }
  }

  /** An element with a new key is stored at the end. */
  lemma PutEachAppend<A, K(!new), V>(xs: seq<A>, key: A -> K, value: A -> Result<V>)
    requires |xs| > 0 && PutEach(xs, key, value).Ok?
    requires PutEach(xs[..|xs| - 1], key, value).Ok?
    requires key(xs[|xs| - 1]) !in Keys(PutEach(xs[..|xs| - 1], key, value).value)
    ensures PutEach(xs, key, value).value
         == PutEach(xs[..|xs| - 1], key, value).value + [(key(xs[|xs| - 1]), value(xs[|xs| - 1]).value)]
  {
  }


  /** Every element's key is stored. */
  lemma {:induction false} PutEachHasKeys<A, K(!new), V>(xs: seq<A>, key: A -> K, value: A -> Result<V>)
    requires PutEach(xs, key, value).Ok?
    ensures forall i :: 0 <= i < |xs| ==> key(xs[i]) in Keys(PutEach(xs, key, value).value)
    decreases |xs|
  {
    if |xs| > 0 {
      var init := xs[..|xs| - 1];
      PutEachHasKeys(init, key, value);
      var d := PutEach(init, key, value).value;
      var r := PutEach(xs, key, value).value;
      assert r == Put(d, key(xs[|xs| - 1]), value(xs[|xs| - 1]).value);
      assert Keys(r) == Keys(d) + {key(xs[|xs| - 1])};
      forall i | 0 <= i < |xs| ensures key(xs[i]) in Keys(r) {
        if i < |init| {
          assert init[i] == xs[i];
        }
      }
    }
  }

  /** Only the elements' keys are stored. */
  lemma {:induction false} PutEachOnlyKeys<A, K(!new), V>(xs: seq<A>, key: A -> K, value: A -> Result<V>, k: K)
    requires PutEach(xs, key, value).Ok? && k in Keys(PutEach(xs, key, value).value)
    ensures exists i :: 0 <= i < |xs| && key(xs[i]) == k
    decreases |xs|
  {
    var init := xs[..|xs| - 1];
    var d := PutEach(init, key, value).value;
    assert Keys(PutEach(xs, key, value).value) == Keys(d) + {key(xs[|xs| - 1])};
    if k != key(xs[|xs| - 1]) {
      PutEachOnlyKeys(init, key, value, k);
      var i :| 0 <= i < |init| && key(init[i]) == k;
      assert init[i] == xs[i];
    }
  }

  /** Keys compare with Python's `<` in increasing order. */
  predicate SortedByKey<V>(s: Dict<string, V>) {
    forall i, j :: 0 <= i < j < |s| ==> Less(s[i].0, s[j].0)
  }

  function InsertByKey<V>(e: (string, V), s: Dict<string, V>): (r: Dict<string, V>)
    ensures multiset(r) == multiset(s) + multiset{e}
  {
    if |s| == 0 then [e]
    else if Less(e.0, s[0].0) then [e] + s
    else
      assert s == [s[0]] + s[1..];
      [s[0]] + InsertByKey(e, s[1..])
  }

  lemma {:induction false} InsertByKeySorted<V>(e: (string, V), s: Dict<string, V>)
    requires SortedByKey(s) && e.0 !in Keys(s)
    ensures SortedByKey(InsertByKey(e, s))
  {
    if |s| > 0 {
      if Less(e.0, s[0].0) {
        forall x | x in s ensures Less(e.0, x.0) {
          var j :| 0 <= j < |s| && s[j] == x;
          if j > 0 { LessTransitive(e.0, s[0].0, s[j].0); }
        }
        ConsSorted(e, s);
      } else {
        assert s[0].0 in Keys(s);
        LessTotal(e.0, s[0].0);
        assert Keys(s[1..]) <= Keys(s);
        InsertByKeySorted(e, s[1..]);
        var r := InsertByKey(e, s[1..]);
        forall x | x in r ensures Less(s[0].0, x.0) {
          assert x in multiset(r);
          if x == e {
          } else {
            assert x in multiset(s[1..]);
            var j :| 0 <= j < |s[1..]| && s[1..][j] == x;
            assert s[j + 1] == x;
          }
        }
        ConsSorted(s[0], r);
      }
    }
  }

  /** An entry whose key is below every key of a sorted dict can go first. */
  lemma ConsSorted<V>(x: (string, V), r: Dict<string, V>)
    requires SortedByKey(r) && forall y :: y in r ==> Less(x.0, y.0)
    ensures SortedByKey([x] + r)
  {
    var t := [x] + r;
    forall i, j | 0 <= i < j < |t| ensures Less(t[i].0, t[j].0) {
      assert t[j] == r[j - 1];
      if i > 0 {
        assert t[i] == r[i - 1];
      }
    }
  }

  lemma KeysOfMultiset<V>(a: Dict<string, V>, b: Dict<string, V>)
    requires multiset(a) == multiset(b)
    ensures Keys(a) == Keys(b)
  {
    forall k | k in Keys(a) ensures k in Keys(b) {
      var i :| 0 <= i < |a| && a[i].0 == k;
      assert a[i] in multiset(b);
    }
    forall k | k in Keys(b) ensures k in Keys(a) {
      var i :| 0 <= i < |b| && b[i].0 == k;
      assert b[i] in multiset(a);
    }
  }

  /** `sorted(d.items())`: the same entries, ordered by key. */
  function SortByKey<V>(d: Dict<string, V>): (r: Dict<string, V>)
    ensures multiset(r) == multiset(d)
  {
    if |d| == 0 then []
    else
      assert d == [d[0]] + d[1..];
      InsertByKey(d[0], SortByKey(d[1..]))
  }

  /** Sorting a dict with distinct keys orders it by key. */
  lemma {:induction false} SortByKeySorted<V>(d: Dict<string, V>)
    requires Unique(d)
    ensures SortedByKey(SortByKey(d))
  {
    if |d| > 0 {
      var tail := d[1..];
      assert Unique(tail) by {
        forall i, j | 0 <= i < j < |tail| ensures tail[i].0 != tail[j].0 {
          assert tail[i] == d[i + 1] && tail[j] == d[j + 1];
        }
      }
      forall j | 0 <= j < |tail| ensures tail[j].0 != d[0].0 {
        assert tail[j] == d[j + 1];
      }
      var rest := SortByKey(tail);
      SortByKeySorted(tail);
      KeysOfMultiset(rest, tail);
      InsertByKeySorted(d[0], rest);
    }
  }

  /** `d[k] = v` for each pair of `es` in turn. */
  function PutAll<K(==,!new), V>(d: Dict<K, V>, es: seq<(K, V)>): Dict<K, V> {
    if |es| == 0 then d else Put(PutAll(d, es[..|es| - 1]), es[|es| - 1].0, es[|es| - 1].1)
  }

  /** The keys afterwards are the keys before and the keys put. */
  lemma {:induction false} PutAllKeys<K(!new), V>(d: Dict<K, V>, es: seq<(K, V)>)
    ensures Keys(PutAll(d, es)) == Keys(d) + Keys(es)
  {
    if |es| > 0 {
      var init := es[..|es| - 1];
      PutAllKeys(d, init);
      assert es == init + [es[|es| - 1]];
      assert Keys(es) == Keys(init) + {es[|es| - 1].0} by {
        forall k | k in Keys(es) ensures k in Keys(init) + {es[|es| - 1].0} {
          var i :| 0 <= i < |es| && es[i].0 == k;
          if i < |init| {
            assert init[i] == es[i];
          }
        }
        forall k | k in Keys(init) ensures k in Keys(es) {
          var i :| 0 <= i < |init| && init[i].0 == k;
          assert es[i] == init[i];
        }
      }
    }
  }

  /** Putting one more pair is one more `Put`. */
  lemma PutAllSnoc<K(!new), V>(d: Dict<K, V>, es: seq<(K, V)>, e: (K, V))
    ensures PutAll(d, es + [e]) == Put(PutAll(d, es), e.0, e.1)
  {
    var all := es + [e];
    assert all[..|all| - 1] == es;
  }

  /** What a key holds after the pairs are put was put under it, or was
      there before. */
  lemma {:induction false} PutAllFrom<K(!new), V>(d: Dict<K, V>, es: seq<(K, V)>, k: K)
    requires k in Keys(PutAll(d, es))
    ensures (k, Get(PutAll(d, es), k).value) in es || Get(PutAll(d, es), k) == Get(d, k)
  {
    if |es| > 0 {
      var init := es[..|es| - 1];
      var last := es[|es| - 1];
      PutGet(PutAll(d, init), last.0, last.1, k);
      if last.0 != k {
        PutAllFrom(d, init, k);
      }
    }
  }

  /** A key put at least once, always with the same value, ends up with
      that value. */
  lemma {:induction false} PutAllGet<K(!new), V>(d: Dict<K, V>, es: seq<(K, V)>, k: K, v: V)
    requires (k, v) in es
    requires forall e :: e in es && e.0 == k ==> e.1 == v
    ensures Get(PutAll(d, es), k) == Some(v)
  {
    var init := es[..|es| - 1];
    var last := es[|es| - 1];
    PutGet(PutAll(d, init), last.0, last.1, k);
    if last.0 != k {
      assert (k, v) in init;
      PutAllGet(d, init, k, v);
    }
  }

  /** A dict sorted by strictly increasing keys has distinct keys. */
  lemma SortedUnique<V>(s: Dict<string, V>)
    requires SortedByKey(s)
    ensures Unique(s)
  {
    forall i, j | 0 <= i < j < |s| ensures s[i].0 != s[j].0 {
      if s[i].0 == s[j].0 { LessIrreflexive(s[i].0); }
    }
  }

  /** Sorting keeps the keys and what each key maps to. */
  lemma SortByKeyGet<V>(d: Dict<string, V>, k: string)
    requires Unique(d)
    ensures Keys(SortByKey(d)) == Keys(d)
    ensures Get(SortByKey(d), k) == Get(d, k)
  {
    var r := SortByKey(d);
    KeysOfMultiset(r, d);
    SortByKeySorted(d);
    SortedUnique(r);
    if k in Keys(d) {
      var i :| 0 <= i < |r| && r[i].0 == k;
      GetAt(r, i);
      assert r[i] in multiset(d);
      var j :| 0 <= j < |d| && d[j] == r[i];
      GetAt(d, j);
    }
  }
}
