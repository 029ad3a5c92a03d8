/** YAML documents as `yaml.safe_load` returns them, restricted to null,
    booleans, integers, strings, lists and string-keyed mappings, and the
    read-only file system the parsers and analyzers look things up in.

    A loaded document is a tree of these values (a mapping keeps the order
    of its keys, as a Python dict does); floats, timestamps, binary values
    and non-string keys, which `yaml.safe_load` can also produce, are not
    among them.  The
    file system maps an absolute path, given by its components, to a
    directory or to a file; the content of a file is the document it loads
    to, or `None` when loading it fails. */
module Yaml {
  import opened Common
  import Dicts
  import Paths
  import Strings

  datatype Value =
    | Null
    | Bool(b: bool)
    | Int(i: int)
    | Str(s: string)
    | List(items: seq<Value>)
    | Map(entries: Dicts.Dict<string, Value>)

  /** `isinstance(v, dict) and key in v`. */
  predicate HasKey(v: Value, key: string) {
    v.Map? && key in Dicts.Keys(v.entries)
  }

  /** `v.get(key)` on a mapping; `None` on anything else. */
  function Get(v: Value, key: string): (r: Option<Value>)
    ensures r.Some? <==> HasKey(v, key)
  {
    if v.Map? then Dicts.Get(v.entries, key) else None
  }

  /** An optional `str | None` field: absent and null both give `None`, a
      string gives itself, anything else fails validation. */
  function OptionalString(v: Option<Value>): (r: Result<Option<string>>)
    ensures r.Ok? <==> v.None? || v.value.Null? || v.value.Str?
    ensures r.Ok? && r.value.Some? <==> v.Some? && v.value.Str?
  {
    match v
    case None => Ok(None)
    case Some(Null) => Ok(None)
    case Some(Str(s)) => Ok(Some(s))
    case Some(_) => Err(ValueError("Input should be a valid string"))
  }

  /** A required `str` field. */
  function RequiredString(v: Option<Value>): (r: Result<string>)
    ensures r.Ok? <==> v.Some? && v.value.Str?
    ensures r.Ok? ==> v.value == Str(r.value)
  {
    match v
    case Some(Str(s)) => Ok(s)
    case _ => Err(ValueError("Field required or not a valid string"))
  }

  /** `for x in v`: the items of a list, the keys of a mapping, the
      one-character strings of a string; anything else is not iterable. */
  function Iterate(v: Value): (r: Result<seq<Value>>)
    ensures r.Ok? <==> v.List? || v.Map? || v.Str?
    ensures v.List? ==> r == Ok(v.items)
    ensures r.Ok? && v.Map? ==>
              |r.value| == |v.entries| &&
              forall i :: 0 <= i < |v.entries| ==> r.value[i] == Str(v.entries[i].0)
    ensures r.Ok? && v.Str? ==>
              |r.value| == |v.s| &&
              forall i :: 0 <= i < |v.s| ==> r.value[i] == Str([v.s[i]])
  {
    match v
    case List(items) => Ok(items)
    case Map(entries) => Ok(seq(|entries|, i requires 0 <= i < |entries| => Str(entries[i].0)))
    case Str(s) => Ok(seq(|s|, i requires 0 <= i < |s| => Str([s[i]])))
    case _ => Err(TypeError("object is not iterable"))
  }

  /** `needle in v`: a key of a mapping, an item of a list, a piece of a
      string; `in` on anything else is a `TypeError`. */
  function In(needle: string, v: Value): (r: Result<bool>)
    ensures r.Ok? <==> v.Map? || v.List? || v.Str?
    ensures v.Map? ==> r == Ok(needle in Dicts.Keys(v.entries))
    ensures v.List? ==> r == Ok(Str(needle) in v.items)
  {
    match v
    case Map(entries) => Ok(needle in Dicts.Keys(entries))
    case List(items) => Ok(Str(needle) in items)
    case Str(s) => Ok(Strings.Contains(s, needle))
    case _ => Err(TypeError("argument of type '" + TypeName(v) + "' is not iterable"))
  }

  /** The number a boolean or an integer stands for in a comparison. */
  function NumberOf(v: Value): int
    requires v.Bool? || v.Int?
  {
    if v.Bool? then (if v.b then 1 else 0) else v.i
  }

  /** Python's `a == b` on loaded values: booleans and integers compare as
      numbers, lists item by item, and mappings by their keys and the
      values under them, whatever the order of the keys. */
  predicate PyEq(a: Value, b: Value)
    decreases a
  {
    match a
    case Null => b.Null?
    case Bool(_) => (b.Bool? || b.Int?) && NumberOf(a) == NumberOf(b)
    case Int(_) => (b.Bool? || b.Int?) && NumberOf(a) == NumberOf(b)
    case Str(s) => b == Str(s)
    case List(xs) =>
      b.List? && |xs| == |b.items| && forall i :: 0 <= i < |xs| ==> PyEq(xs[i], b.items[i])
    case Map(es) =>
      b.Map? && Dicts.Keys(es) == Dicts.Keys(b.entries)
      && forall i, j :: 0 <= i < |es| && 0 <= j < |b.entries| && es[i].0 == b.entries[j].0 ==>
           PyEq(es[i].1, b.entries[j].1)
  }

  /** Python's `x in container`: a mapping needs a hashable `x` and holds
      only string keys; a list compares its items with `==`; a string
      holds only strings, as substrings; anything else is not iterable. */
  function Member(x: Value, container: Value): (r: Result<bool>)
    ensures r.Ok? <==> (container.Map? && !x.List? && !x.Map?) || container.List? || (container.Str? && x.Str?)
    ensures container.Map? && r.Ok? ==> r.value == (x.Str? && x.s in Dicts.Keys(container.entries))
    ensures container.Map? && r.Err? ==> r.error == TypeError("unhashable type: '" + TypeName(x) + "'")
    ensures container.List? ==> r == Ok(exists i :: 0 <= i < |container.items| && PyEq(container.items[i], x))
    ensures container.Str? && x.Str? ==> r == Ok(Strings.Contains(container.s, x.s))
  {
    match container
    case Map(es) =>
      if x.List? || x.Map? then Err(TypeError("unhashable type: '" + TypeName(x) + "'"))
      else Ok(x.Str? && x.s in Dicts.Keys(es))
    case List(items) => Ok(exists i :: 0 <= i < |items| && PyEq(items[i], x))
    case Str(s) =>
      if x.Str? then Ok(Strings.Contains(s, x.s))
      else Err(TypeError("'in <string>' requires string as left operand, not " + TypeName(x)))
    case _ => Err(TypeError("argument of type '" + TypeName(container) + "' is not iterable"))
  }

  /** Python's `container[key]` for any loaded key: a mapping looks a
      string key up; a list or a string is indexed by a boolean or an
      integer, negative ones counting from the end. */
  function Subscript(container: Value, key: Value): (r: Result<Value>)
    ensures container.Map? && key.Str? && key.s in Dicts.Keys(container.entries) ==>
              r == Ok(Dicts.Get(container.entries, key.s).value)
    ensures container.List? && (key.Bool? || key.Int?) ==>
              var n := |container.items|;
              r == (if 0 <= NumberOf(key) < n then Ok(container.items[NumberOf(key)])
                    else if -n <= NumberOf(key) < 0 then Ok(container.items[n + NumberOf(key)])
                    else Err(IndexError))
    ensures container.List? && !key.Bool? && !key.Int? ==> r.Err? && r.error.TypeError?
    ensures container.Str? && !key.Bool? && !key.Int? ==> r.Err? && r.error.TypeError?
  {
    match container
    case Map(es) =>
      if key.List? || key.Map? then Err(TypeError("unhashable type: '" + TypeName(key) + "'"))
      else if key.Str? && key.s in Dicts.Keys(es) then Ok(Dicts.Get(es, key.s).value)
      else Err(KeyError(Formatted(key)))
    case List(items) =>
      if key.Bool? || key.Int? then
        var k := NumberOf(key);
        if 0 <= k < |items| then Ok(items[k])
        else if -|items| <= k < 0 then Ok(items[|items| + k])
        else Err(IndexError)
      else Err(TypeError("list indices must be integers or slices, not " + TypeName(key)))
    case Str(s) =>
      if key.Bool? || key.Int? then
        var k := NumberOf(key);
        if 0 <= k < |s| then Ok(Str([s[k]]))
        else if -|s| <= k < 0 then Ok(Str([s[|s| + k]]))
        else Err(IndexError)
      else Err(TypeError("string indices must be integers, not '" + TypeName(key) + "'"))
    case _ => Err(TypeError("'" + TypeName(container) + "' object is not subscriptable"))
  }

  /** `repr` of a string: in single quotes, or in double quotes when it
      holds a single quote and no double quote; the quote in use and the
      backslash are escaped, tab, newline and carriage return by name, and
      the control characters, the no-break space and the soft hyphen as
      `\xNN`. */
  function ReprString(s: string): (r: string)
    ensures |r| >= 2 && r[0] == r[|r| - 1] && r[0] in {'\'', '"'}
  {
    var quote := if '\'' in s && '"' !in s then '"' else '\'';
    [quote] + EscapeAll(s, quote) + [quote]
  }

  function EscapeAll(s: string, quote: char): string {
    if |s| == 0 then "" else EscapeChar(s[0], quote) + EscapeAll(s[1..], quote)
  }

  function EscapeChar(c: char, quote: char): string {
    if c == quote || c == '\\' then ['\\', c]
    else if c == '\t' then "\\t"
    else if c == '\n' then "\\n"
    else if c == '\r' then "\\r"
    else if c as int < 32 || 127 <= c as int <= 160 || c as int == 173 then "\\x" + [HexDigit(c as int / 16), HexDigit(c as int % 16)]
    else [c]
  }

  function HexDigit(n: int): char
    requires 0 <= n < 16
  {
    "0123456789abcdef"[n]
  }

  /** `", ".join(parts)`. */
  function JoinComma(parts: seq<string>): string {
    if |parts| == 0 then "" else if |parts| == 1 then parts[0] else parts[0] + ", " + JoinComma(parts[1..])
  }

  /** `repr(v)` of a loaded YAML value, as Python writes `None`, booleans,
      integers, strings, lists and dicts. */
  function Repr(v: Value): string {
    match v
    case Null => "None"
    case Bool(b) => if b then "True" else "False"
    case Int(i) => Strings.DecimalString(i)
    case Str(s) => ReprString(s)
    case List(items) => "[" + JoinComma(seq(|items|, k requires 0 <= k < |items| => Repr(items[k]))) + "]"
    case Map(es) =>
      "{" + JoinComma(seq(|es|, k requires 0 <= k < |es| => ReprString(es[k].0) + ": " + Repr(es[k].1))) + "}"
  }

  /** `f"{v}"`: a string is itself, anything else its `repr`. */
  function Formatted(v: Value): (r: string)
    ensures v.Str? ==> r == v.s
    ensures !v.Str? ==> r == Repr(v)
  {
    if v.Str? then v.s else Repr(v)
  }

  /** `not v`: null, false, zero and the empty string, list and mapping. */
  predicate Falsy(v: Value) {
    match v
    case Null => true
    case Bool(b) => !b
    case Int(i) => i == 0
    case Str(s) => |s| == 0
    case List(items) => |items| == 0
    case Map(entries) => |entries| == 0
  }

  /** What the file system holds at a path. */
  datatype Entry = File(content: Option<Value>) | Dir

  /** Absolute paths, as their components, to what is there. */
  type FileSystem = map<seq<string>, Entry>

  predicate IsFile(fs: FileSystem, p: seq<string>) {
    p in fs && fs[p].File?
  }

  predicate IsDir(fs: FileSystem, p: seq<string>) {
    p in fs && fs[p].Dir?
  }

  /** Every mapping document on the file system has distinct top-level
      keys, as a YAML loader builds them. */
  predicate DistinctKeys(fs: FileSystem) {
    forall p :: p in fs && fs[p].File? && fs[p].content.Some? && fs[p].content.value.Map? ==>
      Dicts.Unique(fs[p].content.value.entries)
  }

  /** `load_yaml(path)`: the document of the file at `path`.  A missing
      path, a directory or a file that is not valid YAML fails. */
  function Load(fs: FileSystem, path: Paths.Path): (r: Result<Value>)
    ensures r.Ok? <==> IsFile(fs, path.parts) && fs[path.parts].content.Some?
    ensures r.Ok? ==> r.value == fs[path.parts].content.value
    ensures path.parts !in fs ==> r == Err(FileNotFoundError(Paths.ToString(path)))
    ensures IsDir(fs, path.parts) ==> r == Err(IsADirectoryError(Paths.ToString(path)))
    ensures IsFile(fs, path.parts) && fs[path.parts].content.None? ==> r == Err(YamlError)
  {
    if path.parts !in fs then Err(FileNotFoundError(Paths.ToString(path)))
    else match fs[path.parts]
      case Dir => Err(IsADirectoryError(Paths.ToString(path)))
      case File(None) => Err(YamlError)
      case File(Some(v)) => Ok(v)
  }

  /** The name Python gives to the type of a loaded value. */
  function TypeName(v: Value): string {
    match v
    case Null => "NoneType"
    case Bool(_) => "bool"
    case Int(_) => "int"
    case Str(_) => "str"
    case List(_) => "list"
    case Map(_) => "dict"
  }

  /** The operand of the dict display `{**a, **b}`: only a mapping can be
      unpacked, anything else is a `TypeError` naming its type. */
  function AsMapping(v: Value): (r: Result<Dicts.Dict<string, Value>>)
    ensures r.Ok? <==> v.Map?
    ensures r.Ok? ==> r.value == v.entries
    ensures r.Err? ==> r.error == TypeError("'" + TypeName(v) + "' object is not a mapping")
  {
    if v.Map? then Ok(v.entries) else Err(TypeError("'" + TypeName(v) + "' object is not a mapping"))
  }

  /** `load_yaml(path)` where the document must be a mapping. */
  function LoadMapping(fs: FileSystem, path: Paths.Path): (r: Result<Dicts.Dict<string, Value>>)
    ensures r.Ok? <==> IsFile(fs, path.parts) && fs[path.parts].content.Some? && fs[path.parts].content.value.Map?
    ensures r.Ok? ==> r.value == fs[path.parts].content.value.entries
    ensures r.Ok? && DistinctKeys(fs) ==> Dicts.Unique(r.value)
  {
    var v :- Load(fs, path);
    AsMapping(v)
  }

  /** A loaded value that `ChainMap` cannot iterate: `None`, a boolean or
      an integer. */
  predicate NotIterable(v: Value) {
    v.Null? || v.Bool? || v.Int?
  }

  /** The keys iterating a `ChainMap` collects from one loaded layer: a
      mapping gives its entries, an empty list or string no key at all.
      `None`, a boolean or an integer is not iterable.  The items of a
      non-empty list or string would become keys whose lookup in that layer
      raises `TypeError`; the model refuses such a layer here.  Looking a
      key up in a layer is `Index`, not this. */
  function AsLayer(v: Value): (r: Result<Dicts.Dict<string, Value>>)
    ensures r.Ok? <==> v.Map? || v == List([]) || v == Str("")
    ensures v.Map? ==> r == Ok(v.entries)
    ensures r.Ok? && !v.Map? ==> r.value == []
    ensures r.Err? ==> r.error.TypeError?
  {
    match v
    case Map(es) => Ok(es)
    case List(items) =>
      if |items| == 0 then Ok([]) else Err(TypeError("list indices must be integers or slices, not str"))
    case Str(s) =>
      if |s| == 0 then Ok([]) else Err(TypeError("string indices must be integers"))
    case Null => Err(TypeError("'NoneType' object is not iterable"))
    case Bool(_) => Err(TypeError("'bool' object is not iterable"))
    case Int(_) => Err(TypeError("'int' object is not iterable"))
  }

  /** The last of `vs` that is not iterable, if any: `ChainMap` iterates
      its layers from the last one, so that is the one that fails first. */
  function LastNotIterable(vs: seq<Value>): (r: Option<Value>)
    ensures r.None? <==> forall i :: 0 <= i < |vs| ==> !NotIterable(vs[i])
    ensures r.Some? ==> NotIterable(r.value)
    ensures r.Some? ==> exists i :: 0 <= i < |vs| && vs[i] == r.value && forall j :: i < j < |vs| ==> !NotIterable(vs[j])
  {
    if |vs| == 0 then None
    else if NotIterable(vs[|vs| - 1]) then Some(vs[|vs| - 1])
    else
      var r := LastNotIterable(vs[..|vs| - 1]);
      assert forall i :: 0 <= i < |vs| - 1 ==> vs[..|vs| - 1][i] == vs[i];
      r
  }

  /** The layers of a `ChainMap` once it is iterated: every key of every
      layer is collected, from the last layer to the first, before any is
      looked up, so a layer that is not iterable fails before any lookup
      does.  It succeeds exactly when every layer is a mapping, an empty
      list or an empty string; the lookups that follow are `ChainItems`'s. */
  function ChainLayers(vs: seq<Value>): (r: Result<seq<Dicts.Dict<string, Value>>>)
    ensures r.Ok? <==> forall i :: 0 <= i < |vs| ==> AsLayer(vs[i]).Ok?
    ensures r.Ok? ==> |r.value| == |vs| && forall i :: 0 <= i < |vs| ==> AsLayer(vs[i]) == Ok(r.value[i])
    ensures r.Err? ==> r.error.TypeError?
    ensures LastNotIterable(vs).Some? ==> r == Err(AsLayer(LastNotIterable(vs).value).error)
  {
    MapAllEach(vs, AsLayer);
    match LastNotIterable(vs)
    case Some(v) => Err(AsLayer(v).error)
    case None =>
      var r := MapAll(vs, AsLayer);
      if r.Err? then MapAllErr(vs, AsLayer); r else r
  }

  /** `layer[k]` for a loaded layer and a string key: a mapping gives its
      value or raises `KeyError`; a list or a string cannot be indexed by
      a string, and `None`, a boolean or an integer cannot be indexed. */
  function Index(v: Value, k: string): (r: Result<Value>)
    ensures r.Ok? <==> v.Map? && k in Dicts.Keys(v.entries)
    ensures r.Ok? ==> Dicts.Get(v.entries, k) == Some(r.value)
    ensures r.Err? && v.Map? ==> r.error == KeyError(k)
    ensures r.Err? && !v.Map? ==> r.error.TypeError?
  {
    match v
    case Map(es) => if k in Dicts.Keys(es) then Ok(Dicts.Get(es, k).value) else Err(KeyError(k))
    case List(_) => Err(TypeError("list indices must be integers or slices, not str"))
    case Str(_) => Err(TypeError("string indices must be integers"))
    case Null => Err(TypeError("'NoneType' object is not subscriptable"))
    case Bool(_) => Err(TypeError("'bool' object is not subscriptable"))
    case Int(_) => Err(TypeError("'int' object is not subscriptable"))
  }

  /** Some mapping among `vs` holds `k`. */
  predicate Holds(vs: seq<Value>, k: string) {
    exists i :: 0 <= i < |vs| && vs[i].Map? && k in Dicts.Keys(vs[i].entries)
  }

  /** A mapping among `vs` holds `k`, and only mappings come before it. */
  predicate Reaches(vs: seq<Value>, k: string) {
    exists i :: 0 <= i < |vs| && vs[i].Map? && k in Dicts.Keys(vs[i].entries) && forall j :: 0 <= j < i ==> vs[j].Map?
  }

  /** `Reaches` and `Holds` on a non-empty chain, from its first layer. */
  lemma ReachesCons(vs: seq<Value>, k: string)
    requires |vs| > 0
    ensures Reaches(vs, k) <==> vs[0].Map? && (k in Dicts.Keys(vs[0].entries) || Reaches(vs[1..], k))
    ensures Holds(vs, k) <==> (vs[0].Map? && k in Dicts.Keys(vs[0].entries)) || Holds(vs[1..], k)
  {
    if Reaches(vs, k) {
      var i :| 0 <= i < |vs| && vs[i].Map? && k in Dicts.Keys(vs[i].entries) && forall j :: 0 <= j < i ==> vs[j].Map?;
      if i > 0 {
        assert vs[1..][i - 1] == vs[i];
        assert forall j :: 0 <= j < i - 1 ==> vs[1..][j] == vs[j + 1];
      }
    }
    if vs[0].Map? && Reaches(vs[1..], k) {
      var i :| 0 <= i < |vs[1..]| && vs[1..][i].Map? && k in Dicts.Keys(vs[1..][i].entries)
               && forall j :: 0 <= j < i ==> vs[1..][j].Map?;
      assert vs[i + 1] == vs[1..][i];
      forall j | 0 <= j < i + 1 ensures vs[j].Map? {
        if j > 0 {
          assert vs[j] == vs[1..][j - 1];
        }
      }
    }
    if Holds(vs[1..], k) {
      var i :| 0 <= i < |vs[1..]| && vs[1..][i].Map? && k in Dicts.Keys(vs[1..][i].entries);
      assert vs[i + 1] == vs[1..][i];
    }
    if Holds(vs, k) && !(vs[0].Map? && k in Dicts.Keys(vs[0].entries)) {
      var i :| 0 <= i < |vs| && vs[i].Map? && k in Dicts.Keys(vs[i].entries);
      assert vs[1..][i - 1] == vs[i];
    }
  }

  /** `ChainMap.__getitem__(k)`: the layers are indexed in order, a
      `KeyError` passing on to the next layer and any other error
      propagating; a key no layer holds is a `KeyError`.  The lookup
      succeeds exactly when a mapping holding `k` comes before any layer
      of another kind, and a key some mapping holds fails only with
      `TypeError`. */
  function LookUp(vs: seq<Value>, k: string): (r: Result<Value>)
    ensures r.Ok? <==> Reaches(vs, k)
    ensures r.Err? && Holds(vs, k) ==> r.error.TypeError?
    decreases |vs|
  {
    if |vs| == 0 then Err(KeyError(k))
    else
      ReachesCons(vs, k);
      match Index(vs[0], k)
      case Ok(v) => Ok(v)
      case Err(e) => if e.KeyError? then LookUp(vs[1..], k) else Err(e)
  }

  /** Every key that a mapping after the `i`-th layer holds is held by a
      mapping before it, so no lookup reaches the `i`-th layer. */
  predicate Shadowed(vs: seq<Value>, i: nat) {
    forall j, k :: i < j < |vs| && vs[j].Map? && k in Dicts.Keys(vs[j].entries) ==>
      exists m :: 0 <= m < i && vs[m].Map? && k in Dicts.Keys(vs[m].entries)
  }

  /** A key of the chain of iterated layers is a key some mapping holds. */
  lemma ChainKeysHeld(vs: seq<Value>, layers: seq<Dicts.Dict<string, Value>>, k: string)
    requires ChainLayers(vs) == Ok(layers)
    ensures k in Dicts.Keys(Dicts.ChainMap(layers)) <==> Holds(vs, k)
  {
    Dicts.ChainMapKeys(layers, k);
    if Holds(vs, k) {
      var i :| 0 <= i < |vs| && vs[i].Map? && k in Dicts.Keys(vs[i].entries);
      assert layers[i] == vs[i].entries;
    }
    if k in Dicts.Keys(Dicts.ChainMap(layers)) {
      var i :| 0 <= i < |layers| && k in Dicts.Keys(layers[i]);
      assert AsLayer(vs[i]) == Ok(layers[i]);
    }
  }

  /** Every held key reaches a mapping exactly when every layer that is
      not a mapping is shadowed. */
  lemma {:induction false} ReachesIffShadowed(vs: seq<Value>)
    ensures (forall k :: Holds(vs, k) ==> Reaches(vs, k))
            <==> forall i :: 0 <= i < |vs| && !vs[i].Map? ==> Shadowed(vs, i)
  {
    if forall k :: Holds(vs, k) ==> Reaches(vs, k) {
      forall i, j, k | 0 <= i < |vs| && !vs[i].Map? && i < j < |vs| && vs[j].Map? && k in Dicts.Keys(vs[j].entries)
        ensures exists m :: 0 <= m < i && vs[m].Map? && k in Dicts.Keys(vs[m].entries)
      {
        assert Holds(vs, k);
        var m :| 0 <= m < |vs| && vs[m].Map? && k in Dicts.Keys(vs[m].entries) && forall j :: 0 <= j < m ==> vs[j].Map?;
        assert m < i;
      }
    }
    if forall i :: 0 <= i < |vs| && !vs[i].Map? ==> Shadowed(vs, i) {
      forall k | Holds(vs, k) ensures Reaches(vs, k) {
        var m := FirstHolder(vs, k);
        forall j | 0 <= j < m ensures vs[j].Map? {
          MappingBeforeHolder(vs, k, j);
        }
      }
    }
  }

  /** A layer before the first mapping holding `k` is a mapping when
      every layer that is not a mapping is shadowed. */
  lemma MappingBeforeHolder(vs: seq<Value>, k: string, j: nat)
    requires forall i :: 0 <= i < |vs| && !vs[i].Map? ==> Shadowed(vs, i)
    requires Holds(vs, k) && j < FirstHolder(vs, k)
    ensures vs[j].Map?
  {
  }

  /** The first mapping that holds `k`. */
  function FirstHolder(vs: seq<Value>, k: string): (m: nat)
    requires Holds(vs, k)
    ensures m < |vs| && vs[m].Map? && k in Dicts.Keys(vs[m].entries)
    ensures forall j :: 0 <= j < m ==> !(vs[j].Map? && k in Dicts.Keys(vs[j].entries))
    decreases |vs|
  {
    ReachesCons(vs, k);
    if vs[0].Map? && k in Dicts.Keys(vs[0].entries) then 0
    else
      var m := FirstHolder(vs[1..], k);
      assert forall j :: 1 <= j < m + 1 ==> vs[j] == vs[1..][j - 1];
      m + 1
  }

  /** `ChainMap(*vs).items()` consumed in full, as `sorted` does: the
      layers are iterated first (`ChainLayers`), then every key of the
      chain is looked up in turn, in the order of the chain, the first
      lookup that fails giving the error.  It succeeds exactly when the
      layers iterate and every layer that is not a mapping (an empty list
      or string) is shadowed, and then holds the chain of the layers. */
  function ChainItems(vs: seq<Value>): (r: Result<Dicts.Dict<string, Value>>)
    ensures r.Ok? <==> ChainLayers(vs).Ok? && forall i :: 0 <= i < |vs| && !vs[i].Map? ==> Shadowed(vs, i)
    ensures r.Ok? ==> r.value == Dicts.ChainMap(ChainLayers(vs).value)
    ensures r.Err? ==> r.error.TypeError?
    ensures LastNotIterable(vs).Some? ==> r == Err(AsLayer(LastNotIterable(vs).value).error)
  {
    match ChainLayers(vs)
    case Err(e) => Err(e)
    case Ok(layers) =>
      var chain := Dicts.ChainMap(layers);
      var looked := MapAll(chain, (e: (string, Value)) => LookUp(vs, e.0));
      ChainLookUps(vs, layers);
      if looked.Err? then Err(looked.error) else Ok(chain)
  }

  /** The lookups of the chain's keys all succeed exactly when every layer
      that is not a mapping is shadowed, and fail only with `TypeError`. */
  lemma ChainLookUps(vs: seq<Value>, layers: seq<Dicts.Dict<string, Value>>)
    requires ChainLayers(vs) == Ok(layers)
    ensures var looked := MapAll(Dicts.ChainMap(layers), (e: (string, Value)) => LookUp(vs, e.0));
            && (looked.Ok? <==> forall i :: 0 <= i < |vs| && !vs[i].Map? ==> Shadowed(vs, i))
            && (looked.Err? ==> looked.error.TypeError?)
  {
    ChainLookUpsFound(vs, layers);
    ChainLookUpsFail(vs, layers);
  }

  /** Looking up every key of the chain succeeds exactly when every layer
      that is not a mapping is shadowed. */
  lemma ChainLookUpsFound(vs: seq<Value>, layers: seq<Dicts.Dict<string, Value>>)
    requires ChainLayers(vs) == Ok(layers)
    ensures MapAll(Dicts.ChainMap(layers), (e: (string, Value)) => LookUp(vs, e.0)).Ok?
            <==> forall i :: 0 <= i < |vs| && !vs[i].Map? ==> Shadowed(vs, i)
  {
    var chain := Dicts.ChainMap(layers);
    var f := (e: (string, Value)) => LookUp(vs, e.0);
    var allFound := forall n :: 0 <= n < |chain| ==> LookUp(vs, chain[n].0).Ok?;
    assert MapAll(chain, f).Ok? <==> allFound by {
      MapAllEach(chain, f);
    }
    ChainLookUpsReach(vs, layers);
    ReachesIffShadowed(vs);
  }

  /** A lookup of a key of the chain fails only with `TypeError`. */
  lemma ChainLookUpsFail(vs: seq<Value>, layers: seq<Dicts.Dict<string, Value>>)
    requires ChainLayers(vs) == Ok(layers)
    ensures var looked := MapAll(Dicts.ChainMap(layers), (e: (string, Value)) => LookUp(vs, e.0));
            looked.Err? ==> looked.error.TypeError?
  {
    var chain := Dicts.ChainMap(layers);
    var f := (e: (string, Value)) => LookUp(vs, e.0);
    if MapAll(chain, f).Err? {
      MapAllErr(chain, f);
      var n :| 0 <= n < |chain| && f(chain[n]) == Err(MapAll(chain, f).error);
      assert chain[n].0 in Dicts.Keys(chain);
      ChainKeysHeld(vs, layers, chain[n].0);
    }
  }


  /** Every key of the chain is held by some mapping layer. */
  lemma ChainKeysHold(vs: seq<Value>, layers: seq<Dicts.Dict<string, Value>>)
    requires ChainLayers(vs) == Ok(layers)
    ensures forall n :: 0 <= n < |Dicts.ChainMap(layers)| ==> Holds(vs, Dicts.ChainMap(layers)[n].0)
  {
    var chain := Dicts.ChainMap(layers);
    forall n | 0 <= n < |chain| ensures Holds(vs, chain[n].0) {
      assert chain[n].0 in Dicts.Keys(chain);
      ChainKeysHeld(vs, layers, chain[n].0);
    }
  }

  /** Looking up every key of the chain succeeds exactly when every key a
      mapping layer holds is reached. */
  lemma ChainLookUpsReach(vs: seq<Value>, layers: seq<Dicts.Dict<string, Value>>)
    requires ChainLayers(vs) == Ok(layers)
    ensures (forall n :: 0 <= n < |Dicts.ChainMap(layers)| ==> LookUp(vs, Dicts.ChainMap(layers)[n].0).Ok?)
            <==> forall k :: Holds(vs, k) ==> Reaches(vs, k)
  {
    var chain := Dicts.ChainMap(layers);
    ChainKeysHold(vs, layers);
    if forall n :: 0 <= n < |chain| ==> LookUp(vs, chain[n].0).Ok? {
      forall k | Holds(vs, k) ensures Reaches(vs, k) {
        ChainKeysHeld(vs, layers, k);
        var n :| 0 <= n < |chain| && chain[n].0 == k;
      }
    }
  }


  /** The merges that chaining `{a: 1}` with an empty layer performs. */
  lemma OneKeyMerges()
    ensures Dicts.Merge([], [("a", Int(1))]) == [("a", Int(1))]
    ensures Dicts.MergeAll<string, Value>([[]]) == []
    ensures Dicts.MergeAll([[("a", Int(1))]]) == [("a", Int(1))]
  {
    var m: Dicts.Dict<string, Value> := [("a", Int(1))];
    var none: Dicts.Dict<string, Value> := [];
    assert Dicts.Merge(none, m) == m by {
      assert m[1..] == [];
      assert Dicts.Put(none, "a", Int(1)) == m;
    }
    assert Dicts.MergeAll([none]) == none by {
      assert [none][..0] == [];
    }
    assert Dicts.MergeAll([m]) == m by {
      assert [m][..0] == [];
    }
  }

  /** An empty list before a mapping: the chain iterates, but looking up
      the mapping's key indexes the list, which raises `TypeError`. */
  lemma EmptyListBlocks()
    ensures ChainItems([List([]), Map([("a", Int(1))])])
         == Err(TypeError("list indices must be integers or slices, not str"))
  {
    var m: Dicts.Dict<string, Value> := [("a", Int(1))];
    var none: Dicts.Dict<string, Value> := [];
    OneKeyMerges();
    assert AsLayer(List([])) == Ok(none) && AsLayer(Map(m)) == Ok(m);
    var blocked := [List([]), Map(m)];
    assert LastNotIterable(blocked) == None by {
      assert blocked[..1] == [List([])];
      assert blocked[..1][..0] == [];
    }
    assert MapAll(blocked, AsLayer) == Ok([none, m]) by {
      assert blocked[1..] == [Map(m)];
      assert blocked[1..][1..] == [];
      assert MapAll(blocked[1..][1..], AsLayer) == Ok([]);
      assert [m] + [] == [m];
      assert MapAll(blocked[1..], AsLayer) == Ok([m]);
      assert [none] + [m] == [none, m];
    }
    assert ChainLayers(blocked) == Ok([none, m]);
    assert Dicts.Reverse([none, m]) == [m, none];
    assert [m, none][..1] == [m];
    assert Dicts.ChainMap([none, m]) == m;
    assert LookUp(blocked, "a") == Err(TypeError("list indices must be integers or slices, not str"));
  }

  /** The same empty list after the mapping is never reached: the chain is
      the mapping. */
  lemma EmptyListUnreached()
    ensures ChainItems([Map([("a", Int(1))]), List([])]) == Ok([("a", Int(1))])
  {
    var m: Dicts.Dict<string, Value> := [("a", Int(1))];
    var none: Dicts.Dict<string, Value> := [];
    OneKeyMerges();
    assert AsLayer(List([])) == Ok(none) && AsLayer(Map(m)) == Ok(m);
    var reached := [Map(m), List([])];
    assert LastNotIterable(reached) == None by {
      assert reached[..1] == [Map(m)];
      assert reached[..1][..0] == [];
    }
    assert MapAll(reached, AsLayer) == Ok([m, none]) by {
      assert reached[1..] == [List([])];
      assert reached[1..][1..] == [];
      assert MapAll(reached[1..][1..], AsLayer) == Ok([]);
      assert [none] + [] == [none];
      assert MapAll(reached[1..], AsLayer) == Ok([none]);
      assert [m] + [none] == [m, none];
    }
    assert ChainLayers(reached) == Ok([m, none]);
    assert Dicts.Reverse([m, none]) == [none, m];
    assert [none, m][..1] == [none];
    assert Dicts.ChainMap([m, none]) == m;
    assert LookUp(reached, "a") == Ok(Int(1));
  }


  /** `LoadMapping` on a fixed file system, as a function value. */
  function LoadMappingIn(fs: FileSystem): Paths.Path -> Result<Dicts.Dict<string, Value>> {
    p => LoadMapping(fs, p)
  }

  /** A file name `*.tex`. */
  predicate IsTexName(name: string) {
    |name| >= 4 && name[|name| - 4..] == ".tex"
  }

  /** The recursive glob of `*.tex` below `dir`: every path strictly below `dir` whose name
      ends in `.tex`. */
  function TexBelow(fs: FileSystem, dir: Paths.Path): (r: set<Paths.Path>)
    ensures forall p :: p in r ==> p.parts in fs && Paths.IsRelativeTo(p, dir) && |p.parts| > |dir.parts|
  {
    set q | q in fs && |q| > |dir.parts| && q[..|dir.parts|] == dir.parts && IsTexName(q[|q| - 1])
      :: Paths.Path(dir.rooted, q)
  }

  /** `d / name` for each of `dirs` where it is a regular file, in order. */
  function ExistingFiles(fs: FileSystem, dirs: seq<Paths.Path>, name: string): (r: seq<Paths.Path>)
    ensures forall i :: 0 <= i < |r| ==> IsFile(fs, r[i].parts)
    ensures forall p :: p in r <==> exists d :: d in dirs && p == Paths.Child(d, name) && IsFile(fs, p.parts)
  {
    if |dirs| == 0 then []
    else
      var file := Paths.Child(dirs[0], name);
      var rest := ExistingFiles(fs, dirs[1..], name);
      assert forall d :: d in dirs <==> d == dirs[0] || d in dirs[1..];
      if IsFile(fs, file.parts) then [file] + rest else rest
  }

  /** `reduce(lambda a, b: {**a, **b}, (load_yaml(f) for f in files), {})`:
      the documents of the files, which must all be mappings, merged from
      first to last; the first failure stops the merge. */
  function MergeFiles(fs: FileSystem, files: seq<Paths.Path>): (r: Result<Dicts.Dict<string, Value>>)
    ensures r.Ok? ==> Dicts.Unique(r.value)
  {
    var docs :- MapAll(files, LoadMappingIn(fs));
    Dicts.MergeAllUnique(docs);
    Ok(Dicts.MergeAll(docs))
  }

  /** The merge exists exactly when every file is a YAML mapping; its
      keys are the keys of the files, and a key takes its whole value from
      the last file that has it. */
  lemma MergeFilesLayering(fs: FileSystem, files: seq<Paths.Path>, i: nat, k: string)
    requires DistinctKeys(fs)
    ensures MergeFiles(fs, files).Ok? <==> forall j :: 0 <= j < |files| ==> LoadMapping(fs, files[j]).Ok?
    ensures MergeFiles(fs, files).Ok? ==>
              && (k in Dicts.Keys(MergeFiles(fs, files).value) <==>
                    exists j :: 0 <= j < |files| && k in Dicts.Keys(LoadMapping(fs, files[j]).value))
              && (i < |files| && k in Dicts.Keys(LoadMapping(fs, files[i]).value)
                  && (forall j :: i < j < |files| ==> k !in Dicts.Keys(LoadMapping(fs, files[j]).value)) ==>
                    Dicts.Get(MergeFiles(fs, files).value, k) == Dicts.Get(LoadMapping(fs, files[i]).value, k))
  {
    var f := LoadMappingIn(fs);
    MapAllEach(files, f);
    if MapAll(files, f).Ok? {
      var docs := MapAll(files, f).value;
      assert forall j :: 0 <= j < |files| ==> LoadMapping(fs, files[j]) == Ok(docs[j]);
      Dicts.MergeAllKeys(docs, k);
      if i < |files| && k in Dicts.Keys(docs[i]) && (forall j :: i < j < |files| ==> k !in Dicts.Keys(docs[j])) {
        Dicts.MergeAllGet(docs, i, k);
      }
    }
  }
}
