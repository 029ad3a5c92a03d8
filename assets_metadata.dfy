/** The metadata of the images a rendering refers to: each request for an
    asset reads the YAML file next to it, and every answer is recorded, in
    order, under the asset's name. */
module AssetsMetadata {
  import opened Common
  import Dicts
  import Paths
  import Yaml

  /** The answers recorded so far, per asset name; a YAML `null` stands
      for Python's `None`. */
  type Recorded = Dicts.Dict<string, seq<Yaml.Value>>

  /** `(assets_dir / Path(value)).with_suffix(".yml")`. */
  function MetadataPath(assetsDir: Paths.Path, value: string): (r: Result<Paths.Path>)
  {
    Paths.WithSuffix(Paths.Concat(assetsDir, Paths.FromString(value)), ".yml")
  }

  /** The metadata of an asset: the document of its `.yml` file, or `null`
      when nothing exists there. */
  function Metadata(fs: Yaml.FileSystem, assetsDir: Paths.Path, value: string): (r: Result<Yaml.Value>)
    ensures MetadataPath(assetsDir, value).Err? ==> r.Err?
    ensures MetadataPath(assetsDir, value).Ok? && MetadataPath(assetsDir, value).value.parts !in fs ==> r == Ok(Yaml.Null)
    ensures MetadataPath(assetsDir, value).Ok? && MetadataPath(assetsDir, value).value.parts in fs ==>
              r == Yaml.Load(fs, MetadataPath(assetsDir, value).value)
  {
    var path :- MetadataPath(assetsDir, value);
    if path.parts in fs then Yaml.Load(fs, path) else Ok(Yaml.Null)
  }

  /** `d[value] = (*d.setdefault(value, ()), m)`: one more answer at the
      end of the answers for `value`. */
  function Record(d: Recorded, value: string, m: Yaml.Value): (r: Recorded)
    ensures Dicts.Keys(r) == Dicts.Keys(d) + {value}
    ensures Dicts.Unique(d) ==> Dicts.Unique(r)
  {
    var before := match Dicts.Get(d, value) case Some(ms) => ms case None => [];
    var r := Dicts.Put(d, value, before + [m]);
    assert Dicts.Unique(d) ==> Dicts.Unique(r) by {
      if Dicts.Unique(d) {
        Dicts.PutUnique(d, value, before + [m]);
      }
    }
    r
  }

  /** Recording an answer appends it to the answers for its asset and
      leaves the answers for every other asset as they were. */
  lemma RecordGet(d: Recorded, value: string, m: Yaml.Value, k: string)
    ensures Dicts.Get(Record(d, value, m), k) ==
            if k == value then Some((if k in Dicts.Keys(d) then Dicts.Get(d, k).value else []) + [m])
            else Dicts.Get(d, k)
  {
    var before := match Dicts.Get(d, value) case Some(ms) => ms case None => [];
    Dicts.PutGet(d, value, before + [m], k);
  }

  /** Number of times `v` occurs in `s`. */
  function Occurrences(s: seq<string>, v: string): nat {
    if |s| == 0 then 0 else Occurrences(s[..|s| - 1], v) + (if s[|s| - 1] == v then 1 else 0)
  }

  /** A name never asked for occurs no time. */
  lemma {:induction false} OccurrencesAbsent(s: seq<string>, v: string)
    requires v !in s
    ensures Occurrences(s, v) == 0
  {
    if |s| > 0 {
      OccurrencesAbsent(s[..|s| - 1], v);
    }
  }

  /** `AssetsMetadataRetriever`: the metadata lookup of one rendering. */
  class Retriever {
    const assetsDir: Paths.Path
    var assetsMetadata: Recorded
    /** The names asked for so far, in order. */
    ghost var calls: seq<string>

    /** One answer per request: the names recorded are the names asked for,
        each with as many answers as it was asked. */
    ghost predicate Valid()
      reads this
    {
      && Dicts.Unique(assetsMetadata)
      && (forall k :: k in Dicts.Keys(assetsMetadata) <==> k in calls)
      && (forall k :: k in Dicts.Keys(assetsMetadata) ==> |Dicts.Get(assetsMetadata, k).value| == Occurrences(calls, k))
    }

    constructor (assetsDir: Paths.Path)
      ensures Valid()
      ensures this.assetsDir == assetsDir && assetsMetadata == [] && calls == []
    {
      this.assetsDir := assetsDir;
      assetsMetadata := [];
      calls := [];
    }

    /** `__call__(value)`: the metadata of `value`, recorded at the end of
      its answers. */
    method Call(fs: Yaml.FileSystem, value: string) returns (r: Result<Yaml.Value>)
      requires Valid()
      modifies this
      ensures Valid()
      ensures r == Metadata(fs, assetsDir, value)
      ensures r.Ok? ==> assetsMetadata == Record(old(assetsMetadata), value, r.value) && calls == old(calls) + [value]
      ensures r.Err? ==> assetsMetadata == old(assetsMetadata) && calls == old(calls)
    {
      r := Metadata(fs, assetsDir, value);
      if r.Err? {
        return;
      }
      ghost var d := assetsMetadata;
      assetsMetadata := Record(assetsMetadata, value, r.value);
      calls := calls + [value];
      forall k | k in Dicts.Keys(assetsMetadata)
        ensures |Dicts.Get(assetsMetadata, k).value| == Occurrences(calls, k)
      {
        RecordGet(d, value, r.value, k);
        assert calls[..|calls| - 1] == old(calls);
        if k !in old(calls) {
          OccurrencesAbsent(old(calls), k);
        }
      }
    }
  }
}
