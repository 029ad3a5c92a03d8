/** The template variables of a working directory: the `variables.yml`
    files of the git directory, the user configuration directory and the
    directories down to the current one, merged in that order, a later
    file replacing the whole value of a key of an earlier one. */
module Variables {
  import opened Common
  import Dicts
  import Paths
  import Yaml
  import Utils

  /** The `variables.yml` files of a directory hierarchy, in order. */
  function VariablesFiles(fs: Yaml.FileSystem, git: Paths.Path, user: Paths.Path, current: Paths.Path)
    : (r: seq<Paths.Path>)
  {
    Yaml.ExistingFiles(fs, Utils.DirsHierarchy(git, user, current), "variables.yml")
  }

  /** `get_variables(settings)`: the variables files of the directory
      hierarchy, merged from first to last. */
  function GetVariables(fs: Yaml.FileSystem, git: Paths.Path, user: Paths.Path, current: Paths.Path)
    : (r: Result<Dicts.Dict<string, Yaml.Value>>)
    ensures r.Ok? ==> Dicts.Unique(r.value)
  {
    Yaml.MergeFiles(fs, VariablesFiles(fs, git, user, current))
  }

  /** The variables files are all present, so reading them through
      `load_all_yamls` skips none of them. */
  lemma VariablesFilesAllLoaded(fs: Yaml.FileSystem, git: Paths.Path, user: Paths.Path, current: Paths.Path)
    ensures var files := VariablesFiles(fs, git, user, current);
            Utils.LoadAllYamls(fs, files) == MapAll(files, p => Yaml.Load(fs, p))
  {
    var files := VariablesFiles(fs, git, user, current);
    Utils.LoadAllYamlsExisting(fs, files);
    ExistingAll(fs, files);
  }

  /** A list of paths that all exist is its own existing part. */
  lemma {:induction false} ExistingAll(fs: Yaml.FileSystem, paths: seq<Paths.Path>)
    requires forall i :: 0 <= i < |paths| ==> paths[i].parts in fs
    ensures Utils.Existing(fs, paths) == paths
  {
    if |paths| > 0 {
      ExistingAll(fs, paths[1..]);
    }
  }

  /** The variables exist exactly when every variables file is a mapping;
      their keys are the keys of the files, and a key takes its whole
      value from the deepest file that has it. */
  lemma GetVariablesLayering(fs: Yaml.FileSystem, git: Paths.Path, user: Paths.Path, current: Paths.Path,
                             i: nat, k: string)
    requires Yaml.DistinctKeys(fs)
    ensures var files := VariablesFiles(fs, git, user, current);
            var r := GetVariables(fs, git, user, current);
            && (r.Ok? <==> forall j :: 0 <= j < |files| ==> Yaml.LoadMapping(fs, files[j]).Ok?)
            && (r.Ok? ==> (k in Dicts.Keys(r.value) <==>
                             exists j :: 0 <= j < |files| && k in Dicts.Keys(Yaml.LoadMapping(fs, files[j]).value)))
            && (r.Ok? && i < |files| && k in Dicts.Keys(Yaml.LoadMapping(fs, files[i]).value)
                && (forall j :: i < j < |files| ==> k !in Dicts.Keys(Yaml.LoadMapping(fs, files[j]).value)) ==>
                  Dicts.Get(r.value, k) == Dicts.Get(Yaml.LoadMapping(fs, files[i]).value, k))
  {
    Yaml.MergeFilesLayering(fs, VariablesFiles(fs, git, user, current), i, k);
  }
}
