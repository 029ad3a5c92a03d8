/** Failure-carrying values shared by every module of the model.

    Python raises exceptions; the model returns them.  `Error` names the
    exception classes the modelled code raises or lets escape. */
module Common {

  datatype Option<+T> = None | Some(value: T)

  datatype Error =
    | DeckzError(msg: string)      // deckz.exceptions.DeckzError / DeckzException
    | ValueError(msg: string)      // ValueError, including pydantic's ValidationError
    | KeyError(key: string)        // a missing mapping key
    | IndexError                   // an index out of range
    | AssertionError               // a failed `assert`
    | FileNotFoundError(path: string)
    | IsADirectoryError(path: string)
    | NotADirectoryError(path: string)
    | FileExistsError(path: string)
    | SameFileError(path: string)
    | TypeError(msg: string)
    | AttributeError(msg: string)
    | StopIteration                // `next` on an exhausted iterator
    | YamlError                    // a file that is not valid YAML
    | RecursionError               // Python's recursion limit was reached
    | UnboundLocalError(name: string) // a local read before any assignment
    | ShutilError(msg: string)     // shutil.Error

  /** `f"{e}"`.  The texts of validation and YAML errors come from the
      libraries that raise them; the model keeps the message it was given. */
  function Message(e: Error): string {
    match e
    case DeckzError(m) => m
    case ValueError(m) => m
    case KeyError(k) => k
    case IndexError => "tuple index out of range"
    case AssertionError => ""
    case FileNotFoundError(p) => "No such file or directory: " + p
    case IsADirectoryError(p) => "Is a directory: " + p
    case NotADirectoryError(p) => "Not a directory: " + p
    case FileExistsError(p) => "File exists: " + p
    case SameFileError(p) => p + " and " + p + " are the same file"
    case TypeError(m) => m
    case AttributeError(m) => m
    case StopIteration => ""
    case YamlError => "invalid YAML"
    case RecursionError => "maximum recursion depth exceeded"
    case UnboundLocalError(n) => "cannot access local variable '" + n + "' where it is not associated with a value"
    case ShutilError(m) => m
  }

  datatype Result<+T> = Ok(value: T) | Err(error: Error) {
    predicate IsFailure() { Err? }

    function PropagateFailure<U>(): Result<U>
      requires Err?
    {
      Err(error)
    }

    function Extract(): T
      requires Ok?
    {
      value
    }
  }

  /** Validate every element of a list in order; the first failure is the
      failure of the whole list. */
  function MapAll<A, B>(xs: seq<A>, f: A -> Result<B>): (r: Result<seq<B>>)
    ensures r.Ok? ==> |r.value| == |xs|
  {
    if |xs| == 0 then Ok([])
    else
      match f(xs[0])
      case Err(e) => Err(e)
      case Ok(y) =>
        match MapAll(xs[1..], f)
        case Err(e) => Err(e)
        case Ok(ys) => Ok([y] + ys)
  }

  /** `MapAll` succeeds exactly when `f` succeeds on every element, and
      then holds `f`'s results in order. */
  lemma {:induction false} MapAllEach<A, B>(xs: seq<A>, f: A -> Result<B>)
    ensures MapAll(xs, f).Ok? <==> forall i :: 0 <= i < |xs| ==> f(xs[i]).Ok?
    ensures MapAll(xs, f).Ok? ==> forall i :: 0 <= i < |xs| ==> f(xs[i]) == Ok(MapAll(xs, f).value[i])
  {
    if |xs| > 0 {
      MapAllEach(xs[1..], f);
      assert forall i :: 1 <= i < |xs| ==> xs[i] == xs[1..][i - 1];
    }
  }

  /** Appending one more element to the input of `MapAll`: an earlier
      failure stands, else the new element's failure, else one more result. */
  lemma {:induction false} MapAllSnoc<A, B>(xs: seq<A>, x: A, f: A -> Result<B>)
    ensures MapAll(xs + [x], f)
         == if MapAll(xs, f).Err? then MapAll(xs, f)
            else if f(x).Err? then Err(f(x).error)
            else Ok(MapAll(xs, f).value + [f(x).value])
  {
    if |xs| == 0 {
      assert xs + [x] == [x] && [x][1..] == [];
      if f(x).Ok? {
        assert [f(x).value] + [] == [] + [f(x).value];
      }
    } else {
      var ys := xs + [x];
      assert ys[0] == xs[0];
      assert ys[1..] == xs[1..] + [x];
      MapAllSnoc(xs[1..], x, f);
      if f(xs[0]).Ok? && MapAll(xs[1..], f).Ok? && f(x).Ok? {
        var y := f(xs[0]).value;
        var rest := MapAll(xs[1..], f).value;
        assert [y] + (rest + [f(x).value]) == ([y] + rest) + [f(x).value];
      }
    }
  }

  /** The first result of a successful `MapAll` is `f` of the first element. */
  lemma MapAllHead<A, B>(xs: seq<A>, f: A -> Result<B>)
    ensures |xs| > 0 && MapAll(xs, f).Ok? ==> f(xs[0]) == Ok(MapAll(xs, f).value[0])
  {
  }

  /** The prefix one element longer is the prefix and that element. */
  lemma PrefixSnoc<A>(xs: seq<A>, i: nat)
    requires i < |xs|
    ensures xs[..i + 1] == xs[..i] + [xs[i]]
  {
  }

  /** `MapAllSnoc` for the prefixes of one input, as loops over it use. */
  lemma MapAllStep<A, B>(xs: seq<A>, i: nat, f: A -> Result<B>)
    requires i < |xs|
    ensures MapAll(xs[..i + 1], f)
         == if MapAll(xs[..i], f).Err? then MapAll(xs[..i], f)
            else if f(xs[i]).Err? then Err(f(xs[i]).error)
            else Ok(MapAll(xs[..i], f).value + [f(xs[i]).value])
  {
    assert xs[..i + 1] == xs[..i] + [xs[i]];
    MapAllSnoc(xs[..i], xs[i], f);
  }

  /** A failed `MapAll` fails with the error of one of the elements. */
  lemma {:induction false} MapAllErr<A, B>(xs: seq<A>, f: A -> Result<B>)
    requires MapAll(xs, f).Err?
    ensures exists i :: 0 <= i < |xs| && f(xs[i]) == Err(MapAll(xs, f).error)
  {
    if f(xs[0]).Ok? {
      MapAllErr(xs[1..], f);
      var i :| 0 <= i < |xs[1..]| && f(xs[1..][i]) == Err(MapAll(xs[1..], f).error);
      assert xs[i + 1] == xs[1..][i];
    }
  }

  /** A failing prefix decides the failure of the whole input. */
  lemma {:induction false} MapAllPrefixErr<A, B>(xs: seq<A>, j: nat, f: A -> Result<B>)
    requires j <= |xs| && MapAll(xs[..j], f).Err?
    ensures MapAll(xs, f) == MapAll(xs[..j], f)
  {
    assert j > 0;
    if f(xs[0]).Ok? {
      assert xs[..j][1..] == xs[1..][..j - 1];
      MapAllPrefixErr(xs[1..], j - 1, f);
    }
  }
}
