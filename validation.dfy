/** What pydantic makes of the exceptions raised while a model validates.

    Validation errors are modelled as `ValueError`.  A `BeforeValidator`
    turns a failed `assert` into a validation error; any other exception
    that is not a `ValueError` escapes validation at once and reaches the
    caller of `model_validate` as it was raised. */
module Validation {
  import opened Common

  /** An exception raised while validating that pydantic does not turn into
      a `ValidationError` escapes at once.  Validation errors are modelled
      as `ValueError`. */
  predicate Escapes(e: Error) {
    !e.ValueError?
  }

  /** What a `BeforeValidator` makes of its function's outcome: a failed
      `assert` becomes a validation error; anything else is kept. */
  function Validated<T>(r: Result<T>): (r': Result<T>)
    ensures r.Ok? ==> r' == r
    ensures r.Err? ==> r'.Err? && (Escapes(r'.error) <==> Escapes(r.error) && !r.error.AssertionError?)
  {
    if r.Err? && r.error.AssertionError? then Err(ValueError("Assertion failed")) else r
  }

  /** Two checks in validation order, as pydantic runs them: an escaping
      exception of the first stops everything; otherwise the second runs,
      and an escaping exception of its own stops everything; otherwise the
      first validation error stands for all of them. */
  function Both<A, B>(a: Result<A>, b: Result<B>): (r: Result<(A, B)>)
    ensures r.Ok? <==> a.Ok? && b.Ok?
    ensures r.Ok? ==> r.value == (a.value, b.value)
    ensures r.Err? ==> (a.Err? && r.error == a.error) || (b.Err? && r.error == b.error)
    ensures r.Err? && Escapes(r.error) <==> (a.Err? && Escapes(a.error)) || (b.Err? && Escapes(b.error))
    ensures a.Err? && Escapes(a.error) ==> r == Err(a.error)
  {
    if a.Err? && Escapes(a.error) then Err(a.error)
    else if b.Err? && Escapes(b.error) then Err(b.error)
    else if a.Err? then Err(a.error)
    else if b.Err? then Err(b.error)
    else Ok((a.value, b.value))
  }

  /** The items of a `list[T]`, or the entries of a `dict`, validated one
      by one: every item is checked, an escaping exception stops the run at
      its item, and otherwise the first validation error stands for the
      whole. */
  function CollectAll<A, B>(xs: seq<A>, f: A -> Result<B>): (r: Result<seq<B>>)
    ensures r.Ok? <==> forall i :: 0 <= i < |xs| ==> f(xs[i]).Ok?
    ensures r.Ok? ==> |r.value| == |xs| && forall i :: 0 <= i < |xs| ==> f(xs[i]) == Ok(r.value[i])
    ensures r.Err? ==> exists i :: 0 <= i < |xs| && f(xs[i]) == Err(r.error)
    ensures r.Err? && Escapes(r.error) <==> exists i :: 0 <= i < |xs| && f(xs[i]).Err? && Escapes(f(xs[i]).error)
  {
    if |xs| == 0 then Ok([])
    else
      var rest := CollectAll(xs[1..], f);
      assert forall i :: 1 <= i < |xs| ==> xs[i] == xs[1..][i - 1];
      match Both(f(xs[0]), rest)
      case Err(e) => Err(e)
      case Ok(p) => Ok([p.0] + p.1)
  }
}
