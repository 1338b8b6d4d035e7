/**
 * Optional values, results, and the failures that the modelled code raises.
 * A TypeScript `throw` (or a crash on `undefined`) becomes `Err(...)`.
 */
module Wrappers {

  datatype Option<T> = None | Some(value: T)

  /** The failures the modelled code reports, one constructor per distinct error. */
  datatype Error =
    | MarkNotFound(hatStyle: string, character: string)   // "Couldn't find mark ..."
    | NotImplemented                                       // "Not implemented"
    | NoContainingScope(scopeType: string)                 // NoContainingScopeError
    | TooFewScopes(requested: int, available: int, scopeType: string)
    | OutOfRange                                           // OutOfRangeError
    | UnsupportedLanguage(languageId: string)
    | NotSupported(scopeType: string)                      // the `notSupported` matcher
    | LengthMismatch                                       // differing numbers of targets
    | DifferentEditors                                     // "Start and end must be in same document"
    | CouldNotApplyEdits
    | DelimiterCount                                       // "Target must have an opening and closing delimiter"
    | MissingValue                                         // a TypeError on `undefined` / `null`
    | PlaceholderIndex                                     // a placeholder index outside the values

  datatype Result<T> = Ok(value: T) | Err(error: Error) {
    predicate IsFailure() { Err? }
    function PropagateFailure<U>(): Result<U> requires Err? { Err(error) }
    function Extract(): T requires Ok? { value }
  }

  /**
   * A JavaScript `map` whose callback may throw: the callback's results in order,
   * or the failure of the first element it fails on.
   */
  function MapResult<A, B>(xs: seq<A>, f: A -> Result<B>): (r: Result<seq<B>>)
    ensures r.Ok? <==> forall i :: 0 <= i < |xs| ==> f(xs[i]).Ok?
    ensures r.Ok? ==> |r.value| == |xs| && forall i :: 0 <= i < |xs| ==> r.value[i] == f(xs[i]).value
    ensures r.Err? ==> exists i :: 0 <= i < |xs| && f(xs[i]) == Err(r.error) &&
                                   forall j :: 0 <= j < i ==> f(xs[j]).Ok?
  {
    if xs == [] then Ok([])
    else match f(xs[0])
      case Err(e) => Err(e)
      case Ok(y) =>
        match MapResult(xs[1..], f)
        case Err(e) =>
          assert forall j :: 1 <= j < |xs| ==> xs[j] == xs[1..][j - 1];
          Err(e)
        case Ok(ys) =>
          assert forall j :: 1 <= j < |xs| ==> xs[j] == xs[1..][j - 1];
          Ok([y] + ys)
  }

  /** The concatenation of a sequence of sequences, in order. */
  function Flatten<T>(xss: seq<seq<T>>): (r: seq<T>)
    ensures xss == [] ==> r == []
  {
    if xss == [] then [] else xss[0] + Flatten(xss[1..])
  }

  lemma {:induction false} FlattenAppend<T>(a: seq<seq<T>>, b: seq<seq<T>>)
    ensures Flatten(a + b) == Flatten(a) + Flatten(b)
  {
    if a != [] {
      assert (a + b)[1..] == a[1..] + b;
      FlattenAppend(a[1..], b);
    } else {
      assert a + b == b;
    }
  }
}
