/** The outcomes of a script step: a value, or the Python exception that ends the step. */
module Outcomes {

  datatype Option<+T> = None | Some(value: T)

  /** The exceptions the scripts raise or let escape. */
  datatype PyError =
    | RuntimeError(message: string)  // raised by the scripts themselves
    | NullObjectAccess               // a method called on a null ROOT object (missing file, directory or histogram)
    | ZeroDivisionError              // 1.0/0.0 on a Python float
    | ValueError                     // numpy reduction over an empty array
    | FileNotFound                   // uproot.open on a path that does not exist
    | KeyError                       // an uproot file without the requested key
    | TypeError                      // curve_fit given fewer points than parameters

  datatype Result<+T> = Ok(value: T) | Err(error: PyError)

  /** The values xs are the successful outcomes of the first |xs| steps of rs. */
  predicate OkPrefix<T(==)>(rs: seq<Result<T>>, xs: seq<T>)
  {
    |xs| <= |rs| && forall k :: 0 <= k < |xs| ==> rs[k] == Ok(xs[k])
  }

  /** One more successful step extends the prefix. */
  lemma OkPrefixAppend<T>(rs: seq<Result<T>>, xs: seq<T>, x: T)
    requires OkPrefix(rs, xs) && |xs| < |rs| && rs[|xs|] == Ok(x)
    ensures OkPrefix(rs, xs + [x])
  {
    assert forall k :: 0 <= k < |xs| ==> (xs + [x])[k] == xs[k];
  }
}
