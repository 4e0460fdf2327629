/** Failure-carrying values used by the shape model: `Option` for lookups that
    may find nothing and `Result` for operations that report an error to the
    caller instead of aborting. */
module Results {

  datatype Option<+T> = None | Some(value: T)

  datatype Result<+R, +E> = Ok(value: R) | Err(error: E)

  /** The last element of a list, if there is one. */
  function Last<T>(xs: seq<T>): (r: Option<T>)
    ensures r.None? <==> |xs| == 0
    ensures r.Some? ==> r.value == xs[|xs| - 1] && r.value in xs
  {
    if |xs| == 0 then None else Some(xs[|xs| - 1])
  }

  /** `xs` with its last element replaced by `x`; the list must not be empty. */
  function ReplaceLast<T>(xs: seq<T>, x: T): (r: seq<T>)
    requires |xs| > 0
    ensures |r| == |xs|
    ensures r[..|xs| - 1] == xs[..|xs| - 1]
    ensures r[|r| - 1] == x
    ensures Last(r) == Some(x)
  {
    xs[..|xs| - 1] + [x]
  }
}
