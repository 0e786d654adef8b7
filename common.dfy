/** Values shared by every part of the model: optional values, the Python
    exceptions the tracker can raise on its own data, and results that carry one. */
module Common {

  datatype Option<T> = None | Some(value: T)

  /** The exceptions the core raises on its own data (an absent dictionary key,
      a failed int() or float() conversion, a list index out of range, calling
      None). None of them is caught by the tracker: each ends the program. */
  datatype PyError = KeyError | ValueError | IndexError | TypeError

  datatype Result<T> = Ok(value: T) | Err(error: PyError)

  /** Where the source has a defect, whether a dialogue follows the code as it
      stands or the evidently intended correction of it. */
  datatype Variant = AsWritten | Intended

  /** Python's xs[i]: a negative index counts from the end, and an index out of
      range (IndexError) gives None. */
  function PyIndex<T>(xs: seq<T>, i: int): (r: Option<T>)
    ensures r.Some? <==> -|xs| <= i < |xs|
    ensures 0 <= i < |xs| ==> r == Some(xs[i])
    ensures -|xs| <= i < 0 ==> r == Some(xs[|xs| + i])
  {
    if 0 <= i < |xs| then Some(xs[i])
    else if -|xs| <= i < 0 then Some(xs[|xs| + i])
    else None
  }

  /** A negative index names the same element as the index |xs| higher, so
      xs[-1] is the last element. */
  lemma PyIndexFromEnd<T>(xs: seq<T>, i: int)
    requires 0 <= i < |xs|
    ensures PyIndex(xs, i - |xs|) == PyIndex(xs, i) == Some(xs[i])
  {
  }
}
