/** Option and Result types shared by every module of the model.  The error
    kinds mirror the Python exception classes the analyzer raises. */
module Wrappers {

  datatype Option<T> = None | Some(value: T)

  /** The exception classes raised by the modelled code. */
  datatype Error =
    | IndexError(msg: string)
    | ValueError(msg: string)
    | AttributeError(msg: string)
    | RuntimeError(msg: string)
    | OverflowError(msg: string)
    | UnicodeDecodeError(msg: string)
    | StructError(msg: string)
    | ZeroDivisionError(msg: string)
    | KeyError(msg: string)
    | RecursionError(msg: string)
    | TypeError(msg: string)
    /** Where the source would loop forever, the model stops with this. */
    | NonTermination(msg: string)

  /** The IndexError Python raises for a list index past the end. */
  const OUT_OF_RANGE: Error := IndexError("list index out of range")

  /** `s[i]` as Python reads it: a negative index counts from the end, and
      anything outside `-len(s) .. len(s) - 1` raises IndexError. */
  function PyIndex<T>(s: seq<T>, i: int): (r: Result<T>)
    ensures r.Ok? <==> -|s| <= i < |s|
    ensures r.Ok? && i >= 0 ==> r.value == s[i]
    ensures r.Ok? && i < 0 ==> r.value == s[|s| + i]
    ensures r.Err? ==> r.error == OUT_OF_RANGE
  {
    if 0 <= i < |s| then Ok(s[i])
    else if -|s| <= i < 0 then Ok(s[|s| + i])
    else Err(OUT_OF_RANGE)
  }

  /** A slice bound as Python resolves it for a sequence of length `n`:
      negative counts from the end, then clamped to `0 .. n`. */
  function PyBound(n: nat, i: int): (b: nat)
    ensures b <= n
    ensures 0 <= i <= n ==> b == i
  {
    if i < 0 then (if n + i < 0 then 0 else n + i)
    else if i > n then n
    else i
  }

  /** `s[i:j]` as Python reads it: never fails, empty when the resolved
      bounds cross. */
  function PySlice<T>(s: seq<T>, i: int, j: int): (r: seq<T>)
    ensures |r| <= |s|
    ensures 0 <= i <= j <= |s| ==> r == s[i..j]
  {
    var a := PyBound(|s|, i);
    var b := PyBound(|s|, j);
    if a <= b then s[a..b] else []
  }

  datatype Result<T> = Ok(value: T) | Err(error: Error) {
    predicate IsFailure() { Err? }

    function PropagateFailure<U>(): Result<U>
      requires Err?
    {
      Err(error)
    }

    function Extract(): T
      requires Ok?
    {
      value
    }
  }
}
