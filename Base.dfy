/** Failure-carrying wrappers and the subsequence relation, shared by every module of the model. */
module Base {

  datatype Option<T> = None | Some(value: T)

  /** The value of an operation, or the error the source raises or reports instead. */
  datatype Result<T, E> = Ok(value: T) | Err(error: E)

  /** `s` is `t` with some elements left out, the rest kept in order. */
  predicate IsSubsequence<T(==)>(s: seq<T>, t: seq<T>)
    decreases |t|
  {
    if s == [] then true
    else if t == [] then false
    else if s[|s| - 1] == t[|t| - 1] then IsSubsequence(s[..|s| - 1], t[..|t| - 1])
    else IsSubsequence(s, t[..|t| - 1])
  }
}
