/** Failure-carrying values shared by the models of subst.c and diff.c. */
module Common {

  /** A C pointer that may be NULL: `None` is the NULL pointer. */
  datatype Option<+T> = None | Some(value: T)

  /** An `svn_error_t *` return: `Ok` is SVN_NO_ERROR, `Err` carries the error. */
  datatype Result<+T, +E> = Ok(value: T) | Err(error: E)

  /** The NUL character that terminates C strings. */
  const NUL: char := 0 as char

  /** A C string's text: a C string can hold no NUL before its terminator. */
  predicate NulFree(s: string) {
    forall i :: 0 <= i < |s| ==> s[i] != NUL
  }

  /** Concatenation regroups. */
  lemma AppendAssoc<T>(a: seq<T>, b: seq<T>, c: seq<T>)
    ensures (a + b) + c == a + (b + c)
  {
  }
}
