/** Values shared by every part of the harness model: the exceptions the
    harness raises and the shapes in which an operation reports them. */
module Common {

  /** The Python exception an operation of the harness ends with. */
  datatype Error =
    | Unpack(expected: nat, got: nat)   // ValueError: a split line unpacked into the wrong number of names
    | CommandFailed(command: string)    // CalledProcessError: a listing command exited non-zero
    | AssertionFailed(message: string)  // AssertionError raised by an assert* helper
    | KeyLookup(key: string)            // KeyError: a record dict has no such field

  /** A value, or the exception that replaced it. */
  datatype Result<+T> = Ok(value: T) | Err(error: Error)

  /** An assertion helper either returns normally or raises. */
  datatype Outcome = Pass | Fail(error: Error)

  datatype Option<+T> = None | Some(value: T)

  /** No element occurs twice. */
  predicate NoDuplicates<T(==)>(s: seq<T>) {
    forall i, j :: 0 <= i < j < |s| ==> s[i] != s[j]
  }
}
