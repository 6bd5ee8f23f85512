/** Failure-carrying wrappers shared by every module of the model. */
module Common {

  datatype Option<+T> = None | Some(value: T)

  /** A value or the error the source would throw instead of returning it. */
  datatype Result<+T, +E> = Ok(value: T) | Err(error: E)

  /** A computation that returns nothing on success, or fails with an error. */
  datatype Outcome<+E> = Pass | Fail(error: E)

  function Min(a: int, b: int): int { if a <= b then a else b }

  function Max(a: int, b: int): int { if a >= b then a else b }

  /** `s` ends with `suffix` (Java's String.endsWith). */
  predicate EndsWith(s: string, suffix: string) {
    |suffix| <= |s| && s[|s| - |suffix|..] == suffix
  }

  /** Signed 64-bit bounds of a Java `long`. */
  const LONG_MIN: int := -0x8000_0000_0000_0000
  const LONG_MAX: int := 0x7fff_ffff_ffff_ffff

  predicate IsLong(x: int) { LONG_MIN <= x <= LONG_MAX }

  /** The elements of a list, as a set (Java's `new HashSet<>(list)`). */
  function Elements<T>(s: seq<T>): set<T> {
    set x | x in s
  }

  /** Some element of a non-empty set: the iteration order of a Java set is not modelled. */
  method Pick<T>(s: set<T>) returns (x: T)
    requires s != {}
    ensures x in s
  {
    x :| x in s;
  }
}
