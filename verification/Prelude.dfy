/** Vocabulary shared by every module of the model. */
module Prelude {

  /** An octet, as a number. */
  type byte = x: int | 0 <= x < 256

  datatype Option<+T> = None | Some(value: T)

  datatype Result<+T, +E> = Ok(value: T) | Err(error: E)

  // Durations and instants are counted in nanoseconds, as in Go's time package.
  const MILLISECOND := 1_000_000
  const SECOND := 1_000_000_000
  const HOUR := 3600 * SECOND

  /** time.Time.UnixMilli: rounds towards minus infinity, also before 1970. */
  function Milli(t: int): int {
    t / MILLISECOND
  }

  /** Two's complement reduction of a mathematical integer to 64 bits. */
  function Wrap64(x: int): int {
    var r := x % 0x1_0000_0000_0000_0000;
    if r < 0x8000_0000_0000_0000 then r else r - 0x1_0000_0000_0000_0000
  }

  function Min(a: int, b: int): int {
    if a < b then a else b
  }

  function Max(a: int, b: int): int {
    if a < b then b else a
  }

  lemma {:induction false} SubsetSize<T>(a: set<T>, b: set<T>)
    requires a <= b
    ensures |a| <= |b|
  {
    if a == {} {
    } else {
      var x :| x in a;
      SubsetSize(a - {x}, b - {x});
    }
  }
}
