// Values and string helpers shared by the rest of the model: an Option type
// for Python's `None`, substring search for Python's `in`, Python's `range`
// and the decimal rendering that an f-string gives an int.
module Text {

  /** `None` stands for Python's `None`. */
  datatype Option<T> = None | Some(value: T) {
    function GetOr(default: T): T {
      match this
      case Some(v) => v
      case None => default
    }
  }

  /** `sub in s` on Python strings. */
  predicate Contains(s: string, sub: string) {
    |sub| <= |s| && (s[..|sub|] == sub || Contains(s[1..], sub))
  }

  /** `n` copies of `x`, as `[x] * n` builds a list. */
  function Repeat<T>(x: T, n: nat): (r: seq<T>)
    ensures |r| == n
    ensures forall k | 0 <= k < n :: r[k] == x
  {
    if n == 0 then [] else Repeat(x, n - 1) + [x]
  }

  /** `list(range(start, stop, step))` for a positive step. */
  function Range(start: int, stop: int, step: nat): (r: seq<int>)
    requires step > 0
    ensures forall k | 0 <= k < |r| :: r[k] == start + step * k && r[k] < stop
    ensures start + step * |r| >= stop
    decreases stop - start
  {
    if stop <= start then [] else [start] + Range(start + step, stop, step)
  }

  function DigitChar(d: nat): (c: char)
    requires d < 10
    ensures '0' <= c <= '9'
  {
    "0123456789"[d]
  }

  /** The text `f"{n}"` gives for a non-negative int. */
  function DecimalString(n: nat): (r: string)
    ensures |r| >= 1
    ensures forall k | 0 <= k < |r| :: '0' <= r[k] <= '9'
    ensures |r| > 1 ==> r[0] != '0'
  {
    if n < 10 then [DigitChar(n)] else DecimalString(n / 10) + [DigitChar(n % 10)]
  }
}
