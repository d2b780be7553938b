/** Small vocabulary shared by every part of the gateway model. */
module Prelude {
  datatype Option<+T> = None | Some(value: T)

  function Max(a: int, b: int): (r: int)
    ensures r >= a && r >= b && r in {a, b}
  {
    if a < b then b else a
  }

  function Min(a: int, b: int): (r: int)
    ensures r <= a && r <= b && r in {a, b}
  {
    if a < b then a else b
  }

  function MaxReal(a: real, b: real): (r: real)
    ensures r >= a && r >= b && (r == a || r == b)
  {
    if a < b then b else a
  }

  function MinReal(a: real, b: real): (r: real)
    ensures r <= a && r <= b && (r == a || r == b)
  {
    if a < b then a else b
  }

  /** The first n elements, or all of them when there are fewer. */
  function Truncate(s: string, n: nat): (t: string)
    ensures t <= s && (|t| == n || (t == s && |s| < n))
  {
    if |s| <= n then s else s[..n]
  }
}
