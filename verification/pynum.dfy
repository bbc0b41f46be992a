/** Python's numeric built-ins and list indexing, restated over unbounded
    integers and exact reals. */
module PyNum {
  import opened Results

  /** `math.floor` / `np.floor` followed by a conversion to int. */
  function Floor(x: real): (r: int)
    ensures r as real <= x < r as real + 1.0
  {
    x.Floor
  }

  /** `math.ceil` / `np.ceil` followed by a conversion to int. */
  function Ceil(x: real): (r: int)
    ensures r as real - 1.0 < x <= r as real
  {
    -((-x).Floor)
  }

  /** Python's `int(x)` on a float: truncation toward zero. */
  function Trunc(x: real): (r: int)
    ensures x >= 0.0 ==> 0 <= r && r as real <= x < r as real + 1.0
    ensures x < 0.0 ==> r <= 0 && r as real - 1.0 < x <= r as real
  {
    if x >= 0.0 then Floor(x) else -Floor(-x)
  }

  /** Python's built-in `round(x)` with no digits argument: the nearest
      integer, a tie going to the even neighbour ("banker's rounding"). */
  function Round(x: real): (r: int)
    ensures -0.5 <= x - r as real <= 0.5
    ensures x - r as real == 0.5 || r as real - x == 0.5 ==> r % 2 == 0
  {
    var f := Floor(x);
    var d := x - f as real;
    if d < 0.5 then f
    else if d > 0.5 then f + 1
    else if f % 2 == 0 then f
    else f + 1
  }

  /** The two properties in `Round`'s contract pin the result down: no other
      integer is within one half of `x` and even on a tie. */
  lemma RoundIsUnique(x: real, n: int)
    requires -0.5 <= x - n as real <= 0.5
    requires x - n as real == 0.5 || n as real - x == 0.5 ==> n % 2 == 0
    ensures n == Round(x)
  {
  }

  /** Ties go to the even neighbour in both directions. */
  lemma RoundTies()
    ensures Round(2.5) == 2 && Round(3.5) == 4 && Round(0.5) == 0 && Round(-2.5) == -2
  {
  }

  /** Python's `max(a, b)`: the first argument unless the second is larger. */
  function Max(a: real, b: real): (r: real)
    ensures r >= a && r >= b
    ensures r == a || r == b
  {
    if b > a then b else a
  }

  function Min(a: real, b: real): (r: real)
    ensures r <= a && r <= b
    ensures r == a || r == b
  {
    if b < a then b else a
  }

  /** Python's `s[k]` on a list: a negative index counts from the end, and an
      index outside `-len(s) <= k < len(s)` raises `IndexError` (`None` here). */
  function PyIndex<T>(s: seq<T>, k: int): (r: Option<T>)
    ensures r.Some? <==> -|s| <= k < |s|
    ensures r.Some? ==> r.value == s[if k >= 0 then k else |s| + k]
  {
    if 0 <= k < |s| then Some(s[k])
    else if -|s| <= k < 0 then Some(s[|s| + k])
    else None
  }
}
