/** Small helpers shared by the two boxing games and the fruit slicer. */
module Common {

  datatype Option<T> = None | Some(value: T)

  function Min(a: int, b: int): int { if a <= b then a else b }
  function Max(a: int, b: int): int { if a >= b then a else b }
  function MinR(a: real, b: real): real { if a <= b then a else b }
  function MaxR(a: real, b: real): real { if a >= b then a else b }

  /** Conversion of a number to an integer by rounding toward zero
      (Python's `int(x)` on a float, JavaScript's truncation). */
  function Trunc(r: real): (n: int)
    ensures 0.0 <= r ==> n as real <= r < n as real + 1.0
    ensures r < 0.0 ==> n as real - 1.0 < r <= n as real
  {
    if r >= 0.0 then r.Floor else -((-r).Floor)
  }

  /** Truncating a value that lies between two integers stays between them. */
  lemma TruncBetween(a: int, b: int, v: real)
    requires a as real <= v <= b as real
    ensures a <= Trunc(v) <= b
  {
  }

  /** A quotient of a total lying between `n * lo` and `n * hi` lies
      between `lo` and `hi`. */
  lemma QuotientBetween(s: real, n: real, lo: real, hi: real)
    requires n > 0.0 && n * lo <= s <= n * hi
    ensures lo <= s / n <= hi
  {
    var q := s / n;
    assert s == n * q;
  }

  /** Two small facts of real arithmetic, kept apart so that the solver
      meets them without other context. */
  lemma MulPositive(a: real, b: real)
    requires a > 0.0 && b > 0.0
    ensures a * b > 0.0
  {
  }

  /** `r * (hi - lo) + lo`, the usual scaling of a draw `r` in [0, 1). */
  function Scaled(r: real, lo: real, hi: real): real
  {
    r * (hi - lo) + lo
  }

  /** A draw in [0, 1) scales into [lo, hi). */
  lemma ScaledBetween(r: real, lo: real, hi: real)
    requires 0.0 <= r < 1.0 && lo < hi
    ensures lo <= Scaled(r, lo, hi) < hi
  {
    ProductsOfPositives();
    assert Mul(1.0 - r, hi - lo) > 0.0;
    assert (1.0 - r) * (hi - lo) == (hi - lo) - r * (hi - lo);
  }

  /** Products named by a function, so that the positivity fact below is
      instantiated at the very terms a proof mentions. */
  function Mul(a: real, b: real): real { a * b }

  lemma ProductsOfNonNegatives()
    ensures forall a: real, b: real :: a >= 0.0 && b >= 0.0 ==> Mul(a, b) >= 0.0
  {
    forall a: real, b: real | a >= 0.0 && b >= 0.0
      ensures Mul(a, b) >= 0.0
    {
      MulNonNegative(a, b);
    }
  }

  lemma MulNonNegative(a: real, b: real)
    requires a >= 0.0 && b >= 0.0
    ensures a * b >= 0.0
  {
  }

  /** A square is never negative, and is zero only at zero. */
  lemma Squares()
    ensures forall c: real :: Mul(c, c) >= 0.0
    ensures forall c: real :: c != 0.0 ==> Mul(c, c) > 0.0
  {
    ProductsOfPositives();
    forall c: real
      ensures Mul(c, c) >= 0.0 && (c != 0.0 ==> Mul(c, c) > 0.0)
    {
      if c < 0.0 {
        assert Mul(-c, -c) > 0.0;
        assert Mul(-c, -c) == Mul(c, c);
      } else if c > 0.0 {
        assert Mul(c, c) > 0.0;
      }
    }
  }

  lemma ProductsOfPositives()
    ensures forall a: real, b: real :: a > 0.0 && b > 0.0 ==> Mul(a, b) > 0.0
  {
    forall a: real, b: real | a > 0.0 && b > 0.0
      ensures Mul(a, b) > 0.0
    {
      MulPositive(a, b);
    }
  }

  /** numpy's `clip(v, lo, hi)`, which is `min(max(v, lo), hi)`. */
  function Clip(v: int, lo: int, hi: int): (c: int)
    ensures lo <= hi ==> lo <= c <= hi
    ensures lo <= v <= hi ==> c == v
  {
    Min(Max(v, lo), hi)
  }

  /** `sqrt(d) < k` for a non-negative `d`, written without a square root. */
  predicate SqrtLess(d: real, k: real)
  {
    k > 0.0 && d < k * k
  }

  /** The damage stage shown for a round's hit count, shared by both boxing
      games: one stage more every five hits, capped at six. */
  function StageFor(hits: int): int
  {
    Min(6, 1 + hits / 5)
  }

  lemma StageForRange(hits: int)
    requires hits >= 0
    ensures 1 <= StageFor(hits) <= 6
    ensures StageFor(0) == 1
  {
  }

  /** More hits never show an earlier stage. */
  lemma StageForMonotone(h1: int, h2: int)
    requires 0 <= h1 <= h2
    ensures StageFor(h1) <= StageFor(h2)
  {
  }

  /** Decimal digits of a natural number. */
  function DigitsOf(n: nat): (s: string)
    ensures |s| > 0
    ensures forall i :: 0 <= i < |s| ==> '0' <= s[i] <= '9'
    decreases n
  {
    var d := [(48 + n % 10) as char];
    if n < 10 then d else DigitsOf(n / 10) + d
  }

  /** Python's `str(n)` for an integer. */
  function Str(n: int): (s: string)
    ensures |s| > 0
  {
    if n < 0 then "-" + DigitsOf(-n) else DigitsOf(n)
  }
}
