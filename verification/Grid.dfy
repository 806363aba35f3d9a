/** Uniform grids over the real line: which cell a coordinate falls in, and the
    interval of coordinates that a cell stands for. */
module Grid {

  /** floorf(x / size), the integer cell of a coordinate. */
  function Cell(x: real, size: real): int
    requires size > 0.0
  {
    (x / size).Floor
  }

  function Clamp(v: int, lo: int, hi: int): (r: int)
    requires lo <= hi
    ensures lo <= r <= hi
    ensures lo <= v <= hi ==> r == v
  {
    if v < lo then lo else if v > hi then hi else v
  }

  function Square(x: real): real { x * x }

  lemma MulMono(a: real, b: real, c: real)
    requires a <= b && 0.0 <= c
    ensures a * c <= b * c
  {}

  lemma MulStrict(a: real, b: real, c: real)
    requires a < b && 0.0 < c
    ensures a * c < b * c
  {}

  lemma MulMono2(a: real, b: real, c: real, d: real)
    requires 0.0 <= a <= b && 0.0 <= c <= d
    ensures 0.0 <= a * c <= b * d
  {
    MulMono(a, b, c);
    MulMono(c, d, b);
  }

  lemma MulStrict2(a: real, b: real, c: real, d: real)
    requires 0.0 <= a < b && 0.0 <= c < d
    ensures a * c < b * d
  {
    MulMono(a, b, c);
    MulStrict(c, d, b);
  }

  lemma SquareNonNegative(x: real)
    ensures 0.0 <= Square(x)
  {}

  lemma SquareMono(a: real, b: real)
    requires 0.0 <= a <= b
    ensures Square(a) <= Square(b)
  {
    MulMono2(a, b, a, b);
  }

  lemma SquareStrict(a: real, b: real)
    requires 0.0 <= a < b
    ensures Square(a) < Square(b)
  {
    MulStrict2(a, b, a, b);
  }

  /** Squaring is strictly monotone on non-negative numbers, so it reflects the order. */
  lemma SquareReflects(a: real, b: real)
    requires 0.0 <= b && Square(a) <= Square(b)
    ensures -b <= a <= b
  {
    assert Square(-a) == Square(a);
    if a > b {
      SquareStrict(b, a);
    } else if -a > b {
      SquareStrict(b, -a);
    }
  }

  /** Dividing by a positive number and multiplying by it are the same comparison. */
  lemma QuotientBelow(x: real, size: real, t: real)
    requires size > 0.0
    ensures x / size < t <==> x < t * size
  {
    var q := x / size;
    assert q * size == x;
    if q < t { MulStrict(q, t, size); } else { MulMono(t, q, size); }
  }

  /** A cell is the half-open interval of its coordinates, and the intervals do not overlap. */
  lemma CellInterval(x: real, size: real, k: int)
    requires size > 0.0
    ensures Cell(x, size) == k <==> k as real * size <= x < (k + 1) as real * size
  {
    var lo, hi := k as real, (k + 1) as real;
    QuotientBelow(x, size, lo);
    QuotientBelow(x, size, hi);
    assert Cell(x, size) == k <==> lo <= x / size < hi;
  }

  lemma CellMonotone(a: real, b: real, size: real)
    requires size > 0.0 && a <= b
    ensures Cell(a, size) <= Cell(b, size)
  {
    var p, q := a / size, b / size;
    assert p * size == a && q * size == b;
    if q < p {
      MulStrict(q, p, size);
    }
  }

  /** Some coordinate of the interval falls in every cell between the cells of its ends. */
  lemma CellTouched(lo: real, hi: real, size: real, k: int) returns (x: real)
    requires size > 0.0 && lo <= hi
    requires Cell(lo, size) <= k <= Cell(hi, size)
    ensures lo <= x <= hi && Cell(x, size) == k
  {
    var edge := k as real * size;
    QuotientBelow(hi, size, k as real);
    QuotientBelow(lo, size, k as real);
    x := if lo < edge then edge else lo;
    if lo < edge {
      MulStrict(k as real, (k + 1) as real, size);
      CellInterval(edge, size, k);
      assert !(hi / size < k as real);
    } else {
      assert !(lo / size < k as real);
    }
  }

  lemma IntMulMono(a: int, b: int, n: int)
    requires a <= b && 0 <= n
    ensures a * n <= b * n
  {}

  lemma DivModUnique(i: int, n: int, q: int, r: int)
    requires n > 0 && 0 <= r < n && i == q * n + r
    ensures i / n == q && i % n == r
  {
    var d := i / n;
    assert i == d * n + i % n;
    if d < q {
      IntMulMono(d + 1, q, n);
    } else if d > q {
      IntMulMono(q + 1, d, n);
    }
  }
}
