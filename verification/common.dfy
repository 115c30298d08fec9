/** Small helpers shared by every module: an Option type, integer min/max,
    the two array-slice forms the program uses, and Math.round on a percentage. */
module Common {

  datatype Option<T> = None | Some(value: T)

  function Min(a: int, b: int): (r: int)
    ensures r <= a && r <= b && (r == a || r == b)
  {
    if a <= b then a else b
  }

  function Max(a: int, b: int): (r: int)
    ensures r >= a && r >= b && (r == a || r == b)
  {
    if a >= b then a else b
  }

  /** `xs.slice(-n)` for a positive n: the last n elements, or all of them when there are fewer. */
  function SliceLast<T>(xs: seq<T>, n: nat): (r: seq<T>)
    requires n > 0
    ensures |r| == Min(|xs|, n)
    ensures r == xs[|xs| - |r|..]
  {
    if |xs| <= n then xs else xs[|xs| - n..]
  }

  /** `xs.slice(0, n)`: the first n elements, or all of them when there are fewer. */
  function SliceFirst<T>(xs: seq<T>, n: nat): (r: seq<T>)
    ensures |r| == Min(|xs|, n)
    ensures r == xs[..|r|]
  {
    if |xs| <= n then xs else xs[..n]
  }

  /** `Math.round(x * 100)` for a value x given in thousandths: the nearest
      whole percentage, halves rounded up. */
  function RoundedPercent(milli: int): (r: int)
    ensures 10 * r - 5 <= milli < 10 * r + 5
  {
    (milli + 5) / 10
  }

  /** Two facts of real arithmetic that the solver does not find on its own
      inside larger proofs. */
  lemma MulPositive(a: real, n: real)
    requires a > 0.0 && n > 0.0
    ensures a * n > 0.0
  {
  }

  lemma DivMulCancel(d: real, n: real)
    requires n > 0.0
    ensures (d / n) * n == d
  {
  }

  /** Dividing by a positive number and comparing is comparing with the product. */
  lemma DivAbove(d: real, n: real, c: real)
    requires n > 0.0
    ensures d / n > c <==> d > c * n
  {
    var q := d / n;
    DivMulCancel(d, n);
    if q > c {
      MulPositive(q - c, n);
      assert (q - c) * n == q * n - c * n;
    } else if q < c {
      MulPositive(c - q, n);
      assert (c - q) * n == c * n - q * n;
    }
  }
}
