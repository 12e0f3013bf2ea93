/** Finite sums of reals. */
module Sums {

  function Times(x: real, y: real): real {
    x * y
  }

  function Quotient(x: real, y: real): real
    requires y != 0.0
  {
    x / y
  }

  lemma {:induction false} TimesLaws(a: real, b: real, c: real)
    ensures Times(a, b) == Times(b, a)
    ensures Times(Times(a, b), c) == Times(a, Times(b, c))
    ensures Times(a, b + c) == Times(a, b) + Times(a, c)
    ensures Times(a, b - c) == Times(a, b) - Times(a, c)
    ensures Times(a, 0.0) == 0.0 && Times(a, 1.0) == a
  {
  }

  lemma {:induction false} QuotientTimes(a: real, b: real)
    requires b != 0.0
    ensures Times(b, Quotient(a, b)) == a
  {
  }

  lemma {:induction false} ProductZero(a: real, b: real)
    requires Times(a, b) == 0.0 && a != 0.0
    ensures b == 0.0
  {
  }

  lemma {:induction false} ProductPositive(a: real, b: real)
    requires a > 0.0 && b > 0.0
    ensures Times(a, b) > 0.0
  {
  }

  lemma {:induction false} InversePositive(r: real)
    requires r > 0.0
    ensures Quotient(1.0, r) > 0.0
  {
  }

  lemma {:induction false} SquarePositive(d: real)
    ensures Times(d, d) >= 0.0 && (Times(d, d) == 0.0 <==> d == 0.0)
  {
    if d > 0.0 {
      ProductPositive(d, d);
    } else if d < 0.0 {
      ProductPositive(-d, -d);
    }
  }

  /** f(0) + ... + f(n-1). */
  ghost function Sum(f: int -> real, n: nat): real {
    if n == 0 then 0.0 else Sum(f, n - 1) + f(n - 1)
  }

  lemma {:induction false} SumSame(f: int -> real, g: int -> real, n: nat)
    requires forall i | 0 <= i < n :: f(i) == g(i)
    ensures Sum(f, n) == Sum(g, n)
  {
    if n > 0 { SumSame(f, g, n - 1); }
  }

  lemma {:induction false} SumZero(f: int -> real, n: nat)
    requires forall i | 0 <= i < n :: f(i) == 0.0
    ensures Sum(f, n) == 0.0
  {
    if n > 0 { SumZero(f, n - 1); }
  }

  /** Only one term differs from zero. */
  lemma {:induction false} SumOne(f: int -> real, n: nat, k: nat)
    requires k < n && forall i | 0 <= i < n && i != k :: f(i) == 0.0
    ensures Sum(f, n) == f(k)
  {
    if k == n - 1 { SumZero(f, n - 1); } else { SumOne(f, n - 1, k); }
  }

  lemma {:induction false} SumAdd(f: int -> real, g: int -> real, h: int -> real, n: nat)
    requires forall i | 0 <= i < n :: h(i) == f(i) + g(i)
    ensures Sum(h, n) == Sum(f, n) + Sum(g, n)
  {
    if n > 0 { SumAdd(f, g, h, n - 1); }
  }

  lemma {:induction false} SumScale(f: int -> real, c: real, h: int -> real, n: nat)
    requires forall i | 0 <= i < n :: h(i) == Times(c, f(i))
    ensures Sum(h, n) == Times(c, Sum(f, n))
  {
    hide Times;
    TimesLaws(c, 0.0, 0.0);
    if n > 0 {
      SumScale(f, c, h, n - 1);
      TimesLaws(c, Sum(f, n - 1), f(n - 1));
    }
  }

  lemma {:induction false} SumNonnegative(f: int -> real, n: nat)
    requires forall i | 0 <= i < n :: f(i) >= 0.0
    ensures Sum(f, n) >= 0.0
    ensures forall i | 0 <= i < n :: Sum(f, n) >= f(i)
  {
    if n > 0 { SumNonnegative(f, n - 1); }
  }

  ghost function RowSum(h: (int, int) -> real, n: nat): int -> real {
    i => Sum(j => h(i, j), n)
  }

  ghost function ColumnSum(h: (int, int) -> real, m: nat): int -> real {
    j => Sum(i => h(i, j), m)
  }

  lemma {:induction false} RowSumIs(h: (int, int) -> real, i: int, f: int -> real, n: nat)
    requires forall j | 0 <= j < n :: f(j) == h(i, j)
    ensures RowSum(h, n)(i) == Sum(f, n)
  {
    var g: int -> real := j => h(i, j);
    SumSame(g, f, n);
    assert RowSum(h, n)(i) == Sum(g, n);
  }

  lemma {:induction false} ColumnSumIs(h: (int, int) -> real, j: int, f: int -> real, m: nat)
    requires forall i | 0 <= i < m :: f(i) == h(i, j)
    ensures ColumnSum(h, m)(j) == Sum(f, m)
  {
    var g: int -> real := i => h(i, j);
    SumSame(g, f, m);
    assert ColumnSum(h, m)(j) == Sum(g, m);
  }

  /** A double sum can be taken in either order. */
  lemma {:induction false} SumSwap(h: (int, int) -> real, m: nat, n: nat)
    ensures Sum(RowSum(h, n), m) == Sum(ColumnSum(h, m), n)
  {
    if m == 0 {
      SumZero(ColumnSum(h, 0), n);
    } else {
      SumSwap(h, m - 1, n);
      SumAdd(ColumnSum(h, m - 1), j => h(m - 1, j), ColumnSum(h, m), n);
    }
  }
}
