/** The plain C branches of the LUP solver: decomposition in place with partial
    pivoting, substitution, and inversion column by column. */
module Lup {
  import opened Sums
  import opened Numbers

  function Lesser(a: int, b: int): int {
    if a < b then a else b
  }

  type Matrix = (int, int) -> real
  type Vector = int -> real

  /** The entries of a square array; zero outside it. */
  ghost function Entries(a: array2<real>): (m: Matrix)
    reads a
    ensures forall i, j | 0 <= i < a.Length0 && 0 <= j < a.Length1 :: m(i, j) == a[i, j]
  {
    var rows := seq(a.Length0, i requires 0 <= i < a.Length0 reads a =>
                      seq(a.Length1, j requires 0 <= j < a.Length1 reads a => a[i, j]));
    (i, j) => if 0 <= i < |rows| && 0 <= j < |rows[i]| then rows[i][j] else 0.0
  }

  ghost predicate Permutation(p: seq<int>, n: nat) {
    && |p| == n
    && (forall i | 0 <= i < n :: 0 <= p[i] < n)
    && forall i, j | 0 <= i < j < n :: p[i] != p[j]
  }

  // ---- what the in-place array stands for ----

  ghost function Lower(m: Matrix, i: int, t: int): real {
    if t < i then m(i, t) else if t == i then 1.0 else 0.0
  }

  ghost function Upper(m: Matrix, t: int, j: int): real {
    if t <= j then m(t, j) else 0.0
  }

  ghost function Term(m: Matrix, i: int, j: int): Vector {
    t => Times(m(i, t), m(t, j))
  }

  ghost function FactorTerm(m: Matrix, i: int, j: int): Vector {
    t => Times(Lower(m, i, t), Upper(m, t, j))
  }

  /** Entry (i, j) of the product of the unit lower and the upper factor. */
  ghost function Product(m: Matrix, n: nat, i: int, j: int): real {
    Sum(FactorTerm(m, i, j), n)
  }

  /** After k eliminated columns: the part of the product already in place, plus what
      the entry still holds. */
  ghost function Partial(m: Matrix, k: nat, i: nat, j: nat): real {
    Sum(Term(m, i, j), Lesser(k, Lesser(i, j + 1))) + if j < k && j < i then 0.0 else m(i, j)
  }

  ghost predicate Factored(orig: Matrix, m: Matrix, p: seq<int>, n: nat, k: nat)
    requires |p| == n
  {
    && (forall i: nat, j: nat | i < n && j < n :: orig(p[i], j) == Partial(m, k, i, j))
    && (forall t: nat | t < k :: Abs(m(t, t)) >= DELTA)
    && (forall i: nat, t: nat | i < n && t < k && t < i :: Abs(m(i, t)) <= 1.0)
  }

  // ---- one column ----

  ghost predicate RowsSwapped(m: Matrix, m': Matrix, n: nat, k: nat, q: nat) {
    forall i, j | 0 <= i < n && 0 <= j < n ::
      m'(i, j) == if i == k then m(q, j) else if i == q then m(k, j) else m(i, j)
  }

  lemma {:induction false} SwapEntry(m: Matrix, m': Matrix, n: nat, k: nat, q: nat, i: nat, i': nat, j: nat)
    requires k <= q < n && i < n && j < n && RowsSwapped(m, m', n, k, q)
    requires i' == if i == k then q else if i == q then k else i
    ensures Partial(m', k, i, j) == Partial(m, k, i', j)
  {
    SumSame(Term(m', i, j), Term(m, i', j), Lesser(k, Lesser(i, j + 1)));
  }

  /** Exchanging two rows that are not yet eliminated keeps the factoring. */
  lemma {:induction false} SwapKeeps(orig: Matrix, m: Matrix, m': Matrix, p: seq<int>, p': seq<int>, n: nat, k: nat, q: nat)
    requires |p| == n && Factored(orig, m, p, n, k) && k <= q < n
    requires RowsSwapped(m, m', n, k, q) && p' == p[k := p[q]][q := p[k]]
    ensures Factored(orig, m', p', n, k)
  {
    forall i: nat, j: nat | i < n && j < n ensures orig(p'[i], j) == Partial(m', k, i, j) {
      var i' := if i == k then q else if i == q then k else i;
      assert p'[i] == p[i'];
      assert Partial(m, k, i', j) == orig(p[i'], j);
      SwapEntry(m, m', n, k, q, i, i', j);
    }
    forall i: nat, t: nat | i < n && t < k && t < i ensures Abs(m'(i, t)) <= 1.0 {
      assert Abs(m(if i == k then q else if i == q then k else i, t)) <= 1.0;
    }
  }

  ghost predicate Eliminated(m: Matrix, m': Matrix, n: nat, k: nat)
    requires m(k, k) != 0.0
  {
    forall i, j | 0 <= i < n && 0 <= j < n ::
      m'(i, j) == if i <= k || j < k then m(i, j)
                  else if j == k then Quotient(m(i, k), m(k, k))
                  else m(i, j) - Times(m'(i, k), m(k, j))
  }

  /** The term a new column adds makes up for what elimination took away. */
  lemma {:induction false} EliminatedTerm(m: Matrix, m': Matrix, n: nat, k: nat, i: nat, j: nat)
    requires k < i < n && k <= j < n && m(k, k) != 0.0 && Eliminated(m, m', n, k)
    ensures Sum(Term(m', i, j), k + 1) == Sum(Term(m', i, j), k) + Times(m'(i, k), m(k, j))
    ensures Times(m'(i, k), m(k, j)) + (if j == k then 0.0 else m'(i, j)) == m(i, j)
  {
    hide Times, Quotient;
    QuotientTimes(m(i, k), m(k, k));
    TimesLaws(m(k, k), Quotient(m(i, k), m(k, k)), 0.0);
  }

  lemma {:induction false} EliminateEntry(m: Matrix, m': Matrix, n: nat, k: nat, i: nat, j: nat)
    requires k < n && i < n && j < n && m(k, k) != 0.0 && Eliminated(m, m', n, k)
    ensures Partial(m', k + 1, i, j) == Partial(m, k, i, j)
  {
    hide Quotient, Times;
    var b := Lesser(k, Lesser(i, j + 1));
    SumSame(Term(m', i, j), Term(m, i, j), b);
    if i > k && j >= k {
      EliminatedTerm(m, m', n, k, i, j);
    }
  }

  /** Eliminating one column below its pivot carries the factoring one column on. */
  lemma {:induction false} EliminateKeeps(orig: Matrix, m: Matrix, m': Matrix, p: seq<int>, n: nat, k: nat)
    requires |p| == n && k < n && Factored(orig, m, p, n, k)
    requires Abs(m(k, k)) >= DELTA && forall i | k <= i < n :: Abs(m(i, k)) <= Abs(m(k, k))
    requires Eliminated(m, m', n, k)
    ensures Factored(orig, m', p, n, k + 1)
  {
    forall i: nat, j: nat | i < n && j < n ensures orig(p[i], j) == Partial(m', k + 1, i, j) {
      EliminateEntry(m, m', n, k, i, j);
    }
    forall i: nat, t: nat | i < n && t < k + 1 && t < i ensures Abs(m'(i, t)) <= 1.0 {
      if t == k { RatioAtMostOne(m(i, k), m(k, k)); }
    }
  }

  lemma {:induction false} RatioAtMostOne(a: real, b: real)
    requires b != 0.0 && Abs(a) <= Abs(b)
    ensures Abs(a / b) <= 1.0
  {
    var x, y := Abs(a), Abs(b);
    var d := 1.0 - x / y;
    assert d * y == y - x;
    assert a / b == x / y || a / b == -(x / y);
  }

  /** With all columns done the product of the factors is the permuted matrix. */
  lemma {:induction false} PartialIsProduct(m: Matrix, n: nat, i: nat, j: nat)
    requires n >= 1 && i < n && j < n
    ensures Partial(m, n - 1, i, j) == Product(m, n, i, j)
  {
    var b := Lesser(i, j + 1);
    SumSame(FactorTerm(m, i, j), Term(m, i, j), b);
    FactorTail(m, i, j, b, n);
  }

  /** Past both diagonals only the unit diagonal of the lower factor contributes. */
  lemma {:induction false} FactorTail(m: Matrix, i: nat, j: nat, b: nat, n: nat)
    requires b == Lesser(i, j + 1) <= n && i < n
    ensures Sum(FactorTerm(m, i, j), n) == Sum(FactorTerm(m, i, j), b) + if i <= j then m(i, j) else 0.0
    decreases n
  {
    if n == i + 1 {
      FactorZeros(m, i, j, b, i);
    } else {
      FactorTail(m, i, j, b, n - 1);
    }
  }

  lemma {:induction false} FactorZeros(m: Matrix, i: nat, j: nat, b: nat, n: nat)
    requires b == Lesser(i, j + 1) <= n <= i
    ensures Sum(FactorTerm(m, i, j), n) == Sum(FactorTerm(m, i, j), b)
  {
    if b < n { FactorZeros(m, i, j, b, n - 1); }
  }

  // ---- the decomposition ----

  /** The largest entry of column k in rows k.. and its row. */
  method FindPivot(a: array2<real>, k: nat, start: nat) returns (max: real, pivot: nat)
    requires k < a.Length0 == a.Length1 && start < a.Length0
    ensures forall i | k <= i < a.Length0 :: Abs(a[i, k]) <= max
    ensures max == 0.0 || (k <= pivot < a.Length0 && Abs(a[pivot, k]) == max)
    ensures max >= 0.0 && pivot < a.Length0
  {
    max, pivot := 0.0, start;
    var i := k;
    while i < a.Length0
      invariant k <= i <= a.Length0 && max >= 0.0 && pivot < a.Length0
      invariant forall r | k <= r < i :: Abs(a[r, k]) <= max
      invariant max == 0.0 || (k <= pivot < i && Abs(a[pivot, k]) == max)
    {
      if Abs(a[i, k]) > max {
        max := Abs(a[i, k]);
        pivot := i;
      }
      i := i + 1;
    }
  }

  method SwapRows(a: array2<real>, k: nat, pivot: nat)
    requires a.Length0 == a.Length1 && k < a.Length0 && pivot < a.Length0
    modifies a
    ensures RowsSwapped(old(Entries(a)), Entries(a), a.Length0, k, pivot)
  {
    var i := 0;
    while i < a.Length0
      invariant i <= a.Length0
      invariant forall r, c | 0 <= r < a.Length0 && 0 <= c < a.Length1 ::
          a[r, c] == if c >= i then old(a[r, c])
                     else if r == k then old(a[pivot, c]) else if r == pivot then old(a[k, c]) else old(a[r, c])
    {
      var t := a[k, i];
      a[k, i] := a[pivot, i];
      a[pivot, i] := t;
      i := i + 1;
    }
  }

  /** Divides entry (i, k) by the pivot and updates the row to its right. */
  method EliminateRow(a: array2<real>, i: nat, k: nat)
    requires a.Length0 == a.Length1 && k < i < a.Length0 && a[k, k] != 0.0
    modifies a
    ensures forall r, c | 0 <= r < a.Length0 && 0 <= c < a.Length1 && (r != i || c < k) :: a[r, c] == old(a[r, c])
    ensures a[i, k] == Quotient(old(a[i, k]), old(a[k, k]))
    ensures forall c | k < c < a.Length1 :: a[i, c] == old(a[i, c]) - Times(a[i, k], old(a[k, c]))
  {
    a[i, k] := a[i, k] / a[k, k];
    var j := k + 1;
    while j < a.Length1
      invariant k < j <= a.Length1
      invariant forall r, c | 0 <= r < a.Length0 && 0 <= c < a.Length1 && (r != i || c < k || c >= j) && (r, c) != (i, k) ::
          a[r, c] == old(a[r, c])
      invariant a[i, k] == Quotient(old(a[i, k]), old(a[k, k]))
      invariant forall c | k < c < j :: a[i, c] == old(a[i, c]) - Times(a[i, k], old(a[k, c]))
    {
      a[i, j] := a[i, j] - a[i, k] * a[k, j];
      j := j + 1;
    }
  }

  /** Eliminates column k in every row below it. */
  method EliminateColumn(a: array2<real>, k: nat)
    requires a.Length0 == a.Length1 && k < a.Length0 && a[k, k] != 0.0
    modifies a
    ensures old(Entries(a))(k, k) != 0.0 && Eliminated(old(Entries(a)), Entries(a), a.Length0, k)
  {
    hide Quotient, Times;
    var i := k + 1;
    while i < a.Length0
      invariant k < i <= a.Length0
      invariant forall r, c | 0 <= r < a.Length0 && 0 <= c < a.Length1 && (r <= k || c < k || r >= i) ::
          a[r, c] == old(a[r, c])
      invariant forall r | k < r < i :: a[r, k] == Quotient(old(a[r, k]), old(a[k, k]))
      invariant forall r, c | k < r < i && k < c < a.Length1 :: a[r, c] == old(a[r, c]) - Times(a[r, k], old(a[k, c]))
    {
      EliminateRow(a, i, k);
      i := i + 1;
    }
  }

  lemma {:induction false} FactoredAtStart(m: Matrix, p: seq<int>, n: nat)
    requires |p| == n && forall i | 0 <= i < n :: p[i] == i
    ensures Factored(m, m, p, n, 0)
  {
  }

  lemma {:induction false} PermutationSwapped(p: seq<int>, n: nat, k: nat, q: nat)
    requires Permutation(p, n) && k < n && q < n
    ensures Permutation(p[k := p[q]][q := p[k]], n)
  {
  }

  /** No usable pivot is left in column k. */
  ghost predicate NoPivot(m: Matrix, n: nat, k: nat) {
    forall i | k <= i < n :: Abs(m(i, k)) < DELTA
  }

  /** One column: choose the pivot, bring it up, eliminate below it. */
  method EliminateStep(a: array2<real>, p: array<int>, k: nat, start: nat, ghost orig: Matrix)
    returns (ok: bool, pivot: nat)
    requires a.Length0 == a.Length1 == p.Length && k < p.Length && start < p.Length
    requires Permutation(p[..], p.Length) && Factored(orig, Entries(a), p[..], p.Length, k)
    modifies a, p
    ensures pivot < p.Length && Permutation(p[..], p.Length)
    ensures ok == old(!NoPivot(Entries(a), p.Length, k))
    ensures ok ==> Factored(orig, Entries(a), p[..], p.Length, k + 1)
    ensures !ok ==> Entries(a) == old(Entries(a)) && p[..] == old(p[..])
  {
    hide Permutation, Factored;
    var max;
    max, pivot := FindPivot(a, k, start);
    ghost var n, m, q := p.Length, Entries(a), p[..];
    if Eq(max, 0.0) {
      return false, pivot;
    }
    assert Abs(m(pivot, k)) >= DELTA;
    PermutationSwapped(q, n, k, pivot);
    var t := p[k];
    p[k] := p[pivot];
    p[pivot] := t;
    SwapRows(a, k, pivot);
    SwapKeeps(orig, m, Entries(a), q, p[..], n, k, pivot);
    ghost var m' := Entries(a);
    EliminateColumn(a, k);
    EliminateKeeps(orig, m', Entries(a), p[..], n, k);
    ok := true;
  }

  /** The identity permutation. */
  method StartPermutation(p: array<int>, ghost a: array2<real>)
    modifies p
    ensures Entries(a) == old(Entries(a)) && Permutation(p[..], p.Length) && forall r | 0 <= r < p.Length :: p[r] == r
  {
    var i, n := 0, p.Length;
    while i < n
      invariant i <= n && forall r | 0 <= r < i :: p[r] == r
    {
      p[i] := i;
      i := i + 1;
    }
  }

  /** LUP decomposition in place. It stops the program exactly when a column that must
      be eliminated has only entries below DELTA left; the last pivot is not examined. */
  method Lupdcmp(a: array2<real>, p: array<int>) returns (ok: bool)
    requires a.Length0 == a.Length1 == p.Length
    modifies a, p
    ensures Permutation(p[..], p.Length)
    ensures ok && p.Length >= 1 ==> Factored(old(Entries(a)), Entries(a), p[..], p.Length, p.Length - 1)
    ensures !ok ==> exists k: nat | k < p.Length - 1 && NoPivot(Entries(a), p.Length, k) ::
      Factored(old(Entries(a)), Entries(a), p[..], p.Length, k)
  {
    hide *;
    var n := p.Length;
    ghost var orig := Entries(a);
    StartPermutation(p, a);
    FactoredAtStart(orig, p[..], n);
    var pivot: nat, k: nat := 0, 0;
    while k < n - 1
      invariant n >= 1 ==> k <= n - 1 && pivot < n
      invariant Permutation(p[..], n) && Factored(orig, Entries(a), p[..], n, k)
    {
      ok, pivot := EliminateStep(a, p, k, pivot, orig);
      if !ok {
        return;
      }
      k := k + 1;
    }
    ok := true;
  }
}
