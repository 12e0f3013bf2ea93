/** Substitution and inversion on top of the decomposition, and exactly when they work. */
module LupSolve {
  import opened Sums
  import opened Numbers
  import opened Lup
  import opened FiniteSets

  ghost function Values(x: array<real>): (v: Vector)
    reads x
    ensures forall i | 0 <= i < x.Length :: v(i) == x[i]
  {
    var s := x[..];
    i => if 0 <= i < |s| then s[i] else 0.0
  }

  ghost function RowTerm(m: Matrix, i: int, x: Vector): Vector {
    j => Times(m(i, j), x(j))
  }

  /** Row i of the matrix applied to x. */
  ghost function Applied(m: Matrix, i: int, x: Vector, n: nat): real {
    Sum(RowTerm(m, i, x), n)
  }

  ghost function LowerPart(m: Matrix): Matrix {
    (i, j) => Lower(m, i, j)
  }

  ghost function UpperPart(m: Matrix): Matrix {
    (i, j) => Upper(m, i, j)
  }

  ghost function UpperApplied(m: Matrix, x: Vector, n: nat): Vector {
    t => Applied(UpperPart(m), t, x, n)
  }

  ghost predicate PivotsNonzero(m: Matrix, n: nat) {
    forall i | 0 <= i < n :: m(i, i) != 0.0
  }

  ghost predicate Solves(m: Matrix, x: Vector, b: Vector, n: nat) {
    forall i | 0 <= i < n :: Applied(m, i, x, n) == b(i)
  }

  // ---- the product of the factors applied to a vector ----

  ghost function Triple(m: Matrix, i: int, x: Vector): (int, int) -> real {
    (j, t) => Times(Lower(m, i, t), Times(Upper(m, t, j), x(j)))
  }

  ghost function ProductMatrix(m: Matrix, n: nat): Matrix {
    (i, j) => Product(m, n, i, j)
  }

  /** Applying the product is applying the upper factor and then the lower one. */
  lemma {:induction false} ProductApplied(m: Matrix, n: nat, i: int, x: Vector)
    ensures Applied(ProductMatrix(m, n), i, x, n) == Applied(LowerPart(m), i, UpperApplied(m, x, n), n)
  {
    var h := Triple(m, i, x);
    hide Times, Lower, Upper;
    forall j | 0 <= j < n ensures RowTerm(ProductMatrix(m, n), i, x)(j) == RowSum(h, n)(j) {
      ProductAppliedColumn(m, n, i, j, x);
    }
    SumSame(RowTerm(ProductMatrix(m, n), i, x), RowSum(h, n), n);
    SumSwap(h, n, n);
    forall t | 0 <= t < n ensures RowTerm(LowerPart(m), i, UpperApplied(m, x, n))(t) == ColumnSum(h, n)(t) {
      ProductAppliedRow(m, n, i, t, x);
    }
    SumSame(RowTerm(LowerPart(m), i, UpperApplied(m, x, n)), ColumnSum(h, n), n);
  }

  lemma {:induction false} ProductAppliedColumn(m: Matrix, n: nat, i: int, j: int, x: Vector)
    ensures Times(Product(m, n, i, j), x(j)) == Sum(t => Triple(m, i, x)(j, t), n)
  {
    hide Times, Lower, Upper;
    var f: Vector := t => Triple(m, i, x)(j, t);
    forall t | 0 <= t < n ensures f(t) == Times(x(j), FactorTerm(m, i, j)(t)) {
      assert f(t) == Triple(m, i, x)(j, t);
      assert f(t) == Times(Lower(m, i, t), Times(Upper(m, t, j), x(j)));
      assert FactorTerm(m, i, j)(t) == Times(Lower(m, i, t), Upper(m, t, j));
      TimesLaws(Lower(m, i, t), Upper(m, t, j), x(j));
      TimesLaws(x(j), FactorTerm(m, i, j)(t), 0.0);
    }
    SumScale(FactorTerm(m, i, j), x(j), f, n);
    TimesLaws(x(j), Product(m, n, i, j), 0.0);
  }

  lemma {:induction false} ProductAppliedRow(m: Matrix, n: nat, i: int, t: int, x: Vector)
    ensures Times(Lower(m, i, t), Applied(UpperPart(m), t, x, n)) == Sum(j => Triple(m, i, x)(j, t), n)
  {
    hide Times, Lower, Upper;
    var f: Vector := j => Triple(m, i, x)(j, t);
    forall j | 0 <= j < n ensures f(j) == Times(Lower(m, i, t), RowTerm(UpperPart(m), t, x)(j)) {
      assert f(j) == Triple(m, i, x)(j, t);
      assert RowTerm(UpperPart(m), t, x)(j) == Times(Upper(m, t, j), x(j));
    }
    SumScale(RowTerm(UpperPart(m), t, x), Lower(m, i, t), f, n);
  }

  /** What a row of the original matrix does to x, through the factors. */
  lemma {:induction false} FactoredRow(orig: Matrix, m: Matrix, p: seq<int>, n: nat, i: nat, x: Vector)
    requires n >= 1 && |p| == n && Factored(orig, m, p, n, n - 1) && i < n
    ensures Applied(orig, p[i], x, n) == Applied(LowerPart(m), i, UpperApplied(m, x, n), n)
  {
    forall j: nat | j < n ensures orig(p[i], j) == Product(m, n, i, j) {
      assert orig(p[i], j) == Partial(m, n - 1, i, j);
      PartialIsProduct(m, n, i, j);
    }
    SumSame(RowTerm(orig, p[i], x), RowTerm(ProductMatrix(m, n), i, x), n);
    ProductApplied(m, n, i, x);
  }

  // ---- triangular systems ----

  /** A unit lower row: the terms before the diagonal, and the diagonal. */
  lemma {:induction false} LowerRow(m: Matrix, i: nat, y: Vector, n: nat)
    requires i < n
    ensures Applied(LowerPart(m), i, y, n) == Sum(RowTerm(m, i, y), i) + y(i)
  {
    SumSame(RowTerm(LowerPart(m), i, y), RowTerm(m, i, y), i);
    LowerRowTail(m, i, y, n);
  }

  lemma {:induction false} LowerRowTail(m: Matrix, i: nat, y: Vector, n: nat)
    requires i < n
    ensures Sum(RowTerm(LowerPart(m), i, y), n) == Sum(RowTerm(LowerPart(m), i, y), i) + y(i)
    decreases n
  {
    TimesLaws(y(n - 1), 0.0, 1.0);
    TimesLaws(1.0, y(n - 1), 0.0);
    hide Times;
    TimesLaws(y(n - 1), RowTerm(LowerPart(m), i, y)(n - 1), 0.0);
    if n > i + 1 { LowerRowTail(m, i, y, n - 1); }
  }

  /** The terms of an upper row beyond the diagonal. */
  ghost function Beyond(m: Matrix, i: int, x: Vector): Vector {
    j => if j > i then Times(m(i, j), x(j)) else 0.0
  }

  lemma {:induction false} UpperRow(m: Matrix, i: nat, x: Vector, n: nat)
    requires i < n
    ensures Applied(UpperPart(m), i, x, n) == Times(m(i, i), x(i)) + Sum(Beyond(m, i, x), n)
  {
    var d: Vector := j => if j == i then Times(m(i, i), x(i)) else 0.0;
    SumOne(d, n, i);
    forall j | 0 <= j < n ensures RowTerm(UpperPart(m), i, x)(j) == d(j) + Beyond(m, i, x)(j) {
      TimesLaws(x(j), 0.0, 0.0);
      TimesLaws(0.0, x(j), 0.0);
    }
    SumAdd(d, Beyond(m, i, x), RowTerm(UpperPart(m), i, x), n);
  }

  /** The lower factor only maps zero to zero. */
  lemma {:induction false} LowerKernel(m: Matrix, y: Vector, n: nat, i: nat)
    requires i < n && forall r | 0 <= r < n :: Applied(LowerPart(m), r, y, n) == 0.0
    ensures y(i) == 0.0
    decreases i
  {
    forall r | 0 <= r < i ensures y(r) == 0.0 { LowerKernel(m, y, n, r); }
    LowerRow(m, i, y, n);
    SumZero(RowTerm(m, i, y), i);
  }

  /** With nonzero pivots the upper factor only maps zero to zero. */
  lemma {:induction false} UpperKernel(m: Matrix, x: Vector, n: nat, i: nat)
    requires i < n && PivotsNonzero(m, n) && forall r | 0 <= r < n :: Applied(UpperPart(m), r, x, n) == 0.0
    ensures x(i) == 0.0
    decreases n - i
  {
    forall r | i < r < n ensures x(r) == 0.0 { UpperKernel(m, x, n, r); }
    UpperRow(m, i, x, n);
    SumZero(Beyond(m, i, x), n);
    ProductZero(m(i, i), x(i));
  }

  // ---- exactly when the system can be solved ----

  ghost function Zero(): Vector {
    i => 0.0
  }

  /** A solution of the permuted triangular systems solves the original system. */
  lemma {:induction false} SolvesOriginal(orig: Matrix, m: Matrix, p: seq<int>, n: nat, x: Vector, y: Vector, b: Vector)
    requires n >= 1 && Permutation(p, n) && Factored(orig, m, p, n, n - 1)
    requires forall i: nat | i < n :: Applied(UpperPart(m), i, x, n) == y(i)
    requires forall i: nat | i < n :: Applied(LowerPart(m), i, y, n) == b(p[i])
    ensures Solves(orig, x, b, n)
  {
    forall r: nat | r < n ensures Applied(orig, r, x, n) == b(r) {
      var i := Onto(p, n, r);
      FactoredRow(orig, m, p, n, i, x);
      SumSame(RowTerm(LowerPart(m), i, UpperApplied(m, x, n)), RowTerm(LowerPart(m), i, y), n);
    }
  }

  /** With nonzero pivots only zero is mapped to zero. */
  lemma {:induction false} KernelTrivial(orig: Matrix, m: Matrix, p: seq<int>, n: nat, d: Vector)
    requires n >= 1 && |p| == n && Permutation(p, n) && Factored(orig, m, p, n, n - 1) && PivotsNonzero(m, n)
    requires Solves(orig, d, Zero(), n)
    ensures forall i: nat | i < n :: d(i) == 0.0
  {
    var y := UpperApplied(m, d, n);
    forall i: nat | i < n ensures Applied(LowerPart(m), i, y, n) == 0.0 {
      FactoredRow(orig, m, p, n, i, d);
    }
    forall i: nat | i < n ensures y(i) == 0.0 { LowerKernel(m, y, n, i); }
    forall i: nat | i < n ensures d(i) == 0.0 {
      assert forall r: nat | r < n :: y(r) == Applied(UpperPart(m), r, d, n);
      UpperKernel(m, d, n, i);
    }
  }

  /** The vector the upper factor maps to zero when its last pivot is zero, from
      entry i on: the last entry is 1, the others follow by back substitution. */
  ghost function NullTail(m: Matrix, n: nat, i: nat): (s: seq<real>)
    requires i < n && forall t | 0 <= t < n - 1 :: m(t, t) != 0.0
    ensures |s| == n - i
    decreases n - i
  {
    if i == n - 1 then [1.0]
    else
      var rest := NullTail(m, n, i + 1);
      [Quotient(-Sum(Beyond(m, i, FromTail(rest, i + 1)), n), m(i, i))] + rest
  }

  ghost function FromTail(s: seq<real>, i: nat): Vector {
    j => if i <= j < i + |s| then s[j - i] else 0.0
  }

  lemma {:induction false} NullTailWorks(m: Matrix, n: nat, i: nat, r: nat)
    requires i <= r < n && (forall t | 0 <= t < n - 1 :: m(t, t) != 0.0) && m(n - 1, n - 1) == 0.0
    ensures Applied(UpperPart(m), r, FromTail(NullTail(m, n, i), i), n) == 0.0
    ensures FromTail(NullTail(m, n, i), i)(n - 1) == 1.0
    decreases n - i
  {
    hide Applied, UpperPart, Sum, Quotient;
    var x := FromTail(NullTail(m, n, i), i);
    UpperRow(m, r, x, n);
    if i == n - 1 {
      SumZero(Beyond(m, r, x), n);
    } else {
      var z := FromTail(NullTail(m, n, i + 1), i + 1);
      NullTailWorks(m, n, i + 1, n - 1);
      NullTailStep(m, n, i, r);
      if r > i {
        UpperRow(m, r, z, n);
        NullTailWorks(m, n, i + 1, r);
      } else {
        QuotientTimes(-Sum(Beyond(m, i, z), n), m(i, i));
      }
    }
  }

  /** One entry more changes nothing beyond it. */
  lemma {:induction false} NullTailStep(m: Matrix, n: nat, i: nat, r: nat)
    requires i <= r < n && i < n - 1 && forall t | 0 <= t < n - 1 :: m(t, t) != 0.0
    ensures Sum(Beyond(m, r, FromTail(NullTail(m, n, i), i)), n) == Sum(Beyond(m, r, FromTail(NullTail(m, n, i + 1), i + 1)), n)
  {
    hide Sum, Quotient;
    SumSame(Beyond(m, r, FromTail(NullTail(m, n, i), i)), Beyond(m, r, FromTail(NullTail(m, n, i + 1), i + 1)), n);
  }

  ghost predicate Nonsingular(orig: Matrix, n: nat) {
    forall d: Vector :: Solves(orig, d, Zero(), n) ==> forall i: nat | i < n :: d(i) == 0.0
  }

  /** The pivot the decomposition leaves unexamined decides: after it returns, the
      matrix is nonsingular exactly when the last pivot is nonzero. */
  lemma {:induction false} NonsingularIffLastPivot(orig: Matrix, m: Matrix, p: seq<int>, n: nat)
    requires n >= 1 && Permutation(p, n) && Factored(orig, m, p, n, n - 1)
    ensures Nonsingular(orig, n) <==> m(n - 1, n - 1) != 0.0
  {
    assert forall t: nat | t < n - 1 :: m(t, t) != 0.0;
    if m(n - 1, n - 1) != 0.0 {
      forall d: Vector | Solves(orig, d, Zero(), n) ensures forall i: nat | i < n :: d(i) == 0.0 {
        KernelTrivial(orig, m, p, n, d);
      }
    } else {
      var x := FromTail(NullTail(m, n, 0), 0);
      forall i: nat | i < n ensures Applied(UpperPart(m), i, x, n) == Zero()(i) { NullTailWorks(m, n, 0, i); }
      forall i: nat | i < n ensures Applied(LowerPart(m), i, Zero(), n) == 0.0 {
        SumZero(RowTerm(LowerPart(m), i, Zero()), n);
      }
      SolvesOriginal(orig, m, p, n, x, Zero(), Zero());
      NullTailWorks(m, n, 0, 0);
      assert Solves(orig, x, Zero(), n) && x(n - 1) != 0.0;
    }
  }

  /** A concrete case: the decomposition finds nothing wrong with a 1 by 1 zero matrix. */
  method SingularUnnoticed(a: array2<real>, p: array<int>) returns (ok: bool)
    requires a.Length0 == a.Length1 == p.Length == 1 && a[0, 0] == 0.0
    modifies a, p
    ensures ok && !Nonsingular(old(Entries(a)), 1)
  {
    ghost var orig := Entries(a);
    ok := Lupdcmp(a, p);
    ZeroIsSingular(orig);
  }

  lemma {:induction false} ZeroIsSingular(m: Matrix)
    requires m(0, 0) == 0.0
    ensures !Nonsingular(m, 1)
  {
    var ones: Vector := i => 1.0;
    assert Sum(RowTerm(m, 0, ones), 0) == 0.0;
    assert Sum(RowTerm(m, 0, ones), 1) == 0.0;
    assert Solves(m, ones, Zero(), 1) && ones(0) != 0.0;
  }

  // ---- substitution ----

  /** The inner loop of forward substitution. */
  method RowBelow(a: array2<real>, i: nat, y: array<real>) returns (sum: real)
    requires a.Length0 == a.Length1 == y.Length && i < y.Length
    ensures sum == Sum(RowTerm(Entries(a), i, Values(y)), i)
  {
    hide Times;
    var j := 0;
    sum := 0.0;
    while j < i
      invariant j <= i && sum == Sum(RowTerm(Entries(a), i, Values(y)), j)
    {
      sum := sum + Times(a[i, j], y[j]);
      j := j + 1;
    }
  }

  /** The inner loop of backward substitution. */
  method RowBeyond(a: array2<real>, i: nat, x: array<real>) returns (sum: real)
    requires a.Length0 == a.Length1 == x.Length && i < x.Length
    ensures sum == Sum(Beyond(Entries(a), i, Values(x)), x.Length)
  {
    hide Times;
    var j := i + 1;
    sum := 0.0;
    SumZero(Beyond(Entries(a), i, Values(x)), i + 1);
    while j < x.Length
      invariant i < j <= x.Length && sum == Sum(Beyond(Entries(a), i, Values(x)), j)
    {
      assert Beyond(Entries(a), i, Values(x))(j) == Times(a[i, j], x[j]);
      sum := sum + Times(a[i, j], x[j]);
      j := j + 1;
    }
  }

  ghost function ForwardRow(m: Matrix, y: Vector, r: nat): real {
    y(r) + Sum(RowTerm(m, r, y), r)
  }

  ghost function Permuted(b: Vector, p: seq<int>): Vector {
    r => if 0 <= r < |p| then b(p[r]) else 0.0
  }

  /** Rows of a unit lower system hold for the entries found so far. */
  ghost predicate ForwardDone(m: Matrix, d: Vector, y: Vector, i: nat) {
    forall r: nat | r < i :: ForwardRow(m, y, r) == d(r)
  }

  lemma {:induction false} ForwardStep(m: Matrix, d: Vector, y: Vector, y': Vector, i: nat)
    requires ForwardDone(m, d, y, i)
    requires forall r | 0 <= r < i :: y'(r) == y(r)
    requires y'(i) == d(i) - Sum(RowTerm(m, i, y), i)
    ensures ForwardDone(m, d, y', i + 1)
  {
    forall r: nat | r < i + 1 ensures ForwardRow(m, y', r) == d(r) {
      SumSame(RowTerm(m, r, y'), RowTerm(m, r, y), r);
      assert r < i ==> ForwardRow(m, y, r) == d(r);
    }
  }

  /** Forward substitution on the permuted right-hand side. */
  method Forward(a: array2<real>, p: array<int>, b: array<real>, y: array<real>)
    requires a.Length0 == a.Length1 == p.Length == b.Length == y.Length
    requires forall i | 0 <= i < p.Length :: 0 <= p[i] < p.Length
    requires y != b
    modifies y
    ensures forall i: nat | i < p.Length :: Applied(LowerPart(Entries(a)), i, Values(y), p.Length) == Values(b)(p[i])
  {
    var n, i := p.Length, 0;
    ghost var m, d := Entries(a), Permuted(Values(b), p[..]);
    while i < n
      invariant i <= n && ForwardDone(m, d, Values(y), i)
    {
      var sum := RowBelow(a, i, y);
      ghost var before := Values(y);
      assert b[p[i]] == d(i);
      y[i] := b[p[i]] - sum;
      ForwardStep(m, d, before, Values(y), i);
      i := i + 1;
    }
    forall r: nat | r < n ensures Applied(LowerPart(m), r, Values(y), n) == Values(b)(p[r]) {
      LowerRow(m, r, Values(y), n);
      assert ForwardRow(m, Values(y), r) == d(r);
    }
  }

  /** Rows of an upper system hold for the entries found so far, from the end. */
  ghost predicate BackwardDone(m: Matrix, c: Vector, x: Vector, i: int, n: nat) {
    forall r: nat | i <= r < n :: Times(m(r, r), x(r)) + Sum(Beyond(m, r, x), n) == c(r)
  }

  lemma {:induction false} BackwardStep(m: Matrix, c: Vector, x: Vector, x': Vector, i: nat, n: nat)
    requires BackwardDone(m, c, x, i + 1, n) && i < n && m(i, i) != 0.0
    requires forall r | i < r < n :: x'(r) == x(r)
    requires x'(i) == Quotient(c(i) - Sum(Beyond(m, i, x), n), m(i, i))
    ensures BackwardDone(m, c, x', i, n)
  {
    hide Times, Quotient;
    QuotientTimes(c(i) - Sum(Beyond(m, i, x), n), m(i, i));
    forall r: nat | i <= r < n ensures Times(m(r, r), x'(r)) + Sum(Beyond(m, r, x'), n) == c(r) {
      SumSame(Beyond(m, r, x'), Beyond(m, r, x), n);
    }
  }

  /** Backward substitution, from the last unknown to the first. */
  method Backward(a: array2<real>, y: array<real>, x: array<real>)
    requires a.Length0 == a.Length1 == y.Length == x.Length && x != y
    requires PivotsNonzero(Entries(a), a.Length0)
    modifies x
    ensures forall i: nat | i < x.Length :: Applied(UpperPart(Entries(a)), i, Values(x), x.Length) == Values(y)(i)
  {
    var n := x.Length;
    var i := n - 1;
    ghost var m, c := Entries(a), Values(y);
    while i >= 0
      invariant -1 <= i < n && Values(y) == c && BackwardDone(m, c, Values(x), i + 1, n)
    {
      var sum := RowBeyond(a, i, x);
      ghost var before := Values(x);
      x[i] := (y[i] - sum) / a[i, i];
      BackwardStep(m, c, before, Values(x), i, n);
      i := i - 1;
    }
    forall r: nat | r < n ensures Applied(UpperPart(m), r, Values(x), n) == c(r) {
      UpperRow(m, r, Values(x), n);
    }
  }

  /** Solves the original system; x satisfies every equation. */
  method Lusolve(a: array2<real>, p: array<int>, b: array<real>, x: array<real>, ghost orig: Matrix)
    requires a.Length0 == a.Length1 == p.Length == b.Length == x.Length && x != b
    requires Permutation(p[..], p.Length) && PivotsNonzero(Entries(a), p.Length)
    requires p.Length >= 1 ==> Factored(orig, Entries(a), p[..], p.Length, p.Length - 1)
    modifies x
    ensures Solves(orig, Values(x), Values(b), p.Length)
  {
    var y := new real[p.Length];
    Forward(a, p, b, y);
    ghost var z := Values(y);
    Backward(a, y, x);
    if p.Length >= 1 {
      SolvesOriginal(orig, Entries(a), p[..], p.Length, Values(x), z, Values(b));
    }
  }

  // ---- inversion ----

  ghost function Column(m: Matrix, j: int): Vector {
    i => m(i, j)
  }

  ghost function UnitVector(j: int): Vector {
    i => if i == j then 1.0 else 0.0
  }

  /** Every column of inv is mapped to the matching unit vector: orig * inv = I. */
  ghost predicate RightInverse(orig: Matrix, inv: Matrix, n: nat) {
    forall j: nat | j < n :: Solves(orig, Column(inv, j), UnitVector(j), n)
  }

  datatype Inversion = Done | SingularColumn | ZeroLastPivot

  /** Inverts m into inv, overwriting m. The last pivot is only tested here, standing
      for the division by zero the C code performs. */
  method Matinv(inv: array2<real>, m: array2<real>) returns (r: Inversion)
    requires m.Length0 == m.Length1 == inv.Length0 == inv.Length1 && inv != m
    modifies inv, m
    ensures r == Done ==> RightInverse(old(Entries(m)), Entries(inv), m.Length0)
    ensures r == ZeroLastPivot ==> m.Length0 >= 1 && !Nonsingular(old(Entries(m)), m.Length0)
    ensures r == Done && m.Length0 >= 1 ==> Nonsingular(old(Entries(m)), m.Length0)
  {
    var n := m.Length0;
    ghost var orig := Entries(m);
    var p := new int[n];
    var ok := Lupdcmp(m, p);
    if !ok {
      return SingularColumn;
    }
    if n == 0 {
      return Done;
    }
    ghost var lu := Entries(m);
    NonsingularIffLastPivot(orig, lu, p[..], n);
    if m[n-1, n-1] == 0.0 {
      return ZeroLastPivot;
    }
    InvertColumns(inv, m, p, orig);
    return Done;
  }

  ghost predicate ColumnsDone(orig: Matrix, inv: Matrix, j: nat, n: nat) {
    forall c: nat | c < j :: Solves(orig, Column(inv, c), UnitVector(c), n)
  }

  /** One substitution per column of the identity. */
  method InvertColumns(inv: array2<real>, m: array2<real>, p: array<int>, ghost orig: Matrix)
    requires m.Length0 == m.Length1 == inv.Length0 == inv.Length1 == p.Length >= 1 && inv != m
    requires Permutation(p[..], p.Length) && PivotsNonzero(Entries(m), p.Length)
    requires Factored(orig, Entries(m), p[..], p.Length, p.Length - 1)
    modifies inv
    ensures RightInverse(orig, Entries(inv), p.Length)
  {
    var n := p.Length;
    hide Permutation, PivotsNonzero, Factored, Solves;
    var col, work := new real[n], new real[n];
    var j := 0;
    while j < n
      invariant j <= n && ColumnsDone(orig, Entries(inv), j, n)
    {
      UnitColumn(col, j);
      Lusolve(m, p, col, work, orig);
      ghost var before := Entries(inv);
      CopyColumn(inv, j, work);
      ColumnsSolved(orig, before, Entries(inv), Values(work), Values(col), j, n);
      j := j + 1;
    }
  }

  method UnitColumn(col: array<real>, j: nat)
    requires j < col.Length
    modifies col
    ensures forall i | 0 <= i < col.Length :: col[i] == UnitVector(j)(i)
  {
    var i := 0;
    while i < col.Length
      invariant i <= col.Length && forall k | 0 <= k < i :: col[k] == 0.0
    {
      col[i] := 0.0;
      i := i + 1;
    }
    col[j] := 1.0;
  }

  method CopyColumn(inv: array2<real>, j: nat, work: array<real>)
    requires inv.Length0 == inv.Length1 == work.Length && j < work.Length
    modifies inv
    ensures forall r, c | 0 <= r < inv.Length0 && 0 <= c < inv.Length1 ::
        inv[r, c] == if c == j then work[r] else old(inv[r, c])
  {
    var i := 0;
    while i < work.Length
      invariant i <= work.Length
      invariant forall r, c | 0 <= r < inv.Length0 && 0 <= c < inv.Length1 ::
          inv[r, c] == if c == j && r < i then work[r] else old(inv[r, c])
    {
      inv[i, j] := work[i];
      i := i + 1;
    }
  }

  lemma {:induction false} SolvesSame(orig: Matrix, x: Vector, y: Vector, b: Vector, c: Vector, n: nat)
    requires Solves(orig, x, b, n) && forall i | 0 <= i < n :: x(i) == y(i) && b(i) == c(i)
    ensures Solves(orig, y, c, n)
  {
    forall i | 0 <= i < n ensures Applied(orig, i, y, n) == c(i) {
      assert Applied(orig, i, x, n) == b(i);
      SumSame(RowTerm(orig, i, x), RowTerm(orig, i, y), n);
    }
  }

  lemma {:induction false} ColumnsSolved(orig: Matrix, before: Matrix, after: Matrix, work: Vector, col: Vector, j: nat, n: nat)
    requires j < n && ColumnsDone(orig, before, j, n)
    requires Solves(orig, work, col, n) && forall i | 0 <= i < n :: col(i) == UnitVector(j)(i)
    requires forall r, c | 0 <= r < n && 0 <= c < n :: after(r, c) == if c == j then work(r) else before(r, c)
    ensures ColumnsDone(orig, after, j + 1, n)
  {
    forall c: nat | c < j + 1 ensures Solves(orig, Column(after, c), UnitVector(c), n) {
      if c == j {
        SolvesSame(orig, work, Column(after, c), col, UnitVector(c), n);
      } else {
        SolvesSame(orig, Column(before, c), Column(after, c), UnitVector(c), UnitVector(c), n);
      }
    }
  }
}
