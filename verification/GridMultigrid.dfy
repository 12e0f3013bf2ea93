/** What nested iteration relies on: when a sweep has converged, what the heuristic start
    solves, and what moving power and temperatures between two grid sizes keeps. */
module GridMultigrid {
  import opened Sums
  import opened GridStencil

  // ---- convergence ----

  ghost predicate ChangedAtMost(g: Grid, u: Field, v: Field, d: real) {
    forall n, i, j | g.Cell(n, i, j) :: -d <= v(n, i, j) - u(n, i, j) <= d
  }

  ghost predicate SameCells(g: Grid, u: Field, v: Field) {
    forall n, i, j | g.Cell(n, i, j) :: v(n, i, j) == u(n, i, j)
  }

  ghost predicate ResidualAtMost(g: Grid, p: Field, v: Field, d: real)
    requires g.Positive()
  {
    forall n, i, j | g.Cell(n, i, j) :: CellResidualAtMost(g, p, v, d, n, i, j)
  }

  /** The imbalance is at most d times the conductance to the neighbours swept later. */
  ghost predicate CellResidualAtMost(g: Grid, p: Field, v: Field, d: real, n: int, i: int, j: int)
    requires g.Positive() && g.Cell(n, i, j)
  {
    var bound := Times(South(g, n, i, j) + East(g, n, i, j) + Below(g, n, i, j), d);
    -bound <= Residual(g, p, v, n, i, j) <= bound
  }

  lemma {:induction false} TimesBounded(a: real, x: real, d: real)
    requires a >= 0.0 && (a == 0.0 || -d <= x <= d)
    ensures -Times(a, d) <= Times(a, x) <= Times(a, d)
  {
    if a > 0.0 {
      TimesMonotone(a, x, d);
      TimesMonotone(a, -d, x);
    }
  }

  lemma {:induction false} ThreeBounded(s: real, e: real, b: real, x: real, y: real, z: real, d: real)
    requires s >= 0.0 && e >= 0.0 && b >= 0.0
    requires (s == 0.0 || -d <= x <= d) && (e == 0.0 || -d <= y <= d) && (b == 0.0 || -d <= z <= d)
    ensures -Times(s + e + b, d) <= Times(s, x) + Times(e, y) + Times(b, z) <= Times(s + e + b, d)
  {
    TimesBounded(s, x, d);
    TimesBounded(e, y, d);
    TimesBounded(b, z, d);
    assert Times(s + e + b, d) == Times(s, d) + Times(e, d) + Times(b, d);
    hide Times;
  }

  /** The residual after a sweep is what the later neighbours still moved. */
  lemma {:induction false} ResidualIsLateChange(g: Grid, p: Field, v: Field, v': Field, n: int, i: int, j: int)
    requires g.Positive() && g.Cell(n, i, j) && Updated(g, p, v, v', n, i, j)
    ensures Residual(g, p, v', n, i, j) == Times(South(g, n, i, j), v'(n, i + 1, j) - v(n, i + 1, j))
        + Times(East(g, n, i, j), v'(n, i, j + 1) - v(n, i, j + 1))
        + Times(Below(g, n, i, j), v'(n + 1, i, j) - v(n + 1, i, j))
  {
    var t := v'(n, i, j);
    hide Times, North, South, East, West, Above, Below, Sink;
    TimesLaws(North(g, n, i, j), v'(n, i - 1, j), t);
    TimesLaws(South(g, n, i, j), v'(n, i + 1, j), t);
    TimesLaws(East(g, n, i, j), v'(n, i, j + 1), t);
    TimesLaws(West(g, n, i, j), v'(n, i, j - 1), t);
    TimesLaws(Above(g, n, i, j), v'(n - 1, i, j), t);
    TimesLaws(Below(g, n, i, j), v'(n + 1, i, j), t);
    TimesLaws(Sink(g, n, i, j), g.ambient, t);
    SumTimes(North(g, n, i, j), South(g, n, i, j), East(g, n, i, j), West(g, n, i, j),
             Above(g, n, i, j), Below(g, n, i, j), Sink(g, n, i, j), t);
    TimesLaws(South(g, n, i, j), v'(n, i + 1, j), v(n, i + 1, j));
    TimesLaws(East(g, n, i, j), v'(n, i, j + 1), v(n, i, j + 1));
    TimesLaws(Below(g, n, i, j), v'(n + 1, i, j), v(n + 1, i, j));
  }

  /** A sweep that moves no cell by more than d leaves every cell balanced up to d times
      its conductance to later cells. */
  lemma {:induction false} SweepResidual(g: Grid, p: Field, v: Field, v': Field, d: real)
    requires g.Positive() && IsSweep(g, p, v, v') && ChangedAtMost(g, v, v', d)
    ensures ResidualAtMost(g, p, v', d)
  {
    forall n, i, j | g.Cell(n, i, j) ensures CellResidualAtMost(g, p, v', d, n, i, j) {
      assert Updated(g, p, v, v', n, i, j);
      ResidualIsLateChange(g, p, v, v', n, i, j);
      Conductances(g, n, i, j);
      hide IsSweep, Updated, Times, Residual;
      assert South(g, n, i, j) == 0.0 || g.Cell(n, i + 1, j);
      assert East(g, n, i, j) == 0.0 || g.Cell(n, i, j + 1);
      assert Below(g, n, i, j) == 0.0 || g.Cell(n + 1, i, j);
      hide South, East, Below;
      ThreeBounded(South(g, n, i, j), East(g, n, i, j), Below(g, n, i, j),
                   v'(n, i + 1, j) - v(n, i + 1, j), v'(n, i, j + 1) - v(n, i, j + 1), v'(n + 1, i, j) - v(n + 1, i, j), d);
    }
  }

  /** A sweep changes nothing exactly when the field was already steady. */
  lemma {:induction false} SweepUnchangedIffSteady(g: Grid, p: Field, v: Field, v': Field)
    requires g.Positive() && IsSweep(g, p, v, v')
    ensures SameCells(g, v, v') <==> Steady(g, p, v)
  {
    FixedPointIffSteady(g, p, v);
    if SameCells(g, v, v') {
      forall n, i, j | g.Cell(n, i, j) ensures Updated(g, p, v, v, n, i, j) {
        assert Updated(g, p, v, v', n, i, j);
        assert v'(n, i, j) == v(n, i, j);
        WeightedSame(g, v', v, v, n, i, j);
      }
    }
    if Steady(g, p, v) {
      SweepMonotone(g, p, p, v, v, v, v');
      SweepMonotone(g, p, p, v, v, v', v);
    }
  }

  lemma {:induction false} WeightedSame(g: Grid, e: Field, e': Field, l: Field, n: int, i: int, j: int)
    requires g.Positive() && g.Cell(n, i, j) && SameCells(g, e, e')
    ensures WeightedSum(g, e, l, n, i, j) == WeightedSum(g, e', l, n, i, j)
  {
    assert i > 0 ==> g.Cell(n, i - 1, j);
    assert j > 0 ==> g.Cell(n, i, j - 1);
    assert n > 0 ==> g.Cell(n - 1, i, j);
    hide Quotient;
  }

  // ---- the heuristic start ----

  ghost function ColumnPower(p: Field, i: int, j: int): int -> real {
    n => p(n, i, j)
  }

  /** The temperature the heat of a cell flows down to. */
  ghost function Next(g: Grid, v: Field, n: int, i: int, j: int): real {
    if n == |g.layers| - 1 then g.ambient else v(n + 1, i, j)
  }

  /** Each cell is warmer than the next one down by the power of all layers above and
      including its own, times the layer's vertical resistance. */
  ghost predicate IsHeuristic(g: Grid, p: Field, v: Field) {
    forall n, i, j | g.Cell(n, i, j) :: HeuristicCell(g, p, v, n, i, j)
  }

  ghost predicate HeuristicCell(g: Grid, p: Field, v: Field, n: int, i: int, j: int)
    requires g.Cell(n, i, j)
  {
    v(n, i, j) == Next(g, v, n, i, j) + Times(g.layers[n].rz, Sum(ColumnPower(p, i, j), n + 1))
  }

  ghost function Lateral(g: Grid, v: Field, n: int, i: int, j: int): real
    requires g.Positive() && g.Cell(n, i, j)
  {
    Times(North(g, n, i, j), v(n, i - 1, j) - v(n, i, j)) + Times(South(g, n, i, j), v(n, i + 1, j) - v(n, i, j))
    + Times(East(g, n, i, j), v(n, i, j + 1) - v(n, i, j)) + Times(West(g, n, i, j), v(n, i, j - 1) - v(n, i, j))
  }

  lemma {:induction false} InverseCancels(r: real, s: real)
    requires r > 0.0
    ensures Times(Quotient(1.0, r), Times(r, s)) == s
  {
    QuotientTimes(1.0, r);
    var q := Quotient(1.0, r);
    hide Quotient, Times;
    TimesLaws(q, r, s);
    TimesLaws(s, 1.0, 1.0);
    TimesLaws(1.0, s, 1.0);
    TimesLaws(r, q, 1.0);
  }

  /** Down from cell n flows the power of layers 0 to n. */
  lemma {:induction false} HeuristicFlow(g: Grid, p: Field, v: Field, n: int, i: int, j: int)
    requires g.Positive() && g.Cell(n, i, j) && HeuristicCell(g, p, v, n, i, j)
    ensures Times(Quotient(1.0, g.layers[n].rz), v(n, i, j) - Next(g, v, n, i, j)) == Sum(ColumnPower(p, i, j), n + 1)
  {
    hide Times, Quotient;
    InverseCancels(g.layers[n].rz, Sum(ColumnPower(p, i, j), n + 1));
  }

  lemma {:induction false} TimesNegate(a: real, x: real, y: real)
    ensures Times(a, x - y) == -Times(a, y - x)
  {
  }

  /** In the heuristic field only the lateral flow is out of balance. */
  lemma {:induction false} HeuristicResidual(g: Grid, p: Field, v: Field, n: int, i: int, j: int)
    requires g.Positive() && g.Cell(n, i, j) && IsHeuristic(g, p, v)
    ensures Residual(g, p, v, n, i, j) == Lateral(g, v, n, i, j)
  {
    assert HeuristicCell(g, p, v, n, i, j);
    HeuristicFlow(g, p, v, n, i, j);
    TimesNegate(Quotient(1.0, g.layers[n].rz), Next(g, v, n, i, j), v(n, i, j));
    assert Times(0.0, v(n - 1, i, j) - v(n, i, j)) == 0.0 && Times(0.0, v(n + 1, i, j) - v(n, i, j)) == 0.0
        && Times(0.0, g.ambient - v(n, i, j)) == 0.0;
    if n > 0 {
      assert HeuristicCell(g, p, v, n - 1, i, j);
      HeuristicFlow(g, p, v, n - 1, i, j);
    }
    hide Times, Quotient, North, South, East, West, IsHeuristic, HeuristicCell;
    assert Sum(ColumnPower(p, i, j), n + 1) == Sum(ColumnPower(p, i, j), n) + p(n, i, j);
  }

  /** The heuristic field is the solution exactly when no lateral heat would flow. */
  lemma {:induction false} HeuristicSteadyIff(g: Grid, p: Field, v: Field)
    requires g.Positive() && IsHeuristic(g, p, v)
    ensures Steady(g, p, v) <==> forall n, i, j | g.Cell(n, i, j) :: Lateral(g, v, n, i, j) == 0.0
  {
    hide IsHeuristic, Lateral, Residual;
    forall n, i, j | g.Cell(n, i, j) ensures Balanced(g, p, v, n, i, j) <==> Lateral(g, v, n, i, j) == 0.0 {
      HeuristicResidual(g, p, v, n, i, j);
    }
  }

  lemma {:induction false} HeuristicUniform(g: Grid, p: Field, v: Field, n: int, i: int, j: int, i': int, j': int)
    requires IsHeuristic(g, p, v) && g.Cell(n, i, j) && g.Cell(n, i', j')
    requires forall m, r, c, r', c' | g.Cell(m, r, c) && g.Cell(m, r', c') :: p(m, r, c) == p(m, r', c')
    ensures v(n, i, j) == v(n, i', j')
    decreases |g.layers| - n
  {
    assert HeuristicCell(g, p, v, n, i, j) && HeuristicCell(g, p, v, n, i', j');
    forall m | 0 <= m < n + 1 ensures ColumnPower(p, i, j)(m) == ColumnPower(p, i', j')(m) {
      assert g.Cell(m, i, j) && g.Cell(m, i', j');
    }
    SumSame(ColumnPower(p, i, j), ColumnPower(p, i', j'), n + 1);
    if n < |g.layers| - 1 {
      HeuristicUniform(g, p, v, n + 1, i, j, i', j');
    }
  }

  /** With the same power in all cells of a layer - in particular on a grid of one
      cell - the heuristic field is already the solution. */
  lemma {:induction false} HeuristicExact(g: Grid, p: Field, v: Field)
    requires g.Positive() && IsHeuristic(g, p, v)
    requires forall m, r, c, r', c' | g.Cell(m, r, c) && g.Cell(m, r', c') :: p(m, r, c) == p(m, r', c')
    ensures Steady(g, p, v)
  {
    forall n, i, j | g.Cell(n, i, j) ensures Lateral(g, v, n, i, j) == 0.0 {
      if i > 0 { HeuristicUniform(g, p, v, n, i - 1, j, i, j); }
      if i < g.rows - 1 { HeuristicUniform(g, p, v, n, i + 1, j, i, j); }
      if j > 0 { HeuristicUniform(g, p, v, n, i, j - 1, i, j); }
      if j < g.cols - 1 { HeuristicUniform(g, p, v, n, i, j + 1, i, j); }
      assert Times(North(g, n, i, j), 0.0) == Times(South(g, n, i, j), 0.0) == 0.0;
      assert Times(East(g, n, i, j), 0.0) == Times(West(g, n, i, j), 0.0) == 0.0;
      hide Quotient, IsHeuristic;
    }
    HeuristicSteadyIff(g, p, v);
  }

  lemma {:induction false} HeuristicCellAboveAmbient(g: Grid, p: Field, v: Field, n: int, i: int, j: int)
    requires g.Positive() && g.Cell(n, i, j) && IsHeuristic(g, p, v) && AtMost(g, Uniform(0.0), p)
    ensures v(n, i, j) >= g.ambient
    decreases |g.layers| - n
  {
    assert HeuristicCell(g, p, v, n, i, j);
    forall m | 0 <= m < n + 1 ensures ColumnPower(p, i, j)(m) >= 0.0 {
      assert g.Cell(m, i, j);
      assert Uniform(0.0)(m, i, j) == 0.0;
    }
    SumNonnegative(ColumnPower(p, i, j), n + 1);
    TimesMonotone(g.layers[n].rz, 0.0, Sum(ColumnPower(p, i, j), n + 1));
    if n < |g.layers| - 1 {
      HeuristicCellAboveAmbient(g, p, v, n + 1, i, j);
    }
  }

  lemma {:induction false} HeuristicAboveAmbient(g: Grid, p: Field, v: Field)
    requires g.Positive() && IsHeuristic(g, p, v) && AtMost(g, Uniform(0.0), p)
    ensures AtMost(g, Uniform(g.ambient), v)
  {
    forall n, i, j | g.Cell(n, i, j) ensures Uniform(g.ambient)(n, i, j) <= v(n, i, j) {
      HeuristicCellAboveAmbient(g, p, v, n, i, j);
    }
  }

  /** One more sweep from at or above ambient stays there. */
  lemma {:induction false} SweepAboveAmbient(g: Grid, p: Field, v: Field, v': Field)
    requires g.Positive() && AtMost(g, Uniform(0.0), p) && IsSweep(g, p, v, v')
    requires AtMost(g, Uniform(g.ambient), v)
    ensures AtMost(g, Uniform(g.ambient), v')
  {
    AmbientFixed(g);
    SweepMonotone(g, Uniform(0.0), p, Uniform(g.ambient), v, Uniform(g.ambient), v');
  }

  // ---- between two grid sizes ----

  /** The grid with half the rows and columns: the vertical resistance of a cell is a
      quarter, its capacitance four times as large if capacitances are set up. */
  function CoarseLayer(l: Layer, cReady: bool): Layer {
    l.(rz := l.rz / 4.0, c := if cReady then l.c * 4.0 else l.c)
  }

  function Coarse(g: Grid, cReady: bool): (h: Grid)
    ensures g.Positive() ==> h.Positive()
  {
    Grid(g.rows / 2, g.cols / 2, seq(|g.layers|, n requires 0 <= n < |g.layers| => CoarseLayer(g.layers[n], cReady)),
         g.ambient)
  }

  /** What a layer conducts in all: up and down over all cells, and side to side along x and y. */
  function VerticalTotal(g: Grid, n: int): real
    requires g.Positive() && 0 <= n < |g.layers|
  {
    (g.rows * g.cols) as real / g.layers[n].rz
  }

  function AlongX(g: Grid, n: int): real
    requires g.Positive() && 0 <= n < |g.layers| && g.cols > 0
  {
    g.rows as real / (g.cols as real * g.layers[n].rx)
  }

  function AlongY(g: Grid, n: int): real
    requires g.Positive() && 0 <= n < |g.layers| && g.rows > 0
  {
    g.cols as real / (g.rows as real * g.layers[n].ry)
  }

  function CapacityTotal(g: Grid, n: int): real
    requires 0 <= n < |g.layers|
  {
    (g.rows * g.cols) as real * g.layers[n].c
  }

  /** Halving the rows and columns of an even grid changes none of them, nor the capacity
      when capacitances are set up. */
  lemma {:induction false} CoarseKeepsTotals(g: Grid, cReady: bool, n: int)
    requires g.Positive() && 0 <= n < |g.layers| && g.rows % 2 == 0 && g.cols % 2 == 0 && g.rows > 0 && g.cols > 0
    ensures VerticalTotal(Coarse(g, cReady), n) == VerticalTotal(g, n)
    ensures AlongX(Coarse(g, cReady), n) == AlongX(g, n) && AlongY(Coarse(g, cReady), n) == AlongY(g, n)
    ensures cReady ==> CapacityTotal(Coarse(g, cReady), n) == CapacityTotal(g, n)
  {
    var h, r, c := Coarse(g, cReady), g.rows / 2, g.cols / 2;
    var l := g.layers[n];
    assert h.layers[n] == CoarseLayer(l, cReady);
    assert g.rows == 2 * r && g.cols == 2 * c;
    assert g.rows * g.cols == 4 * (r * c);
    SameQuotient((r * c) as real, l.rz / 4.0, 4.0 * (r * c) as real, l.rz, 4.0);
    SameQuotient(r as real, c as real * l.rx, 2.0 * r as real, 2.0 * c as real * l.rx, 2.0);
    SameQuotient(c as real, r as real * l.ry, 2.0 * c as real, 2.0 * r as real * l.ry, 2.0);
  }

  lemma {:induction false} SameQuotient(a: real, b: real, x: real, y: real, k: real)
    requires b > 0.0 && k > 0.0 && x == k * a && y == k * b
    ensures x / y == a / b
  {
    assert y > 0.0;
    var q := a / b;
    assert q * b == a;
    assert q * y == k * (q * b);
  }

  /** Every coarse cell gets the power of the four fine cells it covers. */
  ghost predicate IsRestriction(h: Grid, fine: Field, coarse: Field) {
    forall n, i, j | h.Cell(n, i, j) :: RestrictedCell(fine, coarse, n, i, j)
  }

  ghost predicate RestrictedCell(fine: Field, coarse: Field, n: int, i: int, j: int) {
    coarse(n, i, j) == fine(n, 2 * i, 2 * j) + fine(n, 2 * i + 1, 2 * j)
                     + fine(n, 2 * i, 2 * j + 1) + fine(n, 2 * i + 1, 2 * j + 1)
  }

  ghost function LayerOf(p: Field, n: int): (int, int) -> real {
    (i, j) => p(n, i, j)
  }

  /** Total over the cells of one layer. */
  ghost function LayerTotal(p: Field, n: int, rows: nat, cols: nat): real {
    Sum(RowSum(LayerOf(p, n), cols), rows)
  }

  lemma {:induction false} SumPairs(f: int -> real, g: int -> real, m: nat)
    requires forall k | 0 <= k < m :: g(k) == f(2 * k) + f(2 * k + 1)
    ensures Sum(g, m) == Sum(f, 2 * m)
  {
    if m > 0 {
      SumPairs(f, g, m - 1);
      assert Sum(f, 2 * m) == Sum(f, 2 * m - 1) + f(2 * m - 1);
      assert Sum(f, 2 * m - 1) == Sum(f, 2 * (m - 1)) + f(2 * (m - 1));
    }
  }

  lemma {:induction false} RestrictedRow(h: Grid, fine: Field, coarse: Field, n: int, i: int)
    requires 0 <= n < |h.layers| && 0 <= i < h.rows && IsRestriction(h, fine, coarse)
    ensures RowSum(LayerOf(coarse, n), h.cols)(i)
         == RowSum(LayerOf(fine, n), 2 * h.cols)(2 * i) + RowSum(LayerOf(fine, n), 2 * h.cols)(2 * i + 1)
  {
    var a: int -> real := j => fine(n, 2 * i, j);
    var b: int -> real := j => fine(n, 2 * i + 1, j);
    var both: int -> real := j => a(j) + b(j);
    var c: int -> real := j => coarse(n, i, j);
    forall j | 0 <= j < h.cols ensures c(j) == both(2 * j) + both(2 * j + 1) {
      assert h.Cell(n, i, j);
      assert RestrictedCell(fine, coarse, n, i, j);
    }
    SumPairs(both, c, h.cols);
    SumAdd(a, b, both, 2 * h.cols);
    hide IsRestriction, RowSum, Sum;
    RowSumIs(LayerOf(fine, n), 2 * i, a, 2 * h.cols);
    RowSumIs(LayerOf(fine, n), 2 * i + 1, b, 2 * h.cols);
    RowSumIs(LayerOf(coarse, n), i, c, h.cols);
  }

  /** Restriction keeps the total power of every layer. */
  lemma {:induction false} RestrictionKeepsPower(h: Grid, fine: Field, coarse: Field, n: int)
    requires 0 <= n < |h.layers| && IsRestriction(h, fine, coarse)
    ensures LayerTotal(coarse, n, h.rows, h.cols) == LayerTotal(fine, n, 2 * h.rows, 2 * h.cols)
  {
    hide IsRestriction;
    var f, c := RowSum(LayerOf(fine, n), 2 * h.cols), RowSum(LayerOf(coarse, n), h.cols);
    forall i | 0 <= i < h.rows ensures c(i) == f(2 * i) + f(2 * i + 1) {
      RestrictedRow(h, fine, coarse, n, i);
    }
    SumPairs(f, c, h.rows);
  }

  /** Coarse cell i covers fine cells 2i and 2i + 1, on each axis. */
  predicate Covers(i: int, j: int, a: int, b: int) {
    2 * i <= a <= 2 * i + 1 && 2 * j <= b <= 2 * j + 1
  }

  /** Power in one fine cell only goes whole to the coarse cell covering it. */
  lemma {:induction false} RestrictionLocal(h: Grid, fine: Field, coarse: Field, n: int, a: int, b: int, i: int, j: int)
    requires IsRestriction(h, fine, coarse) && h.Cell(n, i, j)
    requires forall r, c | r != a || c != b :: fine(n, r, c) == 0.0
    ensures coarse(n, i, j) == if Covers(i, j, a, b) then fine(n, a, b) else 0.0
  {
    assert RestrictedCell(fine, coarse, n, i, j);
  }

  lemma {:induction false} RestrictionNonnegative(g: Grid, h: Grid, fine: Field, coarse: Field)
    requires 2 * h.rows <= g.rows && 2 * h.cols <= g.cols && |h.layers| == |g.layers|
    requires IsRestriction(h, fine, coarse) && AtMost(g, Uniform(0.0), fine)
    ensures AtMost(h, Uniform(0.0), coarse)
  {
    forall n, i, j | h.Cell(n, i, j) ensures Uniform(0.0)(n, i, j) <= coarse(n, i, j) {
      assert RestrictedCell(fine, coarse, n, i, j);
      assert g.Cell(n, 2 * i, 2 * j) && g.Cell(n, 2 * i + 1, 2 * j);
      assert g.Cell(n, 2 * i, 2 * j + 1) && g.Cell(n, 2 * i + 1, 2 * j + 1);
      assert Uniform(0.0)(n, 2 * i, 2 * j) == Uniform(0.0)(n, 2 * i + 1, 2 * j)
          == Uniform(0.0)(n, 2 * i, 2 * j + 1) == Uniform(0.0)(n, 2 * i + 1, 2 * j + 1) == 0.0;
    }
  }

  /** The coarse index on the other side of fine index a from the one that covers it. */
  function Far(a: int): int {
    if a % 2 == 1 then a / 2 + 1 else a / 2 - 1
  }

  predicate OnRim(a: int, b: int, rows: nat, cols: nat) {
    a == 0 || a == 2 * rows - 1 || b == 0 || b == 2 * cols - 1
  }

  /** Bilinear interpolation with weights 3/4 and 1/4 per axis; on the rim of the grid
      the value of the covering coarse cell. */
  ghost function Interpolated(h: Grid, s: Field, n: int, a: int, b: int): real {
    if OnRim(a, b, h.rows, h.cols) then s(n, a / 2, b / 2)
    else (9.0 * s(n, a / 2, b / 2) + 3.0 * s(n, Far(a), b / 2) + 3.0 * s(n, a / 2, Far(b)) + s(n, Far(a), Far(b))) / 16.0
  }

  ghost predicate IsProlongation(h: Grid, s: Field, d: Field) {
    forall n, a, b | 0 <= n < |h.layers| && 0 <= a < 2 * h.rows && 0 <= b < 2 * h.cols ::
      d(n, a, b) == Interpolated(h, s, n, a, b)
  }

  /** How much of coarse cell i reaches fine cell a along an axis: falls off with the distance
      of the centres and ends two fine cells away. */
  function Hat(a: int, i: int): real {
    var d := a as real - (2.0 * (i as real) + 0.5);
    if -2.0 < d < 2.0 then 1.0 - (if d < 0.0 then -d else d) / 2.0 else 0.0
  }

  /** A coarse temperature that is zero off one cell reaches the fine cells away from the rim by
      its hats, and on the rim only those the cell covers, unchanged. */
  lemma {:induction false} InterpolatedLocal(h: Grid, s: Field, n: int, i: int, j: int, a: int, b: int)
    requires h.Cell(n, i, j) && 0 <= a < 2 * h.rows && 0 <= b < 2 * h.cols
    requires forall r, c | r != i || c != j :: s(n, r, c) == 0.0
    ensures OnRim(a, b, h.rows, h.cols) ==> Interpolated(h, s, n, a, b) == if Covers(i, j, a, b) then s(n, i, j) else 0.0
    ensures !OnRim(a, b, h.rows, h.cols) ==> Interpolated(h, s, n, a, b) == Hat(a, i) * Hat(b, j) * s(n, i, j)
  {
    if !OnRim(a, b, h.rows, h.cols) {
      HatIs(a, i);
      HatIs(b, j);
      hide Hat;
    }
  }

  lemma {:induction false} HatIs(a: int, i: int)
    ensures Hat(a, i) == if i == a / 2 then 0.75 else if i == Far(a) then 0.25 else 0.0
  {
    var q := a / 2;
    assert a == 2 * q + a % 2;
    var k := i - q;
    assert a as real - (2.0 * (i as real) + 0.5) == (a % 2) as real - 0.5 - 2.0 * (k as real);
    assert k >= 2 ==> k as real >= 2.0;
    assert k <= -2 ==> k as real <= -2.0;
  }

  /** Every fine cell stays between bounds on the coarse cells of its layer. */
  lemma {:induction false} InterpolatedWithin(h: Grid, s: Field, n: int, a: int, b: int, lo: real, hi: real)
    requires 0 <= n < |h.layers| && 0 <= a < 2 * h.rows && 0 <= b < 2 * h.cols
    requires forall i, j | 0 <= i < h.rows && 0 <= j < h.cols :: lo <= s(n, i, j) <= hi
    ensures lo <= Interpolated(h, s, n, a, b) <= hi
  {
    assert 0 <= a / 2 < h.rows && 0 <= b / 2 < h.cols;
    assert lo <= s(n, a / 2, b / 2) <= hi;
    if !OnRim(a, b, h.rows, h.cols) {
      assert 0 <= Far(a) < h.rows && 0 <= Far(b) < h.cols;
      assert lo <= s(n, Far(a), b / 2) <= hi && lo <= s(n, a / 2, Far(b)) <= hi && lo <= s(n, Far(a), Far(b)) <= hi;
    }
  }

  /** Away from the rim interpolation is exact on temperatures that are bilinear in the
      position; the centre of coarse cell i lies at 2i + 1/2 in fine cells. */
  lemma {:induction false} InterpolatedBilinear(h: Grid, s: Field, n: int, a: int, b: int, k: real, x: real, y: real, xy: real)
    requires !OnRim(a, b, h.rows, h.cols)
    requires forall i, j :: s(n, i, j) == Bilinear(k, x, y, xy, 2.0 * (i as real) + 0.5, 2.0 * (j as real) + 0.5)
    ensures Interpolated(h, s, n, a, b) == Bilinear(k, x, y, xy, a as real, b as real)
  {
    var u0, u1 := 2.0 * ((a / 2) as real) + 0.5, 2.0 * (Far(a) as real) + 0.5;
    var v0, v1 := 2.0 * ((b / 2) as real) + 0.5, 2.0 * (Far(b) as real) + 0.5;
    assert 3.0 * u0 + u1 == 4.0 * (a as real) && 3.0 * v0 + v1 == 4.0 * (b as real) by {
      HalfCentre(a);
      HalfCentre(b);
    }
    BilinearMean(k, x, y, xy, u0, u1, v0, v1);
  }

  ghost function Bilinear(k: real, x: real, y: real, xy: real, u: real, v: real): real {
    k + x * u + (y + xy * u) * v
  }

  lemma {:induction false} HalfCentre(a: int)
    ensures 3.0 * (2.0 * ((a / 2) as real) + 0.5) + (2.0 * (Far(a) as real) + 0.5) == 4.0 * (a as real)
  {
    var q := a / 2;
    assert a == 2 * q + a % 2;
    assert a as real == 2.0 * (q as real) + (a % 2) as real;
  }

  lemma {:induction false} BilinearMean(k: real, x: real, y: real, xy: real, u0: real, u1: real, v0: real, v1: real)
    ensures 9.0 * Bilinear(k, x, y, xy, u0, v0) + 3.0 * Bilinear(k, x, y, xy, u1, v0)
          + 3.0 * Bilinear(k, x, y, xy, u0, v1) + Bilinear(k, x, y, xy, u1, v1)
         == 16.0 * Bilinear(k, x, y, xy, (3.0 * u0 + u1) / 4.0, (3.0 * v0 + v1) / 4.0)
  {
    var u, v := (3.0 * u0 + u1) / 4.0, (3.0 * v0 + v1) / 4.0;
    LinearMean(k + x * u0, y + xy * u0, v0, v1, v);
    LinearMean(k + x * u1, y + xy * u1, v0, v1, v);
    LinearMean(k + y * v, x + xy * v, u0, u1, u);
    Exchange(k, x, y, xy, u, v);
    Exchange(k, x, y, xy, u0, v);
    Exchange(k, x, y, xy, u1, v);
  }

  lemma {:induction false} LinearMean(c: real, m: real, v0: real, v1: real, v: real)
    requires 4.0 * v == 3.0 * v0 + v1
    ensures 3.0 * (c + m * v0) + (c + m * v1) == 4.0 * (c + m * v)
  {
    assert m * (4.0 * v) == m * (3.0 * v0 + v1);
    assert m * (3.0 * v0 + v1) == 3.0 * (m * v0) + m * v1;
  }

  lemma {:induction false} Exchange(k: real, x: real, y: real, xy: real, u: real, v: real)
    ensures k + x * u + (y + xy * u) * v == k + y * v + (x + xy * v) * u
  {
    assert (y + xy * u) * v == y * v + (xy * u) * v;
    assert (x + xy * v) * u == x * u + (xy * v) * u;
  }

  lemma {:induction false} ProlongationAboveAmbient(g: Grid, h: Grid, s: Field, d: Field)
    requires g.rows == 2 * h.rows && g.cols == 2 * h.cols && |g.layers| == |h.layers| && g.ambient == h.ambient
    requires IsProlongation(h, s, d) && AtMost(h, Uniform(h.ambient), s)
    ensures AtMost(g, Uniform(g.ambient), d)
  {
    forall n, a, b | g.Cell(n, a, b) ensures Uniform(g.ambient)(n, a, b) <= d(n, a, b) {
      assert d(n, a, b) == Interpolated(h, s, n, a, b);
      assert 0 <= a / 2 < h.rows && 0 <= b / 2 < h.cols;
      forall i, j | 0 <= i < h.rows && 0 <= j < h.cols ensures s(n, i, j) >= h.ambient {
        assert h.Cell(n, i, j);
        assert Uniform(h.ambient)(n, i, j) == h.ambient;
      }
      assert s(n, a / 2, b / 2) >= h.ambient;
      if !OnRim(a, b, h.rows, h.cols) {
        assert 0 <= Far(a) < h.rows && 0 <= Far(b) < h.cols;
        assert s(n, Far(a), b / 2) >= h.ambient && s(n, a / 2, Far(b)) >= h.ambient && s(n, Far(a), Far(b)) >= h.ambient;
      }
    }
  }
}
