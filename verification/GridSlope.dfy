/** The slope of the transient equations on the grid, and its energy balance. */
module GridSlope {
  import opened Sums
  import opened GridStencil
  import opened GridMultigrid
  import opened MobileGrid

  // ---- totals over the grid ----

  ghost function LayerTotals(g: Grid, f: Field): int -> real {
    n => LayerTotal(f, n, g.rows, g.cols)
  }

  /** Total over all cells. */
  ghost function Total(g: Grid, f: Field): real {
    Sum(LayerTotals(g, f), |g.layers|)
  }

  lemma {:induction false} LayerTotalAdd(a: Field, b: Field, c: Field, n: int, rows: nat, cols: nat)
    requires forall i, j | 0 <= i < rows && 0 <= j < cols :: c(n, i, j) == a(n, i, j) + b(n, i, j)
    ensures LayerTotal(c, n, rows, cols) == LayerTotal(a, n, rows, cols) + LayerTotal(b, n, rows, cols)
  {
    forall i | 0 <= i < rows
      ensures RowSum(LayerOf(c, n), cols)(i) == RowSum(LayerOf(a, n), cols)(i) + RowSum(LayerOf(b, n), cols)(i)
    {
      var x: int -> real := j => a(n, i, j);
      var y: int -> real := j => b(n, i, j);
      var z: int -> real := j => c(n, i, j);
      SumAdd(x, y, z, cols);
      hide RowSum, Sum;
      RowSumIs(LayerOf(a, n), i, x, cols);
      RowSumIs(LayerOf(b, n), i, y, cols);
      RowSumIs(LayerOf(c, n), i, z, cols);
    }
    hide RowSum;
    SumAdd(RowSum(LayerOf(a, n), cols), RowSum(LayerOf(b, n), cols), RowSum(LayerOf(c, n), cols), rows);
  }

  lemma {:induction false} TotalAdd(g: Grid, a: Field, b: Field, c: Field)
    requires forall n, i, j | g.Cell(n, i, j) :: c(n, i, j) == a(n, i, j) + b(n, i, j)
    ensures Total(g, c) == Total(g, a) + Total(g, b)
  {
    forall n | 0 <= n < |g.layers| ensures LayerTotals(g, c)(n) == LayerTotals(g, a)(n) + LayerTotals(g, b)(n) {
      forall i, j | 0 <= i < g.rows && 0 <= j < g.cols ensures c(n, i, j) == a(n, i, j) + b(n, i, j) {
        assert g.Cell(n, i, j);
      }
      LayerTotalAdd(a, b, c, n, g.rows, g.cols);
      hide LayerTotal;
    }
    hide LayerTotals;
    SumAdd(LayerTotals(g, a), LayerTotals(g, b), LayerTotals(g, c), |g.layers|);
  }

  /** What comes in from the next place less what goes out to the previous one. */
  ghost function NetFlow(s: int -> real, m: nat, k: int): real {
    (if k < m - 1 then s(k) else 0.0) - (if k > 0 then s(k - 1) else 0.0)
  }

  lemma {:induction false} FlowsCancel(f: int -> real, s: int -> real, m: nat, k: nat)
    requires k <= m && forall i | 0 <= i < m :: f(i) == NetFlow(s, m, i)
    ensures Sum(f, k) == if 0 < k < m then s(k - 1) else 0.0
  {
    if k > 0 { FlowsCancel(f, s, m, k - 1); }
  }

  lemma {:induction false} TwoFlows(q: real, first: bool, last: bool, before: real, t: real, after: real)
    ensures Times(if first then 0.0 else q, before - t) + Times(if last then 0.0 else q, after - t)
         == (if last then 0.0 else Times(q, after - t)) - (if first then 0.0 else Times(q, t - before))
  {
    TimesNegate(q, before, t);
  }

  // ---- the flows ----

  ghost function NorthSouthFlow(g: Grid, v: Field, n: int, i: int, j: int): real
    requires g.Positive() && g.Cell(n, i, j)
  {
    Times(North(g, n, i, j), v(n, i - 1, j) - v(n, i, j)) + Times(South(g, n, i, j), v(n, i + 1, j) - v(n, i, j))
  }

  ghost function EastWestFlow(g: Grid, v: Field, n: int, i: int, j: int): real
    requires g.Positive() && g.Cell(n, i, j)
  {
    Times(East(g, n, i, j), v(n, i, j + 1) - v(n, i, j)) + Times(West(g, n, i, j), v(n, i, j - 1) - v(n, i, j))
  }

  ghost function UpDownFlow(g: Grid, v: Field, n: int, i: int, j: int): real
    requires g.Positive() && g.Cell(n, i, j)
  {
    Times(Above(g, n, i, j), v(n - 1, i, j) - v(n, i, j)) + Times(Below(g, n, i, j), v(n + 1, i, j) - v(n, i, j))
  }

  ghost function NorthSouth(g: Grid, v: Field): Field
    requires g.Positive()
  {
    (n, i, j) => if g.Cell(n, i, j) then NorthSouthFlow(g, v, n, i, j) else 0.0
  }

  ghost function EastWest(g: Grid, v: Field): Field
    requires g.Positive()
  {
    (n, i, j) => if g.Cell(n, i, j) then EastWestFlow(g, v, n, i, j) else 0.0
  }

  ghost function UpDown(g: Grid, v: Field): Field
    requires g.Positive()
  {
    (n, i, j) => if g.Cell(n, i, j) then UpDownFlow(g, v, n, i, j) else 0.0
  }

  /** Inflow from the ambient; only the last layer has any. */
  ghost function FromAmbient(g: Grid, v: Field): Field
    requires g.Positive()
  {
    (n, i, j) => if g.Cell(n, i, j) then Times(Sink(g, n, i, j), g.ambient - v(n, i, j)) else 0.0
  }

  ghost function Residuals(g: Grid, p: Field, v: Field): Field
    requires g.Positive()
  {
    (n, i, j) => if g.Cell(n, i, j) then Residual(g, p, v, n, i, j) else 0.0
  }

  lemma {:induction false} NorthSouthCell(g: Grid, v: Field, n: int, i: int, j: int)
    requires g.Positive() && g.Cell(n, i, j)
    ensures var q := Quotient(1.0, g.layers[n].ry);
      NorthSouth(g, v)(n, i, j) == (if i < g.rows - 1 then Times(q, v(n, i + 1, j) - v(n, i, j)) else 0.0)
                                 - (if i > 0 then Times(q, v(n, i, j) - v(n, i - 1, j)) else 0.0)
  {
    hide Times, Quotient;
    TwoFlows(Quotient(1.0, g.layers[n].ry), i == 0, i == g.rows - 1, v(n, i - 1, j), v(n, i, j), v(n, i + 1, j));
  }

  lemma {:induction false} EastWestCell(g: Grid, v: Field, n: int, i: int, j: int)
    requires g.Positive() && g.Cell(n, i, j)
    ensures var q := Quotient(1.0, g.layers[n].rx);
      EastWest(g, v)(n, i, j) == (if j < g.cols - 1 then Times(q, v(n, i, j + 1) - v(n, i, j)) else 0.0)
                               - (if j > 0 then Times(q, v(n, i, j) - v(n, i, j - 1)) else 0.0)
  {
    hide Times, Quotient;
    TwoFlows(Quotient(1.0, g.layers[n].rx), j == 0, j == g.cols - 1, v(n, i, j - 1), v(n, i, j), v(n, i, j + 1));
  }

  lemma {:induction false} ColumnCancels(f: Field, n: int, j: int, s: int -> real, m: nat)
    requires forall k | 0 <= k < m :: f(n, k, j) == NetFlow(s, m, k)
    ensures ColumnSum(LayerOf(f, n), m)(j) == 0.0
  {
    var c: int -> real := i => f(n, i, j);
    FlowsCancel(c, s, m, m);
    hide NetFlow, Sum;
    ColumnSumIs(LayerOf(f, n), j, c, m);
  }

  lemma {:induction false} RowCancels(f: Field, n: int, i: int, s: int -> real, m: nat)
    requires forall k | 0 <= k < m :: f(n, i, k) == NetFlow(s, m, k)
    ensures RowSum(LayerOf(f, n), m)(i) == 0.0
  {
    var c: int -> real := j => f(n, i, j);
    FlowsCancel(c, s, m, m);
    hide NetFlow, Sum;
    RowSumIs(LayerOf(f, n), i, c, m);
  }

  /** Flow from row i + 1 to row i of a column, and from column j + 1 to column j of a row. */
  ghost function Northward(g: Grid, v: Field, n: int, j: int): int -> real
    requires g.Positive() && 0 <= n < |g.layers|
  {
    i => Times(Quotient(1.0, g.layers[n].ry), v(n, i + 1, j) - v(n, i, j))
  }

  ghost function Westward(g: Grid, v: Field, n: int, i: int): int -> real
    requires g.Positive() && 0 <= n < |g.layers|
  {
    j => Times(Quotient(1.0, g.layers[n].rx), v(n, i, j + 1) - v(n, i, j))
  }

  lemma {:induction false} NorthSouthNet(g: Grid, v: Field, n: int, k: int, j: int)
    requires g.Positive() && g.Cell(n, k, j)
    ensures NorthSouth(g, v)(n, k, j) == NetFlow(Northward(g, v, n, j), g.rows, k)
  {
    hide Times, Quotient, NorthSouth, Northward;
    NorthSouthCell(g, v, n, k, j);
    NorthwardAt(g, v, n, j, k);
    NorthwardAt(g, v, n, j, k - 1);
  }

  lemma {:induction false} NorthwardAt(g: Grid, v: Field, n: int, j: int, i: int)
    requires g.Positive() && 0 <= n < |g.layers|
    ensures Northward(g, v, n, j)(i) == Times(Quotient(1.0, g.layers[n].ry), v(n, i + 1, j) - v(n, i, j))
  {
  }

  lemma {:induction false} WestwardAt(g: Grid, v: Field, n: int, i: int, j: int)
    requires g.Positive() && 0 <= n < |g.layers|
    ensures Westward(g, v, n, i)(j) == Times(Quotient(1.0, g.layers[n].rx), v(n, i, j + 1) - v(n, i, j))
  {
  }

  lemma {:induction false} EastWestNet(g: Grid, v: Field, n: int, i: int, k: int)
    requires g.Positive() && g.Cell(n, i, k)
    ensures EastWest(g, v)(n, i, k) == NetFlow(Westward(g, v, n, i), g.cols, k)
  {
    hide Times, Quotient, EastWest, Westward;
    EastWestCell(g, v, n, i, k);
    WestwardAt(g, v, n, i, k);
    WestwardAt(g, v, n, i, k - 1);
  }

  lemma {:induction false} ColumnFlowCancels(g: Grid, v: Field, n: int, j: int)
    requires g.Positive() && 0 <= n < |g.layers| && 0 <= j < g.cols
    ensures ColumnSum(LayerOf(NorthSouth(g, v), n), g.rows)(j) == 0.0
  {
    hide NorthSouth, ColumnSum, LayerOf, Northward, NetFlow;
    forall k | 0 <= k < g.rows ensures NorthSouth(g, v)(n, k, j) == NetFlow(Northward(g, v, n, j), g.rows, k) {
      NorthSouthNet(g, v, n, k, j);
    }
    ColumnCancels(NorthSouth(g, v), n, j, Northward(g, v, n, j), g.rows);
  }

  lemma {:induction false} RowFlowCancels(g: Grid, v: Field, n: int, i: int)
    requires g.Positive() && 0 <= n < |g.layers| && 0 <= i < g.rows
    ensures RowSum(LayerOf(EastWest(g, v), n), g.cols)(i) == 0.0
  {
    hide EastWest, RowSum, LayerOf, Westward, NetFlow;
    forall k | 0 <= k < g.cols ensures EastWest(g, v)(n, i, k) == NetFlow(Westward(g, v, n, i), g.cols, k) {
      EastWestNet(g, v, n, i, k);
    }
    RowCancels(EastWest(g, v), n, i, Westward(g, v, n, i), g.cols);
  }

  lemma {:induction false} LateralFlowCancels(g: Grid, v: Field)
    requires g.Positive()
    ensures Total(g, NorthSouth(g, v)) == 0.0 && Total(g, EastWest(g, v)) == 0.0
  {
    forall n | 0 <= n < |g.layers|
      ensures LayerTotals(g, NorthSouth(g, v))(n) == 0.0 && LayerTotals(g, EastWest(g, v))(n) == 0.0
    {
      var h, e := LayerOf(NorthSouth(g, v), n), LayerOf(EastWest(g, v), n);
      forall j | 0 <= j < g.cols ensures ColumnSum(h, g.rows)(j) == 0.0 {
        ColumnFlowCancels(g, v, n, j);
      }
      forall i | 0 <= i < g.rows ensures RowSum(e, g.cols)(i) == 0.0 {
        RowFlowCancels(g, v, n, i);
      }
      hide RowSum, ColumnSum, NorthSouth, EastWest;
      SumSwap(h, g.rows, g.cols);
      SumZero(ColumnSum(h, g.rows), g.cols);
      SumZero(RowSum(e, g.cols), g.rows);
    }
    hide LayerTotals;
    SumZero(LayerTotals(g, NorthSouth(g, v)), |g.layers|);
    SumZero(LayerTotals(g, EastWest(g, v)), |g.layers|);
  }

  /** Flow into layer n from the next one down. */
  ghost function Upward(g: Grid, v: Field): Field
    requires g.Positive()
  {
    (n, i, j) => if 0 <= n < |g.layers| then Times(Quotient(1.0, g.layers[n].rz), v(n + 1, i, j) - v(n, i, j)) else 0.0
  }

  lemma {:induction false} LayerTotalSame(a: Field, m: int, b: Field, n: int, rows: nat, cols: nat)
    requires forall i, j | 0 <= i < rows && 0 <= j < cols :: a(m, i, j) == b(n, i, j)
    ensures LayerTotal(a, m, rows, cols) == LayerTotal(b, n, rows, cols)
  {
    forall i | 0 <= i < rows ensures RowSum(LayerOf(a, m), cols)(i) == RowSum(LayerOf(b, n), cols)(i) {
      var x: int -> real := j => a(m, i, j);
      forall j | 0 <= j < cols ensures x(j) == LayerOf(b, n)(i, j) {
      }
      hide RowSum;
      RowSumIs(LayerOf(a, m), i, x, cols);
      RowSumIs(LayerOf(b, n), i, x, cols);
    }
    hide RowSum;
    SumSame(RowSum(LayerOf(a, m), cols), RowSum(LayerOf(b, n), cols), rows);
  }

  lemma {:induction false} LayerTotalZero(a: Field, n: int, rows: nat, cols: nat)
    requires forall i, j | 0 <= i < rows && 0 <= j < cols :: a(n, i, j) == 0.0
    ensures LayerTotal(a, n, rows, cols) == 0.0
  {
    LayerTotalAdd(a, a, a, n, rows, cols);
  }

  lemma {:induction false} VerticalCell(g: Grid, v: Field, n: int, i: int, j: int)
    requires g.Positive() && g.Cell(n, i, j)
    ensures UpDown(g, v)(n, i, j) == (if n < |g.layers| - 1 then Upward(g, v)(n, i, j) else 0.0)
          - (if n > 0 then Upward(g, v)(n - 1, i, j) else 0.0)
  {
    hide Quotient, Times;
    var a, t, b := v(n - 1, i, j), v(n, i, j), v(n + 1, i, j);
    if n > 0 { TimesNegate(Quotient(1.0, g.layers[n-1].rz), t, a); }
    TimesLaws(a - t, 0.0, 0.0);
    TimesLaws(b - t, 0.0, 0.0);
  }

  /** The vertical flow of layer n is what comes up from below less what goes up. */
  lemma {:induction false} LayerUpDown(g: Grid, v: Field, n: int)
    requires g.Positive() && 0 <= n < |g.layers|
    ensures LayerTotal(UpDown(g, v), n, g.rows, g.cols)
         == (if n < |g.layers| - 1 then LayerTotal(Upward(g, v), n, g.rows, g.cols) else 0.0)
          - (if n > 0 then LayerTotal(Upward(g, v), n - 1, g.rows, g.cols) else 0.0)
  {
    hide UpDown, Upward, LayerTotal, Quotient, Times;
    var f, u := UpDown(g, v), Upward(g, v);
    var below: Field := (m, i, j) => if m < |g.layers| - 1 then u(m, i, j) else 0.0;
    var above: Field := (m, i, j) => if m > 0 then u(m - 1, i, j) else 0.0;
    forall i, j | 0 <= i < g.rows && 0 <= j < g.cols ensures below(n, i, j) == f(n, i, j) + above(n, i, j) {
      assert g.Cell(n, i, j);
      VerticalCell(g, v, n, i, j);
    }
    LayerTotalAdd(f, above, below, n, g.rows, g.cols);
    if n < |g.layers| - 1 {
      LayerTotalSame(below, n, u, n, g.rows, g.cols);
    } else {
      LayerTotalZero(below, n, g.rows, g.cols);
    }
    if n > 0 {
      LayerTotalSame(above, n, u, n - 1, g.rows, g.cols);
    } else {
      LayerTotalZero(above, n, g.rows, g.cols);
    }
  }

  lemma {:induction false} VerticalFlowCancels(g: Grid, v: Field)
    requires g.Positive()
    ensures Total(g, UpDown(g, v)) == 0.0
  {
    var f, s := LayerTotals(g, UpDown(g, v)), LayerTotals(g, Upward(g, v));
    forall n | 0 <= n < |g.layers|
      ensures f(n) == NetFlow(s, |g.layers|, n)
    {
      LayerUpDown(g, v, n);
      hide LayerTotal, UpDown, Upward;
    }
    FlowsCancel(f, s, |g.layers|, |g.layers|);
  }

  lemma {:induction false} ResidualParts(g: Grid, p: Field, v: Field, n: int, i: int, j: int)
    requires g.Positive() && g.Cell(n, i, j)
    ensures Residuals(g, p, v)(n, i, j) == NorthSouth(g, v)(n, i, j) + EastWest(g, v)(n, i, j) + UpDown(g, v)(n, i, j)
                                         + p(n, i, j) + FromAmbient(g, v)(n, i, j)
  {
    hide Times, Quotient, North, South, East, West, Above, Below, Sink, Grid.Positive;
    assert FromAmbient(g, v)(n, i, j) == Times(Sink(g, n, i, j), g.ambient - v(n, i, j));
    assert Residuals(g, p, v)(n, i, j) == Residual(g, p, v, n, i, j);
    assert NorthSouth(g, v)(n, i, j) == NorthSouthFlow(g, v, n, i, j);
    assert EastWest(g, v)(n, i, j) == EastWestFlow(g, v, n, i, j);
    assert UpDown(g, v)(n, i, j) == UpDownFlow(g, v, n, i, j);
    hide NorthSouth, EastWest, UpDown, FromAmbient, Residuals;
  }

  /** Over the whole grid the residuals add up to the power plus the inflow from the
      ambient: every internal flow is counted once each way. */
  lemma {:induction false} ResidualsTotal(g: Grid, p: Field, v: Field)
    requires g.Positive()
    ensures Total(g, Residuals(g, p, v)) == Total(g, p) + Total(g, FromAmbient(g, v))
  {
    var lateral: Field := (n, i, j) => NorthSouth(g, v)(n, i, j) + EastWest(g, v)(n, i, j);
    var internal: Field := (n, i, j) => lateral(n, i, j) + UpDown(g, v)(n, i, j);
    var external: Field := (n, i, j) => p(n, i, j) + FromAmbient(g, v)(n, i, j);
    forall n, i, j | g.Cell(n, i, j) ensures Residuals(g, p, v)(n, i, j) == internal(n, i, j) + external(n, i, j) {
      ResidualParts(g, p, v, n, i, j);
      hide Residual, NorthSouth, EastWest, UpDown, FromAmbient, Residuals;
    }
    LateralFlowCancels(g, v);
    VerticalFlowCancels(g, v);
    hide Total, NorthSouth, EastWest, UpDown, FromAmbient, Residuals;
    TotalAdd(g, NorthSouth(g, v), EastWest(g, v), lateral);
    TotalAdd(g, lateral, UpDown(g, v), internal);
    TotalAdd(g, p, FromAmbient(g, v), external);
    TotalAdd(g, internal, external, Residuals(g, p, v));
  }

  // ---- the slope ----

  ghost predicate SlopeCell(g: Grid, p: Field, v: Field, dv: Field, n: int, i: int, j: int)
    requires g.Positive() && g.Cell(n, i, j)
  {
    Times(g.layers[n].c, dv(n, i, j)) == Residual(g, p, v, n, i, j)
  }

  ghost predicate IsSlope(g: Grid, p: Field, v: Field, dv: Field)
    requires g.Positive()
  {
    forall n, i, j | g.Cell(n, i, j) :: SlopeCell(g, p, v, dv, n, i, j)
  }

  /** Heat stored per unit of time. */
  ghost function Stored(g: Grid, dv: Field): Field {
    (n, i, j) => if 0 <= n < |g.layers| then Times(g.layers[n].c, dv(n, i, j)) else 0.0
  }

  /** Energy balance: capacitance times slope, over all cells, is the total power plus
      what comes in from the ambient. */
  lemma {:induction false} EnergyBalance(g: Grid, p: Field, v: Field, dv: Field)
    requires g.Positive() && IsSlope(g, p, v, dv)
    ensures Total(g, Stored(g, dv)) == Total(g, p) + Total(g, FromAmbient(g, v))
  {
    ResidualsTotal(g, p, v);
    var zero: Field := (n, i, j) => 0.0;
    forall n, i, j | g.Cell(n, i, j) ensures Stored(g, dv)(n, i, j) == Residuals(g, p, v)(n, i, j) + zero(n, i, j) {
      assert SlopeCell(g, p, v, dv, n, i, j);
      hide Times, Residual;
    }
    forall n, i, j | g.Cell(n, i, j) ensures zero(n, i, j) == zero(n, i, j) + zero(n, i, j) {
    }
    hide Total, Stored, Residuals, FromAmbient;
    TotalAdd(g, zero, zero, zero);
    TotalAdd(g, Residuals(g, p, v), zero, Stored(g, dv));
  }

  /** The slope vanishes exactly on the solutions of the steady-state equations. */
  lemma {:induction false} SlopeZeroIffSteady(g: Grid, p: Field, v: Field, dv: Field)
    requires g.Positive() && IsSlope(g, p, v, dv) && forall n | 0 <= n < |g.layers| :: g.layers[n].c > 0.0
    ensures Steady(g, p, v) <==> forall n, i, j | g.Cell(n, i, j) :: dv(n, i, j) == 0.0
  {
    forall n, i, j | g.Cell(n, i, j) ensures Balanced(g, p, v, n, i, j) <==> dv(n, i, j) == 0.0 {
      assert SlopeCell(g, p, v, dv, n, i, j);
      hide Residual;
      if Balanced(g, p, v, n, i, j) {
        ProductZero(g.layers[n].c, dv(n, i, j));
      }
    }
    hide Residual;
  }

  ghost predicate SlopedTo(g: Grid, p: Field, v: Field, dv: Field, n0: int, i0: int, j0: int)
    requires g.Positive()
  {
    forall n, i, j | g.Cell(n, i, j) && Before(n, i, j, n0, i0, j0) :: SlopeCell(g, p, v, dv, n, i, j)
  }

  lemma {:induction false} SlopeStep(g: Grid, p: Field, v: Field, d: Field, d': Field, n: int, i: int, j: int)
    requires g.Positive() && g.Cell(n, i, j) && SlopedTo(g, p, v, d, n, i, j) && SlopeCell(g, p, v, d', n, i, j)
    requires forall m, r, c | !(m == n && r == i && c == j) :: d'(m, r, c) == d(m, r, c)
    ensures SlopedTo(g, p, v, d', n, i, j + 1)
  {
    hide Residual;
    forall m, r, c | g.Cell(m, r, c) && Before(m, r, c, n, i, j + 1) ensures SlopeCell(g, p, v, d', m, r, c) {
      if Before(m, r, c, n, i, j) {
        assert SlopeCell(g, p, v, d, m, r, c);
      }
    }
  }

  lemma {:induction false} SlopeWrap(g: Grid, p: Field, v: Field, d: Field, n: int, i: int)
    requires g.Positive()
    ensures SlopedTo(g, p, v, d, n, i, g.cols) ==> SlopedTo(g, p, v, d, n, i + 1, 0)
    ensures SlopedTo(g, p, v, d, n, g.rows, 0) ==> SlopedTo(g, p, v, d, n + 1, 0, 0)
    ensures SlopedTo(g, p, v, d, 0, 0, 0)
    ensures SlopedTo(g, p, v, d, |g.layers|, 0, 0) ==> IsSlope(g, p, v, d)
  {
    hide SlopeCell;
  }

  /** The sum of the flows into a cell. */
  method Inflow(g: Grid, v: array3<real>, ghost p: Field, n: int, i: int, j: int) returns (psum: real)
    requires g.Positive() && g.Cell(n, i, j) && Fits(g, v)
    ensures p(n, i, j) + psum == Residual(g, p, FieldOf(v), n, i, j)
  {
    hide *;
    CellInRange(g, v, n, i, j);
    EdgeConductances(g, n, i, j);
    var t := v[n, i, j];
    var np := FlowFrom(v, i > 0, North(g, n, i, j), n, i - 1, j, t);
    var sp := FlowFrom(v, i < g.rows - 1, South(g, n, i, j), n, i + 1, j, t);
    var ep := FlowFrom(v, j < g.cols - 1, East(g, n, i, j), n, i, j + 1, t);
    var wp := FlowFrom(v, j > 0, West(g, n, i, j), n, i, j - 1, t);
    var ap := FlowFrom(v, n > 0, Above(g, n, i, j), n - 1, i, j, t);
    var bp := FlowFrom(v, n < |g.layers| - 1, Below(g, n, i, j), n + 1, i, j, t);
    OneFlow(n == |g.layers| - 1, Sink(g, n, i, j), g.ambient - t);
    var sink := if n == |g.layers| - 1 then Times(Sink(g, n, i, j), g.ambient - t) else 0.0;
    ResidualIs(g, p, FieldOf(v), n, i, j, t);
    psum := np + sp + ep + wp + ap + bp + sink;
  }

  lemma {:induction false} CellInRange(g: Grid, v: array3<real>, n: int, i: int, j: int)
    requires g.Cell(n, i, j) && Fits(g, v)
    ensures 0 <= n < v.Length0 == |g.layers| && 0 <= i < v.Length1 == g.rows && 0 <= j < v.Length2 == g.cols
    ensures FieldOf(v)(n, i, j) == v[n, i, j]
  {
  }

  lemma {:induction false} EdgeConductances(g: Grid, n: int, i: int, j: int)
    requires g.Positive() && g.Cell(n, i, j)
    ensures (i == 0 ==> North(g, n, i, j) == 0.0) && (i == g.rows - 1 ==> South(g, n, i, j) == 0.0)
    ensures (j == 0 ==> West(g, n, i, j) == 0.0) && (j == g.cols - 1 ==> East(g, n, i, j) == 0.0)
    ensures (n == 0 ==> Above(g, n, i, j) == 0.0) && (n == |g.layers| - 1 ==> Below(g, n, i, j) == 0.0)
    ensures n != |g.layers| - 1 ==> Sink(g, n, i, j) == 0.0
  {
  }

  lemma {:induction false} ResidualIs(g: Grid, p: Field, v: Field, n: int, i: int, j: int, t: real)
    requires g.Positive() && g.Cell(n, i, j) && t == v(n, i, j)
    ensures Residual(g, p, v, n, i, j) == p(n, i, j)
      + Times(North(g, n, i, j), v(n, i - 1, j) - t) + Times(South(g, n, i, j), v(n, i + 1, j) - t)
      + Times(East(g, n, i, j), v(n, i, j + 1) - t) + Times(West(g, n, i, j), v(n, i, j - 1) - t)
      + Times(Above(g, n, i, j), v(n - 1, i, j) - t) + Times(Below(g, n, i, j), v(n + 1, i, j) - t)
      + Times(Sink(g, n, i, j), g.ambient - t)
  {
    hide North, South, East, West, Above, Below, Sink, Times;
  }

  /** Flow from a neighbour, none if there is none. */
  method FlowFrom(v: array3<real>, there: bool, c: real, n: int, i: int, j: int, t: real) returns (flow: real)
    requires there ==> 0 <= n < v.Length0 && 0 <= i < v.Length1 && 0 <= j < v.Length2
    requires !there ==> c == 0.0
    ensures flow == Times(c, FieldOf(v)(n, i, j) - t)
  {
    hide Times;
    OneFlow(there, c, FieldOf(v)(n, i, j) - t);
    flow := if there then Times(c, v[n, i, j] - t) else 0.0;
  }

  /** Where there is no neighbour there is no conductance. */
  lemma {:induction false} OneFlow(there: bool, c: real, d: real)
    requires !there ==> c == 0.0
    ensures (if there then Times(c, d) else 0.0) == Times(c, d)
  {
  }

  method SlopeOfCell(g: Grid, v: array3<real>, p: array3<real>, dv: array3<real>, n: int, i: int, j: int)
    requires g.Positive() && g.Cell(n, i, j) && g.layers[n].c != 0.0
    requires Fits(g, v) && Fits(g, p) && Fits(g, dv) && dv != v && dv != p
    modifies dv
    ensures SlopeCell(g, FieldOf(p), FieldOf(v), FieldOf(dv), n, i, j)
    ensures forall m, r, c | !(m == n && r == i && c == j) :: FieldOf(dv)(m, r, c) == old(FieldOf(dv))(m, r, c)
  {
    hide Residual, Quotient, Times;
    var psum := Inflow(g, v, FieldOf(p), n, i, j);
    QuotientTimes(p[n, i, j] + psum, g.layers[n].c);
    dv[n, i, j] := Quotient(p[n, i, j] + psum, g.layers[n].c);
  }

  method SlopeFnGrid(g: Grid, v: array3<real>, p: array3<real>, dv: array3<real>)
    requires g.Positive() && forall n | 0 <= n < |g.layers| :: g.layers[n].c != 0.0
    requires Fits(g, v) && Fits(g, p) && Fits(g, dv) && dv != v && dv != p
    modifies dv
    ensures IsSlope(g, FieldOf(p), FieldOf(v), FieldOf(dv))
  {
    ghost var f, q := FieldOf(v), FieldOf(p);
    hide FieldOf, SlopeCell, SlopedTo, IsSlope;
    SlopeWrap(g, q, f, FieldOf(dv), 0, 0);
    for n := 0 to |g.layers|
      invariant FieldOf(v) == f && FieldOf(p) == q && SlopedTo(g, q, f, FieldOf(dv), n, 0, 0)
    {
      for i := 0 to g.rows
        invariant FieldOf(v) == f && FieldOf(p) == q && SlopedTo(g, q, f, FieldOf(dv), n, i, 0)
      {
        for j := 0 to g.cols
          invariant FieldOf(v) == f && FieldOf(p) == q && SlopedTo(g, q, f, FieldOf(dv), n, i, j)
        {
          ghost var d := FieldOf(dv);
          SlopeOfCell(g, v, p, dv, n, i, j);
          SlopeStep(g, q, f, d, FieldOf(dv), n, i, j);
        }
        SlopeWrap(g, q, f, FieldOf(dv), n, i);
      }
      SlopeWrap(g, q, f, FieldOf(dv), n, 0);
    }
    SlopeWrap(g, q, f, FieldOf(dv), 0, 0);
  }
}
