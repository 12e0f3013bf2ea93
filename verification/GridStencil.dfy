/** The layered grid without package nodes: the steady-state balance of a cell, the
    in-place Gauss-Seidel sweep, and what sweeps from the ambient temperature keep. */
module GridStencil {
  import opened Sums

  type Field = (int, int, int) -> real

  datatype Layer = Layer(rx: real, ry: real, rz: real, c: real)

  /** Sizes, layer constants and the ambient temperature. */
  datatype Grid = Grid(rows: nat, cols: nat, layers: seq<Layer>, ambient: real) {
    predicate Positive() {
      forall n | 0 <= n < |layers| :: layers[n].rx > 0.0 && layers[n].ry > 0.0 && layers[n].rz > 0.0
    }

    predicate Cell(n: int, i: int, j: int) {
      0 <= n < |layers| && 0 <= i < rows && 0 <= j < cols
    }
  }

  /** Conductances to the six neighbours; zero across the boundary. */
  function North(g: Grid, n: int, i: int, j: int): real
    requires g.Positive() && g.Cell(n, i, j)
  {
    if i > 0 then Quotient(1.0, g.layers[n].ry) else 0.0
  }

  function South(g: Grid, n: int, i: int, j: int): real
    requires g.Positive() && g.Cell(n, i, j)
  {
    if i < g.rows - 1 then Quotient(1.0, g.layers[n].ry) else 0.0
  }

  function East(g: Grid, n: int, i: int, j: int): real
    requires g.Positive() && g.Cell(n, i, j)
  {
    if j < g.cols - 1 then Quotient(1.0, g.layers[n].rx) else 0.0
  }

  function West(g: Grid, n: int, i: int, j: int): real
    requires g.Positive() && g.Cell(n, i, j)
  {
    if j > 0 then Quotient(1.0, g.layers[n].rx) else 0.0
  }

  function Below(g: Grid, n: int, i: int, j: int): real
    requires g.Positive() && g.Cell(n, i, j)
  {
    if n < |g.layers| - 1 then Quotient(1.0, g.layers[n].rz) else 0.0
  }

  function Above(g: Grid, n: int, i: int, j: int): real
    requires g.Positive() && g.Cell(n, i, j)
  {
    if n > 0 then Quotient(1.0, g.layers[n-1].rz) else 0.0
  }

  /** The last layer is also connected to the ambient. */
  function Sink(g: Grid, n: int, i: int, j: int): real
    requires g.Positive() && g.Cell(n, i, j)
  {
    if n == |g.layers| - 1 then Quotient(1.0, g.layers[n].rz) else 0.0
  }

  function ConductanceSum(g: Grid, n: int, i: int, j: int): real
    requires g.Positive() && g.Cell(n, i, j)
  {
    North(g, n, i, j) + South(g, n, i, j) + East(g, n, i, j) + West(g, n, i, j)
    + Above(g, n, i, j) + Below(g, n, i, j) + Sink(g, n, i, j)
  }

  /** Neighbour temperatures weighted by conductance. The neighbours a sweep visits
      before the cell are read from e, the others from l. */
  ghost function WeightedSum(g: Grid, e: Field, l: Field, n: int, i: int, j: int): real
    requires g.Positive() && g.Cell(n, i, j)
  {
    Times(North(g, n, i, j), e(n, i - 1, j)) + Times(South(g, n, i, j), l(n, i + 1, j))
    + Times(East(g, n, i, j), l(n, i, j + 1)) + Times(West(g, n, i, j), e(n, i, j - 1))
    + Times(Above(g, n, i, j), e(n - 1, i, j)) + Times(Below(g, n, i, j), l(n + 1, i, j))
    + Times(Sink(g, n, i, j), g.ambient)
  }

  lemma {:induction false} Conductances(g: Grid, n: int, i: int, j: int)
    requires g.Positive() && g.Cell(n, i, j)
    ensures North(g, n, i, j) >= 0.0 && South(g, n, i, j) >= 0.0 && East(g, n, i, j) >= 0.0
    ensures West(g, n, i, j) >= 0.0 && Above(g, n, i, j) >= 0.0 && Below(g, n, i, j) >= 0.0
    ensures Sink(g, n, i, j) >= 0.0 && ConductanceSum(g, n, i, j) > 0.0
    ensures (if n == |g.layers| - 1 then Sink(g, n, i, j) else Below(g, n, i, j)) > 0.0
  {
    InversePositive(g.layers[n].rx);
    InversePositive(g.layers[n].ry);
    InversePositive(g.layers[n].rz);
    if n > 0 { InversePositive(g.layers[n-1].rz); }
  }

  /** One sweep over all cells in order: every cell is set from neighbours already
      updated (above, north, west) and not yet updated (below, south, east). */
  ghost predicate IsSweep(g: Grid, p: Field, v: Field, v': Field)
    requires g.Positive()
  {
    forall n, i, j | g.Cell(n, i, j) :: Updated(g, p, v, v', n, i, j)
  }

  ghost predicate Updated(g: Grid, p: Field, v: Field, v': Field, n: int, i: int, j: int)
    requires g.Positive() && g.Cell(n, i, j)
  {
    Times(ConductanceSum(g, n, i, j), v'(n, i, j)) == p(n, i, j) + WeightedSum(g, v', v, n, i, j)
  }

  /** The steady-state equations: every cell's inflow balances. */
  ghost predicate Steady(g: Grid, p: Field, v: Field)
    requires g.Positive()
  {
    forall n, i, j | g.Cell(n, i, j) :: Balanced(g, p, v, n, i, j)
  }

  /** Power plus all inflows from the neighbours and the ambient. */
  ghost function Residual(g: Grid, p: Field, v: Field, n: int, i: int, j: int): real
    requires g.Positive() && g.Cell(n, i, j)
  {
    p(n, i, j)
      + Times(North(g, n, i, j), v(n, i - 1, j) - v(n, i, j)) + Times(South(g, n, i, j), v(n, i + 1, j) - v(n, i, j))
      + Times(East(g, n, i, j), v(n, i, j + 1) - v(n, i, j)) + Times(West(g, n, i, j), v(n, i, j - 1) - v(n, i, j))
      + Times(Above(g, n, i, j), v(n - 1, i, j) - v(n, i, j)) + Times(Below(g, n, i, j), v(n + 1, i, j) - v(n, i, j))
      + Times(Sink(g, n, i, j), g.ambient - v(n, i, j))
  }

  ghost predicate Balanced(g: Grid, p: Field, v: Field, n: int, i: int, j: int)
    requires g.Positive() && g.Cell(n, i, j)
  {
    Residual(g, p, v, n, i, j) == 0.0
  }

  ghost predicate AtMost(g: Grid, u: Field, v: Field) {
    forall n, i, j | g.Cell(n, i, j) :: u(n, i, j) <= v(n, i, j)
  }

  ghost function Uniform(t: real): Field {
    (n, i, j) => t
  }

  lemma {:induction false} TimesMonotone(a: real, x: real, y: real)
    requires a >= 0.0 && x <= y
    ensures Times(a, x) <= Times(a, y)
  {
    assert a * (y - x) >= 0.0;
  }

  lemma {:induction false} TimesCancel(a: real, x: real, y: real)
    requires a > 0.0 && Times(a, x) <= Times(a, y)
    ensures x <= y
  {
    if x > y {
      ProductPositive(a, x - y);
    }
  }

  /** A field is left alone by a sweep exactly when it solves the balance equations. */
  lemma {:induction false} FixedPointIffSteady(g: Grid, p: Field, v: Field)
    requires g.Positive()
    ensures IsSweep(g, p, v, v) <==> Steady(g, p, v)
  {
    forall n, i, j | g.Cell(n, i, j) ensures Updated(g, p, v, v, n, i, j) <==> Balanced(g, p, v, n, i, j) {
      var t := v(n, i, j);
      hide Times, North, South, East, West, Above, Below, Sink;
      TimesLaws(North(g, n, i, j), v(n, i - 1, j), t);
      TimesLaws(South(g, n, i, j), v(n, i + 1, j), t);
      TimesLaws(East(g, n, i, j), v(n, i, j + 1), t);
      TimesLaws(West(g, n, i, j), v(n, i, j - 1), t);
      TimesLaws(Above(g, n, i, j), v(n - 1, i, j), t);
      TimesLaws(Below(g, n, i, j), v(n + 1, i, j), t);
      TimesLaws(Sink(g, n, i, j), g.ambient, t);
      SumTimes(North(g, n, i, j), South(g, n, i, j), East(g, n, i, j), West(g, n, i, j),
               Above(g, n, i, j), Below(g, n, i, j), Sink(g, n, i, j), t);
    }
  }

  lemma {:induction false} SumTimes(a: real, b: real, c: real, d: real, e: real, f: real, h: real, t: real)
    ensures Times(a + b + c + d + e + f + h, t)
         == Times(a, t) + Times(b, t) + Times(c, t) + Times(d, t) + Times(e, t) + Times(f, t) + Times(h, t)
  {
  }

  /** Cell by cell in sweep order: more power and warmer temperatures give a warmer sweep. */
  lemma {:induction false} CellMonotone(g: Grid, p: Field, q: Field, u: Field, v: Field, u': Field, v': Field, n: int, i: int, j: int)
    requires g.Positive() && g.Cell(n, i, j) && AtMost(g, p, q) && AtMost(g, u, v)
    requires IsSweep(g, p, u, u') && IsSweep(g, q, v, v')
    ensures u'(n, i, j) <= v'(n, i, j)
    decreases n, i, j
  {
    assert Updated(g, p, u, u', n, i, j) && Updated(g, q, v, v', n, i, j);
    if i > 0 { CellMonotone(g, p, q, u, v, u', v', n, i - 1, j); }
    if j > 0 { CellMonotone(g, p, q, u, v, u', v', n, i, j - 1); }
    if n > 0 { CellMonotone(g, p, q, u, v, u', v', n - 1, i, j); }
    Conductances(g, n, i, j);
    WeightedMonotone(g, u', u, v', v, n, i, j);
    hide WeightedSum, ConductanceSum, Times;
    TimesCancel(ConductanceSum(g, n, i, j), u'(n, i, j), v'(n, i, j));
  }

  lemma {:induction false} WeightedMonotone(g: Grid, e: Field, l: Field, e': Field, l': Field, n: int, i: int, j: int)
    requires g.Positive() && g.Cell(n, i, j) && AtMost(g, l, l')
    requires i > 0 ==> e(n, i - 1, j) <= e'(n, i - 1, j)
    requires j > 0 ==> e(n, i, j - 1) <= e'(n, i, j - 1)
    requires n > 0 ==> e(n - 1, i, j) <= e'(n - 1, i, j)
    ensures WeightedSum(g, e, l, n, i, j) <= WeightedSum(g, e', l', n, i, j)
  {
    Conductances(g, n, i, j);
    TermMonotone(North(g, n, i, j), e(n, i - 1, j), e'(n, i - 1, j));
    TermMonotone(South(g, n, i, j), l(n, i + 1, j), l'(n, i + 1, j));
    TermMonotone(East(g, n, i, j), l(n, i, j + 1), l'(n, i, j + 1));
    TermMonotone(West(g, n, i, j), e(n, i, j - 1), e'(n, i, j - 1));
    TermMonotone(Above(g, n, i, j), e(n - 1, i, j), e'(n - 1, i, j));
    TermMonotone(Below(g, n, i, j), l(n + 1, i, j), l'(n + 1, i, j));
  }

  lemma {:induction false} TermMonotone(a: real, x: real, y: real)
    requires a >= 0.0 && (a == 0.0 || x <= y)
    ensures Times(a, x) <= Times(a, y)
  {
    if a > 0.0 { TimesMonotone(a, x, y); }
  }

  /** The sweep is monotone in the power and in the temperatures it starts from. */
  lemma {:induction false} SweepMonotone(g: Grid, p: Field, q: Field, u: Field, v: Field, u': Field, v': Field)
    requires g.Positive() && AtMost(g, p, q) && AtMost(g, u, v)
    requires IsSweep(g, p, u, u') && IsSweep(g, q, v, v')
    ensures AtMost(g, u', v')
  {
    forall n, i, j | g.Cell(n, i, j) ensures u'(n, i, j) <= v'(n, i, j) {
      CellMonotone(g, p, q, u, v, u', v', n, i, j);
    }
  }

  /** Without power the uniform ambient temperature does not change. */
  lemma {:induction false} AmbientFixed(g: Grid)
    requires g.Positive()
    ensures IsSweep(g, Uniform(0.0), Uniform(g.ambient), Uniform(g.ambient))
  {
    var v := Uniform(g.ambient);
    hide Balanced, Uniform;
    forall n, i, j | g.Cell(n, i, j) ensures Balanced(g, Uniform(0.0), v, n, i, j) { AmbientBalanced(g, n, i, j); }
    FixedPointIffSteady(g, Uniform(0.0), v);
  }

  lemma {:induction false} AmbientBalanced(g: Grid, n: int, i: int, j: int)
    requires g.Positive() && g.Cell(n, i, j)
    ensures Balanced(g, Uniform(0.0), Uniform(g.ambient), n, i, j)
  {
    hide Quotient;
  }

  /** Consecutive sweeps. */
  ghost predicate Sweeps(g: Grid, p: Field, vs: seq<Field>)
    requires g.Positive()
  {
    forall k | 0 <= k < |vs| - 1 :: IsSweep(g, p, vs[k], vs[k+1])
  }

  // ---- no steady temperature lies below ambient ----

  ghost predicate Coldest(g: Grid, v: Field, n: int, i: int, j: int) {
    g.Cell(n, i, j) && forall m, r, c | g.Cell(m, r, c) :: v(n, i, j) <= v(m, r, c)
  }

  /** The coldest cell among layers below n0, and in layer n0 rows below i0, and in that
      row columns below j0. */
  lemma {:induction false} SomeColdest(g: Grid, v: Field, n0: nat, i0: nat, j0: nat) returns (n: int, i: int, j: int)
    requires n0 <= |g.layers| && i0 <= g.rows && j0 <= g.cols && g.rows > 0 && g.cols > 0
    requires n0 == |g.layers| ==> i0 == j0 == 0
    requires i0 == g.rows ==> j0 == 0
    requires n0 + i0 + j0 > 0
    ensures g.Cell(n, i, j)
    ensures forall m, r, c | g.Cell(m, r, c) && (m < n0 || (m == n0 && (r < i0 || (r == i0 && c < j0)))) ::
        v(n, i, j) <= v(m, r, c)
    decreases n0, i0, j0
  {
    var n1, i1, j1 := n0, i0, j0;
    if j0 > 0 { j1 := j0 - 1; }
    else if i0 > 0 { i1, j1 := i0 - 1, g.cols - 1; }
    else { n1, i1, j1 := n0 - 1, g.rows - 1, g.cols - 1; }
    n, i, j := n1, i1, j1;
    if n1 + i1 + j1 > 0 {
      var a, b, c := SomeColdest(g, v, n1, i1, j1);
      if v(a, b, c) <= v(n1, i1, j1) { n, i, j := a, b, c; }
    }
  }

  lemma {:induction false} InflowSign(a: real, d: real)
    requires a >= 0.0 && (a == 0.0 || d >= 0.0)
    ensures Times(a, d) >= 0.0 && (Times(a, d) == 0.0 ==> a == 0.0 || d == 0.0)
  {
    if a > 0.0 && d > 0.0 { ProductPositive(a, d); }
  }

  /** A coldest cell below ambient is not in the last layer, and the cell below it is
      as cold. */
  lemma {:induction false} ColdSinks(g: Grid, p: Field, v: Field, n: int, i: int, j: int)
    requires g.Positive() && Steady(g, p, v) && Coldest(g, v, n, i, j)
    requires p(n, i, j) >= 0.0 && v(n, i, j) < g.ambient
    ensures n < |g.layers| - 1 && v(n + 1, i, j) == v(n, i, j)
  {
    var t := v(n, i, j);
    assert Balanced(g, p, v, n, i, j);
    Conductances(g, n, i, j);
    InflowSign(North(g, n, i, j), v(n, i - 1, j) - t);
    InflowSign(South(g, n, i, j), v(n, i + 1, j) - t);
    InflowSign(East(g, n, i, j), v(n, i, j + 1) - t);
    InflowSign(West(g, n, i, j), v(n, i, j - 1) - t);
    InflowSign(Above(g, n, i, j), v(n - 1, i, j) - t);
    InflowSign(Below(g, n, i, j), v(n + 1, i, j) - t);
    InflowSign(Sink(g, n, i, j), g.ambient - t);
  }

  lemma {:induction false} ColdestNotBelowAmbient(g: Grid, p: Field, v: Field, n: int, i: int, j: int)
    requires g.Positive() && Steady(g, p, v) && Coldest(g, v, n, i, j) && AtMost(g, Uniform(0.0), p)
    ensures v(n, i, j) >= g.ambient
    decreases |g.layers| - n
  {
    if v(n, i, j) < g.ambient {
      assert Uniform(0.0)(n, i, j) <= p(n, i, j);
      ColdSinks(g, p, v, n, i, j);
      ColdestNotBelowAmbient(g, p, v, n + 1, i, j);
    }
  }

  /** Nonnegative power: every steady field is at or above the ambient temperature. */
  lemma {:induction false} SteadyAboveAmbient(g: Grid, p: Field, v: Field)
    requires g.Positive() && Steady(g, p, v) && AtMost(g, Uniform(0.0), p)
    ensures AtMost(g, Uniform(g.ambient), v)
  {
    if |g.layers| > 0 && g.rows > 0 && g.cols > 0 {
      var n, i, j := SomeColdest(g, v, |g.layers|, 0, 0);
      assert Coldest(g, v, n, i, j);
      ColdestNotBelowAmbient(g, p, v, n, i, j);
    }
  }

  /** Two steady fields for the same power agree on every cell: there is at most one
      solution. */
  lemma {:induction false} SteadyUnique(g: Grid, p: Field, u: Field, v: Field)
    requires g.Positive() && Steady(g, p, u) && Steady(g, p, v)
    ensures forall n, i, j | g.Cell(n, i, j) :: u(n, i, j) == v(n, i, j)
  {
    hide Steady;
    SteadyBelow(g, p, u, v);
    SteadyBelow(g, p, v, u);
  }

  lemma {:induction false} SteadyBelow(g: Grid, p: Field, u: Field, v: Field)
    requires g.Positive() && Steady(g, p, u) && Steady(g, p, v)
    ensures AtMost(g, u, v)
  {
    var d: Field := (n, i, j) => v(n, i, j) - u(n, i, j) + g.ambient;
    forall n, i, j | g.Cell(n, i, j) ensures Balanced(g, Uniform(0.0), d, n, i, j) {
      assert Balanced(g, p, u, n, i, j) && Balanced(g, p, v, n, i, j);
      DifferenceBalanced(g, p, u, v, d, n, i, j);
    }
    SteadyAboveAmbient(g, Uniform(0.0), d);
    forall n, i, j | g.Cell(n, i, j) ensures u(n, i, j) <= v(n, i, j) {
      assert Uniform(g.ambient)(n, i, j) <= d(n, i, j);
    }
  }

  lemma {:induction false} DifferenceBalanced(g: Grid, p: Field, u: Field, v: Field, d: Field, n: int, i: int, j: int)
    requires g.Positive() && g.Cell(n, i, j) && Balanced(g, p, u, n, i, j) && Balanced(g, p, v, n, i, j)
    requires forall m, r, c :: d(m, r, c) == v(m, r, c) - u(m, r, c) + g.ambient
    ensures Balanced(g, Uniform(0.0), d, n, i, j)
  {
    hide Times, North, South, East, West, Above, Below, Sink;
    TimesLaws(North(g, n, i, j), v(n, i - 1, j) - v(n, i, j), u(n, i - 1, j) - u(n, i, j));
    TimesLaws(South(g, n, i, j), v(n, i + 1, j) - v(n, i, j), u(n, i + 1, j) - u(n, i, j));
    TimesLaws(East(g, n, i, j), v(n, i, j + 1) - v(n, i, j), u(n, i, j + 1) - u(n, i, j));
    TimesLaws(West(g, n, i, j), v(n, i, j - 1) - v(n, i, j), u(n, i, j - 1) - u(n, i, j));
    TimesLaws(Above(g, n, i, j), v(n - 1, i, j) - v(n, i, j), u(n - 1, i, j) - u(n, i, j));
    TimesLaws(Below(g, n, i, j), v(n + 1, i, j) - v(n, i, j), u(n + 1, i, j) - u(n, i, j));
    TimesLaws(Sink(g, n, i, j), g.ambient - v(n, i, j), g.ambient - u(n, i, j));
  }

  /** Sweeps from the uniform ambient temperature with nonnegative power never lower a
      temperature and never go below ambient. */
  lemma {:induction false} SweepsRise(g: Grid, p: Field, vs: seq<Field>, k: nat)
    requires g.Positive() && AtMost(g, Uniform(0.0), p)
    requires Sweeps(g, p, vs) && k < |vs| && vs[0] == Uniform(g.ambient)
    ensures AtMost(g, Uniform(g.ambient), vs[k])
    ensures k + 1 < |vs| ==> AtMost(g, vs[k], vs[k+1])
  {
    hide IsSweep;
    if k == 0 {
      if |vs| > 1 {
        AmbientFixed(g);
        SweepMonotone(g, Uniform(0.0), p, vs[0], vs[0], vs[0], vs[1]);
      }
    } else {
      SweepsRise(g, p, vs, k - 1);
      if k + 1 < |vs| {
        SweepMonotone(g, p, p, vs[k-1], vs[k], vs[k], vs[k+1]);
      }
    }
  }

  /** Nor do they ever pass a steady field. */
  lemma {:induction false} SweepsBelowSteady(g: Grid, p: Field, vs: seq<Field>, t: Field, k: nat)
    requires g.Positive() && AtMost(g, Uniform(0.0), p)
    requires Sweeps(g, p, vs) && k < |vs| && vs[0] == Uniform(g.ambient) && Steady(g, p, t)
    ensures AtMost(g, vs[k], t)
  {
    hide IsSweep, Steady;
    FixedPointIffSteady(g, p, t);
    if k == 0 {
      SteadyAboveAmbient(g, p, t);
    } else {
      SweepsBelowSteady(g, p, vs, t, k - 1);
      SweepMonotone(g, p, p, vs[k-1], t, vs[k], t);
    }
  }
}
