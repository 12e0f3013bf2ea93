/** The steady-state solver without package nodes: the in-place sweep, the heuristic
    start, the transfers between grid sizes and nested iteration. */
module MobileGrid {
  import opened Sums
  import opened Numbers
  import opened Lup
  import opened GridStencil
  import opened GridMultigrid

  /** The values of a cuboid; zero outside it. */
  ghost function FieldOf(a: array3<real>): (f: Field)
    reads a
    ensures forall n, i, j | 0 <= n < a.Length0 && 0 <= i < a.Length1 && 0 <= j < a.Length2 :: f(n, i, j) == a[n, i, j]
    ensures forall n, i, j | !(0 <= n < a.Length0 && 0 <= i < a.Length1 && 0 <= j < a.Length2) :: f(n, i, j) == 0.0
  {
    var s := seq(a.Length0, n requires 0 <= n < a.Length0 reads a =>
               seq(a.Length1, i requires 0 <= i < a.Length1 reads a =>
                 seq(a.Length2, j requires 0 <= j < a.Length2 reads a => a[n, i, j])));
    (n, i, j) => if 0 <= n < |s| && 0 <= i < |s[n]| && 0 <= j < |s[n][i]| then s[n][i][j] else 0.0
  }

  predicate Fits(g: Grid, a: array3<real>) {
    a.Length0 == |g.layers| && a.Length1 == g.rows && a.Length2 == g.cols
  }

  // ---- one sweep ----

  ghost predicate Before(n: int, i: int, j: int, n0: int, i0: int, j0: int) {
    n < n0 || (n == n0 && (i < i0 || (i == i0 && j < j0)))
  }

  /** The cells before (n0, i0, j0) are swept, the others untouched. */
  ghost predicate SweptTo(g: Grid, p: Field, v0: Field, v: Field, n0: int, i0: int, j0: int)
    requires g.Positive()
  {
    forall n, i, j | g.Cell(n, i, j) :: SweptCell(g, p, v0, v, n0, i0, j0, n, i, j)
  }

  ghost predicate SweptCell(g: Grid, p: Field, v0: Field, v: Field, n0: int, i0: int, j0: int, n: int, i: int, j: int)
    requires g.Positive() && g.Cell(n, i, j)
  {
    if Before(n, i, j, n0, i0, j0) then Updated(g, p, v0, v, n, i, j) else v(n, i, j) == v0(n, i, j)
  }

  /** One cell solved for, all others kept. */
  ghost predicate CellSet(g: Grid, p: Field, v: Field, v': Field, n: int, i: int, j: int)
    requires g.Positive() && g.Cell(n, i, j)
  {
    && Times(ConductanceSum(g, n, i, j), v'(n, i, j)) == p(n, i, j) + WeightedSum(g, v, v, n, i, j)
    && forall m, r, c | !(m == n && r == i && c == j) :: v'(m, r, c) == v(m, r, c)
  }

  ghost predicate ChangedBy(g: Grid, u: Field, v: Field, d: real, n: int, i: int, j: int) {
    g.Cell(n, i, j) && Abs(u(n, i, j) - v(n, i, j)) == d
  }

  /** d is the largest change of a cell. */
  ghost predicate LargestChange(g: Grid, u: Field, v: Field, d: real) {
    && d >= 0.0 && ChangedAtMost(g, u, v, d)
    && (d > 0.0 ==> exists n, i, j :: ChangedBy(g, u, v, d, n, i, j))
  }

  lemma {:induction false} WeightedOf(g: Grid, e: Field, l: Field, v: Field, n: int, i: int, j: int)
    requires g.Positive() && g.Cell(n, i, j)
    requires i > 0 ==> v(n, i - 1, j) == e(n, i - 1, j)
    requires j > 0 ==> v(n, i, j - 1) == e(n, i, j - 1)
    requires n > 0 ==> v(n - 1, i, j) == e(n - 1, i, j)
    requires i < g.rows - 1 ==> v(n, i + 1, j) == l(n, i + 1, j)
    requires j < g.cols - 1 ==> v(n, i, j + 1) == l(n, i, j + 1)
    requires n < |g.layers| - 1 ==> v(n + 1, i, j) == l(n + 1, i, j)
    ensures WeightedSum(g, v, v, n, i, j) == WeightedSum(g, e, l, n, i, j)
  {
    hide Quotient;
  }

  lemma {:induction false} SweepStep(g: Grid, p: Field, v0: Field, v: Field, v': Field, n: int, i: int, j: int)
    requires g.Positive() && g.Cell(n, i, j)
    requires SweptTo(g, p, v0, v, n, i, j) && CellSet(g, p, v, v', n, i, j)
    ensures SweptTo(g, p, v0, v', n, i, j + 1)
  {
    forall m, r, c | g.Cell(m, r, c) ensures SweptCell(g, p, v0, v', n, i, j + 1, m, r, c) {
      if m == n && r == i && c == j {
        SweptNow(g, p, v0, v, v', n, i, j);
      } else {
        SweptBefore(g, p, v0, v, v', n, i, j, m, r, c);
      }
    }
  }

  /** The cell just set used new values of the earlier neighbours and old ones of the later. */
  lemma {:induction false} SweptNow(g: Grid, p: Field, v0: Field, v: Field, v': Field, n: int, i: int, j: int)
    requires g.Positive() && g.Cell(n, i, j)
    requires SweptTo(g, p, v0, v, n, i, j) && CellSet(g, p, v, v', n, i, j)
    ensures Updated(g, p, v0, v', n, i, j)
  {
    if i < g.rows - 1 { assert SweptCell(g, p, v0, v, n, i, j, n, i + 1, j); }
    if j < g.cols - 1 { assert SweptCell(g, p, v0, v, n, i, j, n, i, j + 1); }
    if n < |g.layers| - 1 { assert SweptCell(g, p, v0, v, n, i, j, n + 1, i, j); }
    hide SweptTo, ConductanceSum, Times, WeightedSum;
    WeightedOf(g, v', v0, v, n, i, j);
  }

  lemma {:induction false} SweptBefore(g: Grid, p: Field, v0: Field, v: Field, v': Field, n: int, i: int, j: int, m: int, r: int, c: int)
    requires g.Positive() && g.Cell(n, i, j) && g.Cell(m, r, c) && !(m == n && r == i && c == j)
    requires SweptCell(g, p, v0, v, n, i, j, m, r, c) && CellSet(g, p, v, v', n, i, j)
    ensures SweptCell(g, p, v0, v', n, i, j + 1, m, r, c)
  {
    hide ConductanceSum, Times, WeightedSum;
    if Before(m, r, c, n, i, j) {
      SweptKept(g, v0, v, v', m, r, c);
    }
  }

  /** What a swept cell was computed from is not touched again. */
  lemma {:induction false} SweptKept(g: Grid, v0: Field, v: Field, v': Field, m: int, r: int, c: int)
    requires g.Positive() && g.Cell(m, r, c)
    requires r > 0 ==> v'(m, r - 1, c) == v(m, r - 1, c)
    requires c > 0 ==> v'(m, r, c - 1) == v(m, r, c - 1)
    requires m > 0 ==> v'(m - 1, r, c) == v(m - 1, r, c)
    ensures WeightedSum(g, v', v0, m, r, c) == WeightedSum(g, v, v0, m, r, c)
  {
    hide Quotient;
  }

  lemma {:induction false} LargestStep(g: Grid, p: Field, v0: Field, v: Field, v': Field, n: int, i: int, j: int, d: real, d': real)
    requires g.Positive() && g.Cell(n, i, j) && v(n, i, j) == v0(n, i, j)
    requires CellSet(g, p, v, v', n, i, j) && LargestChange(g, v0, v, d)
    requires d' == (var e := Abs(v(n, i, j) - v'(n, i, j)); if e > d then e else d)
    ensures LargestChange(g, v0, v', d')
  {
    hide WeightedSum, ConductanceSum, Quotient, Times;
    if d' > 0.0 {
      if d' > d {
        assert ChangedBy(g, v0, v', d', n, i, j);
      } else {
        var m, r, c :| ChangedBy(g, v0, v, d, m, r, c);
        assert ChangedBy(g, v0, v', d, m, r, c);
      }
    }
  }

  /** Conductances to the six neighbours and their temperatures weighted by them. */
  method NeighbourSums(g: Grid, temp: array3<real>, n: int, i: int, j: int) returns (csum: real, wsum: real)
    requires g.Positive() && g.Cell(n, i, j) && Fits(g, temp)
    ensures csum == ConductanceSum(g, n, i, j) - Sink(g, n, i, j)
    ensures wsum == WeightedSum(g, FieldOf(temp), FieldOf(temp), n, i, j) - Times(Sink(g, n, i, j), g.ambient)
  {
    hide Quotient;
    csum := North(g, n, i, j) + South(g, n, i, j) + East(g, n, i, j) + West(g, n, i, j)
          + Above(g, n, i, j) + Below(g, n, i, j);
    var nt := if i > 0 then Times(North(g, n, i, j), temp[n, i - 1, j]) else 0.0;
    var st := if i < g.rows - 1 then Times(South(g, n, i, j), temp[n, i + 1, j]) else 0.0;
    var et := if j < g.cols - 1 then Times(East(g, n, i, j), temp[n, i, j + 1]) else 0.0;
    var wt := if j > 0 then Times(West(g, n, i, j), temp[n, i, j - 1]) else 0.0;
    var at := if n > 0 then Times(Above(g, n, i, j), temp[n - 1, i, j]) else 0.0;
    var bt := if n < |g.layers| - 1 then Times(Below(g, n, i, j), temp[n + 1, i, j]) else 0.0;
    ghost var v := FieldOf(temp);
    assert nt == Times(North(g, n, i, j), v(n, i - 1, j));
    assert st == Times(South(g, n, i, j), v(n, i + 1, j));
    assert et == Times(East(g, n, i, j), v(n, i, j + 1));
    assert wt == Times(West(g, n, i, j), v(n, i, j - 1));
    assert at == Times(Above(g, n, i, j), v(n - 1, i, j));
    assert bt == Times(Below(g, n, i, j), v(n + 1, i, j));
    hide North, South, East, West, Above, Below, Sink, Times, FieldOf;
    wsum := nt + st + et + wt + at + bt;
  }

  /** The body of the sweep: solves the balance of one cell for its temperature. */
  method UpdateCell(g: Grid, power: array3<real>, temp: array3<real>, n: int, i: int, j: int) returns (delta: real)
    requires g.Positive() && g.Cell(n, i, j) && Fits(g, power) && Fits(g, temp) && power != temp
    modifies temp
    ensures CellSet(g, FieldOf(power), old(FieldOf(temp)), FieldOf(temp), n, i, j)
    ensures delta == Abs(old(temp[n, i, j]) - temp[n, i, j])
  {
    ghost var v := FieldOf(temp);
    hide ConductanceSum, WeightedSum, Quotient, North, South, East, West, Above, Below, FieldOf;
    var csum, wsum := NeighbourSums(g, temp, n, i, j);
    if n == |g.layers| - 1 {
      csum := csum + Sink(g, n, i, j);
      wsum := wsum + Times(Sink(g, n, i, j), g.ambient);
    }
    Conductances(g, n, i, j);
    hide Times, Sink;
    QuotientTimes(power[n, i, j] + wsum, csum);
    var prev := temp[n, i, j];
    temp[n, i, j] := Quotient(power[n, i, j] + wsum, csum);
    delta := Abs(prev - temp[n, i, j]);
  }

  /** A whole sweep. The value returned is zero exactly when the field was steady. */
  method SingleIterationSteadyGrid(g: Grid, power: array3<real>, temp: array3<real>) returns (max: real)
    requires g.Positive() && Fits(g, power) && Fits(g, temp) && power != temp
    modifies temp
    ensures IsSweep(g, FieldOf(power), old(FieldOf(temp)), FieldOf(temp))
    ensures LargestChange(g, old(FieldOf(temp)), FieldOf(temp), max)
    ensures max == 0.0 <==> Steady(g, FieldOf(power), old(FieldOf(temp)))
  {
    max := 0.0;
    ghost var p, v0 := FieldOf(power), FieldOf(temp);
    hide Updated, FieldOf;
    for n := 0 to |g.layers|
      invariant FieldOf(power) == p && SweptTo(g, p, v0, FieldOf(temp), n, 0, 0)
      invariant LargestChange(g, v0, FieldOf(temp), max)
    {
      for i := 0 to g.rows
        invariant FieldOf(power) == p && SweptTo(g, p, v0, FieldOf(temp), n, i, 0)
        invariant LargestChange(g, v0, FieldOf(temp), max)
      {
        max := SweepRow(g, power, temp, n, i, v0, max);
        assert SweptTo(g, p, v0, FieldOf(temp), n, i + 1, 0) by { hide Updated; }
      }
    }
    ghost var v := FieldOf(temp);
    forall n, i, j | g.Cell(n, i, j) ensures Updated(g, p, v0, v, n, i, j) {
      assert Before(n, i, j, |g.layers|, 0, 0);
    }
    hide SweptTo, IsSweep, Steady;
    SweepUnchangedIffSteady(g, p, v0, v);
    LargestZero(g, v0, v, max);
  }

  lemma {:induction false} LargestZero(g: Grid, u: Field, v: Field, d: real)
    requires LargestChange(g, u, v, d)
    ensures d == 0.0 <==> SameCells(g, u, v)
  {
    if d > 0.0 {
      var n, i, j :| ChangedBy(g, u, v, d, n, i, j);
      assert v(n, i, j) != u(n, i, j);
    }
  }

  method SweepRow(g: Grid, power: array3<real>, temp: array3<real>, n: int, i: int, ghost v0: Field, max0: real) returns (max: real)
    requires g.Positive() && Fits(g, power) && Fits(g, temp) && power != temp
    requires 0 <= n < |g.layers| && 0 <= i < g.rows
    requires SweptTo(g, FieldOf(power), v0, FieldOf(temp), n, i, 0) && LargestChange(g, v0, FieldOf(temp), max0)
    modifies temp
    ensures SweptTo(g, FieldOf(power), v0, FieldOf(temp), n, i, g.cols) && LargestChange(g, v0, FieldOf(temp), max)
  {
    max := max0;
    ghost var p := FieldOf(power);
    hide Updated, CellSet, SweptTo, LargestChange;
    for j := 0 to g.cols
      invariant FieldOf(power) == p && SweptTo(g, p, v0, FieldOf(temp), n, i, j)
      invariant LargestChange(g, v0, FieldOf(temp), max)
    {
      ghost var v, m := FieldOf(temp), max;
      var delta := UpdateCell(g, power, temp, n, i, j);
      if delta > max {
        max := delta;
      }
      ghost var v' := FieldOf(temp);
      SweepStep(g, p, v0, v, v', n, i, j);
      Untouched(g, p, v0, v, n, i, j);
      LargestStep(g, p, v0, v, v', n, i, j, m, max);
    }
  }

  lemma {:induction false} Untouched(g: Grid, p: Field, v0: Field, v: Field, n: int, i: int, j: int)
    requires g.Positive() && g.Cell(n, i, j) && SweptTo(g, p, v0, v, n, i, j)
    ensures v(n, i, j) == v0(n, i, j)
  {
    hide Updated;
  }

  // ---- the heuristic start ----

  /** s holds the power of layers 0 to k - 1 of every column of cells. */
  ghost predicate HoldsPower(g: Grid, p: Field, s: Matrix, k: nat) {
    forall i, j | 0 <= i < g.rows && 0 <= j < g.cols :: s(i, j) == Sum(ColumnPower(p, i, j), k)
  }

  ghost predicate HeuristicFrom(g: Grid, p: Field, v: Field, k: int) {
    forall n, i, j | g.Cell(n, i, j) && k <= n :: HeuristicCell(g, p, v, n, i, j)
  }

  /** s := s + scale * one layer. */
  method ScaleAddLayer(g: Grid, s: array2<real>, power: array3<real>, n: int, scale: real)
    requires Fits(g, power) && 0 <= n < |g.layers| && s.Length0 == g.rows && s.Length1 == g.cols
    modifies s
    ensures forall i, j | 0 <= i < g.rows && 0 <= j < g.cols :: s[i, j] == old(s[i, j]) + scale * power[n, i, j]
  {
    for i := 0 to g.rows
      invariant forall r, c | 0 <= r < i && 0 <= c < g.cols :: s[r, c] == old(s[r, c]) + scale * power[n, r, c]
      invariant forall r, c | i <= r < g.rows && 0 <= c < g.cols :: s[r, c] == old(s[r, c])
    {
      for j := 0 to g.cols
        invariant forall r, c | 0 <= r < i && 0 <= c < g.cols :: s[r, c] == old(s[r, c]) + scale * power[n, r, c]
        invariant forall c | 0 <= c < j :: s[i, c] == old(s[i, c]) + scale * power[n, i, c]
        invariant forall c | j <= c < g.cols :: s[i, c] == old(s[i, c])
        invariant forall r, c | i < r < g.rows && 0 <= c < g.cols :: s[r, c] == old(s[r, c])
      {
        s[i, j] := s[i, j] + scale * power[n, i, j];
      }
    }
  }

  method AddLayer(g: Grid, s: array2<real>, power: array3<real>, n: int, down: bool)
    requires Fits(g, power) && 0 <= n < |g.layers| && s.Length0 == g.rows && s.Length1 == g.cols
    requires HoldsPower(g, FieldOf(power), Entries(s), if down then n + 1 else n)
    modifies s
    ensures HoldsPower(g, FieldOf(power), Entries(s), if down then n else n + 1)
  {
    ghost var p := FieldOf(power);
    forall i, j | 0 <= i < g.rows && 0 <= j < g.cols
      ensures s[i, j] == Sum(ColumnPower(p, i, j), if down then n + 1 else n)
    {
      assert Entries(s)(i, j) == s[i, j];
    }
    label S0:
    ScaleAddLayer(g, s, power, n, if down then -1.0 else 1.0);
    forall i, j | 0 <= i < g.rows && 0 <= j < g.cols
      ensures s[i, j] == Sum(ColumnPower(p, i, j), if down then n else n + 1)
    {
      assert Sum(ColumnPower(p, i, j), n + 1) == Sum(ColumnPower(p, i, j), n) + power[n, i, j];
      assert old@S0(s[i, j]) == Sum(ColumnPower(p, i, j), if down then n + 1 else n);
    }
  }

  /** One layer's temperatures from those of the next one down. */
  method LayerTemp(g: Grid, s: array2<real>, temp: array3<real>, n: int)
    requires Fits(g, temp) && 0 <= n < |g.layers| && s.Length0 == g.rows && s.Length1 == g.cols
    modifies temp
    ensures forall m, i, j | m != n :: FieldOf(temp)(m, i, j) == old(FieldOf(temp))(m, i, j)
    ensures forall i, j | 0 <= i < g.rows && 0 <= j < g.cols ::
        FieldOf(temp)(n, i, j) == Next(g, FieldOf(temp), n, i, j) + Times(g.layers[n].rz, s[i, j])
  {
    hide Times;
    ghost var v0 := FieldOf(temp);
    for i := 0 to g.rows
      invariant forall m, r, c | m != n :: FieldOf(temp)(m, r, c) == v0(m, r, c)
      invariant forall r, c | 0 <= r < i && 0 <= c < g.cols ::
          FieldOf(temp)(n, r, c) == Next(g, v0, n, r, c) + Times(g.layers[n].rz, s[r, c])
    {
      LayerTempRow(g, s, temp, n, i);
    }
  }

  method LayerTempRow(g: Grid, s: array2<real>, temp: array3<real>, n: int, i: int)
    requires Fits(g, temp) && 0 <= n < |g.layers| && s.Length0 == g.rows && s.Length1 == g.cols && 0 <= i < g.rows
    modifies temp
    ensures forall m, r, c | m != n || r != i :: FieldOf(temp)(m, r, c) == old(FieldOf(temp))(m, r, c)
    ensures forall c | 0 <= c < g.cols ::
        FieldOf(temp)(n, i, c) == Next(g, old(FieldOf(temp)), n, i, c) + Times(g.layers[n].rz, s[i, c])
  {
    hide Times;
    ghost var v0 := FieldOf(temp);
    for j := 0 to g.cols
      invariant forall m, r, c | m != n || r != i :: FieldOf(temp)(m, r, c) == v0(m, r, c)
      invariant forall c | 0 <= c < j ::
          FieldOf(temp)(n, i, c) == Next(g, v0, n, i, c) + Times(g.layers[n].rz, s[i, c])
    {
      ghost var v := FieldOf(temp);
      var next := if n == |g.layers| - 1 then g.ambient else temp[n + 1, i, j];
      assert next == Next(g, v0, n, i, j);
      temp[n, i, j] := next + Times(g.layers[n].rz, s[i, j]);
      assert forall m, r, c | !(m == n && r == i && c == j) :: FieldOf(temp)(m, r, c) == v(m, r, c);
    }
  }

  /** Sets a layer from the one below and takes its power off the sum. */
  method HeuristicLayer(g: Grid, power: array3<real>, sum: array2<real>, temp: array3<real>, n: int)
    requires 0 <= n < |g.layers| && Fits(g, power) && Fits(g, temp) && power != temp
    requires sum.Length0 == g.rows && sum.Length1 == g.cols
    requires HoldsPower(g, FieldOf(power), Entries(sum), n + 1)
    requires n < |g.layers| - 1 ==> HeuristicFrom(g, FieldOf(power), FieldOf(temp), n + 1)
    modifies sum, temp
    ensures HoldsPower(g, FieldOf(power), Entries(sum), n)
    ensures HeuristicFrom(g, FieldOf(power), FieldOf(temp), n)
  {
    hide Sum, HoldsPower, HeuristicFrom, FieldOf, Entries;
    ghost var v, p, q := FieldOf(temp), FieldOf(power), Entries(sum);
    LayerTemp(g, sum, temp, n);
    ghost var v' := FieldOf(temp);
    if n < |g.layers| - 1 {
      LowerKept(g, p, v, v', n);
    }
    LayerDone(g, p, q, v', n);
    AddLayer(g, sum, power, n, true);
  }

  method ZeroSum(g: Grid, ghost p: Field) returns (sum: array2<real>)
    ensures fresh(sum) && sum.Length0 == g.rows && sum.Length1 == g.cols && HoldsPower(g, p, Entries(sum), 0)
  {
    sum := new real[g.rows, g.cols]((i, j) => 0.0);
  }

  method SetHeuristicTemp(g: Grid, power: array3<real>, temp: array3<real>)
    requires |g.layers| > 0 && Fits(g, power) && Fits(g, temp) && power != temp
    modifies temp
    ensures IsHeuristic(g, FieldOf(power), FieldOf(temp))
  {
    hide *;
    var nl := |g.layers|;
    ghost var p := FieldOf(power);
    var sum := ZeroSum(g, p);
    for n := 0 to nl
      invariant FieldOf(power) == p && HoldsPower(g, p, Entries(sum), n)
    {
      AddLayer(g, sum, power, n, false);
    }
    HeuristicLayer(g, power, sum, temp, nl - 1);
    for n := nl - 1 downto 0
      invariant FieldOf(power) == p && HoldsPower(g, p, Entries(sum), n)
      invariant HeuristicFrom(g, p, FieldOf(temp), n)
    {
      HeuristicLayer(g, power, sum, temp, n);
    }
    AllHeuristic(g, p, FieldOf(temp));
  }

  lemma {:induction false} AllHeuristic(g: Grid, p: Field, v: Field)
    requires HeuristicFrom(g, p, v, 0)
    ensures IsHeuristic(g, p, v)
  {
    hide HeuristicCell;
  }

  lemma {:induction false} LowerKept(g: Grid, p: Field, v: Field, v': Field, n: int)
    requires HeuristicFrom(g, p, v, n + 1)
    requires forall m, i, j | m != n :: v'(m, i, j) == v(m, i, j)
    ensures HeuristicFrom(g, p, v', n + 1)
  {
    hide Times;
    forall m, i, j | g.Cell(m, i, j) && n + 1 <= m ensures HeuristicCell(g, p, v', m, i, j) {
      assert HeuristicCell(g, p, v, m, i, j);
    }
  }

  lemma {:induction false} LayerDone(g: Grid, p: Field, s: Matrix, v: Field, n: int)
    requires 0 <= n < |g.layers| && HoldsPower(g, p, s, n + 1)
    requires n < |g.layers| - 1 ==> HeuristicFrom(g, p, v, n + 1)
    requires forall i, j | 0 <= i < g.rows && 0 <= j < g.cols ::
        v(n, i, j) == Next(g, v, n, i, j) + Times(g.layers[n].rz, s(i, j))
    ensures HeuristicFrom(g, p, v, n)
  {
    hide Times;
    forall m, i, j | g.Cell(m, i, j) && n <= m ensures HeuristicCell(g, p, v, m, i, j) {
      if m == n {
        assert s(i, j) == Sum(ColumnPower(p, i, j), n + 1);
      }
    }
  }
}
