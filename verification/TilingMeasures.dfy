/** Covering every point once is enough: every additive measure of the blocks of a tiling
    adds up to that of the whole. */
module TilingMeasures {
  import opened Sums
  import opened Numbers
  import opened Rectangles
  import opened RimStrips
  import opened TolerantSearch
  import opened FlpGridSpec

  /** f of cell (p, q). */
  ghost function Weight(xs: seq<real>, ys: seq<real>, f: Unit -> real, p: nat, q: nat): real
    requires p < |xs| - 1 && q < |ys| - 1
  {
    f(Cell(xs, ys, p, q))
  }

  /** The weights of the cells whose corners the rectangle covers, in the first k columns
      of row q, and in the first m rows. */
  ghost function RowWeight(xs: seq<real>, ys: seq<real>, f: Unit -> real, q: nat, k: nat, u: Unit): real
    requires k < |xs| && q < |ys| - 1
  {
    if k == 0 then 0.0
    else RowWeight(xs, ys, f, q, k - 1, u) + Times(Weight(xs, ys, f, k - 1, q), At(xs[k-1], ys[q])(u))
  }

  ghost function GridWeight(xs: seq<real>, ys: seq<real>, f: Unit -> real, m: nat, u: Unit): real
    requires 0 < |xs| && m < |ys|
  {
    if m == 0 then 0.0 else GridWeight(xs, ys, f, m - 1, u) + RowWeight(xs, ys, f, m - 1, |xs| - 1, u)
  }

  /** The same added up over a list. */
  ghost function RowWeights(xs: seq<real>, ys: seq<real>, f: Unit -> real, q: nat, k: nat, us: seq<Unit>, n: nat): real
    requires k < |xs| && q < |ys| - 1 && n <= |us|
  {
    if k == 0 then 0.0
    else RowWeights(xs, ys, f, q, k - 1, us, n) + Times(Weight(xs, ys, f, k - 1, q), SumRange(us, 0, n, At(xs[k-1], ys[q])))
  }

  ghost function GridWeights(xs: seq<real>, ys: seq<real>, f: Unit -> real, m: nat, us: seq<Unit>, n: nat): real
    requires 0 < |xs| && m < |ys| && n <= |us|
  {
    if m == 0 then 0.0 else GridWeights(xs, ys, f, m - 1, us, n) + RowWeights(xs, ys, f, m - 1, |xs| - 1, us, n)
  }

  lemma {:induction false} RowWeightsNext(xs: seq<real>, ys: seq<real>, f: Unit -> real, q: nat, k: nat, us: seq<Unit>, n: nat)
    requires k < |xs| && q < |ys| - 1 && n < |us|
    ensures RowWeights(xs, ys, f, q, k, us, n + 1) == RowWeights(xs, ys, f, q, k, us, n) + RowWeight(xs, ys, f, q, k, us[n])
  {
    hide Times, Weight;
    if k > 0 {
      RowWeightsNext(xs, ys, f, q, k - 1, us, n);
      TimesLaws(Weight(xs, ys, f, k - 1, q), SumRange(us, 0, n, At(xs[k-1], ys[q])), At(xs[k-1], ys[q])(us[n]));
    }
  }

  lemma {:induction false} GridWeightsNext(xs: seq<real>, ys: seq<real>, f: Unit -> real, m: nat, us: seq<Unit>, n: nat)
    requires 0 < |xs| && m < |ys| && n < |us|
    ensures GridWeights(xs, ys, f, m, us, n + 1) == GridWeights(xs, ys, f, m, us, n) + GridWeight(xs, ys, f, m, us[n])
  {
    if m > 0 {
      GridWeightsNext(xs, ys, f, m - 1, us, n);
      RowWeightsNext(xs, ys, f, m - 1, |xs| - 1, us, n);
    }
  }

  lemma {:induction false} RowWeightsNone(xs: seq<real>, ys: seq<real>, f: Unit -> real, q: nat, k: nat, us: seq<Unit>)
    requires k < |xs| && q < |ys| - 1
    ensures RowWeights(xs, ys, f, q, k, us, 0) == 0.0
  {
    hide Times, Weight;
    if k > 0 {
      RowWeightsNone(xs, ys, f, q, k - 1, us);
      TimesLaws(Weight(xs, ys, f, k - 1, q), 0.0, 0.0);
    }
  }

  lemma {:induction false} GridWeightsNone(xs: seq<real>, ys: seq<real>, f: Unit -> real, m: nat, us: seq<Unit>)
    requires 0 < |xs| && m < |ys|
    ensures GridWeights(xs, ys, f, m, us, 0) == 0.0
  {
    if m > 0 {
      GridWeightsNone(xs, ys, f, m - 1, us);
      RowWeightsNone(xs, ys, f, m - 1, |xs| - 1, us);
    }
  }

  lemma {:induction false} RowWeightsTile(xs: seq<real>, ys: seq<real>, f: Unit -> real, q: nat, k: nat, us: seq<Unit>, n: nat, chip: Unit)
    requires k < |xs| && q < |ys| - 1 && n <= |us| && Tiles(us, n, chip)
    ensures RowWeights(xs, ys, f, q, k, us, n) == RowWeight(xs, ys, f, q, k, chip)
  {
    hide Times, Weight;
    if k > 0 {
      RowWeightsTile(xs, ys, f, q, k - 1, us, n, chip);
      assert SumRange(us, 0, n, At(xs[k-1], ys[q])) == At(xs[k-1], ys[q])(chip);
    }
  }

  lemma {:induction false} GridWeightsTile(xs: seq<real>, ys: seq<real>, f: Unit -> real, m: nat, us: seq<Unit>, n: nat, chip: Unit)
    requires 0 < |xs| && m < |ys| && n <= |us| && Tiles(us, n, chip)
    ensures GridWeights(xs, ys, f, m, us, n) == GridWeight(xs, ys, f, m, chip)
  {
    hide Tiles;
    if m > 0 {
      GridWeightsTile(xs, ys, f, m - 1, us, n, chip);
      RowWeightsTile(xs, ys, f, m - 1, |xs| - 1, us, n, chip);
    }
  }

  /** A cell has its own weight. */
  lemma {:induction false} CellRowWeight(xs: seq<real>, ys: seq<real>, f: Unit -> real, p: nat, q: nat, r: nat, k: nat)
    requires Spaced(xs) && Spaced(ys) && p < |xs| - 1 && q < |ys| - 1 && r < |ys| - 1 && k < |xs|
    ensures RowWeight(xs, ys, f, r, k, Cell(xs, ys, p, q)) == if r == q && p < k then f(Cell(xs, ys, p, q)) else 0.0
  {
    hide Times, Spaced, Cell;
    if k > 0 {
      CellRowWeight(xs, ys, f, p, q, r, k - 1);
      CellCovers(xs, ys, p, q, k - 1, r);
      TimesLaws(Weight(xs, ys, f, k - 1, r), 0.0, 0.0);
    }
  }

  lemma {:induction false} CellGridWeight(xs: seq<real>, ys: seq<real>, f: Unit -> real, p: nat, q: nat, m: nat)
    requires Spaced(xs) && Spaced(ys) && p < |xs| - 1 && q < |ys| - 1 && m < |ys|
    ensures GridWeight(xs, ys, f, m, Cell(xs, ys, p, q)) == if q < m then f(Cell(xs, ys, p, q)) else 0.0
  {
    hide Spaced, Cell;
    if m > 0 {
      CellGridWeight(xs, ys, f, p, q, m - 1);
      CellRowWeight(xs, ys, f, p, q, m - 1, |xs| - 1);
    }
  }

  /** A list of cells measures as much as its weights. */
  lemma {:induction false} CellsWeigh(xs: seq<real>, ys: seq<real>, f: Unit -> real, cells: seq<Unit>, n: nat)
    requires Spaced(xs) && Spaced(ys) && |xs| > 0 && |ys| > 0 && n <= |cells|
    requires forall i | 0 <= i < n :: IsCell(xs, ys, cells[i])
    ensures GridWeights(xs, ys, f, |ys| - 1, cells, n) == SumRange(cells, 0, n, f)
  {
    hide Spaced, Cell;
    if n > 0 {
      CellsWeigh(xs, ys, f, cells, n - 1);
      GridWeightsNext(xs, ys, f, |ys| - 1, cells, n - 1);
      var p, q :| 0 <= p < |xs| - 1 && 0 <= q < |ys| - 1 && cells[n-1] == Cell(xs, ys, p, q);
      CellGridWeight(xs, ys, f, p, q, |ys| - 1);
    } else {
      GridWeightsNone(xs, ys, f, |ys| - 1, cells);
    }
  }

  /** The whole chip weighs what its columns of cells measure. */
  lemma {:induction false} ChipRowWeight(xs: seq<real>, ys: seq<real>, f: Unit -> real, q: nat, k: nat, chip: Unit)
    requires Spaced(xs) && Spans(xs, chip.leftx, Right(chip)) && Spaced(ys) && Spans(ys, chip.bottomy, Top(chip))
    requires q < |ys| - 1 && k < |xs| && Additive(f)
    ensures RowWeight(xs, ys, f, q, k, chip) == f(Unit(xs[k] - xs[0], ys[q+1] - ys[q], xs[0], ys[q]))
  {
    SpacedAt(ys, q, q + 1);
    SpacedAt(ys, 0, q);
    SpacedAt(ys, q, |ys| - 1);
    var h := ys[q+1] - ys[q];
    if k > 0 {
      ChipRowWeight(xs, ys, f, q, k - 1, chip);
      SpacedAt(xs, 0, k - 1);
      SpacedAt(xs, k - 1, k);
      SpacedAt(xs, k - 1, |xs| - 1);
      assert At(xs[k-1], ys[q])(chip) == 1.0;
      TimesLaws(Weight(xs, ys, f, k - 1, q), 0.0, 0.0);
      hide Times, Spaced, RowWeight;
      assert SplitsX(f, xs[0], ys[q], xs[k-1] - xs[0], xs[k] - xs[k-1], h);
    } else {
      assert SplitsX(f, xs[0], ys[q], 0.0, 0.0, h);
    }
  }

  lemma {:induction false} ChipGridWeight(xs: seq<real>, ys: seq<real>, f: Unit -> real, m: nat, chip: Unit)
    requires Spaced(xs) && Spans(xs, chip.leftx, Right(chip)) && Spaced(ys) && Spans(ys, chip.bottomy, Top(chip))
    requires m < |ys| && Additive(f)
    ensures GridWeight(xs, ys, f, m, chip) == f(Unit(xs[|xs|-1] - xs[0], ys[m] - ys[0], xs[0], ys[0]))
  {
    SpacedAt(xs, 0, |xs| - 1);
    var w := xs[|xs|-1] - xs[0];
    if m > 0 {
      ChipGridWeight(xs, ys, f, m - 1, chip);
      ChipRowWeight(xs, ys, f, m - 1, |xs| - 1, chip);
      SpacedAt(ys, 0, m - 1);
      SpacedAt(ys, m - 1, m);
      hide Spaced, RowWeight;
      assert SplitsY(f, xs[0], ys[0], w, ys[m-1] - ys[0], ys[m] - ys[m-1]);
    } else {
      assert SplitsY(f, xs[0], ys[0], w, 0.0, 0.0);
    }
  }

  lemma {:induction false} SpansChip(xs: seq<real>, ys: seq<real>, chip: Unit)
    requires Spans(xs, chip.leftx, Right(chip)) && Spans(ys, chip.bottomy, Top(chip))
    ensures |xs| >= 2 && |ys| >= 2 && Unit(xs[|xs|-1] - xs[0], ys[|ys|-1] - ys[0], xs[0], ys[0]) == chip
  {
  }

  lemma {:induction false} MeasureIs(us: seq<Unit>, f: Unit -> real)
    ensures Measure(us, f) == SumRange(us, 0, |us|, f)
  {
  }

  lemma {:induction false} LinesSpacedIn(xs: seq<real>, ys: seq<real>, us: seq<Unit>, n: nat)
    requires n <= |us| && AllOnLines(xs, ys, us, n)
    ensures Spaced(xs) && Spaced(ys)
  {
  }

  lemma {:induction false} CellsAreCells(xs: seq<real>, ys: seq<real>, cells: seq<Unit>)
    requires forall c | c in cells :: IsCell(xs, ys, c)
    ensures forall i | 0 <= i < |cells| :: IsCell(xs, ys, cells[i])
  {
  }

  lemma {:induction false} MeasureOnLines(xs: seq<real>, ys: seq<real>, us: seq<Unit>, n: nat, chip: Unit, f: Unit -> real)
    requires n <= |us| && AllOnLines(xs, ys, us, n) && Tiles(us, n, chip) && Additive(f)
    requires Spans(xs, chip.leftx, Right(chip)) && Spans(ys, chip.bottomy, Top(chip))
    ensures SumRange(us, 0, n, f) == f(chip)
  {
    hide *;
    var cells := AllCells(xs, ys, us, n);
    SpansChip(xs, ys, chip);
    LinesSpacedIn(xs, ys, us, n);
    GridTiles(xs, ys, us, n, chip);
    AllAreCells(xs, ys, us, n);
    CellsAreCells(xs, ys, cells);
    AllMeasure(xs, ys, us, n, f);
    MeasureIs(cells, f);
    CellsWeigh(xs, ys, f, cells, |cells|);
    GridWeightsTile(xs, ys, f, |ys| - 1, cells, |cells|, chip);
    ChipGridWeight(xs, ys, f, |ys| - 1, chip);
  }

  // ---- without the tolerance ----

  /** A positive gap between different values of a list. */
  lemma {:induction false} SmallestGap(vs: seq<real>) returns (g: real)
    ensures g > 0.0
    ensures forall i, j | 0 <= i < |vs| && 0 <= j < |vs| && vs[i] < vs[j] :: vs[i] + g <= vs[j]
  {
    if vs == [] {
      g := 1.0;
    } else {
      var rest, v := vs[..|vs|-1], vs[|vs|-1];
      var g1 := SmallestGap(rest);
      var g2 := GapTo(rest, v);
      g := if g1 < g2 then g1 else g2;
      forall i, j | 0 <= i < |vs| && 0 <= j < |vs| && vs[i] < vs[j] ensures vs[i] + g <= vs[j] {
        if i < |rest| && j < |rest| {
          assert rest[i] < rest[j];
        } else if i < |rest| {
          assert rest[i] < v;
        } else if j < |rest| {
          assert v < rest[j];
        }
      }
    }
  }

  lemma {:induction false} GapTo(vs: seq<real>, v: real) returns (g: real)
    ensures g > 0.0
    ensures forall i | 0 <= i < |vs| :: (vs[i] < v ==> vs[i] + g <= v) && (v < vs[i] ==> v + g <= vs[i])
  {
    g := 1.0;
    if vs != [] {
      g := GapTo(vs[..|vs|-1], v);
      var w := vs[|vs|-1];
      var d := if w < v then v - w else w - v;
      if 0.0 < d < g { g := d; }
    }
  }

  /** Lines through all edges exist. */
  lemma {:induction false} LinesExist(us: seq<Unit>, n: nat, k: nat) returns (xs: seq<real>, ys: seq<real>)
    requires k <= n <= |us| && CrispEdges(us, n)
    ensures LinesAre(xs, EdgesX(us, k)) && LinesAre(ys, EdgesY(us, k))
  {
    if k == 0 {
      xs, ys := [], [];
    } else {
      var x0, y0 := LinesExist(us, n, k - 1);
      var u := us[k-1];
      var ex, ey := EdgesX(us, k - 1), EdgesY(us, k - 1);
      forall v ensures (ex(v) && Eq(v, u.leftx) ==> v == u.leftx) && (With(ex, u.leftx)(v) && Eq(v, Right(u)) ==> v == Right(u))
                    && (ey(v) && Eq(v, u.bottomy) ==> v == u.bottomy) && (With(ey, u.bottomy)(v) && Eq(v, Top(u)) ==> v == Top(u)) {
        CrispAgainst(us, n, k - 1, v);
      }
      hide EdgesX, EdgesY, CrispEdges;
      var x1 := PutLine(x0, u.leftx, ex);
      var y1 := PutLine(y0, u.bottomy, ey);
      xs := PutLine(x1, Right(u), With(ex, u.leftx));
      ys := PutLine(y1, Top(u), With(ey, u.bottomy));
      MoreEdges(us, k - 1, xs, ys);
    }
  }

  lemma {:induction false} PutLine(s: seq<real>, ele: real, edge: real -> bool) returns (t: seq<real>)
    requires LinesAre(s, edge) && forall v | edge(v) && Eq(v, ele) :: v == ele
    ensures LinesAre(t, With(edge, ele))
  {
    t := Inserted(s, ele);
    InsertCrisp(s, ele);
    hide Inserted, Spaced;
  }

  function Grown(u: Unit, l: real): Unit {
    Unit(Times(l, u.width), Times(l, u.height), Times(l, u.leftx), Times(l, u.bottomy))
  }

  function GrownAll(us: seq<Unit>, l: real): (vs: seq<Unit>)
    ensures |vs| == |us| && forall i | 0 <= i < |us| :: vs[i] == Grown(us[i], l)
  {
    seq(|us|, i requires 0 <= i < |us| => Grown(us[i], l))
  }

  lemma {:induction false} TimesOrder(l: real, a: real, b: real)
    requires l > 0.0
    ensures a < b <==> Times(l, a) < Times(l, b)
    ensures Times(l, a + b) == Times(l, a) + Times(l, b)
  {
    if a < b { ProductPositive(l, b - a); }
    if b < a { ProductPositive(l, a - b); }
  }

  lemma {:induction false} GrownCovers(u: Unit, l: real, px: real, py: real)
    requires l > 0.0
    ensures Covers(Grown(u, l), Times(l, px), Times(l, py)) <==> Covers(u, px, py)
  {
    hide Times;
    TimesOrder(l, px, u.leftx);
    TimesOrder(l, py, u.bottomy);
    TimesOrder(l, u.leftx, u.width);
    TimesOrder(l, u.bottomy, u.height);
    TimesOrder(l, px, Right(u));
    TimesOrder(l, py, Top(u));
  }

  lemma {:induction false} GrownSum(us: seq<Unit>, vs: seq<Unit>, l: real, n: nat, px: real, py: real)
    requires l > 0.0 && n <= |us| == |vs| && forall i | 0 <= i < |us| :: vs[i] == Grown(us[i], l)
    ensures SumRange(vs, 0, n, At(Times(l, px), Times(l, py))) == SumRange(us, 0, n, At(px, py))
  {
    hide Times, Grown;
    if n > 0 {
      GrownSum(us, vs, l, n - 1, px, py);
      GrownCovers(us[n-1], l, px, py);
    }
  }

  lemma {:induction false} Divided(l: real, q: real)
    requires l > 0.0
    ensures Times(l, Quotient(q, l)) == q
  {
    QuotientTimes(q, l);
  }

  lemma {:induction false} GrownTiles(us: seq<Unit>, n: nat, chip: Unit, l: real)
    requires l > 0.0 && n <= |us| && Tiles(us, n, chip)
    ensures Tiles(GrownAll(us, l), n, Grown(chip, l))
  {
    var vs := GrownAll(us, l);
    hide Times, Grown, Quotient;
    forall qx: real, qy: real ensures SumRange(vs, 0, n, At(qx, qy)) == At(qx, qy)(Grown(chip, l)) {
      var px, py := Quotient(qx, l), Quotient(qy, l);
      Divided(l, qx);
      Divided(l, qy);
      GrownSum(us, vs, l, n, px, py);
      GrownCovers(chip, l, px, py);
      assert SumRange(us, 0, n, At(px, py)) == At(px, py)(chip);
    }
  }

  ghost function Shrunk(f: Unit -> real, l: real): Unit -> real {
    u => f(Grown(u, l))
  }

  lemma {:induction false} ShrunkAdditive(f: Unit -> real, l: real)
    requires l > 0.0 && Additive(f)
    ensures Additive(Shrunk(f, l))
  {
    var g := Shrunk(f, l);
    hide Times;
    TimesLaws(l, 0.0, 0.0);
    forall x, y, w1, w2, h | w1 >= 0.0 && w2 >= 0.0 && h >= 0.0 ensures SplitsX(g, x, y, w1, w2, h) {
      TimesSigns(l, w1, w2, h);
      TimesOrder(l, w1, w2);
      TimesOrder(l, x, w1);
      assert Grown(Unit(w1 + w2, h, x, y), l) == Unit(Times(l, w1) + Times(l, w2), Times(l, h), Times(l, x), Times(l, y));
      assert Grown(Unit(w2, h, x + w1, y), l) == Unit(Times(l, w2), Times(l, h), Times(l, x) + Times(l, w1), Times(l, y));
      var a, b, c := Unit(w1 + w2, h, x, y), Unit(w1, h, x, y), Unit(w2, h, x + w1, y);
      assert g(a) == f(Grown(a, l)) && g(b) == f(Grown(b, l)) && g(c) == f(Grown(c, l));
      assert SplitsX(f, Times(l, x), Times(l, y), Times(l, w1), Times(l, w2), Times(l, h));
      assert g(a) == g(b) + g(c);
    }
    forall x, y, w, h1, h2 | w >= 0.0 && h1 >= 0.0 && h2 >= 0.0 ensures SplitsY(g, x, y, w, h1, h2) {
      TimesSigns(l, w, h1, h2);
      TimesOrder(l, h1, h2);
      TimesOrder(l, y, h1);
      assert Grown(Unit(w, h1 + h2, x, y), l) == Unit(Times(l, w), Times(l, h1) + Times(l, h2), Times(l, x), Times(l, y));
      assert Grown(Unit(w, h2, x, y + h1), l) == Unit(Times(l, w), Times(l, h2), Times(l, x), Times(l, y) + Times(l, h1));
      var a, b, c := Unit(w, h1 + h2, x, y), Unit(w, h1, x, y), Unit(w, h2, x, y + h1);
      assert g(a) == f(Grown(a, l)) && g(b) == f(Grown(b, l)) && g(c) == f(Grown(c, l));
      assert SplitsY(f, Times(l, x), Times(l, y), Times(l, w), Times(l, h1), Times(l, h2));
      assert g(a) == g(b) + g(c);
    }
  }

  lemma {:induction false} TimesSigns(l: real, a: real, b: real, c: real)
    requires l > 0.0 && a >= 0.0 && b >= 0.0 && c >= 0.0
    ensures Times(l, a) >= 0.0 && Times(l, b) >= 0.0 && Times(l, c) >= 0.0
  {
    if a > 0.0 { ProductPositive(l, a); }
    if b > 0.0 { ProductPositive(l, b); }
    if c > 0.0 { ProductPositive(l, c); }
  }

  lemma {:induction false} GrownBack(u: Unit, l: real)
    requires l > 0.0
    ensures Grown(Grown(u, l), Quotient(1.0, l)) == u
  {
    Back(l, u.width);
    Back(l, u.height);
    Back(l, u.leftx);
    Back(l, u.bottomy);
    hide Times, Quotient;
  }

  lemma {:induction false} Back(l: real, v: real)
    requires l > 0.0
    ensures Times(Quotient(1.0, l), Times(l, v)) == v
  {
    QuotientTimes(1.0, l);
    var k := Quotient(1.0, l);
    hide Times, Quotient;
    TimesLaws(k, l, v);
    TimesLaws(l, k, v);
    TimesLaws(v, 1.0, 1.0);
    TimesLaws(1.0, v, 1.0);
  }

  lemma {:induction false} ShrunkSum(us: seq<Unit>, vs: seq<Unit>, l: real, n: nat, f: Unit -> real)
    requires l > 0.0 && n <= |us| == |vs| && forall i | 0 <= i < |us| :: vs[i] == Grown(us[i], l)
    ensures SumRange(vs, 0, n, Shrunk(f, Quotient(1.0, l))) == SumRange(us, 0, n, f)
  {
    if n > 0 {
      ShrunkSum(us, vs, l, n - 1, f);
      GrownBack(us[n-1], l);
      hide Grown, Quotient;
      assert Shrunk(f, Quotient(1.0, l))(vs[n-1]) == f(us[n-1]);
    }
  }

  /** All edges of the blocks. */
  function EdgeValues(us: seq<Unit>, n: nat): seq<real>
    requires n <= |us|
  {
    if n == 0 then [] else EdgeValues(us, n - 1) + [us[n-1].leftx, Right(us[n-1]), us[n-1].bottomy, Top(us[n-1])]
  }

  lemma {:induction false} EdgesListed(us: seq<Unit>, n: nat, i: nat)
    requires i < n <= |us|
    ensures var vs := EdgeValues(us, n);
      us[i].leftx in vs && Right(us[i]) in vs && us[i].bottomy in vs && Top(us[i]) in vs
  {
    var last := [us[n-1].leftx, Right(us[n-1]), us[n-1].bottomy, Top(us[n-1])];
    assert EdgeValues(us, n) == EdgeValues(us, n - 1) + last;
    assert last[0] in last && last[1] in last && last[2] in last && last[3] in last;
    if i < n - 1 { EdgesListed(us, n - 1, i); }
  }

  /** Grown far enough, different edges are further apart than the tolerance. */
  ghost predicate Separated(vs: seq<real>, l: real) {
    forall v, w | v in vs && w in vs && Eq(Times(l, v), Times(l, w)) :: v == w
  }

  lemma {:induction false} GrowthExists(vs: seq<real>) returns (l: real)
    ensures l > 0.0 && Separated(vs, l)
  {
    var g := SmallestGap(vs);
    l := Quotient(DELTA, g);
    assert l > 0.0;
    QuotientTimes(DELTA, g);
    TimesLaws(g, l, 0.0);
    hide Quotient, Times;
    forall v, w | v in vs && w in vs && Eq(Times(l, v), Times(l, w)) ensures v == w {
      var i :| 0 <= i < |vs| && vs[i] == v;
      var j :| 0 <= j < |vs| && vs[j] == w;
      TimesApart(l, g, v, w);
      TimesApart(l, g, w, v);
    }
  }

  lemma {:induction false} TimesApart(l: real, g: real, v: real, w: real)
    requires l > 0.0 && g > 0.0 && Times(l, g) == DELTA
    ensures v + g <= w ==> Times(l, v) + DELTA <= Times(l, w)
  {
    if v + g <= w {
      TimesOrder(l, v, g);
      TimesOrder(l, w, v + g);
    }
  }

  /** Every grown block's edges are the grown edges of the block, and all are listed. */
  ghost predicate GrownFrom(ws: seq<Unit>, us: seq<Unit>, n: nat, vs: seq<real>, l: real) {
    && n <= |us| == |ws|
    && forall i | 0 <= i < n :: GrownEdges(ws[i], us[i], l) && GrownListed(us[i], vs)
  }

  lemma {:induction false} GrownCrispX(ws: seq<Unit>, us: seq<Unit>, n: nat, vs: seq<real>, l: real, v: real, w: real)
    requires GrownFrom(ws, us, n, vs, l) && Separated(vs, l)
    requires EdgeX(ws, n, v) && EdgeX(ws, n, w) && Eq(v, w)
    ensures v == w
  {
    hide Times, Separated;
    var i :| 0 <= i < n && (v == ws[i].leftx || v == Right(ws[i]));
    var j :| 0 <= j < n && (w == ws[j].leftx || w == Right(ws[j]));
    assert GrownEdges(ws[i], us[i], l) && GrownEdges(ws[j], us[j], l) && GrownListed(us[i], vs) && GrownListed(us[j], vs);
    var a := if v == ws[i].leftx then us[i].leftx else Right(us[i]);
    var b := if w == ws[j].leftx then us[j].leftx else Right(us[j]);
    SeparatedAt(vs, l, a, b);
  }

  lemma {:induction false} GrownCrispY(ws: seq<Unit>, us: seq<Unit>, n: nat, vs: seq<real>, l: real, v: real, w: real)
    requires GrownFrom(ws, us, n, vs, l) && Separated(vs, l)
    requires EdgeY(ws, n, v) && EdgeY(ws, n, w) && Eq(v, w)
    ensures v == w
  {
    hide Times, Separated;
    var i :| 0 <= i < n && (v == ws[i].bottomy || v == Top(ws[i]));
    var j :| 0 <= j < n && (w == ws[j].bottomy || w == Top(ws[j]));
    assert GrownEdges(ws[i], us[i], l) && GrownEdges(ws[j], us[j], l) && GrownListed(us[i], vs) && GrownListed(us[j], vs);
    var a := if v == ws[i].bottomy then us[i].bottomy else Top(us[i]);
    var b := if w == ws[j].bottomy then us[j].bottomy else Top(us[j]);
    SeparatedAt(vs, l, a, b);
  }

  lemma {:induction false} GrownIsFrom(us: seq<Unit>, n: nat, l: real)
    requires l > 0.0 && n <= |us|
    ensures GrownFrom(GrownAll(us, l), us, n, EdgeValues(us, n), l)
  {
    hide Times, EdgeValues;
    var ws, vs := GrownAll(us, l), EdgeValues(us, n);
    forall i | 0 <= i < n ensures GrownEdges(ws[i], us[i], l) && GrownListed(us[i], vs) {
      EdgesListed(us, n, i);
      GrownEdgesAt(us[i], l);
    }
  }

  lemma {:induction false} GrownCrisp(us: seq<Unit>, n: nat, chip: Unit, l: real)
    requires l > 0.0 && n <= |us| && Separated(EdgeValues(us, n), l) && chip.width > 0.0 && chip.height > 0.0
    requires forall i | 0 <= i < n :: Inside(us[i], chip)
    ensures CrispEdges(GrownAll(us, l), n) && Placement(GrownAll(us, l), n, Grown(chip, l))
  {
    var ws, vs := GrownAll(us, l), EdgeValues(us, n);
    ProductPositive(l, chip.width);
    ProductPositive(l, chip.height);
    GrownIsFrom(us, n, l);
    hide Times, EdgeValues, Separated, Inside, EdgeX, EdgeY;
    forall v, w | EdgeX(ws, n, v) && EdgeX(ws, n, w) && Eq(v, w) ensures v == w {
      GrownCrispX(ws, us, n, vs, l, v, w);
    }
    forall v, w | EdgeY(ws, n, v) && EdgeY(ws, n, w) && Eq(v, w) ensures v == w {
      GrownCrispY(ws, us, n, vs, l, v, w);
    }
    forall i | 0 <= i < n ensures Inside(ws[i], Grown(chip, l)) {
      GrownPlaced(us[i], chip, l);
    }
  }

  predicate GrownEdges(w: Unit, u: Unit, l: real) {
    w == Grown(u, l) && Right(w) == Times(l, Right(u)) && Top(w) == Times(l, Top(u))
    && w.leftx == Times(l, u.leftx) && w.bottomy == Times(l, u.bottomy)
  }

  predicate GrownListed(u: Unit, vs: seq<real>) {
    u.leftx in vs && Right(u) in vs && u.bottomy in vs && Top(u) in vs
  }

  lemma {:induction false} GrownEdgesAt(u: Unit, l: real)
    requires l > 0.0
    ensures GrownEdges(Grown(u, l), u, l)
  {
    hide Times;
    TimesOrder(l, u.leftx, u.width);
    TimesOrder(l, u.bottomy, u.height);
  }

  lemma {:induction false} SeparatedAt(vs: seq<real>, l: real, a: real, b: real)
    requires Separated(vs, l) && a in vs && b in vs && Eq(Times(l, a), Times(l, b))
    ensures a == b
  {
  }

  lemma {:induction false} GrownPlaced(u: Unit, chip: Unit, l: real)
    requires l > 0.0 && Inside(u, chip)
    ensures Inside(Grown(u, l), Grown(chip, l))
  {
    GrownEdgesAt(u, l);
    GrownEdgesAt(chip, l);
    TimesSigns(l, u.width, u.height, 0.0);
    hide Times;
    TimesOrder(l, u.leftx, chip.leftx);
    TimesOrder(l, Right(chip), Right(u));
    TimesOrder(l, u.bottomy, chip.bottomy);
    TimesOrder(l, Top(chip), Top(u));
  }

  /** The blocks of a tiling, wherever their edges are, add up to the chip under every
      additive measure - in particular their areas add up to its area. */
  lemma {:induction false} TilingMeasure(us: seq<Unit>, n: nat, chip: Unit, f: Unit -> real)
    requires n <= |us| && Tiles(us, n, chip) && Additive(f) && chip.width > 0.0 && chip.height > 0.0
    requires forall i | 0 <= i < n :: Inside(us[i], chip)
    ensures SumRange(us, 0, n, f) == f(chip)
  {
    var l := GrowthExists(EdgeValues(us, n));
    var ws, big := GrownAll(us, l), Grown(chip, l);
    assert forall i | 0 <= i < |us| :: ws[i] == Grown(us[i], l);
    assert Quotient(1.0, l) > 0.0;
    hide Separated, EdgeValues, Tiles, Additive, Placement, CrispEdges, Inside, Quotient, Grown, GrownAll, Shrunk;
    GrownTiles(us, n, chip, l);
    GrownCrisp(us, n, chip, l);
    var xs, ys := LinesExist(ws, n, n);
    LinesOfTiling(ws, n, big, xs, ys);
    var g := Shrunk(f, Quotient(1.0, l));
    ShrunkAdditive(f, Quotient(1.0, l));
    MeasureOnLines(xs, ys, ws, n, big, g);
    ShrunkSum(us, ws, l, n, f);
    ShrunkAt(f, chip, l);
  }

  lemma {:induction false} ShrunkAt(f: Unit -> real, u: Unit, l: real)
    requires l > 0.0
    ensures Shrunk(f, Quotient(1.0, l))(Grown(u, l)) == f(u)
  {
    GrownBack(u, l);
    hide Grown, Quotient;
  }
}
