/** The non-uniform grid equivalent to a floorplan: the lines through all block edges and
    the cells each block is cut into. */
module FlpGridSpec {
  import opened Sums
  import opened Numbers
  import opened Rectangles
  import opened RimStrips
  import opened TolerantSearch

  // ---- lines ----

  ghost predicate EdgeX(us: seq<Unit>, n: nat, v: real)
    requires n <= |us|
  {
    exists i :: 0 <= i < n && (v == us[i].leftx || v == Right(us[i]))
  }

  ghost predicate EdgeY(us: seq<Unit>, n: nat, v: real)
    requires n <= |us|
  {
    exists i :: 0 <= i < n && (v == us[i].bottomy || v == Top(us[i]))
  }

  /** Edges within the tolerance of each other are equal. */
  ghost predicate CrispEdges(us: seq<Unit>, n: nat)
    requires n <= |us|
  {
    && (forall v, w | EdgeX(us, n, v) && EdgeX(us, n, w) && Eq(v, w) :: v == w)
    && (forall v, w | EdgeY(us, n, v) && EdgeY(us, n, w) && Eq(v, w) :: v == w)
  }

  /** Inserting an edge into some of the edges adds exactly that edge. */
  lemma {:induction false} InsertCrisp(s: seq<real>, ele: real)
    requires Spaced(s) && forall v | v in s && Eq(v, ele) :: v == ele
    ensures Spaced(Inserted(s, ele)) && forall v :: v in Inserted(s, ele) <==> v in s || v == ele
  {
    InsertedSpaced(s, ele);
    hide Inserted, Spaced;
    var t := Inserted(s, ele);
    var k :| 0 <= k < |t| && Eq(t[k], ele);
    assert t[k] in t;
  }

  /** The position of a line. */
  function Index(s: seq<real>, v: real): nat {
    Search(s, 0, |s|, v).1
  }

  lemma {:induction false} SpacedDistinct(s: seq<real>, i: nat, k: nat)
    requires Spaced(s) && i < |s| && k < |s| && Eq(s[i], s[k])
    ensures i == k
  {
    SpacedAt(s, i, k);
    SpacedAt(s, k, i);
  }

  lemma {:induction false} SpacedAt(s: seq<real>, i: nat, k: nat)
    requires Spaced(s) && i < |s| && k < |s|
    ensures i < k ==> s[i] + DELTA <= s[k]
  {
  }

  lemma {:induction false} IndexIs(s: seq<real>, k: nat)
    requires Spaced(s) && k < |s|
    ensures Search(s, 0, |s|, s[k]) == (true, k) && Index(s, s[k]) == k
  {
    SearchFinds(s, 0, |s|, s[k]);
    assert Eq(s[k], s[k]);
    var r := Search(s, 0, |s|, s[k]);
    hide Search;
    assert Present(s, 0, |s|, s[k]);
    SpacedDistinct(s, r.1, k);
  }

  // ---- cells ----

  function Cell(xs: seq<real>, ys: seq<real>, p: nat, q: nat): Unit
    requires p < |xs| - 1 && q < |ys| - 1
  {
    Unit(xs[p+1] - xs[p], ys[q+1] - ys[q], xs[p], ys[q])
  }

  /** The cells of one column of the grid, from row a up to row b. */
  function RowCells(xs: seq<real>, ys: seq<real>, p: nat, a: nat, b: nat): seq<Unit>
    requires p < |xs| - 1 && a <= b < |ys|
  {
    if a == b then [] else RowCells(xs, ys, p, a, b - 1) + [Cell(xs, ys, p, b - 1)]
  }

  /** The cells of columns p0 up to p1, column by column. */
  function BlockCells(xs: seq<real>, ys: seq<real>, p0: nat, p1: nat, a: nat, b: nat): seq<Unit>
    requires p0 <= p1 < |xs| && a <= b < |ys|
  {
    if p0 == p1 then [] else BlockCells(xs, ys, p0, p1 - 1, a, b) + RowCells(xs, ys, p1 - 1, a, b)
  }

  /** The block's edges are lines. */
  ghost predicate OnLines(xs: seq<real>, ys: seq<real>, u: Unit) {
    && u.leftx in xs && Right(u) in xs && u.bottomy in ys && Top(u) in ys
    && u.width >= 0.0 && u.height >= 0.0
  }

  lemma {:induction false} LineIndices(xs: seq<real>, ys: seq<real>, u: Unit)
    requires Spaced(xs) && Spaced(ys) && OnLines(xs, ys, u)
    ensures Located(xs, ys, u)
    ensures xs[Index(xs, u.leftx)] == u.leftx && xs[Index(xs, Right(u))] == Right(u)
    ensures ys[Index(ys, u.bottomy)] == u.bottomy && ys[Index(ys, Top(u))] == Top(u)
    ensures Search(xs, 0, |xs|, u.leftx).0 && Search(xs, 0, |xs|, Right(u)).0
    ensures Search(ys, 0, |ys|, u.bottomy).0 && Search(ys, 0, |ys|, Top(u)).0
  {
    LineIndex(xs, u.leftx, Right(u));
    LineIndex(ys, u.bottomy, Top(u));
  }

  lemma {:induction false} LineIndex(s: seq<real>, v: real, w: real)
    requires Spaced(s) && v in s && w in s && v <= w
    ensures Index(s, v) <= Index(s, w) < |s| && s[Index(s, v)] == v && s[Index(s, w)] == w
    ensures Search(s, 0, |s|, v).0 && Search(s, 0, |s|, w).0
  {
    var i :| 0 <= i < |s| && s[i] == v;
    var j :| 0 <= j < |s| && s[j] == w;
    IndexIs(s, i);
    IndexIs(s, j);
    hide Search;
    SpacedAt(s, j, i);
  }

  /** The positions of the block's edges are in range and in order. */
  predicate Located(xs: seq<real>, ys: seq<real>, u: Unit) {
    Index(xs, u.leftx) <= Index(xs, Right(u)) < |xs| && Index(ys, u.bottomy) <= Index(ys, Top(u)) < |ys|
  }

  /** The cells a block is cut into. */
  function CellsOf(xs: seq<real>, ys: seq<real>, u: Unit): seq<Unit> {
    if Located(xs, ys, u)
    then BlockCells(xs, ys, Index(xs, u.leftx), Index(xs, Right(u)), Index(ys, u.bottomy), Index(ys, Top(u)))
    else []
  }

  // ---- measures ----

  ghost function Measure(us: seq<Unit>, f: Unit -> real): real {
    SumRange(us, 0, |us|, f)
  }

  lemma {:induction false} MeasureConcat(a: seq<Unit>, b: seq<Unit>, f: Unit -> real)
    ensures Measure(a + b, f) == Measure(a, f) + Measure(b, f)
  {
    SumConcat(a, b, f);
  }

  lemma {:induction false} MeasureOne(u: Unit, f: Unit -> real)
    ensures Measure([u], f) == f(u)
  {
    assert SumRange([u], 0, 1, f) == SumRange([u], 0, 0, f) + f(u);
  }

  /** A column of cells measures as much as the strip it fills. */
  lemma {:induction false} RowMeasure(xs: seq<real>, ys: seq<real>, p: nat, a: nat, b: nat, f: Unit -> real)
    requires Spaced(xs) && Spaced(ys) && p < |xs| - 1 && a <= b < |ys| && Additive(f)
    ensures Measure(RowCells(xs, ys, p, a, b), f) == f(Unit(xs[p+1] - xs[p], ys[b] - ys[a], xs[p], ys[a]))
  {
    var w := xs[p+1] - xs[p];
    assert w >= 0.0;
    if a == b {
      assert SplitsY(f, xs[p], ys[a], w, 0.0, 0.0);
    } else {
      assert ys[a] <= ys[b-1] < ys[b];
      RowMeasure(xs, ys, p, a, b - 1, f);
      MeasureConcat(RowCells(xs, ys, p, a, b - 1), [Cell(xs, ys, p, b - 1)], f);
      MeasureOne(Cell(xs, ys, p, b - 1), f);
      hide Measure, RowCells;
      assert SplitsY(f, xs[p], ys[a], w, ys[b-1] - ys[a], ys[b] - ys[b-1]);
    }
  }

  lemma {:induction false} BlockMeasure(xs: seq<real>, ys: seq<real>, p0: nat, p1: nat, a: nat, b: nat, f: Unit -> real)
    requires Spaced(xs) && Spaced(ys) && p0 <= p1 < |xs| && a <= b < |ys| && Additive(f)
    ensures Measure(BlockCells(xs, ys, p0, p1, a, b), f) == f(Unit(xs[p1] - xs[p0], ys[b] - ys[a], xs[p0], ys[a]))
  {
    var h := ys[b] - ys[a];
    assert h >= 0.0;
    if p0 == p1 {
      assert SplitsX(f, xs[p0], ys[a], 0.0, 0.0, h);
    } else {
      assert xs[p0] <= xs[p1-1] < xs[p1];
      BlockMeasure(xs, ys, p0, p1 - 1, a, b, f);
      RowMeasure(xs, ys, p1 - 1, a, b, f);
      MeasureConcat(BlockCells(xs, ys, p0, p1 - 1, a, b), RowCells(xs, ys, p1 - 1, a, b), f);
      hide Measure, RowCells;
      assert SplitsX(f, xs[p0], ys[a], xs[p1-1] - xs[p0], xs[p1] - xs[p1-1], h);
    }
  }

  /** The cells of a block measure as much as the block. */
  lemma {:induction false} CellsMeasure(xs: seq<real>, ys: seq<real>, u: Unit, f: Unit -> real)
    requires Spaced(xs) && Spaced(ys) && OnLines(xs, ys, u) && Additive(f)
    ensures Measure(CellsOf(xs, ys, u), f) == f(u)
  {
    LineIndices(xs, ys, u);
    hide Index;
    BlockMeasure(xs, ys, Index(xs, u.leftx), Index(xs, Right(u)), Index(ys, u.bottomy), Index(ys, Top(u)), f);
  }

  /** The cells of a block cover exactly the block, each point once, and share out its
      whole area. */
  lemma {:induction false} CellsTile(xs: seq<real>, ys: seq<real>, u: Unit)
    requires Spaced(xs) && Spaced(ys) && OnLines(xs, ys, u)
    ensures Tiles(CellsOf(xs, ys, u), |CellsOf(xs, ys, u)|, u) && Measure(CellsOf(xs, ys, u), AreaOf) == AreaOf(u)
  {
    AreaIsAdditive();
    CellsMeasure(xs, ys, u, AreaOf);
    hide CellsOf, Index, OnLines, Spaced;
    forall px: real, py: real ensures SumRange(CellsOf(xs, ys, u), 0, |CellsOf(xs, ys, u)|, At(px, py)) == At(px, py)(u) {
      AtIsAdditive(px, py);
      CellsMeasure(xs, ys, u, At(px, py));
    }
  }

  // ---- the whole grid ----

  ghost predicate AllOnLines(xs: seq<real>, ys: seq<real>, us: seq<Unit>, n: nat)
    requires n <= |us|
  {
    && Spaced(xs) && Spaced(ys)
    && forall i | 0 <= i < n :: OnLines(xs, ys, us[i]) && Located(xs, ys, us[i])
  }

  /** The cells of the first k blocks, block by block. */
  ghost function AllCells(xs: seq<real>, ys: seq<real>, us: seq<Unit>, k: nat): seq<Unit>
    requires k <= |us|
  {
    if k == 0 then [] else AllCells(xs, ys, us, k - 1) + CellsOf(xs, ys, us[k-1])
  }

  lemma {:induction false} AllMeasure(xs: seq<real>, ys: seq<real>, us: seq<Unit>, k: nat, f: Unit -> real)
    requires k <= |us| && AllOnLines(xs, ys, us, k) && Additive(f)
    ensures Measure(AllCells(xs, ys, us, k), f) == SumRange(us, 0, k, f)
  {
    if k > 0 {
      AllMeasure(xs, ys, us, k - 1, f);
      CellsMeasure(xs, ys, us[k-1], f);
      hide CellsOf;
      MeasureConcat(AllCells(xs, ys, us, k - 1), CellsOf(xs, ys, us[k-1]), f);
    }
  }

  /** The grid tiles what the blocks tile. */
  lemma {:induction false} GridTiles(xs: seq<real>, ys: seq<real>, us: seq<Unit>, n: nat, chip: Unit)
    requires n <= |us| && AllOnLines(xs, ys, us, n) && Tiles(us, n, chip)
    ensures Tiles(AllCells(xs, ys, us, n), |AllCells(xs, ys, us, n)|, chip)
  {
    hide AllOnLines, AllCells;
    var cells := AllCells(xs, ys, us, n);
    forall px: real, py: real ensures SumRange(cells, 0, |cells|, At(px, py)) == At(px, py)(chip) {
      AtIsAdditive(px, py);
      AllMeasure(xs, ys, us, n, At(px, py));
      assert SumRange(us, 0, n, At(px, py)) == At(px, py)(chip);
    }
  }

  // ---- how many cells there are ----

  /** How many of the first k points of a row, and of the points of the first m rows, a
      rectangle covers. The points are the lower left corners of the cells. */
  ghost function RowCount(xs: seq<real>, y: real, k: nat, u: Unit): real
    requires k <= |xs|
  {
    if k == 0 then 0.0 else RowCount(xs, y, k - 1, u) + At(xs[k-1], y)(u)
  }

  ghost function GridCount(xs: seq<real>, ys: seq<real>, k: nat, m: nat, u: Unit): real
    requires k <= |xs| && m <= |ys|
  {
    if m == 0 then 0.0 else GridCount(xs, ys, k, m - 1, u) + RowCount(xs, ys[m-1], k, u)
  }

  /** The same for a list of rectangles. */
  ghost function RowTotal(xs: seq<real>, y: real, k: nat, us: seq<Unit>, n: nat): real
    requires k <= |xs| && n <= |us|
  {
    if k == 0 then 0.0 else RowTotal(xs, y, k - 1, us, n) + SumRange(us, 0, n, At(xs[k-1], y))
  }

  ghost function GridTotal(xs: seq<real>, ys: seq<real>, k: nat, m: nat, us: seq<Unit>, n: nat): real
    requires k <= |xs| && m <= |ys| && n <= |us|
  {
    if m == 0 then 0.0 else GridTotal(xs, ys, k, m - 1, us, n) + RowTotal(xs, ys[m-1], k, us, n)
  }

  lemma {:induction false} RowTotalTiles(xs: seq<real>, y: real, k: nat, us: seq<Unit>, n: nat, chip: Unit)
    requires k <= |xs| && n <= |us| && Tiles(us, n, chip)
    ensures RowTotal(xs, y, k, us, n) == RowCount(xs, y, k, chip)
  {
    if k > 0 {
      RowTotalTiles(xs, y, k - 1, us, n, chip);
      assert SumRange(us, 0, n, At(xs[k-1], y)) == At(xs[k-1], y)(chip);
    }
  }

  lemma {:induction false} GridTotalTiles(xs: seq<real>, ys: seq<real>, k: nat, m: nat, us: seq<Unit>, n: nat, chip: Unit)
    requires k <= |xs| && m <= |ys| && n <= |us| && Tiles(us, n, chip)
    ensures GridTotal(xs, ys, k, m, us, n) == GridCount(xs, ys, k, m, chip)
  {
    hide Tiles;
    if m > 0 {
      GridTotalTiles(xs, ys, k, m - 1, us, n, chip);
      RowTotalTiles(xs, ys[m-1], k, us, n, chip);
    }
  }

  lemma {:induction false} RowTotalNext(xs: seq<real>, y: real, k: nat, us: seq<Unit>, n: nat)
    requires k <= |xs| && n < |us|
    ensures RowTotal(xs, y, k, us, n + 1) == RowTotal(xs, y, k, us, n) + RowCount(xs, y, k, us[n])
    ensures RowTotal(xs, y, k, us, 0) == 0.0
  {
    if k > 0 { RowTotalNext(xs, y, k - 1, us, n); }
  }

  lemma {:induction false} GridTotalNext(xs: seq<real>, ys: seq<real>, k: nat, m: nat, us: seq<Unit>, n: nat)
    requires k <= |xs| && m <= |ys| && n < |us|
    ensures GridTotal(xs, ys, k, m, us, n + 1) == GridTotal(xs, ys, k, m, us, n) + GridCount(xs, ys, k, m, us[n])
    ensures GridTotal(xs, ys, k, m, us, 0) == 0.0
  {
    if m > 0 {
      GridTotalNext(xs, ys, k, m - 1, us, n);
      RowTotalNext(xs, ys[m-1], k, us, n);
    }
  }

  ghost predicate IsCell(xs: seq<real>, ys: seq<real>, c: Unit) {
    exists p, q :: 0 <= p < |xs| - 1 && 0 <= q < |ys| - 1 && c == Cell(xs, ys, p, q)
  }

  /** A cell covers its own corner only. */
  lemma {:induction false} CellRowCount(xs: seq<real>, ys: seq<real>, p: nat, q: nat, r: nat, k: nat)
    requires Spaced(xs) && Spaced(ys) && p < |xs| - 1 && q < |ys| - 1 && r < |ys| - 1 && k <= |xs| - 1
    ensures RowCount(xs, ys[r], k, Cell(xs, ys, p, q)) == if r == q && p < k then 1.0 else 0.0
  {
    if k > 0 {
      CellRowCount(xs, ys, p, q, r, k - 1);
      CellCovers(xs, ys, p, q, k - 1, r);
    }
  }

  lemma {:induction false} CellCovers(xs: seq<real>, ys: seq<real>, p: nat, q: nat, i: nat, j: nat)
    requires Spaced(xs) && Spaced(ys) && p < |xs| - 1 && q < |ys| - 1 && i < |xs| - 1 && j < |ys| - 1
    ensures Covers(Cell(xs, ys, p, q), xs[i], ys[j]) <==> i == p && j == q
  {
    SpacedAt(xs, i, p);
    SpacedAt(xs, p, i);
    SpacedAt(xs, p + 1, i);
    SpacedAt(xs, p, p + 1);
    SpacedAt(ys, j, q);
    SpacedAt(ys, q, j);
    SpacedAt(ys, q + 1, j);
    SpacedAt(ys, q, q + 1);
    hide Spaced;
  }

  lemma {:induction false} CellGridCount(xs: seq<real>, ys: seq<real>, p: nat, q: nat, m: nat)
    requires Spaced(xs) && Spaced(ys) && p < |xs| - 1 && q < |ys| - 1 && m <= |ys| - 1
    ensures GridCount(xs, ys, |xs| - 1, m, Cell(xs, ys, p, q)) == if q < m then 1.0 else 0.0
  {
    hide Spaced, Cell;
    if m > 0 {
      CellGridCount(xs, ys, p, q, m - 1);
      CellRowCount(xs, ys, p, q, m - 1, |xs| - 1);
    }
  }

  lemma {:induction false} CountCells(xs: seq<real>, ys: seq<real>, cells: seq<Unit>, n: nat)
    requires Spaced(xs) && Spaced(ys) && |xs| > 0 && |ys| > 0 && n <= |cells|
    requires forall i | 0 <= i < n :: IsCell(xs, ys, cells[i])
    ensures GridTotal(xs, ys, |xs| - 1, |ys| - 1, cells, n) == n as real
  {
    hide Spaced, Cell;
    if n > 0 {
      CountCells(xs, ys, cells, n - 1);
      GridTotalNext(xs, ys, |xs| - 1, |ys| - 1, cells, n - 1);
      var p, q :| 0 <= p < |xs| - 1 && 0 <= q < |ys| - 1 && cells[n-1] == Cell(xs, ys, p, q);
      CellGridCount(xs, ys, p, q, |ys| - 1);
    } else {
      GridTotalZero(xs, ys, |xs| - 1, |ys| - 1, cells);
    }
  }

  lemma {:induction false} GridTotalZero(xs: seq<real>, ys: seq<real>, k: nat, m: nat, us: seq<Unit>)
    requires k <= |xs| && m <= |ys|
    ensures GridTotal(xs, ys, k, m, us, 0) == 0.0
  {
    if m > 0 {
      GridTotalZero(xs, ys, k, m - 1, us);
      RowTotalZero(xs, ys[m-1], k, us);
    }
  }

  lemma {:induction false} RowTotalZero(xs: seq<real>, y: real, k: nat, us: seq<Unit>)
    requires k <= |xs|
    ensures RowTotal(xs, y, k, us, 0) == 0.0
  {
    if k > 0 { RowTotalZero(xs, y, k - 1, us); }
  }

  /** The lines run from edge to edge of the chip. */
  ghost predicate Spans(s: seq<real>, lo: real, hi: real) {
    |s| >= 2 && s[0] == lo && s[|s|-1] == hi
  }

  lemma {:induction false} ChipRowCount(xs: seq<real>, y: real, k: nat, chip: Unit)
    requires Spaced(xs) && Spans(xs, chip.leftx, Right(chip)) && chip.bottomy <= y < Top(chip) && k <= |xs| - 1
    ensures RowCount(xs, y, k, chip) == k as real
  {
    if k > 0 {
      ChipRowCount(xs, y, k - 1, chip);
      SpacedAt(xs, 0, k - 1);
      SpacedAt(xs, k - 1, |xs| - 1);
      hide Spaced;
    }
  }

  lemma {:induction false} ChipGridCount(xs: seq<real>, ys: seq<real>, m: nat, chip: Unit)
    requires Spaced(xs) && Spans(xs, chip.leftx, Right(chip)) && Spaced(ys) && Spans(ys, chip.bottomy, Top(chip))
    requires m <= |ys| - 1
    ensures GridCount(xs, ys, |xs| - 1, m, chip) == (m * (|xs| - 1)) as real
  {
    if m > 0 {
      ChipGridCount(xs, ys, m - 1, chip);
      SpacedAt(ys, 0, m - 1);
      SpacedAt(ys, m - 1, |ys| - 1);
      ChipRowCount(xs, ys[m-1], |xs| - 1, chip);
      hide Spaced, RowCount;
      assert m * (|xs| - 1) == (m - 1) * (|xs| - 1) + (|xs| - 1);
    }
  }

  /** The lower left corner lies at a crossing of the lines p0 .. p1-1 and a .. b-1. */
  ghost predicate CornerIn(c: Unit, xs: seq<real>, ys: seq<real>, p0: nat, p1: nat, a: nat, b: nat) {
    exists p, q :: p0 <= p < p1 && p < |xs| && a <= q < b && q < |ys| && c.leftx == xs[p] && c.bottomy == ys[q]
  }

  lemma {:induction false} CornerWider(c: Unit, xs: seq<real>, ys: seq<real>, p0: nat, p1: nat, a: nat, b: nat,
                                       r0: nat, r1: nat, d: nat)
    requires CornerIn(c, xs, ys, p0, p1, a, b) && r0 <= p0 && p1 <= r1 && b <= d
    ensures CornerIn(c, xs, ys, r0, r1, a, d)
  {
  }

  lemma {:induction false} CellCorner(xs: seq<real>, ys: seq<real>, p: nat, q: nat)
    requires p < |xs| - 1 && q < |ys| - 1
    ensures IsCell(xs, ys, Cell(xs, ys, p, q)) && CornerIn(Cell(xs, ys, p, q), xs, ys, p, p + 1, q, q + 1)
  {
  }

  lemma {:induction false} RowIsCells(xs: seq<real>, ys: seq<real>, p: nat, a: nat, b: nat)
    requires p < |xs| - 1 && a <= b < |ys|
    ensures forall c | c in RowCells(xs, ys, p, a, b) :: IsCell(xs, ys, c) && CornerIn(c, xs, ys, p, p + 1, a, b)
  {
    hide Cell, CornerIn, IsCell;
    if a < b {
      RowIsCells(xs, ys, p, a, b - 1);
      CellCorner(xs, ys, p, b - 1);
      forall c | c in RowCells(xs, ys, p, a, b) ensures IsCell(xs, ys, c) && CornerIn(c, xs, ys, p, p + 1, a, b) {
        if c in RowCells(xs, ys, p, a, b - 1) {
          CornerWider(c, xs, ys, p, p + 1, a, b - 1, p, p + 1, b);
        } else {
          CornerLower(c, xs, ys, p, p + 1, b - 1, b, a);
        }
      }
    }
  }

  lemma {:induction false} CornerLower(c: Unit, xs: seq<real>, ys: seq<real>, p0: nat, p1: nat, a: nat, b: nat, d: nat)
    requires CornerIn(c, xs, ys, p0, p1, a, b) && d <= a
    ensures CornerIn(c, xs, ys, p0, p1, d, b)
  {
  }

  lemma {:induction false} BlockIsCells(xs: seq<real>, ys: seq<real>, p0: nat, p1: nat, a: nat, b: nat)
    requires p0 <= p1 < |xs| && a <= b < |ys|
    ensures forall c | c in BlockCells(xs, ys, p0, p1, a, b) :: IsCell(xs, ys, c) && CornerIn(c, xs, ys, p0, p1, a, b)
  {
    hide IsCell, RowCells, CornerIn;
    if p0 < p1 {
      BlockIsCells(xs, ys, p0, p1 - 1, a, b);
      RowIsCells(xs, ys, p1 - 1, a, b);
      forall c | c in BlockCells(xs, ys, p0, p1, a, b) ensures IsCell(xs, ys, c) && CornerIn(c, xs, ys, p0, p1, a, b) {
        if c in RowCells(xs, ys, p1 - 1, a, b) {
          CornerWider(c, xs, ys, p1 - 1, p1, a, b, p0, p1, b);
        } else {
          CornerWider(c, xs, ys, p0, p1 - 1, a, b, p0, p1, b);
        }
      }
    }
  }

  lemma {:induction false} AllAreCells(xs: seq<real>, ys: seq<real>, us: seq<Unit>, k: nat)
    requires k <= |us| && AllOnLines(xs, ys, us, k)
    ensures forall c | c in AllCells(xs, ys, us, k) :: IsCell(xs, ys, c)
  {
    hide IsCell, CellsOf, OnLines;
    if k > 0 {
      AllAreCells(xs, ys, us, k - 1);
      UnitIsCells(xs, ys, us[k-1]);
    }
  }

  lemma {:induction false} UnitIsCells(xs: seq<real>, ys: seq<real>, u: Unit)
    ensures forall c | c in CellsOf(xs, ys, u) :: IsCell(xs, ys, c)
  {
    hide IsCell, BlockCells, Index;
    if Located(xs, ys, u) {
      BlockIsCells(xs, ys, Index(xs, u.leftx), Index(xs, Right(u)), Index(ys, u.bottomy), Index(ys, Top(u)));
    }
  }

  /** The lines of a tiling cut it into as many cells as there are gaps times gaps. */
  lemma {:induction false} CellCount(xs: seq<real>, ys: seq<real>, us: seq<Unit>, n: nat, chip: Unit)
    requires n <= |us| && AllOnLines(xs, ys, us, n) && Tiles(us, n, chip)
    requires Spans(xs, chip.leftx, Right(chip)) && Spans(ys, chip.bottomy, Top(chip))
    ensures |AllCells(xs, ys, us, n)| == (|xs| - 1) * (|ys| - 1)
  {
    var cells := AllCells(xs, ys, us, n);
    GridTiles(xs, ys, us, n, chip);
    AllAreCells(xs, ys, us, n);
    assert Spaced(xs) && Spaced(ys);
    hide *;
    GridTotalTiles(xs, ys, |xs| - 1, |ys| - 1, cells, |cells|, chip);
    CountCells(xs, ys, cells, |cells|);
    ChipGridCount(xs, ys, |ys| - 1, chip);
    assert |cells| as real == ((|ys| - 1) * (|xs| - 1)) as real;
  }

  // ---- the lines of a tiling ----

  /** A sorted list holds exactly the given edges. */
  ghost predicate LinesAre(s: seq<real>, edge: real -> bool) {
    Spaced(s) && forall v :: v in s <==> edge(v)
  }

  ghost function EdgesX(us: seq<Unit>, n: nat): real -> bool
    requires n <= |us|
  {
    v => EdgeX(us, n, v)
  }

  ghost function EdgesY(us: seq<Unit>, n: nat): real -> bool
    requires n <= |us|
  {
    v => EdgeY(us, n, v)
  }

  ghost function With(edge: real -> bool, v: real): real -> bool {
    w => edge(w) || w == v
  }

  lemma {:induction false} MoreEdges(us: seq<Unit>, i: nat, s: seq<real>, t: seq<real>)
    requires i < |us|
    requires LinesAre(s, With(With(EdgesX(us, i), us[i].leftx), Right(us[i])))
    requires LinesAre(t, With(With(EdgesY(us, i), us[i].bottomy), Top(us[i])))
    ensures LinesAre(s, EdgesX(us, i + 1)) && LinesAre(t, EdgesY(us, i + 1))
  {
    hide Spaced;
    forall v ensures EdgeX(us, i + 1, v) <==> EdgeX(us, i, v) || v == us[i].leftx || v == Right(us[i]) {
    }
    forall v ensures EdgeY(us, i + 1, v) <==> EdgeY(us, i, v) || v == us[i].bottomy || v == Top(us[i]) {
    }
  }

  /** The four edges of block i are crisp against those of the earlier blocks and each other. */
  lemma {:induction false} CrispAgainst(us: seq<Unit>, n: nat, i: nat, v: real)
    requires i < n <= |us| && CrispEdges(us, n)
    ensures EdgeX(us, i, v) && Eq(v, us[i].leftx) ==> v == us[i].leftx
    ensures (EdgeX(us, i, v) || v == us[i].leftx) && Eq(v, Right(us[i])) ==> v == Right(us[i])
    ensures EdgeY(us, i, v) && Eq(v, us[i].bottomy) ==> v == us[i].bottomy
    ensures (EdgeY(us, i, v) || v == us[i].bottomy) && Eq(v, Top(us[i])) ==> v == Top(us[i])
  {
    assert EdgeX(us, n, us[i].leftx) && EdgeX(us, n, Right(us[i]));
    assert EdgeY(us, n, us[i].bottomy) && EdgeY(us, n, Top(us[i]));
    assert EdgeX(us, i, v) ==> EdgeX(us, n, v);
    assert EdgeY(us, i, v) ==> EdgeY(us, n, v);
  }

  lemma {:induction false} BlockOnLines(us: seq<Unit>, n: nat, chip: Unit, xs: seq<real>, ys: seq<real>, i: nat)
    requires i < n <= |us| && Placement(us, n, chip)
    requires LinesAre(xs, EdgesX(us, n)) && LinesAre(ys, EdgesY(us, n))
    ensures OnLines(xs, ys, us[i])
    ensures Located(xs, ys, us[i])
  {
    assert Inside(us[i], chip);
    assert EdgeX(us, n, us[i].leftx) && EdgeX(us, n, Right(us[i]));
    assert EdgeY(us, n, us[i].bottomy) && EdgeY(us, n, Top(us[i]));
    assert EdgesX(us, n)(us[i].leftx) && EdgesX(us, n)(Right(us[i])) && EdgesY(us, n)(us[i].bottomy) && EdgesY(us, n)(Top(us[i]));
    hide EdgesX, EdgesY, EdgeX, EdgeY, Placement, Index, Located;
    LineIndices(xs, ys, us[i]);
  }

  lemma {:induction false} EdgesWithin(us: seq<Unit>, n: nat, chip: Unit)
    requires n <= |us| && Placement(us, n, chip)
    ensures forall v | EdgeX(us, n, v) :: chip.leftx <= v <= Right(chip)
    ensures forall v | EdgeY(us, n, v) :: chip.bottomy <= v <= Top(chip)
  {
    forall v | EdgeX(us, n, v) ensures chip.leftx <= v <= Right(chip) {
      var i :| 0 <= i < n && (v == us[i].leftx || v == Right(us[i]));
      assert Inside(us[i], chip);
    }
    forall v | EdgeY(us, n, v) ensures chip.bottomy <= v <= Top(chip) {
      var i :| 0 <= i < n && (v == us[i].bottomy || v == Top(us[i]));
      assert Inside(us[i], chip);
    }
  }

  /** On the lines of a tiling every block lies, and they run from edge to edge. */
  lemma {:induction false} LinesOfTiling(us: seq<Unit>, n: nat, chip: Unit, xs: seq<real>, ys: seq<real>)
    requires n <= |us| && Tiles(us, n, chip) && Placement(us, n, chip)
    requires LinesAre(xs, EdgesX(us, n)) && LinesAre(ys, EdgesY(us, n))
    ensures AllOnLines(xs, ys, us, n)
    ensures Spans(xs, chip.leftx, Right(chip)) && Spans(ys, chip.bottomy, Top(chip))
  {
    assert chip.width > 0.0 && chip.height > 0.0;
    ChipEdges(us, n, chip);
    EdgesWithin(us, n, chip);
    assert forall v :: EdgesX(us, n)(v) == EdgeX(us, n, v) && EdgesY(us, n)(v) == EdgeY(us, n, v);
    hide Tiles, Index, Located, OnLines, EdgesX, EdgesY, EdgeX, EdgeY, Placement, Spaced;
    LineEnds(xs, chip.leftx, Right(chip));
    LineEnds(ys, chip.bottomy, Top(chip));
    hide LinesAre, Spans;
    forall i | 0 <= i < n
      ensures OnLines(xs, ys, us[i]) && Located(xs, ys, us[i])
    {
      BlockOnLines(us, n, chip, xs, ys, i);
    }
    assert Spaced(xs) && Spaced(ys) by { LinesSpaced(xs, EdgesX(us, n)); LinesSpaced(ys, EdgesY(us, n)); }
  }

  lemma {:induction false} LinesSpaced(s: seq<real>, edge: real -> bool)
    requires LinesAre(s, edge)
    ensures Spaced(s)
  {
  }

  lemma {:induction false} LineEnds(s: seq<real>, lo: real, hi: real)
    requires Spaced(s) && lo in s && hi in s && lo < hi && forall v | v in s :: lo <= v <= hi
    ensures Spans(s, lo, hi)
  {
    var i :| 0 <= i < |s| && s[i] == lo;
    var j :| 0 <= j < |s| && s[j] == hi;
    assert s[0] in s && s[|s|-1] in s;
    SpacedAt(s, 0, i);
    SpacedAt(s, j, |s| - 1);
    hide Spaced;
  }

  lemma {:induction false} ChipEdges(us: seq<Unit>, n: nat, chip: Unit)
    requires n <= |us| && Tiles(us, n, chip) && Placement(us, n, chip)
    ensures EdgeX(us, n, chip.leftx) && EdgeX(us, n, Right(chip)) && EdgeY(us, n, chip.bottomy) && EdgeY(us, n, Top(chip))
  {
    var x := FindLastColumn(us, n, chip);
    var y := FindLastRow(us, n, chip);
    assert SumRange(us, 0, n, At(chip.leftx, chip.bottomy)) == At(chip.leftx, chip.bottomy)(chip);
    assert SumRange(us, 0, n, At(x, y)) == At(x, y)(chip);
    hide Tiles;
    var i := SomeCovers(us, n, chip.leftx, chip.bottomy);
    var k := SomeCovers(us, n, x, y);
    assert Inside(us[i], chip) && us[i].leftx == chip.leftx && us[i].bottomy == chip.bottomy;
    assert ReachesEast(us[k], chip, x) && ReachesNorth(us[k], chip, y);
  }

  // ---- how many lines ----

  /** No more than m lines, pairwise at least the tolerance apart, can be drawn through
      these edges. */
  ghost predicate LinesFit(edge: real -> bool, m: nat) {
    forall s: seq<real> :: LinesAmong(s, edge) ==> |s| <= m
  }

  ghost predicate LinesAmong(s: seq<real>, edge: real -> bool) {
    Spaced(s) && forall v | v in s :: edge(v)
  }

  lemma {:induction false} AtMostSet(s: seq<real>, all: set<real>)
    requires Spaced(s) && forall v | v in s :: v in all
    ensures |s| <= |all|
  {
    if s != [] {
      var rest, last := s[..|s|-1], s[|s|-1];
      assert last in s && forall v | v in rest :: v in s;
      AtMostSet(rest, all - {last});
    }
  }

  function LeftEdges(us: seq<Unit>, n: nat): (r: set<real>)
    requires n <= |us|
    ensures |r| <= n && forall i | 0 <= i < n :: us[i].leftx in r
  {
    if n == 0 then {} else LeftEdges(us, n - 1) + {us[n-1].leftx}
  }

  function RightEdges(us: seq<Unit>, n: nat): (r: set<real>)
    requires n <= |us|
    ensures |r| <= n && forall i | 0 <= i < n :: Right(us[i]) in r
  {
    if n == 0 then {} else RightEdges(us, n - 1) + {Right(us[n-1])}
  }

  /** Two edges a block: never more than 2n lines. */
  lemma {:induction false} TwiceFits(us: seq<Unit>, n: nat)
    requires n <= |us|
    ensures LinesFit(EdgesX(us, n), 2 * n) && LinesFit(EdgesY(us, n), 2 * n)
  {
    TwiceFitsX(us, n);
    TwiceFitsX(TurnedAll(us), n);
    EdgesTurned(us, n);
    hide EdgesX, EdgesY;
  }

  lemma {:induction false} TwiceFitsX(us: seq<Unit>, n: nat)
    requires n <= |us|
    ensures LinesFit(EdgesX(us, n), 2 * n)
  {
    var all := LeftEdges(us, n) + RightEdges(us, n);
    forall s: seq<real> | LinesAmong(s, EdgesX(us, n)) ensures |s| <= 2 * n {
      forall v | v in s ensures v in all { assert EdgesX(us, n)(v); }
      AtMostSet(s, all);
    }
  }

  lemma {:induction false} EdgesTurned(us: seq<Unit>, n: nat)
    requires n <= |us|
    ensures forall m: nat | LinesFit(EdgesX(TurnedAll(us), n), m) :: LinesFit(EdgesY(us, n), m)
  {
    var vs := TurnedAll(us);
    forall v ensures EdgesX(vs, n)(v) == EdgesY(us, n)(v) {
      if EdgeY(us, n, v) {
        var i :| 0 <= i < n && (v == us[i].bottomy || v == Top(us[i]));
        assert v == vs[i].leftx || v == Right(vs[i]);
      }
      if EdgeX(vs, n, v) {
        var i :| 0 <= i < n && (v == vs[i].leftx || v == Right(vs[i]));
        assert v == us[i].bottomy || v == Top(us[i]);
      }
    }
    hide EdgesX, EdgesY;
    forall m: nat, s: seq<real> | LinesFit(EdgesX(vs, n), m) && LinesAmong(s, EdgesY(us, n)) ensures |s| <= m {
      assert LinesAmong(s, EdgesX(vs, n));
    }
  }

  /** In a tiling the right edge of a block with area is the left edge of another, unless it
      is that of the chip. */
  lemma {:induction false} RightIsLeft(us: seq<Unit>, n: nat, chip: Unit, i: nat) returns (k: nat)
    requires n <= |us| && Tiles(us, n, chip) && Placement(us, n, chip) && i < n && Solid(us[i]) && Right(us[i]) != Right(chip)
    ensures k < n && us[k].leftx == Right(us[i])
  {
    var u := us[i];
    var x, y := Right(u), u.bottomy;
    assert Inside(u, chip);
    assert SumRange(us, 0, n, At(x, y)) == At(x, y)(chip);
    k := SomeCovers(us, n, x, y);
    if us[k].leftx < x {
      var z := if us[k].leftx < u.leftx then u.leftx else us[k].leftx;
      hide Tiles;
      OneCovers(us, n, chip, z, y, i, k);
    }
  }

  /** A tiling by blocks with area has at most n + 1 lines along each axis. */
  lemma {:induction false} TilingLinesFit(us: seq<Unit>, n: nat, chip: Unit)
    requires n <= |us| && Tiles(us, n, chip) && Placement(us, n, chip) && forall i | 0 <= i < n :: Solid(us[i])
    ensures LinesFit(EdgesX(us, n), n + 1) && LinesFit(EdgesY(us, n), n + 1)
  {
    hide Tiles, Placement, EdgesX, EdgesY;
    TilingLinesFitX(us, n, chip);
    TurnedTiles(us, n, chip);
    TilingLinesFitX(TurnedAll(us), n, Turned(chip));
    EdgesTurned(us, n);
  }

  lemma {:induction false} TilingLinesFitX(us: seq<Unit>, n: nat, chip: Unit)
    requires n <= |us| && Tiles(us, n, chip) && Placement(us, n, chip) && forall i | 0 <= i < n :: Solid(us[i])
    ensures LinesFit(EdgesX(us, n), n + 1)
  {
    hide Tiles, Placement;
    var all := LeftEdges(us, n) + {Right(chip)};
    forall v | EdgeX(us, n, v) ensures v in all {
      var i :| 0 <= i < n && (v == us[i].leftx || v == Right(us[i]));
      if v == Right(us[i]) && v != Right(chip) {
        var k := RightIsLeft(us, n, chip, i);
      }
    }
    forall s: seq<real> | LinesAmong(s, EdgesX(us, n)) ensures |s| <= n + 1 {
      forall v | v in s ensures v in all { assert EdgesX(us, n)(v); }
      AtMostSet(s, all);
    }
  }

  /** Another edge that is not yet a line still fits. */
  lemma {:induction false} OneMoreFits(s: seq<real>, ele: real, edge: real -> bool, m: nat)
    requires LinesFit(edge, m) && LinesAmong(s, edge) && edge(ele) && (forall v | v in s && Eq(v, ele) :: v == ele)
    ensures |s| <= m && (!Search(s, 0, |s|, ele).0 ==> |s| < m)
  {
    InsertCrisp(s, ele);
    hide Spaced, Search;
    assert LinesAmong(Inserted(s, ele), edge);
  }
}
