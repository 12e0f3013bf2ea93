/** Building the equivalent grid floorplan and carrying block power over to it. */
module FlpGrid {
  import opened Sums
  import opened Numbers
  import opened Rectangles
  import opened RimStrips
  import opened TolerantSearch
  import opened FlpGridSpec
  import opened TreeToFlp

  const MAX_UNITS := 8192

  // ---- the lines ----

  /** Inserts one edge; edges within the tolerance of it are equal to it. */
  method InsertLine(arr: array<real>, n: nat, ele: real, ghost edge: real -> bool, ghost every: real -> bool)
    returns (n': nat)
    requires n <= arr.Length && LinesAre(arr[..n], edge) && forall v | edge(v) && Eq(v, ele) :: v == ele
    requires LinesFit(every, arr.Length) && every(ele) && forall v | edge(v) :: every(v)
    modifies arr
    ensures n <= n' <= arr.Length && LinesAre(arr[..n'], With(edge, ele))
  {
    ghost var s := arr[..n];
    InsertCrisp(s, ele);
    OneMoreFits(s, ele, every, arr.Length);
    hide Spaced, Inserted, Search, LinesFit;
    var inserted := BsearchInsertDouble(arr, n, ele);
    n' := if inserted then n + 1 else n;
  }

  lemma {:induction false} EdgesAmongAll(us: seq<Unit>, n: nat, i: nat)
    requires i < n <= |us|
    ensures forall v | EdgesX(us, i)(v) :: EdgesX(us, n)(v)
    ensures forall v | EdgesY(us, i)(v) :: EdgesY(us, n)(v)
    ensures EdgesX(us, n)(us[i].leftx) && EdgesX(us, n)(Right(us[i])) && EdgesY(us, n)(us[i].bottomy) && EdgesY(us, n)(Top(us[i]))
  {
    assert EdgeX(us, n, us[i].leftx) && EdgeX(us, n, Right(us[i]));
    assert EdgeY(us, n, us[i].bottomy) && EdgeY(us, n, Top(us[i]));
  }

  method CollectUnit(flp: Floorplan, i: nat, x: array<real>, xsize: nat, y: array<real>, ysize: nat, ghost us: seq<Unit>)
    returns (xsize': nat, ysize': nat)
    requires i < flp.nUnits <= flp.units.Length && us == flp.units[..] && CrispEdges(us, flp.nUnits)
    requires x != y && xsize <= x.Length && ysize <= y.Length
    requires LinesFit(EdgesX(us, flp.nUnits), x.Length) && LinesFit(EdgesY(us, flp.nUnits), y.Length)
    requires LinesAre(x[..xsize], EdgesX(us, i)) && LinesAre(y[..ysize], EdgesY(us, i))
    modifies x, y
    ensures xsize' <= x.Length && ysize' <= y.Length
    ensures LinesAre(x[..xsize'], EdgesX(us, i + 1)) && LinesAre(y[..ysize'], EdgesY(us, i + 1))
  {
    var u := flp.units[i];
    var r, t := u.leftx + u.width, u.bottomy + u.height;
    ghost var ex, ey := EdgesX(us, i), EdgesY(us, i);
    forall v ensures (ex(v) && Eq(v, u.leftx) ==> v == u.leftx) && (With(ex, u.leftx)(v) && Eq(v, r) ==> v == r) {
      CrispAgainst(us, flp.nUnits, i, v);
    }
    forall v ensures (ey(v) && Eq(v, u.bottomy) ==> v == u.bottomy) && (With(ey, u.bottomy)(v) && Eq(v, t) ==> v == t) {
      CrispAgainst(us, flp.nUnits, i, v);
    }
    ghost var ax, ay := EdgesX(us, flp.nUnits), EdgesY(us, flp.nUnits);
    EdgesAmongAll(us, flp.nUnits, i);
    hide LinesAre, CrispEdges, EdgesX, EdgesY, LinesFit;
    xsize' := InsertLine(x, xsize, u.leftx, ex, ax);
    ysize' := InsertLine(y, ysize, u.bottomy, ey, ay);
    xsize' := InsertLine(x, xsize', r, With(ex, u.leftx), ax);
    ysize' := InsertLine(y, ysize', t, With(ey, u.bottomy), ay);
    MoreEdges(us, i, x[..xsize'], y[..ysize']);
  }

  /** The line buffers are large enough. */
  ghost predicate BuffersHold(us: seq<Unit>, n: nat)
    requires n <= |us|
  {
    LinesFit(EdgesX(us, n), MAX_UNITS) && LinesFit(EdgesY(us, n), MAX_UNITS)
  }

  /** They are for any blocks up to half their size, and for tilings by blocks with area up
      to one less than their size. */
  lemma {:induction false} BuffersSuffice(us: seq<Unit>, n: nat, chip: Unit)
    requires n <= |us|
    requires 2 * n <= MAX_UNITS
          || (n + 1 <= MAX_UNITS && Tiles(us, n, chip) && Placement(us, n, chip) && forall i | 0 <= i < n :: Solid(us[i]))
    ensures BuffersHold(us, n)
  {
    hide Tiles, Placement, EdgesX, EdgesY;
    if 2 * n <= MAX_UNITS { TwiceFits(us, n); } else { TilingLinesFit(us, n, chip); }
    hide LinesAmong;
  }

  /** Sorts the blocks' boundary coordinates. */
  method CollectLines(flp: Floorplan) returns (x: array<real>, xsize: nat, y: array<real>, ysize: nat)
    requires flp.nUnits <= flp.units.Length && BuffersHold(flp.units[..], flp.nUnits) && CrispEdges(flp.units[..], flp.nUnits)
    ensures fresh(x) && fresh(y) && x != y && xsize <= x.Length && ysize <= y.Length
    ensures LinesAre(x[..xsize], EdgesX(flp.units[..], flp.nUnits)) && LinesAre(y[..ysize], EdgesY(flp.units[..], flp.nUnits))
  {
    ghost var us := flp.units[..];
    x, y := new real[MAX_UNITS](_ => 0.0), new real[MAX_UNITS](_ => 0.0);
    xsize, ysize := 0, 0;
    hide CrispEdges, LinesFit;
    for i := 0 to flp.nUnits
      invariant us == flp.units[..] && xsize <= x.Length == MAX_UNITS && ysize <= y.Length == MAX_UNITS
      invariant LinesAre(x[..xsize], EdgesX(us, i)) && LinesAre(y[..ysize], EdgesY(us, i))
    {
      hide LinesAre;
      xsize, ysize := CollectUnit(flp, i, x, xsize, y, ysize, us);
    }
  }

  // ---- the cells ----

  ghost predicate NoCorner(cells: seq<Unit>, lx: real, ly: real) {
    forall k | 0 <= k < |cells| :: cells[k].leftx != lx || cells[k].bottomy != ly
  }

  lemma {:induction false} CornerCovered(xs: seq<real>, ys: seq<real>, u: Unit, c: Unit)
    requires Spaced(xs) && Spaced(ys) && OnLines(xs, ys, u)
    requires CornerIn(c, xs, ys, Index(xs, u.leftx), Index(xs, Right(u)), Index(ys, u.bottomy), Index(ys, Top(u)))
    ensures Covers(u, c.leftx, c.bottomy)
  {
    hide Index, Spaced, OnLines, Search;
    LineIndices(xs, ys, u);
    var p, q :| Index(xs, u.leftx) <= p < Index(xs, Right(u)) && p < |xs| && Index(ys, u.bottomy) <= q < Index(ys, Top(u)) && q < |ys|
      && c.leftx == xs[p] && c.bottomy == ys[q];
    SpacedAt(xs, Index(xs, u.leftx), p);
    SpacedAt(xs, p, Index(xs, Right(u)));
    SpacedAt(ys, Index(ys, u.bottomy), q);
    SpacedAt(ys, q, Index(ys, Top(u)));
  }

  lemma {:induction false} CellsCovered(xs: seq<real>, ys: seq<real>, u: Unit, c: Unit)
    requires Spaced(xs) && Spaced(ys) && OnLines(xs, ys, u) && c in CellsOf(xs, ys, u)
    ensures Covers(u, c.leftx, c.bottomy)
  {
    hide Index, OnLines, Spaced, BlockCells, CornerIn, IsCell;
    BlockIsCells(xs, ys, Index(xs, u.leftx), Index(xs, Right(u)), Index(ys, u.bottomy), Index(ys, Top(u)));
    CornerCovered(xs, ys, u, c);
  }

  lemma {:induction false} CellOwner(xs: seq<real>, ys: seq<real>, us: seq<Unit>, k: nat, c: Unit)
    requires k <= |us| && AllOnLines(xs, ys, us, k) && c in AllCells(xs, ys, us, k)
    ensures exists j :: 0 <= j < k && Covers(us[j], c.leftx, c.bottomy)
  {
    hide Index, Located, OnLines, Spaced, CellsOf, Covers;
    if k > 0 {
      if c in CellsOf(xs, ys, us[k-1]) {
        CellsCovered(xs, ys, us[k-1], c);
      } else {
        CellOwner(xs, ys, us, k - 1, c);
      }
    }
  }

  /** No earlier block owns a cell at this corner. */
  lemma {:induction false} NotInEarlier(xs: seq<real>, ys: seq<real>, us: seq<Unit>, n: nat, chip: Unit, i: nat, p: nat, q: nat)
    requires n <= |us| && Tiles(us, n, chip) && AllOnLines(xs, ys, us, n) && i < n
    requires AtCell(xs, ys, us[i], p, q)
    ensures NoCorner(AllCells(xs, ys, us, i), xs[p], ys[q])
  {
    var cells, u := AllCells(xs, ys, us, i), us[i];
    var c := Unit(0.0, 0.0, xs[p], ys[q]);
    assert CornerIn(c, xs, ys, Index(xs, u.leftx), Index(xs, Right(u)), Index(ys, u.bottomy), Index(ys, Top(u)));
    CornerCovered(xs, ys, u, c);
    hide Tiles, AllCells, Index, CornerIn;
    forall k | 0 <= k < |cells| ensures cells[k].leftx != xs[p] || cells[k].bottomy != ys[q] {
      CellOwner(xs, ys, us, i, cells[k]);
      var j :| 0 <= j < i && Covers(us[j], cells[k].leftx, cells[k].bottomy);
      if Covers(us[j], xs[p], ys[q]) {
        OneCovers(us, n, chip, xs[p], ys[q], j, i);
        assert false;
      }
    }
  }

  lemma {:induction false} NotInColumns(xs: seq<real>, ys: seq<real>, p0: nat, p: nat, a: nat, b: nat, q: nat)
    requires Spaced(xs) && Spaced(ys) && p0 <= p < |xs| - 1 && a <= q < b < |ys|
    ensures NoCorner(BlockCells(xs, ys, p0, p, a, b) + RowCells(xs, ys, p, a, q), xs[p], ys[q])
  {
    BlockIsCells(xs, ys, p0, p, a, b);
    RowIsCells(xs, ys, p, a, q);
    var left, below := BlockCells(xs, ys, p0, p, a, b), RowCells(xs, ys, p, a, q);
    hide BlockCells, RowCells, IsCell;
    var both: seq<Unit> := left + below;
    forall k | 0 <= k < |both| ensures both[k].leftx != xs[p] || both[k].bottomy != ys[q] {
      var c := both[k];
      if k < |left| {
        assert c in left;
        var i, j :| p0 <= i < p && i < |xs| && a <= j < b && j < |ys| && c.leftx == xs[i] && c.bottomy == ys[j];
        SpacedAt(xs, i, p);
      } else {
        assert c in below;
        var i, j :| p <= i < p + 1 && i < |xs| && a <= j < q && j < |ys| && c.leftx == xs[i] && c.bottomy == ys[j];
        SpacedAt(ys, j, q);
      }
      hide Spaced, CornerIn;
    }
  }

  /** Block i covers column p; column p and row q. */
  predicate AtColumn(xs: seq<real>, ys: seq<real>, u: Unit, p: nat) {
    Located(xs, ys, u) && Index(xs, u.leftx) <= p < Index(xs, Right(u))
  }

  predicate AtCell(xs: seq<real>, ys: seq<real>, u: Unit, p: nat, q: nat) {
    AtColumn(xs, ys, u, p) && Index(ys, u.bottomy) <= q < Index(ys, Top(u))
  }

  /** The cells of a block before column p and row q of its own. */
  function CellsTo(xs: seq<real>, ys: seq<real>, u: Unit, p: nat, q: nat): seq<Unit> {
    if AtColumn(xs, ys, u, p) && Index(ys, u.bottomy) <= q <= Index(ys, Top(u)) then
      BlockCells(xs, ys, Index(xs, u.leftx), p, Index(ys, u.bottomy), Index(ys, Top(u)))
      + RowCells(xs, ys, p, Index(ys, u.bottomy), q)
    else CellsOf(xs, ys, u)
  }

  /** The cells listed when block i has come to column p and row q. */
  ghost function Listed(xs: seq<real>, ys: seq<real>, us: seq<Unit>, i: nat, p: nat, q: nat): seq<Unit>
    requires i < |us|
  {
    AllCells(xs, ys, us, i) + CellsTo(xs, ys, us[i], p, q)
  }

  /** The cell about to be added is not there yet. */
  lemma {:induction false} NotYet(xs: seq<real>, ys: seq<real>, us: seq<Unit>, n: nat, chip: Unit, i: nat, p: nat, q: nat)
    requires n <= |us| && Tiles(us, n, chip) && AllOnLines(xs, ys, us, n) && i < n
    requires AtCell(xs, ys, us[i], p, q)
    ensures NoCorner(Listed(xs, ys, us, i, p, q), xs[p], ys[q])
  {
    NotInEarlier(xs, ys, us, n, chip, i, p, q);
    NotInColumns(xs, ys, Index(xs, us[i].leftx), p, Index(ys, us[i].bottomy), Index(ys, Top(us[i])), q);
    hide AllCells, BlockCells, RowCells, Tiles, Index;
  }

  method FindCell(grid: Floorplan, count: nat, lx: real, ly: real) returns (found: bool)
    requires count <= grid.units.Length
    ensures found <==> !NoCorner(grid.units[..count], lx, ly)
  {
    found := false;
    for n := 0 to count
      invariant NoCorner(grid.units[..n], lx, ly)
    {
      if grid.units[n].leftx == lx && grid.units[n].bottomy == ly {
        found := true;
        assert grid.units[..count][n] == grid.units[n];
        break;
      }
    }
  }

  function Range(a: nat, k: nat): (r: seq<nat>)
    ensures |r| == k && forall j | 0 <= j < k :: r[j] == a + j
  {
    seq(k, j requires 0 <= j < k => a + j)
  }

  lemma {:induction false} ListedNext(xs: seq<real>, ys: seq<real>, us: seq<Unit>, i: nat, p: nat, q: nat)
    requires i < |us| && AllOnLines(xs, ys, us, i + 1)
    requires AtCell(xs, ys, us[i], p, q)
    ensures Listed(xs, ys, us, i, p, q + 1) == Listed(xs, ys, us, i, p, q) + [Cell(xs, ys, p, q)]
    ensures |Listed(xs, ys, us, i, p, q)| < |AllCells(xs, ys, us, i + 1)|
  {
    hide Index, Spaced, OnLines;
    var p0, p1, a, b := Index(xs, us[i].leftx), Index(xs, Right(us[i])), Index(ys, us[i].bottomy), Index(ys, Top(us[i]));
    RowLength(xs, ys, p, a, q, b);
    BlockLength(xs, ys, p0, p, p1, a, b);
  }

  lemma {:induction false} RowLength(xs: seq<real>, ys: seq<real>, p: nat, a: nat, q: nat, b: nat)
    requires p < |xs| - 1 && a <= q <= b < |ys|
    ensures |RowCells(xs, ys, p, a, q)| + (b - q) == |RowCells(xs, ys, p, a, b)|
  {
    if q < b { RowLength(xs, ys, p, a, q, b - 1); }
  }

  lemma {:induction false} BlockLength(xs: seq<real>, ys: seq<real>, p0: nat, p: nat, p1: nat, a: nat, b: nat)
    requires p0 <= p < p1 < |xs| && a <= b < |ys|
    ensures |BlockCells(xs, ys, p0, p, a, b)| + |RowCells(xs, ys, p, a, b)| <= |BlockCells(xs, ys, p0, p1, a, b)|
  {
    hide RowCells;
    if p < p1 - 1 { BlockLength(xs, ys, p0, p, p1 - 1, a, b); }
  }

  lemma {:induction false} AllCellsRise(xs: seq<real>, ys: seq<real>, us: seq<Unit>, i: nat, n: nat)
    requires i <= n <= |us|
    ensures |AllCells(xs, ys, us, i)| <= |AllCells(xs, ys, us, n)|
  {
    hide CellsOf, Index, OnLines;
    if i < n { AllCellsRise(xs, ys, us, i, n - 1); }
  }

  /** Block i's entry of the map: consecutive positions from where its cells start. */
  ghost predicate MapEntry(m: seq<nat>, start: nat, count: nat) {
    start <= count && m == Range(start, count - start)
  }

  /** The grid holds exactly these cells, and the map gives block i the positions from
      start on; its other entries are as in m. */
  ghost predicate Holds(grid: Floorplan, map_: array<seq<nat>>, count: nat, cells: seq<Unit>, start: nat, i: nat, m: seq<seq<nat>>)
    reads grid.units, map_
  {
    && count == |cells| <= grid.units.Length && grid.units[..count] == cells
    && |m| == map_.Length && i < |m| && map_[..] == m[i := map_[i]] && MapEntry(map_[i], start, count)
  }

  /** Adds the cell at (p, q) for block i unless a cell with that corner is there; none is. */
  method AddCell(grid: Floorplan, map_: array<seq<nat>>, count: nat, i: nat, xs: seq<real>, ys: seq<real>, p: nat, q: nat,
                 ghost cells: seq<Unit>, ghost start: nat, ghost m: seq<seq<nat>>)
    returns (count': nat)
    requires count < grid.units.Length && p < |xs| - 1 && q < |ys| - 1
    requires Holds(grid, map_, count, cells, start, i, m) && NoCorner(cells, xs[p], ys[q])
    modifies grid.units, map_
    ensures Holds(grid, map_, count', cells + [Cell(xs, ys, p, q)], start, i, m)
  {
    count' := count;
    var found := FindCell(grid, count, xs[p], ys[q]);
    if !found {
      grid.units[count] := Unit(xs[p + 1] - xs[p], ys[q + 1] - ys[q], xs[p], ys[q]);
      map_[i] := map_[i] + [count];
      count' := count + 1;
      assert map_[i] == Range(start, count' - start);
    }
  }

  /** The lines of a tiling floorplan. */
  ghost predicate Cut(xs: seq<real>, ys: seq<real>, us: seq<Unit>, n: nat, chip: Unit) {
    n <= |us| && Tiles(us, n, chip) && AllOnLines(xs, ys, us, n)
  }

  /** What adding the cell at (p, q) needs, and what it gives. */
  lemma {:induction false} ListedStep(xs: seq<real>, ys: seq<real>, us: seq<Unit>, n: nat, chip: Unit, i: nat, p: nat, q: nat)
    requires Cut(xs, ys, us, n, chip) && i < n && AtCell(xs, ys, us[i], p, q)
    ensures p < |xs| - 1 && q < |ys| - 1 && NoCorner(Listed(xs, ys, us, i, p, q), xs[p], ys[q])
    ensures Listed(xs, ys, us, i, p, q + 1) == Listed(xs, ys, us, i, p, q) + [Cell(xs, ys, p, q)]
    ensures |Listed(xs, ys, us, i, p, q)| < |AllCells(xs, ys, us, n)|
  {
    assert p < |xs| - 1 && q < |ys| - 1;
    hide Tiles, Index, AllCells, Listed, OnLines, NoCorner, Cell;
    AllCellsRise(xs, ys, us, i + 1, n);
    NotYet(xs, ys, us, n, chip, i, p, q);
    ListedNext(xs, ys, us, i, p, q);
  }

  /** One column of one block. */
  method AddColumn(grid: Floorplan, map_: array<seq<nat>>, count: nat, i: nat, xs: seq<real>, ys: seq<real>, p: nat, q0: nat, q1: nat,
                   ghost us: seq<Unit>, ghost n: nat, ghost chip: Unit, ghost m: seq<seq<nat>>, ghost start: nat)
    returns (count': nat)
    requires Cut(xs, ys, us, n, chip) && i < n <= |us| && |AllCells(xs, ys, us, n)| <= grid.units.Length && q0 <= q1
    requires forall q | q0 <= q < q1 :: AtCell(xs, ys, us[i], p, q)
    requires Holds(grid, map_, count, Listed(xs, ys, us, i, p, q0), start, i, m)
    modifies grid.units, map_
    ensures Holds(grid, map_, count', Listed(xs, ys, us, i, p, q1), start, i, m)
  {
    hide Cut, AllCells, Listed, AtCell, NoCorner, Cell, Index;
    count' := count;
    for q := q0 to q1
      invariant Holds(grid, map_, count', Listed(xs, ys, us, i, p, q), start, i, m)
    {
      ListedStep(xs, ys, us, n, chip, i, p, q);
      count' := AddCell(grid, map_, count', i, xs, ys, p, q, Listed(xs, ys, us, i, p, q), start, m);
    }
  }

  lemma {:induction false} ListedEnds(xs: seq<real>, ys: seq<real>, us: seq<Unit>, i: nat)
    requires i < |us| && Located(xs, ys, us[i])
    ensures Listed(xs, ys, us, i, Index(xs, us[i].leftx), Index(ys, us[i].bottomy))
         == if Index(xs, us[i].leftx) < Index(xs, Right(us[i])) then AllCells(xs, ys, us, i) else AllCells(xs, ys, us, i + 1)
    ensures Index(xs, us[i].leftx) == Index(xs, Right(us[i])) ==> AllCells(xs, ys, us, i) == AllCells(xs, ys, us, i + 1)
    ensures Listed(xs, ys, us, i, Index(xs, Right(us[i])), Index(ys, us[i].bottomy)) == AllCells(xs, ys, us, i + 1)
  {
    hide Index;
  }

  /** The top of one column is the bottom of the next. */
  lemma {:induction false} ListedTurn(xs: seq<real>, ys: seq<real>, us: seq<Unit>, i: nat, p: nat)
    requires i < |us| && AtColumn(xs, ys, us[i], p)
    ensures Listed(xs, ys, us, i, p, Index(ys, Top(us[i]))) == Listed(xs, ys, us, i, p + 1, Index(ys, us[i].bottomy))
  {
    hide Index;
  }

  lemma {:induction false} BlockRange(xs: seq<real>, ys: seq<real>, u: Unit, p0: nat, p1: nat, q0: nat, q1: nat)
    requires Located(xs, ys, u)
    requires p0 == Index(xs, u.leftx) && p1 == Index(xs, Right(u)) && q0 == Index(ys, u.bottomy) && q1 == Index(ys, Top(u))
    ensures p0 <= p1 && q0 <= q1
    ensures forall p | p0 <= p < p1 :: AtColumn(xs, ys, u, p)
    ensures forall p, q | p0 <= p < p1 && q0 <= q < q1 :: AtCell(xs, ys, u, p, q)
  {
    hide Index;
  }

  /** All cells of one block. */
  method AddUnit(grid: Floorplan, map_: array<seq<nat>>, count: nat, i: nat, xs: seq<real>, ys: seq<real>, p0: nat, p1: nat, q0: nat, q1: nat,
                 ghost us: seq<Unit>, ghost n: nat, ghost chip: Unit, ghost m: seq<seq<nat>>, ghost start: nat)
    returns (count': nat)
    requires Cut(xs, ys, us, n, chip) && i < n <= |us| && |AllCells(xs, ys, us, n)| <= grid.units.Length && Located(xs, ys, us[i])
    requires p0 == Index(xs, us[i].leftx) && p1 == Index(xs, Right(us[i])) && q0 == Index(ys, us[i].bottomy) && q1 == Index(ys, Top(us[i]))
    requires Holds(grid, map_, count, AllCells(xs, ys, us, i), start, i, m)
    modifies grid.units, map_
    ensures Holds(grid, map_, count', AllCells(xs, ys, us, i + 1), start, i, m)
  {
    hide *;
    ListedEnds(xs, ys, us, i);
    BlockRange(xs, ys, us[i], p0, p1, q0, q1);
    count' := count;
    for p := p0 to p1
      invariant Holds(grid, map_, count', Listed(xs, ys, us, i, p, q0), start, i, m)
    {
      ListedTurn(xs, ys, us, i, p);
      count' := AddColumn(grid, map_, count', i, xs, ys, p, q0, q1, us, n, chip, m, start);
    }
  }

  ghost predicate MapIs(map_: seq<seq<nat>>, xs: seq<real>, ys: seq<real>, us: seq<Unit>, k: nat)
    requires k <= |us|
  {
    k <= |map_| && forall i | 0 <= i < k :: MapEntry(map_[i], |AllCells(xs, ys, us, i)|, |AllCells(xs, ys, us, i + 1)|)
  }

  lemma {:induction false} CutLines(xs: seq<real>, ys: seq<real>, us: seq<Unit>, n: nat, chip: Unit, i: nat)
    requires Cut(xs, ys, us, n, chip) && i < n
    ensures i < |us| && Spaced(xs) && Spaced(ys) && OnLines(xs, ys, us[i]) && Located(xs, ys, us[i])
  {
    hide Spaced, OnLines, Located, Tiles;
  }

  /** Finds the lines of a block's edges and adds its cells. */
  method FillUnit(u: Unit, grid: Floorplan, map_: array<seq<nat>>, count: nat, i: nat, xs: seq<real>, ys: seq<real>,
                  ghost us: seq<Unit>, ghost n: nat, ghost chip: Unit)
    returns (count': nat)
    requires Cut(xs, ys, us, n, chip) && i < n <= |us| && u == us[i] && |AllCells(xs, ys, us, n)| <= grid.units.Length
    requires map_.Length == n && count <= grid.units.Length && grid.units[..count] == AllCells(xs, ys, us, i)
    requires MapIs(map_[..], xs, ys, us, i) && forall j | i <= j < n :: map_[j] == []
    modifies grid.units, map_
    ensures count' <= grid.units.Length && grid.units[..count'] == AllCells(xs, ys, us, i + 1)
    ensures MapIs(map_[..], xs, ys, us, i + 1) && forall j | i < j < n :: map_[j] == []
  {
    hide Cut, AllCells, Index, Located, Search, Spaced, OnLines, MapIs;
    ghost var m := map_[..];
    assert |grid.units[..count]| == count;
    assert map_[i] == Range(count, 0);
    CutLines(xs, ys, us, n, chip, i);
    var p0, p1, q0, q1 := Locate(u, xs, ys);
    count' := AddUnit(grid, map_, count, i, xs, ys, p0, p1, q0, q1, us, n, chip, m, count);
    MapExtended(m, map_[..], xs, ys, us, i);
  }

  lemma {:induction false} MapExtended(m: seq<seq<nat>>, m': seq<seq<nat>>, xs: seq<real>, ys: seq<real>, us: seq<Unit>, i: nat)
    requires i < |us| && i < |m| == |m'| && MapIs(m, xs, ys, us, i) && m' == m[i := m'[i]]
    requires MapEntry(m'[i], |AllCells(xs, ys, us, i)|, |AllCells(xs, ys, us, i + 1)|)
    ensures MapIs(m', xs, ys, us, i + 1)
  {
    hide MapEntry, AllCells;
  }

  /** The positions of the four edges of a block; all are found. */
  method Locate(u: Unit, xs: seq<real>, ys: seq<real>) returns (p0: nat, p1: nat, q0: nat, q1: nat)
    requires Spaced(xs) && Spaced(ys) && OnLines(xs, ys, u)
    ensures p0 == Index(xs, u.leftx) && p1 == Index(xs, Right(u)) && q0 == Index(ys, u.bottomy) && q1 == Index(ys, Top(u))
  {
    LineIndices(xs, ys, u);
    IndexIsSearch(xs, ys, u);
    hide Search, Index, Spaced, OnLines;
    var left, right := Search(xs, 0, |xs|, u.leftx), Search(xs, 0, |xs|, u.leftx + u.width);
    var bottom, top := Search(ys, 0, |ys|, u.bottomy), Search(ys, 0, |ys|, u.bottomy + u.height);
    assert left.0 && right.0 && bottom.0 && top.0;
    return left.1, right.1, bottom.1, top.1;
  }

  lemma {:induction false} IndexIsSearch(xs: seq<real>, ys: seq<real>, u: Unit)
    ensures Index(xs, u.leftx) == Search(xs, 0, |xs|, u.leftx).1 && Index(xs, Right(u)) == Search(xs, 0, |xs|, u.leftx + u.width).1
    ensures Index(ys, u.bottomy) == Search(ys, 0, |ys|, u.bottomy).1 && Index(ys, Top(u)) == Search(ys, 0, |ys|, u.bottomy + u.height).1
  {
  }

  /** Every block is chopped into its cells. */
  method FillGrid(flp: Floorplan, grid: Floorplan, map_: array<seq<nat>>, xs: seq<real>, ys: seq<real>, ghost chip: Unit)
    requires flp.nUnits <= flp.units.Length && flp.units != grid.units && Cut(xs, ys, flp.units[..], flp.nUnits, chip)
    requires grid.units.Length == |AllCells(xs, ys, flp.units[..], flp.nUnits)|
    requires map_.Length == flp.nUnits && forall j | 0 <= j < map_.Length :: map_[j] == []
    modifies grid.units, map_
    ensures grid.units[..] == AllCells(xs, ys, flp.units[..], flp.nUnits)
    ensures MapIs(map_[..], xs, ys, flp.units[..], flp.nUnits)
  {
    ghost var us, n := flp.units[..], flp.nUnits;
    var count: nat := 0;
    assert AllCells(xs, ys, us, 0) == [] && grid.units[..0] == [];
    hide Cut, AllCells;
    for i := 0 to flp.nUnits
      invariant flp.units[..] == us && count <= grid.units.Length && grid.units[..count] == AllCells(xs, ys, us, i)
      invariant MapIs(map_[..], xs, ys, us, i) && forall j | i <= j < n :: map_[j] == []
    {
      hide MapIs;
      count := FillUnit(flp.units[i], grid, map_, count, i, xs, ys, us, n, chip);
    }
    assert |grid.units[..count]| == count;
    assert grid.units[..count] == grid.units[..];
  }

  /** The grid floorplan of a tiling: its units are the cells of the blocks, each cell of
      the grid once, and they tile the same chip. */
  method FlpCreateGrid(flp: Floorplan, ghost chip: Unit)
    returns (grid: Floorplan, map_: array<seq<nat>>, ghost xs: seq<real>, ghost ys: seq<real>)
    requires flp.nUnits <= flp.units.Length && BuffersHold(flp.units[..], flp.nUnits)
    requires Tiles(flp.units[..], flp.nUnits, chip) && Placement(flp.units[..], flp.nUnits, chip)
    requires CrispEdges(flp.units[..], flp.nUnits)
    ensures fresh(grid) && fresh(grid.units) && fresh(map_)
    ensures Cut(xs, ys, flp.units[..], flp.nUnits, chip) && |xs| >= 2 && |ys| >= 2
    ensures grid.nUnits == grid.units.Length == (|xs| - 1) * (|ys| - 1)
    ensures grid.units[..] == AllCells(xs, ys, flp.units[..], flp.nUnits) && Tiles(grid.units[..], grid.nUnits, chip)
    ensures map_.Length == flp.nUnits && MapIs(map_[..], xs, ys, flp.units[..], flp.nUnits)
  {
    hide *;
    ghost var us, n := flp.units[..], flp.nUnits;
    var x, xsize, y, ysize := CollectLines(flp);
    var lx, ly := x[..xsize], y[..ysize];
    xs, ys := lx, ly;
    GridFacts(us, n, chip, lx, ly);
    grid := new Floorplan((|lx| - 1) * (|ly| - 1));
    map_ := new seq<nat>[flp.nUnits](_ => []);
    FillGrid(flp, grid, map_, lx, ly, chip);
  }

  /** The lines of a tiling cut it into (lines - 1) x (lines - 1) cells that tile it too. */
  lemma {:induction false} GridFacts(us: seq<Unit>, n: nat, chip: Unit, xs: seq<real>, ys: seq<real>)
    requires n <= |us| && Tiles(us, n, chip) && Placement(us, n, chip)
    requires LinesAre(xs, EdgesX(us, n)) && LinesAre(ys, EdgesY(us, n))
    ensures Cut(xs, ys, us, n, chip) && |xs| >= 2 && |ys| >= 2
    ensures |AllCells(xs, ys, us, n)| == (|xs| - 1) * (|ys| - 1)
    ensures Tiles(AllCells(xs, ys, us, n), |AllCells(xs, ys, us, n)|, chip)
  {
    LinesOfTiling(us, n, chip, xs, ys);
    assert Cut(xs, ys, us, n, chip) && |xs| >= 2 && |ys| >= 2;
    hide *;
    CellCount(xs, ys, us, n, chip);
    GridTiles(xs, ys, us, n, chip);
  }

  /** No two cells of the grid have the same corner: every cell belongs to one block. */
  lemma {:induction false} CellsDistinct(xs: seq<real>, ys: seq<real>, us: seq<Unit>, n: nat, chip: Unit, a: nat, b: nat)
    requires Cut(xs, ys, us, n, chip) && a < b < |AllCells(xs, ys, us, n)|
    ensures var cells := AllCells(xs, ys, us, n); cells[a].leftx != cells[b].leftx || cells[a].bottomy != cells[b].bottomy
  {
    var cells := AllCells(xs, ys, us, n);
    GridTiles(xs, ys, us, n, chip);
    AllAreCells(xs, ys, us, n);
    assert Spaced(xs) && Spaced(ys) && cells[a] in cells && cells[b] in cells;
    hide Tiles, AllCells, AllOnLines, Spaced;
    var p, q :| 0 <= p < |xs| - 1 && 0 <= q < |ys| - 1 && cells[a] == Cell(xs, ys, p, q);
    var r, s :| 0 <= r < |xs| - 1 && 0 <= s < |ys| - 1 && cells[b] == Cell(xs, ys, r, s);
    CellCovers(xs, ys, p, q, p, q);
    CellCovers(xs, ys, r, s, r, s);
    if cells[a].leftx == cells[b].leftx && cells[a].bottomy == cells[b].bottomy {
      OneCovers(cells, |cells|, chip, cells[a].leftx, cells[a].bottomy, a, b);
      assert false;
    }
  }

  // ---- power ----

  ghost function SumOf(s: seq<real>): real {
    if s == [] then 0.0 else SumOf(s[..|s|-1]) + s[|s|-1]
  }

  lemma {:induction false} SumOfConcat(s: seq<real>, t: seq<real>)
    ensures SumOf(s + t) == SumOf(s) + SumOf(t)
  {
    if t == [] {
      assert s + t == s;
    } else {
      assert (s + t)[..|s + t| - 1] == s + t[..|t|-1];
      SumOfConcat(s, t[..|t|-1]);
    }
  }

  /** The power density is kept: a block's power over its area, times the cell's area. */
  function CellPower(power: real, u: Unit, cell: Unit): real
    requires AreaOf(u) != 0.0
  {
    power / (u.width * u.height) * cell.width * cell.height
  }

  ghost function UnitPowers(power: real, u: Unit, cells: seq<Unit>): (s: seq<real>)
    ensures |s| == |cells|
  {
    if cells == [] || AreaOf(u) == 0.0 then seq(|cells|, _ => 0.0)
    else UnitPowers(power, u, cells[..|cells|-1]) + [CellPower(power, u, cells[|cells|-1])]
  }

  ghost function AllPowers(power: seq<real>, xs: seq<real>, ys: seq<real>, us: seq<Unit>, k: nat): (s: seq<real>)
    requires k <= |us| && k <= |power|
    ensures |s| == |AllCells(xs, ys, us, k)|
  {
    if k == 0 then [] else AllPowers(power, xs, ys, us, k - 1) + UnitPowers(power[k-1], us[k-1], CellsOf(xs, ys, us[k-1]))
  }

  lemma {:induction false} CellPowerIs(power: real, u: Unit, cell: Unit)
    requires AreaOf(u) != 0.0
    ensures CellPower(power, u, cell) == Times(Quotient(power, AreaOf(u)), AreaOf(cell))
  {
    var d := power / (u.width * u.height);
    assert (d * cell.width) * cell.height == d * (cell.width * cell.height);
  }

  lemma {:induction false} UnitPowersSum(power: real, u: Unit, cells: seq<Unit>)
    requires AreaOf(u) != 0.0
    ensures SumOf(UnitPowers(power, u, cells)) == Times(Quotient(power, AreaOf(u)), Measure(cells, AreaOf))
  {
    hide Times, Quotient, AreaOf, CellPower;
    var d := Quotient(power, AreaOf(u));
    if cells == [] {
      TimesLaws(d, 0.0, 0.0);
    } else {
      var rest, last := cells[..|cells|-1], cells[|cells|-1];
      UnitPowersSum(power, u, rest);
      CellPowerIs(power, u, last);
      assert UnitPowers(power, u, cells) == UnitPowers(power, u, rest) + [CellPower(power, u, last)];
      assert (UnitPowers(power, u, rest) + [CellPower(power, u, last)])[..|rest|] == UnitPowers(power, u, rest);
      assert Measure(cells, AreaOf) == Measure(rest, AreaOf) + AreaOf(last) by {
        assert cells == rest + [last];
        MeasureConcat(rest, [last], AreaOf);
        MeasureOne(last, AreaOf);
      }
      TimesLaws(d, Measure(rest, AreaOf), AreaOf(last));
    }
  }

  lemma {:induction false} HollowHasNoCells(xs: seq<real>, ys: seq<real>, u: Unit)
    requires OnLines(xs, ys, u) && !Solid(u)
    ensures CellsOf(xs, ys, u) == []
  {
    if u.width == 0.0 {
      assert Right(u) == u.leftx;
    } else {
      assert Top(u) == u.bottomy;
      if Located(xs, ys, u) {
        EmptyRows(xs, ys, Index(xs, u.leftx), Index(xs, Right(u)), Index(ys, u.bottomy));
      }
    }
  }

  lemma {:induction false} EmptyRows(xs: seq<real>, ys: seq<real>, p0: nat, p1: nat, a: nat)
    requires p0 <= p1 < |xs| && a < |ys|
    ensures BlockCells(xs, ys, p0, p1, a, a) == []
  {
    if p0 < p1 { EmptyRows(xs, ys, p0, p1 - 1, a); }
  }

  ghost function SolidPower(power: seq<real>, us: seq<Unit>, k: nat): real
    requires k <= |us| && k <= |power|
  {
    if k == 0 then 0.0 else SolidPower(power, us, k - 1) + if Solid(us[k-1]) then power[k-1] else 0.0
  }

  lemma {:induction false} AreaPositive(u: Unit)
    requires Solid(u)
    ensures AreaOf(u) > 0.0
  {
    ProductPositive(u.width, u.height);
  }

  /** The grid's total power is that of the blocks with area; a block without area has no
      cell to give its power to. */
  lemma {:induction false} PowerKept(power: seq<real>, xs: seq<real>, ys: seq<real>, us: seq<Unit>, k: nat)
    requires k <= |us| && k <= |power| && AllOnLines(xs, ys, us, k)
    ensures SumOf(AllPowers(power, xs, ys, us, k)) == SolidPower(power, us, k)
  {
    hide CellsOf, UnitPowers, OnLines, AreaOf, Solid, Times, Quotient;
    if k > 0 {
      PowerKept(power, xs, ys, us, k - 1);
      var u, cells := us[k-1], CellsOf(xs, ys, us[k-1]);
      SumOfConcat(AllPowers(power, xs, ys, us, k - 1), UnitPowers(power[k-1], u, cells));
      if Solid(u) {
        AreaPositive(u);
        CellsTile(xs, ys, u);
        UnitPowersSum(power[k-1], u, cells);
        QuotientTimes(power[k-1], AreaOf(u));
        TimesLaws(AreaOf(u), Quotient(power[k-1], AreaOf(u)), 0.0);
      } else {
        HollowHasNoCells(xs, ys, u);
        assert |UnitPowers(power[k-1], u, cells)| == 0;
      }
    }
  }

  /** Total power is kept exactly when the blocks without area have none in total. */
  lemma {:induction false} PowerKeptIff(power: seq<real>, xs: seq<real>, ys: seq<real>, us: seq<Unit>, n: nat)
    requires n == |us| == |power| && AllOnLines(xs, ys, us, n)
    ensures SumOf(AllPowers(power, xs, ys, us, n)) == SumOf(power) <==> HollowPower(power, us, n) == 0.0
  {
    PowerKept(power, xs, ys, us, n);
    PowerSplit(power, us, n);
    assert power[..n] == power;
  }

  /** A concrete case: the power of a block without area on the edge of a tiling is lost. */
  lemma {:induction false} PowerLostExample()
    ensures var us, lines, power := [Unit(4.0, 4.0, 1.0, 1.0), Unit(0.0, 4.0, 1.0, 1.0)], [1.0, 5.0], [2.0, 1.0];
      && Tiles(us, 2, us[0]) && AllOnLines(lines, lines, us, 2)
      && SumOf(power) == 3.0 && SumOf(AllPowers(power, lines, lines, us, 2)) == 2.0
  {
    hide Tiles, Located, AllPowers, Stray, AllOnLines, SumOf, SolidPower, Solid;
    var us, lines, power := [Unit(4.0, 4.0, 1.0, 1.0), Unit(0.0, 4.0, 1.0, 1.0)], [1.0, 5.0], [2.0, 1.0];
    StrayExample();
    ExampleLines(us, lines);
    PowerKept(power, lines, lines, us, 2);
    ExamplePowers(us, power);
  }

  lemma {:induction false} ExampleLines(us: seq<Unit>, lines: seq<real>)
    requires us == [Unit(4.0, 4.0, 1.0, 1.0), Unit(0.0, 4.0, 1.0, 1.0)] && lines == [1.0, 5.0]
    ensures AllOnLines(lines, lines, us, 2)
  {
    hide Located, Spaced, OnLines, Index, Search;
    ExampleOnLines(us, lines);
    LineIndices(lines, lines, us[0]);
    LineIndices(lines, lines, us[1]);
  }

  lemma {:induction false} ExampleOnLines(us: seq<Unit>, lines: seq<real>)
    requires us == [Unit(4.0, 4.0, 1.0, 1.0), Unit(0.0, 4.0, 1.0, 1.0)] && lines == [1.0, 5.0]
    ensures Spaced(lines) && OnLines(lines, lines, us[0]) && OnLines(lines, lines, us[1])
  {
    assert lines[0] == 1.0 && lines[1] == 5.0;
  }

  lemma {:induction false} ExamplePowers(us: seq<Unit>, power: seq<real>)
    requires us == [Unit(4.0, 4.0, 1.0, 1.0), Unit(0.0, 4.0, 1.0, 1.0)] && power == [2.0, 1.0]
    ensures SumOf(power) == 3.0 && SolidPower(power, us, 2) == 2.0
  {
    assert power[..1] == [2.0] && power[..1][..0] == [];
    assert SumOf(power[..1]) == 2.0;
    assert SolidPower(power, us, 1) == 2.0;
  }

  ghost function HollowPower(power: seq<real>, us: seq<Unit>, k: nat): real
    requires k <= |us| && k <= |power|
  {
    if k == 0 then 0.0 else HollowPower(power, us, k - 1) + if Solid(us[k-1]) then 0.0 else power[k-1]
  }

  lemma {:induction false} PowerSplit(power: seq<real>, us: seq<Unit>, k: nat)
    requires k <= |us| && k <= |power|
    ensures SumOf(power[..k]) == SolidPower(power, us, k) + HollowPower(power, us, k)
  {
    if k > 0 {
      PowerSplit(power, us, k - 1);
      assert power[..k][..k-1] == power[..k-1];
    }
  }

  /** Carries the power of one block over to its cells. */
  method XlateUnit(u: Unit, power: real, grid: Floorplan, gpower: array<real>, positions: seq<nat>, ghost cells: seq<Unit>, ghost start: nat)
    requires start + |cells| <= grid.units.Length == gpower.Length && positions == Range(start, |cells|)
    requires forall p | 0 <= p < |cells| :: grid.units[start + p] == cells[p]
    requires cells != [] ==> AreaOf(u) != 0.0
    modifies gpower
    ensures gpower[..start + |cells|] == old(gpower[..start]) + UnitPowers(power, u, cells)
  {
    ghost var before := gpower[..start];
    hide AreaOf, CellPower;
    assert cells[..0] == [];
    for p := 0 to |positions|
      invariant gpower[..start + p] == before + UnitPowers(power, u, cells[..p])
    {
      assert cells[..p+1][..p] == cells[..p];
      gpower[positions[p]] := CellPower(power, u, grid.units[positions[p]]);
      assert gpower[..start + p + 1] == gpower[..start + p] + [CellPower(power, u, cells[p])];
    }
    assert cells[..|cells|] == cells;
  }

  /** Carries power over to the grid; the total is that of the blocks with area. */
  method XlatePowerBlkgrid(flp: Floorplan, grid: Floorplan, bpower: array<real>, gpower: array<real>, map_: array<seq<nat>>,
                           ghost xs: seq<real>, ghost ys: seq<real>)
    requires flp.nUnits <= flp.units.Length && flp.nUnits <= bpower.Length && bpower != gpower && map_.Length == flp.nUnits
    requires AllOnLines(xs, ys, flp.units[..], flp.nUnits) && MapIs(map_[..], xs, ys, flp.units[..], flp.nUnits)
    requires grid.units[..] == AllCells(xs, ys, flp.units[..], flp.nUnits) && gpower.Length == grid.units.Length
    modifies gpower
    ensures gpower[..] == AllPowers(bpower[..], xs, ys, flp.units[..], flp.nUnits)
    ensures SumOf(gpower[..]) == SolidPower(bpower[..], flp.units[..], flp.nUnits)
  {
    hide *;
    ghost var us, bp, n := flp.units[..], bpower[..], flp.nUnits;
    NoPowers(bp, xs, ys, us);
    for i := 0 to flp.nUnits
      invariant bpower[..] == bp && Carried(gpower[..], bp, xs, ys, us, i)
    {
      XlateBlock(flp, grid, bpower, gpower, map_[i], xs, ys, map_[..], n, i);
    }
    PowerKept(bp, xs, ys, us, n);
    AllCarried(gpower[..], bp, xs, ys, us, n);
  }

  /** The cells of the first k blocks have their power. */
  ghost predicate Carried(gpower: seq<real>, power: seq<real>, xs: seq<real>, ys: seq<real>, us: seq<Unit>, k: nat)
    requires k <= |us| && k <= |power|
  {
    var start := |AllCells(xs, ys, us, k)|;
    start <= |gpower| && gpower[..start] == AllPowers(power, xs, ys, us, k)
  }

  lemma {:induction false} NoPowers(power: seq<real>, xs: seq<real>, ys: seq<real>, us: seq<Unit>)
    ensures forall gpower :: Carried(gpower, power, xs, ys, us, 0)
  {
    assert AllCells(xs, ys, us, 0) == [];
  }

  lemma {:induction false} AllCarried(gpower: seq<real>, power: seq<real>, xs: seq<real>, ys: seq<real>, us: seq<Unit>, n: nat)
    requires n <= |us| && n <= |power| && Carried(gpower, power, xs, ys, us, n) && |gpower| == |AllCells(xs, ys, us, n)|
    ensures gpower == AllPowers(power, xs, ys, us, n)
  {
    hide AllCells, AllPowers;
    assert gpower[..|gpower|] == gpower;
  }

  /** Carries over the power of block i. */
  method XlateBlock(flp: Floorplan, grid: Floorplan, bpower: array<real>, gpower: array<real>, positions: seq<nat>,
                    ghost xs: seq<real>, ghost ys: seq<real>, ghost m: seq<seq<nat>>, ghost n: nat, i: nat)
    requires i < n <= flp.units.Length && n <= bpower.Length && bpower != gpower && i < |m| && positions == m[i]
    requires AllOnLines(xs, ys, flp.units[..], n) && MapIs(m, xs, ys, flp.units[..], n)
    requires grid.units[..] == AllCells(xs, ys, flp.units[..], n) && gpower.Length == grid.units.Length
    requires Carried(gpower[..], bpower[..], xs, ys, flp.units[..], i)
    modifies gpower
    ensures Carried(gpower[..], bpower[..], xs, ys, flp.units[..], i + 1)
  {
    hide *;
    ghost var us := flp.units[..];
    ghost var cells, start := CellsOf(xs, ys, us[i]), |AllCells(xs, ys, us, i)|;
    BlockEntry(grid.units[..], xs, ys, us, m, n, i);
    BeforeBlock(gpower[..], bpower[..], xs, ys, us, i);
    XlateUnit(flp.units[i], bpower[i], grid, gpower, positions, cells, start);
    CarriedNext(gpower[..], bpower[..], xs, ys, us, i);
  }

  lemma {:induction false} BeforeBlock(gpower: seq<real>, power: seq<real>, xs: seq<real>, ys: seq<real>, us: seq<Unit>, i: nat)
    requires i < |us| && i < |power| && Carried(gpower, power, xs, ys, us, i)
    ensures |AllCells(xs, ys, us, i)| <= |gpower| && gpower[..|AllCells(xs, ys, us, i)|] == AllPowers(power, xs, ys, us, i)
  {
  }

  lemma {:induction false} CarriedNext(gpower: seq<real>, power: seq<real>, xs: seq<real>, ys: seq<real>, us: seq<Unit>, i: nat)
    requires i < |us| && i < |power| && |AllCells(xs, ys, us, i)| + |CellsOf(xs, ys, us[i])| <= |gpower|
    requires gpower[..|AllCells(xs, ys, us, i)| + |CellsOf(xs, ys, us[i])|]
          == AllPowers(power, xs, ys, us, i) + UnitPowers(power[i], us[i], CellsOf(xs, ys, us[i]))
    ensures Carried(gpower, power, xs, ys, us, i + 1)
  {
    hide CellsOf, UnitPowers;
  }

  /** What the map says of block i. */
  lemma {:induction false} BlockEntry(grid: seq<Unit>, xs: seq<real>, ys: seq<real>, us: seq<Unit>, m: seq<seq<nat>>, n: nat, i: nat)
    requires i < n <= |us| && grid == AllCells(xs, ys, us, n) && i < |m| && MapIs(m, xs, ys, us, n) && AllOnLines(xs, ys, us, n)
    ensures var cells, start := CellsOf(xs, ys, us[i]), |AllCells(xs, ys, us, i)|;
      && start + |cells| <= |grid| && m[i] == Range(start, |cells|)
      && (forall p | 0 <= p < |cells| :: grid[start + p] == cells[p]) && (cells != [] ==> AreaOf(us[i]) != 0.0)
  {
    hide OnLines, Located, Spaced, CellsOf, Solid, AreaOf;
    BlockInGrid(grid, xs, ys, us, n, i);
    assert MapEntry(m[i], |AllCells(xs, ys, us, i)|, |AllCells(xs, ys, us, i + 1)|);
    assert |AllCells(xs, ys, us, i + 1)| == |AllCells(xs, ys, us, i)| + |CellsOf(xs, ys, us[i])|;
    if !Solid(us[i]) { HollowHasNoCells(xs, ys, us[i]); } else { AreaPositive(us[i]); }
  }

  /** Where the cells of block i are in the grid. */
  lemma {:induction false} BlockInGrid(grid: seq<Unit>, xs: seq<real>, ys: seq<real>, us: seq<Unit>, n: nat, i: nat)
    requires i < n <= |us| && grid == AllCells(xs, ys, us, n)
    ensures |AllCells(xs, ys, us, i)| + |CellsOf(xs, ys, us[i])| <= |grid|
    ensures forall p | 0 <= p < |CellsOf(xs, ys, us[i])| :: grid[|AllCells(xs, ys, us, i)| + p] == CellsOf(xs, ys, us[i])[p]
    decreases n
  {
    hide CellsOf;
    if i < n - 1 {
      BlockInGrid(AllCells(xs, ys, us, n - 1), xs, ys, us, n - 1, i);
    }
  }
}
