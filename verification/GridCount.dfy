/** How many elements the conductance matrix of the grid with package has. */
module GridCount {
  import opened GridStencil
  import opened NodeNetwork
  import opened GridNodes
  import opened GridLinks

  /** The number announced before assembly. */
  function Nnz(g: Grid): int {
    var nr, nc, nl := g.rows, g.cols, |g.layers|;
    (5 * (nr * nc) - 2 * (nr + nc)) * nl + 2 * ((nl - 1) * (nr * nc)) + 2 * 2 * 2 * (nr + nc) + EXTRA + 16
  }

  function One(there: bool): int {
    if there then 1 else 0
  }

  function Vertical(g: Grid, l: int): int {
    One(l < |g.layers| - 1) + One(l > 0)
  }

  /** Only spreader and sink have links over the rim. */
  function Rim(g: Grid, l: int): int {
    One(l >= |g.layers| - 2)
  }

  /** Elements in the row of a cell. */
  function CellCount(g: Grid, l: int, i: int, j: int): int {
    3 + Vertical(g, l) + One(i > 0) + One(i < g.rows - 1) + One(j > 0) + One(j < g.cols - 1) - 2
    + (if l >= |g.layers| - 2 then One(i == 0) + One(i == g.rows - 1) + One(j == 0) + One(j == g.cols - 1) else 0)
  }

  lemma {:induction false} CellCountIs(g: Grid, pk: Pack, l: int, i: int, j: int)
    requires Valid(g, pk) && g.Cell(l, i, j)
    ensures |CellLinks(g, pk, l, i, j)| + 1 == CellCount(g, l, i, j)
  {
    hide Inverse, FindRes, RimX, RimY, Idx;
  }

  // ---- sums over cells ----

  function RowTo(g: Grid, l: int, i: int, j: nat): int {
    if j == 0 then 0 else RowTo(g, l, i, j - 1) + CellCount(g, l, i, j - 1)
  }

  function LayerTo(g: Grid, l: int, i: nat): int {
    if i == 0 then 0 else LayerTo(g, l, i - 1) + RowTo(g, l, i - 1, g.cols)
  }

  function GridTo(g: Grid, l: nat): int {
    if l == 0 then 0 else GridTo(g, l - 1) + LayerTo(g, l - 1, g.rows)
  }

  /** Elements of a cell of row i apart from the missing or package links at its ends. */
  function PerCell(g: Grid, l: int, i: int): int {
    5 + Vertical(g, l) - (1 - Rim(g, l)) * (One(i == 0) + One(i == g.rows - 1))
  }

  lemma {:induction false} CellCountByRow(g: Grid, l: int, i: int, j: int)
    requires g.rows >= 2 && g.cols >= 2 && 0 <= i < g.rows && 0 <= j < g.cols
    ensures CellCount(g, l, i, j) == PerCell(g, l, i) - (1 - Rim(g, l)) * (One(j == 0) + One(j == g.cols - 1))
  {
    hide Vertical;
  }

  lemma {:induction false} RowToIs(g: Grid, l: int, i: int, j: nat)
    requires g.rows >= 2 && g.cols >= 2 && 0 <= i < g.rows && j <= g.cols
    ensures RowTo(g, l, i, j) == j * PerCell(g, l, i) - (1 - Rim(g, l)) * (One(j > 0) + One(j == g.cols))
  {
    if j > 0 {
      RowToIs(g, l, i, j - 1);
      CellCountByRow(g, l, i, j - 1);
      hide PerCell, CellCount;
      OneStep(j, PerCell(g, l, i));
    }
  }

  lemma {:induction false} LayerToIs(g: Grid, l: int, i: nat)
    requires g.rows >= 2 && g.cols >= 2 && i <= g.rows
    ensures LayerTo(g, l, i)
         == i * (g.cols * (5 + Vertical(g, l)) - 2 * (1 - Rim(g, l))) - (1 - Rim(g, l)) * (g.cols * (One(i > 0) + One(i == g.rows)))
  {
    if i > 0 {
      LayerToIs(g, l, i - 1);
      RowToIs(g, l, i - 1, g.cols);
      hide RowTo, Vertical;
      var a, e, r := 5 + Vertical(g, l), One(i - 1 == 0) + One(i - 1 == g.rows - 1), 1 - Rim(g, l);
      Spread(g.cols, a, r, e);
      OneStep(i, g.cols * a - 2 * r);
    }
  }

  lemma {:induction false} Spread(c: int, a: int, r: int, e: int)
    ensures c * (a - r * e) == c * a - r * (c * e)
  {
  }

  lemma {:induction false} LayerCount(g: Grid, l: int)
    requires g.rows >= 2 && g.cols >= 2
    ensures LayerTo(g, l, g.rows)
         == 5 * (g.rows * g.cols) + Vertical(g, l) * (g.rows * g.cols) - 2 * (1 - Rim(g, l)) * (g.rows + g.cols)
  {
    LayerToIs(g, l, g.rows);
    hide LayerTo, Vertical;
    Product(g.rows, g.cols, Vertical(g, l), 1 - Rim(g, l));
  }

  lemma {:induction false} Product(m: int, c: int, v: int, r: int)
    requires r == 0 || r == 1
    ensures m * (c * (5 + v) - 2 * r) - r * (c * 2) == 5 * (m * c) + v * (m * c) - 2 * r * (m + c)
  {
    assert m * (c * (5 + v)) == (m * c) * (5 + v);
  }

  lemma {:induction false} GridToIs(g: Grid, l: nat)
    requires g.rows >= 2 && g.cols >= 2 && |g.layers| >= 2 && l <= |g.layers|
    ensures var p, s := g.rows * g.cols, g.rows + g.cols;
      GridTo(g, l) == (5 * p - 2 * s) * l + (2 * l - One(l > 0) - One(l == |g.layers|)) * p
                      + 2 * s * (One(l > |g.layers| - 2) + One(l > |g.layers| - 1))
  {
    if l > 0 {
      GridToIs(g, l - 1);
      LayerCount(g, l - 1);
      hide LayerTo;
      var p, s := g.rows * g.cols, g.rows + g.cols;
      OneStep(l, 5 * p - 2 * s);
      Distribute(p, 2 * (l - 1) - One(l - 1 > 0) - One(l - 1 == |g.layers|), Vertical(g, l - 1));
    }
  }

  lemma {:induction false} Distribute(p: int, a: int, b: int)
    ensures a * p + b * p == (a + b) * p
  {
  }

  // ---- sums over nodes ----

  lemma {:induction false} UptoNext(n: nat)
    ensures Upto(n + 1)[..n] == Upto(n) && Upto(n + 1)[n] == n
  {
  }

  lemma {:induction false} RowLength(k: nat, node: Node)
    ensures |RowOf(k, node)| == |node.links| + 1
  {
  }

  /** Elements in the rows of the first k cells. */
  ghost function Before(g: Grid, pk: Pack, p: seq<real>, k: nat): int
    requires Valid(g, pk) && k <= Cells(g)
  {
    |RowsOf(Network(g, pk, p), Upto(k))|
  }

  lemma {:induction false} RowsNext(net: seq<Node>, order: seq<nat>, n: nat)
    requires n < |order| && forall i | 0 <= i < |order| :: order[i] < |net|
    ensures |RowsOf(net, order[..n+1])| == |RowsOf(net, order[..n])| + |net[order[n]].links| + 1
  {
    hide RowOf;
    var s := order[..n+1];
    assert s[..|s|-1] == order[..n];
    RowLength(order[n], net[order[n]]);
  }

  lemma {:induction false} BeforeNext(g: Grid, pk: Pack, p: seq<real>, k: nat)
    requires Valid(g, pk) && k < Cells(g)
    ensures Before(g, pk, p, k + 1) == Before(g, pk, p, k) + |Network(g, pk, p)[k].links| + 1
  {
    hide Network, Cells, RowsOf;
    UptoNext(k);
    var s := Upto(k + 1);
    RowsNext(Network(g, pk, p), s, k);
    assert s[..k+1] == s;
  }

  lemma {:induction false} BeforeCell(g: Grid, pk: Pack, p: seq<real>, l: nat, i: nat, j: nat)
    requires Valid(g, pk) && g.Cell(l, i, j)
    ensures 0 <= Idx(g, l, i, j) < Cells(g)
    ensures Before(g, pk, p, Idx(g, l, i, j) + 1) == Before(g, pk, p, Idx(g, l, i, j)) + CellCount(g, l, i, j)
  {
    hide Network, Cells, Idx, CellCount, CellLinks, Before;
    CellInNetwork(g, pk, p, l, i, j);
    BeforeNext(g, pk, p, Idx(g, l, i, j));
    CellCountIs(g, pk, l, i, j);
  }

  lemma {:induction false} RowAfter(g: Grid, l: int, i: int, j: nat)
    requires j > 0
    ensures RowTo(g, l, i, j) == RowTo(g, l, i, j - 1) + CellCount(g, l, i, j - 1)
  {
  }

  lemma {:induction false} LayerAfter(g: Grid, l: int, i: nat)
    requires i > 0
    ensures LayerTo(g, l, i) == LayerTo(g, l, i - 1) + RowTo(g, l, i - 1, g.cols)
  {
  }

  lemma {:induction false} NothingYet(g: Grid, pk: Pack, p: seq<real>, l: int, i: int)
    requires Valid(g, pk)
    ensures RowTo(g, l, i, 0) == LayerTo(g, l, 0) == GridTo(g, 0) == Idx(g, 0, 0, 0) == Before(g, pk, p, 0) == 0
  {
  }

  lemma {:induction false} GridAfter(g: Grid, l: nat)
    requires l > 0
    ensures GridTo(g, l) == GridTo(g, l - 1) + LayerTo(g, l - 1, g.rows)
  {
  }

  /** Elements in the rows of the cells before (l, i, j). */
  lemma {:induction false} CellsBefore(g: Grid, pk: Pack, p: seq<real>, l: nat, i: nat, j: nat)
    requires Valid(g, pk) && l <= |g.layers| && i <= g.rows && j <= g.cols
    requires (l == |g.layers| ==> i == 0) && (l == |g.layers| || i == g.rows ==> j == 0)
    ensures 0 <= Idx(g, l, i, j) <= Cells(g)
    ensures Before(g, pk, p, Idx(g, l, i, j)) == GridTo(g, l) + LayerTo(g, l, i) + RowTo(g, l, i, j)
    decreases l, i, j
  {
    hide CellCount, Idx, Cells, Before, RowTo, LayerTo, GridTo;
    NothingYet(g, pk, p, l, i);
    if j > 0 {
      CellsBefore(g, pk, p, l, i, j - 1);
      BeforeCell(g, pk, p, l, i, j - 1);
      Steps(g, l, i, j);
      RowAfter(g, l, i, j);
    } else if i > 0 {
      CellsBefore(g, pk, p, l, i - 1, g.cols);
      RowEnd(g, l, i);
      NothingYet(g, pk, p, l, i - 1);
      LayerAfter(g, l, i);
    } else if l > 0 {
      CellsBefore(g, pk, p, l - 1, g.rows, 0);
      LayerEnd(g, l);
      NothingYet(g, pk, p, l - 1, g.rows);
      GridAfter(g, l);
    }
  }

  lemma {:induction false} RowEnd(g: Grid, l: int, i: int)
    ensures Idx(g, l, i - 1, g.cols) == Idx(g, l, i, 0)
  {
    OneStep(i, g.cols);
  }

  lemma {:induction false} LayerEnd(g: Grid, l: int)
    ensures Idx(g, l - 1, g.rows, 0) == Idx(g, l, 0, 0)
  {
    OneStep(l, Plane(g));
  }

  function PackCount(g: Grid, e: nat): int {
    if e == SINK_N || e == SINK_S || e == SINK_W || e == SINK_E then 2
    else if e == SINK_C_N || e == SINK_C_S then g.cols + 3
    else if e == SINK_C_W || e == SINK_C_E then g.rows + 3
    else if e == SP_N || e == SP_S then g.cols + 2
    else g.rows + 2
  }

  lemma {:induction false} PackCountIs(g: Grid, pk: Pack, e: nat)
    requires Valid(g, pk) && e < EXTRA
    ensures |PackNode(g, pk, e).links| + 1 == PackCount(g, e)
  {
    hide Inverse, RimX, RimY, OuterX, OuterY, RimGround, RowLinks, ColLinks;
    forall l, i, c | 0 <= l < |g.layers| && 0 <= i < g.rows ensures |RowLinks(g, l, i, g.cols, c)| == g.cols { RowLinksAre(g, l, i, g.cols, c); }
    forall l, j, c | 0 <= l < |g.layers| && 0 <= j < g.cols ensures |ColLinks(g, l, j, g.rows, c)| == g.rows { ColLinksAre(g, l, j, g.rows, c); }
  }

  function PackTo(g: Grid, i: nat): int
    requires i <= EXTRA
  {
    if i == 0 then 0 else PackTo(g, i - 1) + PackCount(g, PackOrder(0)[i - 1])
  }

  lemma {:induction false} PackTotal(g: Grid)
    ensures PackTo(g, EXTRA) == 4 * (g.rows + g.cols) + EXTRA + 16
  {
    var c, r := g.cols, g.rows;
    assert PackTo(g, 1) == 2 && PackTo(g, 2) == 4;
    assert PackTo(g, 3) == 6 && PackTo(g, 4) == 8;
    assert PackTo(g, 5) == 8 + c + 3 && PackTo(g, 6) == 8 + 2 * c + 6;
    assert PackTo(g, 7) == 14 + 2 * c + r + 3 && PackTo(g, 8) == 20 + 2 * c + 2 * r;
    assert PackTo(g, 9) == 20 + 3 * c + 2 * r + 2 && PackTo(g, 10) == 24 + 4 * c + 2 * r;
    assert PackTo(g, 11) == 24 + 4 * c + 3 * r + 2 && PackTo(g, 12) == 28 + 4 * c + 4 * r;
  }

  lemma {:induction false} OrderShift(n: nat, i: nat)
    requires i < EXTRA
    ensures PackOrder(n)[i] == n + PackOrder(0)[i]
  {
  }

  /** The turn of a package node. */
  lemma {:induction false} PackTurn(g: Grid, pk: Pack, p: seq<real>, i: nat)
    requires Valid(g, pk) && i < EXTRA
    ensures |Order(g)| == Cells(g) + EXTRA == |Network(g, pk, p)| && PackOrder(0)[i] < EXTRA
    ensures var k := Cells(g) + PackOrder(0)[i];
      Order(g)[Cells(g) + i] == k && Network(g, pk, p)[k] == PackNode(g, pk, PackOrder(0)[i])
  {
    hide Order, Cells, PackNode;
    OrderAt(g, Cells(g) + i);
    OrderShift(Cells(g), i);
    TurnOfOrder(0, i);
  }

  /** One package node further in the order. */
  lemma {:induction false} PackNext(g: Grid, pk: Pack, p: seq<real>, i: nat)
    requires Valid(g, pk) && i < EXTRA
    ensures |Order(g)| == |Network(g, pk, p)| == Cells(g) + EXTRA && forall m | 0 <= m < |Order(g)| :: Order(g)[m] < Cells(g) + EXTRA
    ensures |RowsOf(Network(g, pk, p), Order(g)[..Cells(g)+i+1])|
         == |RowsOf(Network(g, pk, p), Order(g)[..Cells(g)+i])| + PackCount(g, PackOrder(0)[i])
  {
    OrderIsAll(g);
    hide Cells, PackNode, NoneTwice, PackCount, RowsOf, Order, CellNode, PackOrder, Network;
    PackTurn(g, pk, p, i);
    PackCountIs(g, pk, PackOrder(0)[i]);
    RowsNext(Network(g, pk, p), Order(g), Cells(g) + i);
  }

  /** The first i package nodes come after all cells. */
  lemma {:induction false} PackBefore(g: Grid, pk: Pack, p: seq<real>, i: nat)
    requires Valid(g, pk) && i <= EXTRA
    ensures |Order(g)| == |Network(g, pk, p)| == Cells(g) + EXTRA && forall m | 0 <= m < |Order(g)| :: Order(g)[m] < Cells(g) + EXTRA
    ensures |RowsOf(Network(g, pk, p), Order(g)[..Cells(g)+i])| == Before(g, pk, p, Cells(g)) + PackTo(g, i)
  {
    OrderIsAll(g);
    hide Cells, NoneTwice, PackCount, RowsOf, NodeAt;
    if i == 0 {
      CellsFirst(g);
    } else {
      hide Order;
      PackBefore(g, pk, p, i - 1);
      PackNext(g, pk, p, i - 1);
      assert Cells(g) + (i - 1) + 1 == Cells(g) + i;
    }
  }

  lemma {:induction false} CellsFirst(g: Grid)
    ensures |Order(g)| == Cells(g) + EXTRA && Order(g)[..Cells(g)+0] == Upto(Cells(g))
  {
    hide Cells;
  }

  /** The rows of all nodes have exactly the announced number of elements. */
  lemma {:induction false} ElementsAreNnz(g: Grid, pk: Pack, p: seq<real>)
    requires Valid(g, pk)
    ensures |Order(g)| == |Network(g, pk, p)| == Cells(g) + EXTRA && forall m | 0 <= m < |Order(g)| :: Order(g)[m] < Cells(g) + EXTRA
    ensures |RowsOf(Network(g, pk, p), Order(g))| == Nnz(g)
  {
    hide NodeAt, Cells, GridTo, PackTo, Order, RowsOf, Before, LayerTo, RowTo, Idx;
    PackBefore(g, pk, p, EXTRA);
    assert Order(g)[..Cells(g) + EXTRA] == Order(g);
    CellsBefore(g, pk, p, |g.layers|, 0, 0);
    LastIdx(g);
    NothingYet(g, pk, p, |g.layers|, 0);
    GridToIs(g, |g.layers|);
    PackTotal(g);
    Closing(g.rows * g.cols, |g.layers|);
  }

  lemma {:induction false} LastIdx(g: Grid)
    ensures Idx(g, |g.layers|, 0, 0) == Cells(g)
  {
  }

  lemma {:induction false} Closing(p: int, n: int)
    ensures (2 * n - 2) * p == 2 * ((n - 1) * p)
  {
  }
}
