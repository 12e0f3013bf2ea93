/** The assembled and compressed matrix, the right-hand side, and the equation they pose. */
module GridMatrix {
  import opened Sums
  import opened SparseMatrix
  import opened GridStencil
  import opened NodeNetwork
  import opened GridNodes
  import opened GridLinks
  import opened GridCount
  import opened GridAssembly

  /** Stores the row of a cell. */
  method AssembleCell(g: Grid, pk: Pack, ghost p: seq<real>, l: nat, i: nat, j: nat, cooX: array<int>, cooY: array<int>, cooV: array<real>,
                      curidx: nat)
    returns (next: nat)
    requires Valid(g, pk) && g.Cell(l, i, j) && cooX != cooY
    requires WrittenTo(g, pk, p, cooX[..], cooY[..], cooV[..], curidx, l, i, j)
    modifies cooX, cooY, cooV
    ensures WrittenTo(g, pk, p, cooX[..], cooY[..], cooV[..], next, l, i, j + 1)
  {
    hide Written, Cells, Idx, CellNode, RowOf, Network, Nnz, Order, PackOrder, Conductance, RowsOf, Valid, CellLinks;
    var row := CellElements(g, pk, p, l, i, j);
    CellTurn(g, pk, p, l, i, j);
    next := StoreNode(g, pk, p, cooX, cooY, cooV, curidx, row, Idx(g, l, i, j));
  }

  /** The rows of all cells before (l, i, j) have been stored. */
  ghost predicate WrittenTo(g: Grid, pk: Pack, p: seq<real>, xs: seq<int>, ys: seq<int>, vs: seq<real>, curidx: nat, l: nat, i: nat, j: nat)
    requires Valid(g, pk)
  {
    Idx(g, l, i, j) >= 0 && Written(g, pk, p, xs, ys, vs, curidx, Idx(g, l, i, j))
  }

  lemma {:induction false} RowDone(g: Grid, pk: Pack, p: seq<real>, xs: seq<int>, ys: seq<int>, vs: seq<real>, curidx: nat, l: nat, i: nat)
    requires Valid(g, pk) && WrittenTo(g, pk, p, xs, ys, vs, curidx, l, i, g.cols)
    ensures WrittenTo(g, pk, p, xs, ys, vs, curidx, l, i + 1, 0)
  {
    hide Written, Idx, Valid;
    RowEnd(g, l, i + 1);
  }

  lemma {:induction false} LayerDone(g: Grid, pk: Pack, p: seq<real>, xs: seq<int>, ys: seq<int>, vs: seq<real>, curidx: nat, l: nat)
    requires Valid(g, pk) && WrittenTo(g, pk, p, xs, ys, vs, curidx, l, g.rows, 0)
    ensures WrittenTo(g, pk, p, xs, ys, vs, curidx, l + 1, 0, 0)
  {
    hide Written, Idx, Valid;
    LayerEnd(g, l + 1);
  }

  method AssembleRow(g: Grid, pk: Pack, ghost p: seq<real>, l: nat, i: nat, cooX: array<int>, cooY: array<int>, cooV: array<real>, curidx: nat)
    returns (next: nat)
    requires Valid(g, pk) && l < |g.layers| && i < g.rows && cooX != cooY
    requires WrittenTo(g, pk, p, cooX[..], cooY[..], cooV[..], curidx, l, i, 0)
    modifies cooX, cooY, cooV
    ensures WrittenTo(g, pk, p, cooX[..], cooY[..], cooV[..], next, l, i + 1, 0)
  {
    hide *;
    next := curidx;
    for j := 0 to g.cols
      invariant WrittenTo(g, pk, p, cooX[..], cooY[..], cooV[..], next, l, i, j)
    {
      IsCell(g, l, i, j);
      next := AssembleCell(g, pk, p, l, i, j, cooX, cooY, cooV, next);
    }
    RowDone(g, pk, p, cooX[..], cooY[..], cooV[..], next, l, i);
  }

  method AssembleLayer(g: Grid, pk: Pack, ghost p: seq<real>, l: nat, cooX: array<int>, cooY: array<int>, cooV: array<real>, curidx: nat)
    returns (next: nat)
    requires Valid(g, pk) && l < |g.layers| && cooX != cooY
    requires WrittenTo(g, pk, p, cooX[..], cooY[..], cooV[..], curidx, l, 0, 0)
    modifies cooX, cooY, cooV
    ensures WrittenTo(g, pk, p, cooX[..], cooY[..], cooV[..], next, l + 1, 0, 0)
  {
    hide *;
    next := curidx;
    for i := 0 to g.rows
      invariant WrittenTo(g, pk, p, cooX[..], cooY[..], cooV[..], next, l, i, 0)
    {
      next := AssembleRow(g, pk, p, l, i, cooX, cooY, cooV, next);
    }
    LayerDone(g, pk, p, cooX[..], cooY[..], cooV[..], next, l);
  }

  /** Stores the row of every cell. */
  method AssembleCells(g: Grid, pk: Pack, ghost p: seq<real>, cooX: array<int>, cooY: array<int>, cooV: array<real>) returns (curidx: nat)
    requires Valid(g, pk) && cooX != cooY && cooX.Length == cooY.Length == cooV.Length == Nnz(g)
    modifies cooX, cooY, cooV
    ensures Written(g, pk, p, cooX[..], cooY[..], cooV[..], curidx, Cells(g))
  {
    hide *;
    curidx := 0;
    NothingWritten(g, pk, p, cooX[..], cooY[..], cooV[..]);
    for l := 0 to |g.layers|
      invariant WrittenTo(g, pk, p, cooX[..], cooY[..], cooV[..], curidx, l, 0, 0)
    {
      curidx := AssembleLayer(g, pk, p, l, cooX, cooY, cooV, curidx);
    }
    AllWritten(g, pk, p, cooX[..], cooY[..], cooV[..], curidx);
  }

  lemma {:induction false} AllWritten(g: Grid, pk: Pack, p: seq<real>, xs: seq<int>, ys: seq<int>, vs: seq<real>, curidx: nat)
    requires Valid(g, pk) && WrittenTo(g, pk, p, xs, ys, vs, curidx, |g.layers|, 0, 0)
    ensures Written(g, pk, p, xs, ys, vs, curidx, Cells(g))
  {
    hide Written, Valid;
    LastIdx(g);
  }

  lemma {:induction false} IsCell(g: Grid, l: int, i: int, j: int)
    requires 0 <= l < |g.layers| && 0 <= i < g.rows && 0 <= j < g.cols
    ensures g.Cell(l, i, j)
  {
  }

  lemma {:induction false} NothingWritten(g: Grid, pk: Pack, p: seq<real>, xs: seq<int>, ys: seq<int>, vs: seq<real>)
    requires Valid(g, pk) && |xs| == |ys| == |vs| == Nnz(g)
    ensures WrittenTo(g, pk, p, xs, ys, vs, 0, 0, 0, 0)
  {
    hide Network, Nnz;
    NothingYet(g, pk, p, 0, 0);
    assert Order(g)[..0] == [];
  }

  /** The turn of a cell is its number. */
  lemma {:induction false} CellTurn(g: Grid, pk: Pack, p: seq<real>, l: nat, i: nat, j: nat)
    requires Valid(g, pk) && g.Cell(l, i, j)
    ensures var k := Idx(g, l, i, j);
      && 0 <= k < Cells(g) && k < Cells(g) + EXTRA && |Order(g)| == Cells(g) + EXTRA == |Network(g, pk, p)| && Order(g)[k] == k
      && Network(g, pk, p)[k] == CellNode(g, pk, p, l, i, j) && Idx(g, l, i, j + 1) == k + 1
  {
    hide Order, CellNode, Idx, Cells, NodeAt;
    CellInNetwork(g, pk, p, l, i, j);
    OrderAt(g, Idx(g, l, i, j));
    Steps(g, l, i, j);
  }

  /** Stores the rows of the package nodes. */
  method AssemblePackage(g: Grid, pk: Pack, ghost p: seq<real>, cooX: array<int>, cooY: array<int>, cooV: array<real>, curidx: nat)
    returns (next: nat)
    requires Valid(g, pk) && cooX != cooY && Written(g, pk, p, cooX[..], cooY[..], cooV[..], curidx, Cells(g))
    modifies cooX, cooY, cooV
    ensures Written(g, pk, p, cooX[..], cooY[..], cooV[..], next, Cells(g) + EXTRA)
  {
    next := curidx;
    hide Written, Cells, PackNode, RowOf, Network, Nnz, Order, PackOrder, Conductance, RowsOf, CellNode, Valid;
    for i := 0 to EXTRA
      invariant Written(g, pk, p, cooX[..], cooY[..], cooV[..], next, Cells(g) + i)
    {
      PackTurn(g, pk, p, i);
      var row := PackElements(g, pk, PackOrder(0)[i]);
      next := StoreNode(g, pk, p, cooX, cooY, cooV, next, row, Cells(g) + i);
    }
  }

  // ---- what has been assembled ----

  /** All elements: exactly as many as announced, each position once, every column with its
      diagonal. */
  lemma {:induction false} AssembledIs(g: Grid, pk: Pack, p: seq<real>, xs: seq<int>, ys: seq<int>, vs: seq<real>, curidx: nat)
    requires Valid(g, pk) && Written(g, pk, p, xs, ys, vs, curidx, Cells(g) + EXTRA)
    ensures |Order(g)| == |Network(g, pk, p)| == Cells(g) + EXTRA && forall m | 0 <= m < |Order(g)| :: Order(g)[m] < |Network(g, pk, p)|
    ensures curidx == Nnz(g) == |xs| == |ys| == |vs| && ElementsOf(xs, ys, vs, curidx) == RowsOf(Network(g, pk, p), Order(g))
  {
    hide Network, Order, Cells, Nnz, RowsOf;
    ElementsAreNnz(g, pk, p);
    assert Order(g)[..Cells(g) + EXTRA] == Order(g);
  }

  lemma {:induction false} EachPositionOnce(g: Grid, pk: Pack, p: seq<real>)
    requires Valid(g, pk)
    ensures EachOnce(Order(g), Cells(g) + EXTRA)
    ensures !Repeats(RowsOf(Network(g, pk, p), Order(g)))
    ensures forall c: nat | c < Cells(g) + EXTRA :: HasColumn(RowsOf(Network(g, pk, p), Order(g)), c)
  {
    hide Cells, Order, RowsOf, ColumnsDiffer, HasColumn, Repeats, NodeAt;
    OrderIsAll(g);
    var net, o := Network(g, pk, p), Order(g);
    forall i | 0 <= i < |o| ensures o[i] < |net| && ColumnsDiffer(o[i], net[o[i]].links) {
      NetworkColumnsDiffer(g, pk, p, o[i]);
    }
    RowsDoNotRepeat(net, o);
    forall c: nat | c < |net| ensures HasColumn(RowsOf(net, o), c) { DiagonalIn(net, o, c); }
  }

  lemma {:induction false} RowInRange(k: nat, node: Node, n: nat)
    requires k < n && AllBelow(node.links, n)
    ensures InRange(RowOf(k, node), n)
  {
  }

  ghost predicate InRange(coo: seq<Element>, n: nat) {
    forall i | 0 <= i < |coo| :: 0 <= coo[i].x < n && 0 <= coo[i].y < n
  }

  lemma {:induction false} RowsInRange(net: seq<Node>, order: seq<nat>, n: nat)
    requires |net| == n && forall i | 0 <= i < |order| :: order[i] < n
    requires forall k: nat | k < n :: AllBelow(net[k].links, n)
    ensures InRange(RowsOf(net, order), n)
  {
    hide AllBelow, RowOf;
    if order != [] {
      var k := order[|order|-1];
      RowsInRange(net, order[..|order|-1], n);
      RowInRange(k, net[k], n);
    }
  }

  lemma {:induction false} MatrixInRange(g: Grid, pk: Pack, p: seq<real>)
    requires Valid(g, pk)
    ensures |Network(g, pk, p)| == Cells(g) + EXTRA && forall m | 0 <= m < |Order(g)| :: Order(g)[m] < Cells(g) + EXTRA
    ensures InRange(RowsOf(Network(g, pk, p), Order(g)), Cells(g) + EXTRA)
  {
    hide Cells, Order, RowsOf, ColumnsDiffer, AllBelow, NodeAt;
    OrderIsAll(g);
    forall k: nat | k < Cells(g) + EXTRA ensures AllBelow(Network(g, pk, p)[k].links, Cells(g) + EXTRA) {
      NetworkColumnsDiffer(g, pk, p, k);
    }
    RowsInRange(Network(g, pk, p), Order(g), Cells(g) + EXTRA);
  }

  // ---- the matrix ----

  /** The matrix in compressed columns, with what it was made from. */
  ghost predicate MatrixOf(g: Grid, pk: Pack, coo: seq<Element>, s: seq<Element>, asub: seq<int>, xa0: seq<int>, xa: seq<int>, a: seq<real>)
    requires Valid(g, pk)
  {
    && |Network(g, pk, [])| == |Order(g)| == Cells(g) + EXTRA && (forall m | 0 <= m < |Order(g)| :: Order(g)[m] < Cells(g) + EXTRA)
    && coo == RowsOf(Network(g, pk, []), Order(g))
    && SortedCopy(coo, s) && Compressed(s, asub, xa0, xa, a) && |xa| == Cells(g) + EXTRA + 1
  }

  /** What is promised of the matrix that was built. */
  ghost predicate Complete(g: Grid, pk: Pack, coo: seq<Element>, s: seq<Element>, asub: seq<int>, xa0: seq<int>, xa: seq<int>, a: seq<real>)
    requires Valid(g, pk)
  {
    && MatrixOf(g, pk, coo, s, asub, xa0, xa, a)
    && |coo| == |s| == |asub| == |a| == Nnz(g) && !Repeats(s) && LastColumn(s) + 1 == Cells(g) + EXTRA
  }

  /** Assembles all rows; the count is as announced. */
  method AssembleAll(g: Grid, pk: Pack, cooX: array<int>, cooY: array<int>, cooV: array<real>) returns (curidx: nat)
    requires Valid(g, pk) && cooX != cooY && cooX.Length == cooY.Length == cooV.Length == Nnz(g)
    modifies cooX, cooY, cooV
    ensures |Network(g, pk, [])| == |Order(g)| == Cells(g) + EXTRA && forall m | 0 <= m < |Order(g)| :: Order(g)[m] < Cells(g) + EXTRA
    ensures curidx == Nnz(g) && ElementsOf(cooX[..], cooY[..], cooV[..], curidx) == RowsOf(Network(g, pk, []), Order(g))
    ensures forall k | 0 <= k < cooX.Length :: 0 <= cooX[k] && 0 <= cooY[k] < Cells(g) + EXTRA
  {
    hide *;
    curidx := AssembleCells(g, pk, [], cooX, cooY, cooV);
    curidx := AssemblePackage(g, pk, [], cooX, cooY, cooV, curidx);
    AssembledIs(g, pk, [], cooX[..], cooY[..], cooV[..], curidx);
    MatrixInRange(g, pk, []);
    CoordinatesInRange(cooX[..], cooY[..], cooV[..], curidx, Cells(g) + EXTRA);
  }

  /** Builds the matrix. The check of the number of elements never fails, no position
      occurs twice, and all column pointers are set. */
  method BuildTransientGridMatrix(g: Grid, pk: Pack, sort: seq<Element> -> seq<Element>)
    returns (ok: bool, asub: array<int>, xa: array<int>, a: array<real>, ghost coo: seq<Element>, ghost s: seq<Element>, ghost xa0: seq<int>)
    requires Valid(g, pk) && Sorts(sort)
    ensures ok && fresh(asub) && fresh(xa) && fresh(a)
    ensures Complete(g, pk, coo, s, asub[..], xa0, xa[..], a[..])
  {
    hide *;
    NnzPositive(g, pk);
    var n, nnz := Cells(g) + EXTRA, Nnz(g);
    var cooX, cooY, cooV := new int[nnz], new int[nnz], new real[nnz];
    a, asub, xa := new real[nnz], new int[nnz], new int[n + 1];
    var curidx := AssembleAll(g, pk, cooX, cooY, cooV);
    ok := curidx == nnz;
    coo, xa0 := RowsOf(Network(g, pk, []), Order(g)), xa[..];
    var repeats;
    repeats, s := Coo2Csc(n, nnz, cooX, cooY, cooV, asub, xa, a, sort);
    Together(g, pk, coo, s, asub[..], xa0, xa[..], a[..]);
  }

  lemma {:induction false} NnzPositive(g: Grid, pk: Pack)
    requires Valid(g, pk)
    ensures Nnz(g) >= 0 && Cells(g) + EXTRA > 0
  {
    hide Nnz, Network, Order, Cells, RowsOf;
    ElementsAreNnz(g, pk, []);
  }

  lemma {:induction false} Together(g: Grid, pk: Pack, coo: seq<Element>, s: seq<Element>, asub: seq<int>, xa0: seq<int>, xa: seq<int>, a: seq<real>)
    requires Valid(g, pk) && |Network(g, pk, [])| == |Order(g)| == Cells(g) + EXTRA && (forall m | 0 <= m < |Order(g)| :: Order(g)[m] < Cells(g) + EXTRA)
    requires coo == RowsOf(Network(g, pk, []), Order(g)) && SortedCopy(coo, s) && Compressed(s, asub, xa0, xa, a) && |xa| == Cells(g) + EXTRA + 1
    requires |asub| == |a| == Nnz(g)
    ensures Complete(g, pk, coo, s, asub, xa0, xa, a)
  {
    hide Network, Order, Cells, RowsOf, SortedCopy, Compressed, Repeats, HasColumn, InRange, Nnz;
    ElementsAreNnz(g, pk, []);
    EachPositionOnce(g, pk, []);
    MatrixInRange(g, pk, []);
    SortedKeeps(coo, s, Cells(g) + EXTRA);
  }

  lemma {:induction false} CoordinatesInRange(xs: seq<int>, ys: seq<int>, vs: seq<real>, nnz: nat, n: nat)
    requires |xs| == |ys| == |vs| == nnz && InRange(ElementsOf(xs, ys, vs, nnz), n)
    ensures forall k | 0 <= k < nnz :: 0 <= xs[k] && 0 <= ys[k] < n
  {
    forall k | 0 <= k < nnz ensures 0 <= xs[k] && 0 <= ys[k] < n {
      assert ElementsOf(xs, ys, vs, nnz)[k] == Element(xs[k], ys[k], vs[k]);
    }
  }

  /** Sorting keeps what was said of the list. */
  lemma {:induction false} SortedKeeps(coo: seq<Element>, s: seq<Element>, n: nat)
    requires SortedCopy(coo, s) && InRange(coo, n) && n > 0
    requires !Repeats(coo) && forall c: nat | c < n :: HasColumn(coo, c)
    ensures |s| == |coo| && !Repeats(s) && LastColumn(s) + 1 == n
  {
    assert |multiset(s)| == |multiset(coo)|;
    AllPointersIff(coo, s, n);
    assert HasColumn(coo, n - 1);
    if Repeats(s) { PermutedRepeats(coo, s); }
  }
}
