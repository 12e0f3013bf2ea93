/** The nodes of the grid model with its package: every cell, and the twelve nodes around
    spreader and sink. */
module GridNodes {
  import opened Sums
  import opened GridStencil
  import opened NodeNetwork

  const EXTRA := 12
  const SP_W := 0
  const SP_E := 1
  const SP_N := 2
  const SP_S := 3
  const SINK_C_W := 4
  const SINK_C_E := 5
  const SINK_C_N := 6
  const SINK_C_S := 7
  const SINK_W := 8
  const SINK_E := 9
  const SINK_N := 10
  const SINK_S := 11

  /** Resistances of the package. */
  datatype Pack = Pack(sp1X: real, sp1Y: real, hs1X: real, hs1Y: real, hs2X: real, hs2Y: real, hs: real,
                       spPerX: real, spPerY: real, hsPer: real, ambPer: real,
                       hsCPerX: real, hsCPerY: real, ambCPerX: real, ambCPerY: real)
  {
    predicate Positive() {
      && sp1X > 0.0 && sp1Y > 0.0 && hs1X > 0.0 && hs1Y > 0.0 && hs2X > 0.0 && hs2Y > 0.0 && hs > 0.0
      && spPerX > 0.0 && spPerY > 0.0 && hsPer > 0.0 && ambPer > 0.0
      && hsCPerX > 0.0 && hsCPerY > 0.0 && ambCPerX > 0.0 && ambCPerY > 0.0
    }
  }

  /** At least two rows and columns; the last two layers are spreader and sink. */
  predicate Valid(g: Grid, pk: Pack) {
    g.Positive() && pk.Positive() && g.rows >= 2 && g.cols >= 2 && |g.layers| >= 2
  }

  function Spreader(g: Grid): int { |g.layers| - 2 }
  function SinkLayer(g: Grid): int { |g.layers| - 1 }

  // ---- numbering ----

  function Plane(g: Grid): nat { g.rows * g.cols }

  function Cells(g: Grid): nat { |g.layers| * Plane(g) }

  /** The number of a cell. */
  function Idx(g: Grid, l: int, i: int, j: int): int {
    l * Plane(g) + (i * g.cols + j)
  }

  lemma {:induction false} Place(g: Grid, i: int, j: int)
    requires 0 <= i < g.rows && 0 <= j < g.cols
    ensures 0 <= i * g.cols + j < Plane(g)
    ensures (i * g.cols + j) / g.cols == i && (i * g.cols + j) % g.cols == j
  {
    Bound(i, g.rows, g.cols, j);
    DivideBack(g.cols, i, j);
  }

  lemma {:induction false} Bound(i: int, n: int, c: int, j: int)
    requires 0 <= i < n && 0 <= j < c
    ensures 0 <= i * c + j < n * c
  {
    Gap(c, n, i);
    if i > 0 { Gap(c, i, 0); }
  }

  lemma {:induction false} Gap(c: int, a: int, b: int)
    requires c > 0 && a > b
    ensures a * c >= b * c + c
  {
    NoSign(a - b - 1, c);
  }

  lemma {:induction false} NoSign(a: int, b: int)
    requires a >= 0 && b >= 0
    ensures a * b >= 0
  {
  }

  lemma {:induction false} DivideBack(c: int, i: int, j: int)
    requires c > 0 && i >= 0 && 0 <= j < c
    ensures (i * c + j) / c == i && (i * c + j) % c == j
  {
    var x := i * c + j;
    Euclid(x, c);
    OneQuotient(c, i, j, x / c, x % c);
  }

  lemma {:induction false} Euclid(x: int, c: int)
    requires c > 0
    ensures x == (x / c) * c + x % c && 0 <= x % c < c
  {
  }

  lemma {:induction false} OneQuotient(c: int, i: int, j: int, q: int, r: int)
    requires c > 0 && 0 <= j < c && 0 <= r < c && i * c + j == q * c + r
    ensures i == q && j == r
  {
    if i > q { Gap(c, i, q); }
    if q > i { Gap(c, q, i); }
  }

  /** Cells have different numbers, and the number gives the cell back. */
  lemma {:induction false} Located(g: Grid, l: int, i: int, j: int)
    requires g.Cell(l, i, j)
    ensures 0 <= Idx(g, l, i, j) < Cells(g)
    ensures Idx(g, l, i, j) / Plane(g) == l && Idx(g, l, i, j) % Plane(g) == i * g.cols + j
    ensures (Idx(g, l, i, j) % Plane(g)) / g.cols == i && (Idx(g, l, i, j) % Plane(g)) % g.cols == j
  {
    Place(g, i, j);
    Bound(l, |g.layers|, Plane(g), i * g.cols + j);
    DivideBack(Plane(g), l, i * g.cols + j);
  }

  function LayerOfNode(g: Grid, k: nat): int requires Plane(g) > 0 { k / Plane(g) }
  function RowOfNode(g: Grid, k: nat): int requires Plane(g) > 0 && g.cols > 0 { (k % Plane(g)) / g.cols }
  function ColOfNode(g: Grid, k: nat): int requires Plane(g) > 0 && g.cols > 0 { (k % Plane(g)) % g.cols }

  lemma {:induction false} NodeIsCell(g: Grid, k: nat)
    requires g.cols > 0 && g.rows > 0 && k < Cells(g)
    ensures Plane(g) > 0
    ensures g.Cell(LayerOfNode(g, k), RowOfNode(g, k), ColOfNode(g, k))
    ensures Idx(g, LayerOfNode(g, k), RowOfNode(g, k), ColOfNode(g, k)) == k
  {
    PlanePositive(g);
    Parts(|g.layers|, Plane(g), k);
    Parts(g.rows, g.cols, k % Plane(g));
  }

  lemma {:induction false} Parts(n: nat, c: nat, x: nat)
    requires c > 0 && x < n * c
    ensures 0 <= x / c < n && 0 <= x % c < c && x == (x / c) * c + x % c
  {
    Euclid(x, c);
    QuotientBelow(n, c, x / c, x % c);
  }

  lemma {:induction false} QuotientBelow(n: int, c: int, q: int, r: int)
    requires c > 0 && 0 <= r < c && 0 <= q * c + r < n * c
    ensures 0 <= q < n
  {
    if q > n { Gap(c, q, n); }
    if q < 0 { Gap(c, 0, q); }
  }

  lemma {:induction false} PlanePositive(g: Grid)
    requires g.cols > 0 && g.rows > 0
    ensures Plane(g) > 0
  {
    assert g.rows * g.cols >= g.cols by { assert (g.rows - 1) * g.cols >= 0; }
  }

  // ---- resistances ----

  /** Between neighbouring cells of a uniform model. Along a column the source takes the
      x and along a row the y resistance. */
  function FindRes(g: Grid, n1: int, i1: int, n2: int, i2: int): real
    requires 0 <= n1 < |g.layers| && 0 <= n2 < |g.layers|
  {
    if n1 < n2 then g.layers[n1].rz
    else if n1 > n2 then g.layers[n2].rz
    else if i1 != i2 then g.layers[n1].rx / 2.0 + g.layers[n2].rx / 2.0
    else g.layers[n1].ry / 2.0 + g.layers[n2].ry / 2.0
  }

  lemma {:induction false} FindResPositive(g: Grid, n1: int, i1: int, n2: int, i2: int)
    requires g.Positive() && 0 <= n1 < |g.layers| && 0 <= n2 < |g.layers|
    ensures FindRes(g, n1, i1, n2, i2) > 0.0
  {
  }

  /** A cell on the north or south edge to its package node, and on the west or east. */
  function RimY(g: Grid, l: int, r: real): real requires 0 <= l < |g.layers| {
    g.layers[l].ry / 2.0 + Times(g.cols as real, r)
  }

  function RimX(g: Grid, l: int, r: real): real requires 0 <= l < |g.layers| {
    g.layers[l].rx / 2.0 + Times(g.rows as real, r)
  }

  lemma {:induction false} RimPositive(g: Grid, l: int, r: real)
    requires g.Positive() && 0 <= l < |g.layers| && r > 0.0 && g.rows > 0 && g.cols > 0
    ensures RimY(g, l, r) > 0.0 && RimX(g, l, r) > 0.0
  {
    ProductPositive(g.cols as real, r);
    ProductPositive(g.rows as real, r);
  }

  function Inverse(r: real): (c: real)
    ensures r > 0.0 ==> c > 0.0
  {
    if r == 0.0 then 0.0 else Quotient(1.0, r)
  }

  /** Against the small grid model the two lateral conductances have changed places: what
      leads to the row above is what leads to the column on the left there. The models agree
      exactly where the two resistances are equal. */
  lemma {:induction false} LateralExchanged(g: Grid, l: int, i: int, j: int)
    requires g.Positive() && g.Cell(l, i, j) && i > 0 && j > 0
    ensures Inverse(FindRes(g, l, i - 1, l, i)) == GridStencil.West(g, l, i, j)
    ensures Inverse(FindRes(g, l, i, l, i)) == GridStencil.North(g, l, i, j)
    ensures Inverse(FindRes(g, l, i - 1, l, i)) == GridStencil.North(g, l, i, j) <==> g.layers[l].rx == g.layers[l].ry
  {
    QuotientTimes(1.0, g.layers[l].rx);
    QuotientTimes(1.0, g.layers[l].ry);
  }

  // ---- links of a cell ----

  function North(g: Grid, l: int, i: int, j: int): seq<Link> requires g.Cell(l, i, j) {
    if i > 0 then [CellLink(g, l, i - 1, j, Inverse(FindRes(g, l, i - 1, l, i)))] else []
  }

  function South(g: Grid, l: int, i: int, j: int): seq<Link> requires g.Cell(l, i, j) {
    if i < g.rows - 1 then [CellLink(g, l, i + 1, j, Inverse(FindRes(g, l, i + 1, l, i)))] else []
  }

  function West(g: Grid, l: int, i: int, j: int): seq<Link> requires g.Cell(l, i, j) {
    if j > 0 then [CellLink(g, l, i, j - 1, Inverse(FindRes(g, l, i, l, i)))] else []
  }

  function East(g: Grid, l: int, i: int, j: int): seq<Link> requires g.Cell(l, i, j) {
    if j < g.cols - 1 then [CellLink(g, l, i, j + 1, Inverse(FindRes(g, l, i, l, i)))] else []
  }

  function Below(g: Grid, l: int, i: int, j: int): seq<Link> requires g.Cell(l, i, j) {
    if l < |g.layers| - 1 then [CellLink(g, l + 1, i, j, Inverse(FindRes(g, l + 1, i, l, i)))] else []
  }

  function Above(g: Grid, l: int, i: int, j: int): seq<Link> requires g.Cell(l, i, j) {
    if l > 0 then [CellLink(g, l - 1, i, j, Inverse(FindRes(g, l - 1, i, l, i)))] else []
  }

  function CellLink(g: Grid, l: int, i: int, j: int, c: real): Link
    requires g.Cell(l, i, j)
  {
    Located(g, l, i, j);
    Link(Idx(g, l, i, j), c)
  }

  function PackLink(g: Grid, e: nat, c: real): Link {
    Link(Cells(g) + e, c)
  }

  /** To the package node north or south of spreader or sink. */
  function RimNS(g: Grid, pk: Pack, l: int, i: int, j: int): seq<Link> requires g.Cell(l, i, j) {
    if l == Spreader(g) then
      if i == 0 then [PackLink(g, SP_N, Inverse(RimY(g, l, pk.sp1Y)))]
      else if i == g.rows - 1 then [PackLink(g, SP_S, Inverse(RimY(g, l, pk.sp1Y)))] else []
    else if l == SinkLayer(g) then
      if i == 0 then [PackLink(g, SINK_C_N, Inverse(RimY(g, l, pk.hs1Y)))]
      else if i == g.rows - 1 then [PackLink(g, SINK_C_S, Inverse(RimY(g, l, pk.hs1Y)))] else []
    else []
  }

  /** To the package node west or east of spreader or sink. */
  function RimWE(g: Grid, pk: Pack, l: int, i: int, j: int): seq<Link> requires g.Cell(l, i, j) {
    if l == Spreader(g) then
      if j == 0 then [PackLink(g, SP_W, Inverse(RimX(g, l, pk.sp1X)))]
      else if j == g.cols - 1 then [PackLink(g, SP_E, Inverse(RimX(g, l, pk.sp1X)))] else []
    else if l == SinkLayer(g) then
      if j == 0 then [PackLink(g, SINK_C_W, Inverse(RimX(g, l, pk.hs1X)))]
      else if j == g.cols - 1 then [PackLink(g, SINK_C_E, Inverse(RimX(g, l, pk.hs1X)))] else []
    else []
  }

  /** Lateral links in the order in which they are put into the matrix. */
  function Lateral(g: Grid, l: int, i: int, j: int): seq<Link> requires g.Cell(l, i, j) {
    if i == 0 then West(g, l, i, j) + East(g, l, i, j) + South(g, l, i, j)
    else if i == g.rows - 1 then West(g, l, i, j) + East(g, l, i, j) + North(g, l, i, j)
    else North(g, l, i, j) + South(g, l, i, j) + West(g, l, i, j) + East(g, l, i, j)
  }

  function CellLinks(g: Grid, pk: Pack, l: int, i: int, j: int): seq<Link> requires g.Cell(l, i, j) {
    Lateral(g, l, i, j) + Below(g, l, i, j) + Above(g, l, i, j) + RimNS(g, pk, l, i, j) + RimWE(g, pk, l, i, j)
  }

  function Ground(g: Grid, l: int): real requires 0 <= l < |g.layers| {
    if l == SinkLayer(g) then Inverse(g.layers[l].rz) else 0.0
  }

  function CellNode(g: Grid, pk: Pack, p: seq<real>, l: int, i: int, j: int): Node
    requires g.Cell(l, i, j)
  {
    Node(CellLinks(g, pk, l, i, j), Ground(g, l), if 0 <= Idx(g, l, i, j) < |p| then p[Idx(g, l, i, j)] else 0.0)
  }

  /** Between layers and to the ambient a cell conducts as in the small grid model, by the
      resistance of the upper of the two layers. */
  lemma {:induction false} VerticalAgree(g: Grid, l: int, i: int, j: int)
    requires g.Positive() && g.Cell(l, i, j)
    ensures l < |g.layers| - 1 ==> Below(g, l, i, j) == [CellLink(g, l + 1, i, j, GridStencil.Below(g, l, i, j))]
    ensures l > 0 ==> Above(g, l, i, j) == [CellLink(g, l - 1, i, j, GridStencil.Above(g, l, i, j))]
    ensures Ground(g, l) == GridStencil.Sink(g, l, i, j)
    ensures l < |g.layers| - 1 ==> Below(g, l, i, j) == [CellLink(g, l + 1, i, j, Quotient(1.0, g.layers[l].rz))]
    ensures l > 0 ==> Above(g, l, i, j) == [CellLink(g, l - 1, i, j, Quotient(1.0, g.layers[l-1].rz))]
  {
    hide Idx;
  }

  /** Half a cell taken off, the cells along an edge together conduct what the resistance of the
      edge does. */
  lemma {:induction false} RimsInParallel(g: Grid, l: int, r: real)
    requires g.Positive() && 0 <= l < |g.layers| && r > 0.0 && g.rows > 0 && g.cols > 0
    ensures Times(g.cols as real, Inverse(RimY(g, l, r) - g.layers[l].ry / 2.0)) == Inverse(r)
    ensures Times(g.rows as real, Inverse(RimX(g, l, r) - g.layers[l].rx / 2.0)) == Inverse(r)
  {
    Parallel(g.cols as real, r);
    Parallel(g.rows as real, r);
    hide Times, Quotient, Inverse;
  }

  lemma {:induction false} Parallel(n: real, r: real)
    requires n > 0.0 && r > 0.0
    ensures Times(n, Inverse(Times(n, r))) == Inverse(r)
  {
    ProductPositive(n, r);
    var q := 1.0 / (n * r);
    assert q * (n * r) == 1.0;
    assert (n * q) * r == 1.0;
    assert n * q == 1.0 / r;
  }

  // ---- package nodes ----

  /** Links to the first k cells of row i, or of column j, of a layer. */
  function RowLinks(g: Grid, l: int, i: int, k: nat, c: real): (s: seq<Link>)
    requires 0 <= l < |g.layers| && 0 <= i < g.rows && k <= g.cols
  {
    if k == 0 then [] else RowLinks(g, l, i, k - 1, c) + [CellLink(g, l, i, k - 1, c)]
  }

  function ColLinks(g: Grid, l: int, j: int, k: nat, c: real): (s: seq<Link>)
    requires 0 <= l < |g.layers| && 0 <= j < g.cols && k <= g.rows
  {
    if k == 0 then [] else ColLinks(g, l, j, k - 1, c) + [CellLink(g, l, k - 1, j, c)]
  }

  function OuterY(pk: Pack): real { Inverse(pk.hs2Y + pk.hs) }
  function OuterX(pk: Pack): real { Inverse(pk.hs2X + pk.hs) }
  function RimGround(pk: Pack): real { Inverse(pk.hsPer + pk.ambPer) }

  function InnerNode(links: seq<Link>, g: Grid, sp: nat, spC: real, outer: nat, outerC: real, ground: real): Node {
    Node(links + [PackLink(g, sp, spC), PackLink(g, outer, outerC)], ground, 0.0)
  }

  function PackNode(g: Grid, pk: Pack, e: nat): Node
    requires |g.layers| >= 2 && g.rows > 0 && g.cols > 0
  {
    var hs, sp := SinkLayer(g), Spreader(g);
    if e == SINK_N then Node([PackLink(g, SINK_C_N, OuterY(pk))], RimGround(pk), 0.0)
    else if e == SINK_S then Node([PackLink(g, SINK_C_S, OuterY(pk))], RimGround(pk), 0.0)
    else if e == SINK_W then Node([PackLink(g, SINK_C_W, OuterX(pk))], RimGround(pk), 0.0)
    else if e == SINK_E then Node([PackLink(g, SINK_C_E, OuterX(pk))], RimGround(pk), 0.0)
    else if e == SINK_C_N then
      InnerNode(RowLinks(g, hs, 0, g.cols, Inverse(RimY(g, hs, pk.hs1Y))), g, SP_N, Inverse(pk.spPerY), SINK_N, OuterY(pk),
                Inverse(pk.hsCPerY + pk.ambCPerY))
    else if e == SINK_C_S then
      InnerNode(RowLinks(g, hs, g.rows - 1, g.cols, Inverse(RimY(g, hs, pk.hs1Y))), g, SP_S, Inverse(pk.spPerY), SINK_S, OuterY(pk),
                Inverse(pk.hsCPerY + pk.ambCPerY))
    else if e == SINK_C_W then
      InnerNode(ColLinks(g, hs, 0, g.rows, Inverse(RimX(g, hs, pk.hs1X))), g, SP_W, Inverse(pk.spPerX), SINK_W, OuterX(pk),
                Inverse(pk.hsCPerX + pk.ambCPerX))
    else if e == SINK_C_E then
      InnerNode(ColLinks(g, hs, g.cols - 1, g.rows, Inverse(RimX(g, hs, pk.hs1X))), g, SP_E, Inverse(pk.spPerX), SINK_E, OuterX(pk),
                Inverse(pk.hsCPerX + pk.ambCPerX))
    else if e == SP_N then
      Node(RowLinks(g, sp, 0, g.cols, Inverse(RimY(g, sp, pk.sp1Y))) + [PackLink(g, SINK_C_N, Inverse(pk.spPerY))], 0.0, 0.0)
    else if e == SP_S then
      Node(RowLinks(g, sp, g.rows - 1, g.cols, Inverse(RimY(g, sp, pk.sp1Y))) + [PackLink(g, SINK_C_S, Inverse(pk.spPerY))], 0.0, 0.0)
    else if e == SP_W then
      Node(ColLinks(g, sp, 0, g.rows, Inverse(RimX(g, sp, pk.sp1X))) + [PackLink(g, SINK_C_W, Inverse(pk.spPerX))], 0.0, 0.0)
    else
      Node(ColLinks(g, sp, g.cols - 1, g.rows, Inverse(RimX(g, sp, pk.sp1X))) + [PackLink(g, SINK_C_E, Inverse(pk.spPerX))], 0.0, 0.0)
  }

  function NodeAt(g: Grid, pk: Pack, p: seq<real>, k: nat): Node
    requires Valid(g, pk)
  {
    PlanePositive(g);
    if k < Cells(g) then
      NodeIsCell(g, k);
      CellNode(g, pk, p, LayerOfNode(g, k), RowOfNode(g, k), ColOfNode(g, k))
    else PackNode(g, pk, k - Cells(g))
  }

  /** All nodes: the cells by their number, then the package. */
  function Network(g: Grid, pk: Pack, p: seq<real>): (net: seq<Node>)
    requires Valid(g, pk)
    ensures |net| == Cells(g) + EXTRA && forall k | 0 <= k < |net| :: net[k] == NodeAt(g, pk, p, k)
  {
    seq(Cells(g) + EXTRA, k requires 0 <= k < Cells(g) + EXTRA => NodeAt(g, pk, p, k))
  }

  lemma {:induction false} CellInNetwork(g: Grid, pk: Pack, p: seq<real>, l: int, i: int, j: int)
    requires Valid(g, pk) && g.Cell(l, i, j)
    ensures 0 <= Idx(g, l, i, j) < Cells(g) && Network(g, pk, p)[Idx(g, l, i, j)] == CellNode(g, pk, p, l, i, j)
  {
    Located(g, l, i, j);
    hide CellNode;
  }

  /** The order of assembly and of a sweep: the cells, then sink and spreader from the
      outside in. */
  function PackOrder(n: nat): (s: seq<nat>)
    ensures |s| == EXTRA
  {
    [n + SINK_N, n + SINK_S, n + SINK_W, n + SINK_E, n + SINK_C_N, n + SINK_C_S, n + SINK_C_W, n + SINK_C_E,
     n + SP_N, n + SP_S, n + SP_W, n + SP_E]
  }

  function Upto(n: nat): (s: seq<nat>)
    ensures |s| == n && forall k | 0 <= k < n :: s[k] == k
  {
    seq(n, k requires 0 <= k < n => k)
  }

  function Order(g: Grid): seq<nat> {
    Upto(Cells(g)) + PackOrder(Cells(g))
  }

  /** Where a package node stands in the order. */
  function Turn(e: nat): nat {
    if e == SINK_N then 0 else if e == SINK_S then 1 else if e == SINK_W then 2 else if e == SINK_E then 3
    else if e == SINK_C_N then 4 else if e == SINK_C_S then 5 else if e == SINK_C_W then 6 else if e == SINK_C_E then 7
    else if e == SP_N then 8 else if e == SP_S then 9 else if e == SP_W then 10 else 11
  }

  lemma {:induction false} TurnOfOrder(n: nat, i: nat)
    requires i < EXTRA
    ensures n <= PackOrder(n)[i] < n + EXTRA && Turn(PackOrder(n)[i] - n) == i
  {
  }

  lemma {:induction false} OrderOfTurn(n: nat, e: nat)
    requires e < EXTRA
    ensures Turn(e) < EXTRA && PackOrder(n)[Turn(e)] == n + e
  {
  }

  lemma {:induction false} OrderAt(g: Grid, i: nat)
    requires i < Cells(g) + EXTRA
    ensures |Order(g)| == Cells(g) + EXTRA
    ensures Order(g)[i] == if i < Cells(g) then i else PackOrder(Cells(g))[i - Cells(g)]
  {
    hide Cells;
  }

  lemma {:induction false} OrderIsAll(g: Grid)
    ensures EachOnce(Order(g), Cells(g) + EXTRA) && NoneTwice(Order(g)) && |Order(g)| == Cells(g) + EXTRA
  {
    hide Cells, Order, Turn, PackOrder;
    var n := Cells(g);
    OrderAt(g, n);
    forall i: nat | n <= i < n + EXTRA ensures n <= Order(g)[i] < n + EXTRA && Turn(Order(g)[i] - n) == i - n {
      OrderAt(g, i);
      TurnOfOrder(n, i - n);
    }
    forall i: nat | i < n ensures Order(g)[i] == i { OrderAt(g, i); }
    forall k: nat | k < n + EXTRA ensures k in Order(g) {
      if k < n {
        assert Order(g)[k] == k;
      } else {
        OrderOfTurn(n, k - n);
        OrderAt(g, n + Turn(k - n));
      }
    }
  }
}
