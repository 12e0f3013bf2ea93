/** The right-hand side of the direct solver, and what its equation says: every node of the
    network is balanced. */
module GridDirect {
  import opened Sums
  import opened SparseMatrix
  import opened GridStencil
  import opened NodeNetwork
  import opened GridNodes
  import opened GridLinks
  import opened GridCount
  import opened GridMatrix

  // ---- right-hand side ----

  lemma {:induction false} QuotientInverse(a: real, r: real)
    requires r > 0.0
    ensures Quotient(a, r) == Times(Inverse(r), a)
  {
  }

  /** The vector's first k values are the sources of the nodes. */
  ghost predicate Sources(g: Grid, pk: Pack, power: seq<real>, pv: seq<real>, k: int)
    requires Valid(g, pk)
  {
    |pv| == Cells(g) + EXTRA && k <= |pv| && forall m | 0 <= m < k :: pv[m] == Source(Network(g, pk, power), g.ambient)(m)
  }

  function CellSource(g: Grid, power: seq<real>, l: int, k: int): real
    requires 0 <= l < |g.layers| && 0 <= k < |power| && g.Positive()
  {
    if l == SinkLayer(g) then Quotient(g.ambient, g.layers[l].rz) + power[k] else power[k]
  }

  lemma {:induction false} CellSourceIs(g: Grid, pk: Pack, power: seq<real>, l: int, i: int, j: int)
    requires Valid(g, pk) && g.Cell(l, i, j) && |power| == Cells(g)
    ensures var k := Idx(g, l, i, j);
      0 <= k < Cells(g) && CellSource(g, power, l, k) == Source(Network(g, pk, power), g.ambient)(k)
  {
    hide Inverse, Times, Quotient, Network, Idx, Cells, CellLinks;
    CellInNetwork(g, pk, power, l, i, j);
    QuotientInverse(g.ambient, g.layers[l].rz);
    TimesLaws(g.ambient, 0.0, 0.0);
    TimesLaws(0.0, g.ambient, 0.0);
  }

  function PackSource(g: Grid, pk: Pack, e: nat): real
    requires pk.Positive()
  {
    if e == SP_W || e == SP_E || e == SP_N || e == SP_S then 0.0
    else if e == SINK_C_W || e == SINK_C_E then Quotient(g.ambient, pk.hsCPerX + pk.ambCPerX)
    else if e == SINK_C_N || e == SINK_C_S then Quotient(g.ambient, pk.hsCPerY + pk.ambCPerY)
    else Quotient(g.ambient, pk.hsPer + pk.ambPer)
  }

  lemma {:induction false} PackSourceIs(g: Grid, pk: Pack, power: seq<real>, e: nat)
    requires Valid(g, pk) && e < EXTRA
    ensures PackSource(g, pk, e) == Source(Network(g, pk, power), g.ambient)(Cells(g) + e)
  {
    hide Inverse, Times, Quotient, Cells, RowLinks, ColLinks, RimX, RimY, OuterX, OuterY, CellNode;
    QuotientInverse(g.ambient, pk.hsCPerX + pk.ambCPerX);
    QuotientInverse(g.ambient, pk.hsCPerY + pk.ambCPerY);
    QuotientInverse(g.ambient, pk.hsPer + pk.ambPer);
    TimesLaws(g.ambient, 0.0, 0.0);
    TimesLaws(0.0, g.ambient, 0.0);
    assert Network(g, pk, power)[Cells(g) + e] == PackNode(g, pk, e);
  }

  /** Sets the value of a cell. */
  method SetCell(g: Grid, pk: Pack, power: seq<real>, l: nat, i: nat, j: nat, pv: array<real>)
    requires Valid(g, pk) && g.Cell(l, i, j) && |power| == Cells(g) && Sources(g, pk, power, pv[..], Idx(g, l, i, j))
    modifies pv
    ensures Sources(g, pk, power, pv[..], Idx(g, l, i, j + 1))
  {
    hide Idx, Cells, Network, Source, Quotient;
    CellSourceIs(g, pk, power, l, i, j);
    Steps(g, l, i, j);
    var idx := Idx(g, l, i, j);
    if l == SinkLayer(g) {
      pv[idx] := Quotient(g.ambient, g.layers[l].rz) + power[idx];
    } else {
      pv[idx] := power[idx];
    }
  }

  method SetRow(g: Grid, pk: Pack, power: seq<real>, l: nat, i: nat, pv: array<real>)
    requires Valid(g, pk) && l < |g.layers| && i < g.rows && |power| == Cells(g) && Sources(g, pk, power, pv[..], Idx(g, l, i, 0))
    modifies pv
    ensures Sources(g, pk, power, pv[..], Idx(g, l, i + 1, 0))
  {
    hide *;
    for j := 0 to g.cols
      invariant Sources(g, pk, power, pv[..], Idx(g, l, i, j))
    {
      IsCell(g, l, i, j);
      SetCell(g, pk, power, l, i, j, pv);
    }
    RowEnd(g, l, i + 1);
  }

  method SetLayer(g: Grid, pk: Pack, power: seq<real>, l: nat, pv: array<real>)
    requires Valid(g, pk) && l < |g.layers| && |power| == Cells(g) && Sources(g, pk, power, pv[..], Idx(g, l, 0, 0))
    modifies pv
    ensures Sources(g, pk, power, pv[..], Idx(g, l + 1, 0, 0))
  {
    hide *;
    for i := 0 to g.rows
      invariant Sources(g, pk, power, pv[..], Idx(g, l, i, 0))
    {
      SetRow(g, pk, power, l, i, pv);
    }
    LayerEnd(g, l + 1);
  }

  /** Sets the values of the package nodes. */
  method SetPackage(g: Grid, pk: Pack, ghost power: seq<real>, pv: array<real>)
    requires Valid(g, pk) && Sources(g, pk, power, pv[..], Cells(g))
    modifies pv
    ensures Sources(g, pk, power, pv[..], Cells(g) + EXTRA)
  {
    ghost var before := pv[..];
    var n := Cells(g);
    hide Cells, Network, Source, Quotient, PackSource;
    forall e: nat | e < EXTRA ensures PackSource(g, pk, e) == Source(Network(g, pk, power), g.ambient)(n + e) {
      PackSourceIs(g, pk, power, e);
    }
    StorePackage(g, pk, n, pv);
    forall m: nat | m < n + EXTRA ensures pv[m] == Source(Network(g, pk, power), g.ambient)(m) {
      if m < n { assert pv[m] == before[m]; } else { assert pv[n + (m - n)] == PackSource(g, pk, m - n); }
    }
  }

  method StorePackage(g: Grid, pk: Pack, n: nat, pv: array<real>)
    requires pk.Positive() && pv.Length == n + EXTRA
    modifies pv
    ensures forall m | 0 <= m < n :: pv[m] == old(pv[m])
    ensures forall e | 0 <= e < EXTRA :: pv[n + e] == PackSource(g, pk, e)
  {
    hide PackSource;
    StoreSpreader(g, pk, n, pv);
    StoreInnerSink(g, pk, n, pv);
    StoreOuterSink(g, pk, n, pv);
  }

  method StoreSpreader(g: Grid, pk: Pack, n: nat, pv: array<real>)
    requires pk.Positive() && pv.Length == n + EXTRA
    modifies pv
    ensures forall m | 0 <= m < n :: pv[m] == old(pv[m])
    ensures forall e | 0 <= e < 4 :: pv[n + e] == PackSource(g, pk, e)
  {
    hide Quotient;
    pv[n + SP_W] := 0.0;
    pv[n + SP_E] := 0.0;
    pv[n + SP_N] := 0.0;
    pv[n + SP_S] := 0.0;
  }

  method StoreInnerSink(g: Grid, pk: Pack, n: nat, pv: array<real>)
    requires pk.Positive() && pv.Length == n + EXTRA
    modifies pv
    ensures forall m | 0 <= m < n + 4 :: pv[m] == old(pv[m])
    ensures forall e | 4 <= e < 8 :: pv[n + e] == PackSource(g, pk, e)
  {
    hide Quotient;
    pv[n + SINK_C_W] := Quotient(g.ambient, pk.hsCPerX + pk.ambCPerX);
    pv[n + SINK_C_E] := Quotient(g.ambient, pk.hsCPerX + pk.ambCPerX);
    pv[n + SINK_C_N] := Quotient(g.ambient, pk.hsCPerY + pk.ambCPerY);
    pv[n + SINK_C_S] := Quotient(g.ambient, pk.hsCPerY + pk.ambCPerY);
  }

  method StoreOuterSink(g: Grid, pk: Pack, n: nat, pv: array<real>)
    requires pk.Positive() && pv.Length == n + EXTRA
    modifies pv
    ensures forall m | 0 <= m < n + 8 :: pv[m] == old(pv[m])
    ensures forall e | 8 <= e < EXTRA :: pv[n + e] == PackSource(g, pk, e)
  {
    hide Quotient;
    pv[n + SINK_W] := Quotient(g.ambient, pk.hsPer + pk.ambPer);
    pv[n + SINK_E] := Quotient(g.ambient, pk.hsPer + pk.ambPer);
    pv[n + SINK_N] := Quotient(g.ambient, pk.hsPer + pk.ambPer);
    pv[n + SINK_S] := Quotient(g.ambient, pk.hsPer + pk.ambPer);
  }

  /** Power put into every node, and what its conductance to the ambient adds. */
  method BuildTransientPowerVector(g: Grid, pk: Pack, power: seq<real>) returns (pv: array<real>)
    requires Valid(g, pk) && |power| == Cells(g)
    ensures fresh(pv) && Sources(g, pk, power, pv[..], Cells(g) + EXTRA)
  {
    hide *;
    NnzPositive(g, pk);
    pv := new real[Cells(g) + EXTRA];
    NoSources(g, pk, power, pv[..]);
    for l := 0 to |g.layers|
      invariant Sources(g, pk, power, pv[..], Idx(g, l, 0, 0))
    {
      SetLayer(g, pk, power, l, pv);
    }
    LastIdx(g);
    SetPackage(g, pk, power, pv);
  }

  lemma {:induction false} NoSources(g: Grid, pk: Pack, power: seq<real>, pv: seq<real>)
    requires Valid(g, pk) && |pv| == Cells(g) + EXTRA
    ensures Sources(g, pk, power, pv, Idx(g, 0, 0, 0))
  {
    hide Cells, Source, Network;
    NothingYet(g, pk, power, 0, 0);
  }

  // ---- the equation ----

  lemma {:induction false} RowsIgnoreSource(net: seq<Node>, net': seq<Node>, order: seq<nat>)
    requires |net| == |net'| && forall i | 0 <= i < |order| :: order[i] < |net|
    requires forall k: nat | k < |net| :: net[k].links == net'[k].links && net[k].ground == net'[k].ground
    ensures RowsOf(net, order) == RowsOf(net', order)
  {
    hide RowOf;
    if order != [] {
      var k := order[|order|-1];
      RowsIgnoreSource(net, net', order[..|order|-1]);
      RowSame(k, net[k], net'[k]);
    }
  }

  lemma {:induction false} RowSame(k: nat, a: Node, b: Node)
    requires a.links == b.links && a.ground == b.ground
    ensures RowOf(k, a) == RowOf(k, b)
  {
  }

  /** The matrix does not depend on the power. */
  lemma {:induction false} NetworkIgnoresPower(g: Grid, pk: Pack, p: seq<real>, q: seq<real>)
    requires Valid(g, pk)
    ensures |Network(g, pk, p)| == |Network(g, pk, q)| == Cells(g) + EXTRA && forall m | 0 <= m < |Order(g)| :: Order(g)[m] < Cells(g) + EXTRA
    ensures RowsOf(Network(g, pk, p), Order(g)) == RowsOf(Network(g, pk, q), Order(g))
  {
    hide CellLinks, PackNode, Cells, Order, Idx;
    OrderIsAll(g);
    var a, b := Network(g, pk, p), Network(g, pk, q);
    forall k: nat | k < |a| ensures a[k].links == b[k].links && a[k].ground == b[k].ground {
      if k < Cells(g) { NodeIsCell(g, k); }
    }
    hide RowsOf;
    RowsIgnoreSource(a, b, Order(g));
  }

  /** The compressed matrix times t is b. */
  ghost predicate DirectlySolves(asub: seq<int>, xa: seq<int>, a: seq<real>, n: nat, t: int -> real, b: seq<real>) {
    |b| == n && forall r | 0 <= r < n :: Sum(ProductTerm(asub, xa, a, r, t), n) == b[r]
  }

  lemma {:induction false} CompressedRow(g: Grid, pk: Pack, coo: seq<Element>, s: seq<Element>, asub: seq<int>, xa0: seq<int>, xa: seq<int>,
                                         a: seq<real>, t: int -> real, r: nat)
    requires Valid(g, pk) && Complete(g, pk, coo, s, asub, xa0, xa, a) && r < Cells(g) + EXTRA
    ensures Sum(ProductTerm(asub, xa, a, r, t), Cells(g) + EXTRA) == Applied(coo, r, t)
  {
    hide Network, Order, Cells, RowsOf, SortedCopy, Compressed, Repeats, Applied, Sum, ProductTerm, CooTerm, Nnz;
    MatrixInRange(g, pk, []);
    EachPositionOnce(g, pk, []);
    ProductIsCoo(coo, s, asub, xa0, xa, a, Cells(g) + EXTRA, r, t);
    AppliedIsEntries(coo, Cells(g) + EXTRA, r, t);
  }

  /** A temperature field satisfies the direct solver's equation exactly when every cell
      and every package node is balanced. */
  lemma {:induction false} DirectIffBalanced(g: Grid, pk: Pack, p: seq<real>, coo: seq<Element>, s: seq<Element>, asub: seq<int>,
                                             xa0: seq<int>, xa: seq<int>, a: seq<real>, t: int -> real, b: seq<real>)
    requires Valid(g, pk) && Complete(g, pk, coo, s, asub, xa0, xa, a) && Sources(g, pk, p, b, Cells(g) + EXTRA)
    ensures DirectlySolves(asub, xa, a, Cells(g) + EXTRA, t, b) <==> Solved(Network(g, pk, p), g.ambient, t)
  {
    hide Network, Order, Cells, RowsOf, SortedCopy, Compressed, Repeats, Applied, Sum, ProductTerm, Nnz, Solved, Source;
    var n, net := Cells(g) + EXTRA, Network(g, pk, p);
    NetworkIgnoresPower(g, pk, p, []);
    EachPositionOnce(g, pk, p);
    SolvesIffBalanced(net, Order(g), g.ambient, t);
    forall r: nat | r < n ensures Sum(ProductTerm(asub, xa, a, r, t), n) == Applied(coo, r, t) {
      CompressedRow(g, pk, coo, s, asub, xa0, xa, a, t, r);
    }
  }
}
