/** One in-place sweep over all cells and then over the package. Cell and package
    temperatures lie one after the other in memory. */
module GridPackSweep {
  import opened Sums
  import opened SparseMatrix
  import opened GridStencil
  import opened NodeNetwork
  import opened GridNodes
  import opened GridLinks
  import opened GridCount
  import opened GridMatrix
  import opened GridDirect

  // ---- conductances and weighted temperatures of a cell ----

  /** Conductance over a resistance, if there is a neighbour. */
  function Via(there: bool, r: real): real {
    if there then Inverse(r) else 0.0
  }

  /** Its temperature weighted with it. */
  function Weighted(there: bool, v: seq<real>, to: int, r: real): real
    requires there ==> 0 <= to < |v| && r > 0.0
  {
    if there then Quotient(v[to], r) else 0.0
  }

  lemma {:induction false} OneSide(links: seq<Link>, there: bool, v: seq<real>, to: int, r: real)
    requires there ==> 0 <= to < |v| && r > 0.0
    requires links == if there then [Link(to, Inverse(r))] else []
    ensures Conductance(links) == Via(there, r) && Pull(links, ValuesOf(v)) == Weighted(there, v, to, r)
  {
    hide Inverse, Quotient, Times;
    if there {
      OneLink(links[0], ValuesOf(v));
      QuotientInverse(v[to], r);
    } else {
      OneLink(Link(0, 0.0), ValuesOf(v));
    }
  }

  lemma {:induction false} TwoParts(a: seq<Link>, b: seq<Link>, t: int -> real)
    ensures Conductance(a + b) == Conductance(a) + Conductance(b) && Pull(a + b, t) == Pull(a, t) + Pull(b, t)
  {
    hide Conductance, Pull;
    LinksConcat(a, b, t);
  }

  /** The lateral links in any order weigh the same. */
  lemma {:induction false} LateralSums(g: Grid, l: int, i: int, j: int, t: int -> real)
    requires g.Cell(l, i, j) && g.rows >= 2
    ensures var n, s, w, e := GridNodes.North(g, l, i, j), GridNodes.South(g, l, i, j), GridNodes.West(g, l, i, j), GridNodes.East(g, l, i, j);
      && Conductance(Lateral(g, l, i, j)) == Conductance(n) + Conductance(s) + Conductance(w) + Conductance(e)
      && Pull(Lateral(g, l, i, j), t) == Pull(n, t) + Pull(s, t) + Pull(w, t) + Pull(e, t)
  {
    hide Conductance, Pull, GridNodes.North, GridNodes.South, GridNodes.West, GridNodes.East;
    NoneAtEdge(g, l, i, j);
    OneLink(Link(0, 0.0), t);
    var n, s, w, e := GridNodes.North(g, l, i, j), GridNodes.South(g, l, i, j), GridNodes.West(g, l, i, j), GridNodes.East(g, l, i, j);
    if i == 0 {
      TwoParts(w, e, t);
      TwoParts(w + e, s, t);
    } else if i == g.rows - 1 {
      TwoParts(w, e, t);
      TwoParts(w + e, n, t);
    } else {
      TwoParts(n, s, t);
      TwoParts(n + s, w, t);
      TwoParts(n + s + w, e, t);
    }
  }

  /** So do all the links of a cell. */
  lemma {:induction false} CellSumsAre(g: Grid, pk: Pack, l: int, i: int, j: int, t: int -> real)
    requires g.Cell(l, i, j)
    ensures var a, b, c, d, e := Lateral(g, l, i, j), GridNodes.Below(g, l, i, j), GridNodes.Above(g, l, i, j), RimNS(g, pk, l, i, j), RimWE(g, pk, l, i, j);
      && Conductance(CellLinks(g, pk, l, i, j)) == Conductance(a) + Conductance(b) + Conductance(c) + Conductance(d) + Conductance(e)
      && Pull(CellLinks(g, pk, l, i, j), t) == Pull(a, t) + Pull(b, t) + Pull(c, t) + Pull(d, t) + Pull(e, t)
  {
    hide Conductance, Pull, Lateral, GridNodes.Below, GridNodes.Above, RimNS, RimWE;
    var a, b, c, d, e := Lateral(g, l, i, j), GridNodes.Below(g, l, i, j), GridNodes.Above(g, l, i, j), RimNS(g, pk, l, i, j), RimWE(g, pk, l, i, j);
    TwoParts(a, b, t);
    TwoParts(a + b, c, t);
    TwoParts(a + b + c, d, t);
    TwoParts(a + b + c + d, e, t);
  }

  /** Neighbour cells are stored where a step of one, one row or one layer leads. */
  ghost predicate Around(g: Grid, l: int, i: int, j: int, k: int, size: nat) {
    && 0 <= k < size
    && (i > 0 ==> 0 <= k - g.cols) && (i < g.rows - 1 ==> k + g.cols < size)
    && (j > 0 ==> 0 <= k - 1) && (j < g.cols - 1 ==> k + 1 < size)
    && (l > 0 ==> 0 <= k - Plane(g)) && (l < |g.layers| - 1 ==> k + Plane(g) < size)
  }

  lemma {:induction false} AroundCell(g: Grid, l: int, i: int, j: int)
    requires g.Cell(l, i, j)
    ensures Around(g, l, i, j, Idx(g, l, i, j), Cells(g))
  {
    hide Idx, Plane, Cells;
    NeighboursInRange(g, l, i, j);
  }

  /** Conductance and weighted temperature of the six neighbours. */
  method NeighbourSums(g: Grid, v: seq<real>, l: nat, i: nat, j: nat, k: nat) returns (csum: real, wsum: real)
    requires g.Positive() && g.Cell(l, i, j) && g.rows >= 2 && k == Idx(g, l, i, j) && |v| >= Cells(g)
    ensures csum == Conductance(Lateral(g, l, i, j)) + Conductance(GridNodes.Below(g, l, i, j)) + Conductance(GridNodes.Above(g, l, i, j))
    ensures var t := ValuesOf(v);
      wsum == Pull(Lateral(g, l, i, j), t) + Pull(GridNodes.Below(g, l, i, j), t) + Pull(GridNodes.Above(g, l, i, j), t)
  {
    hide Conductance, Pull, Lateral, GridNodes.North, GridNodes.South, GridNodes.West, GridNodes.East, GridNodes.Below, GridNodes.Above;
    hide Inverse, Quotient, Idx, Plane, Cells, Via, Weighted, ValuesOf, FindRes;
    AroundCell(g, l, i, j);
    SixSides(g, v, l, i, j);
    LateralSums(g, l, i, j, ValuesOf(v));
    var nr, nc, nl := g.rows, g.cols, |g.layers|;
    var up, down := UpRes(g, l, i), DownRes(g, l, i);
    var rn, rs, rl := FindRes(g, l, i - 1, l, i), FindRes(g, l, i + 1, l, i), FindRes(g, l, i, l, i);
    csum := Via(i > 0, rn) + Via(i < nr - 1, rs) + Via(j < nc - 1, rl) + Via(j > 0, rl) + Via(l > 0, up) + Via(l < nl - 1, down);
    wsum := Weighted(i > 0, v, k - nc, rn) + Weighted(i < nr - 1, v, k + nc, rs) + Weighted(j < nc - 1, v, k + 1, rl)
          + Weighted(j > 0, v, k - 1, rl) + Weighted(l > 0, v, k - Plane(g), up) + Weighted(l < nl - 1, v, k + Plane(g), down);
  }

  function UpRes(g: Grid, l: nat, i: nat): (r: real)
    requires g.Positive() && l < |g.layers|
    ensures r > 0.0
  {
    FindResPositive(g, if l > 0 then l - 1 else 0, i, l, i);
    FindRes(g, if l > 0 then l - 1 else 0, i, l, i)
  }

  function DownRes(g: Grid, l: nat, i: nat): (r: real)
    requires g.Positive() && l < |g.layers|
    ensures r > 0.0
  {
    FindResPositive(g, if l < |g.layers| - 1 then l + 1 else l, i, l, i);
    FindRes(g, if l < |g.layers| - 1 then l + 1 else l, i, l, i)
  }

  ghost predicate SidesOf(g: Grid, v: seq<real>, l: nat, i: nat, j: nat, k: nat)
    requires g.Positive() && g.Cell(l, i, j) && Around(g, l, i, j, k, |v|)
  {
    var nr, nc, nl, t := g.rows, g.cols, |g.layers|, ValuesOf(v);
    var rn, rs, rl := FindRes(g, l, i - 1, l, i), FindRes(g, l, i + 1, l, i), FindRes(g, l, i, l, i);
    && rn > 0.0 && rs > 0.0 && rl > 0.0
    && Conductance(GridNodes.North(g, l, i, j)) == Via(i > 0, rn) && Pull(GridNodes.North(g, l, i, j), t) == Weighted(i > 0, v, k - nc, rn)
    && Conductance(GridNodes.South(g, l, i, j)) == Via(i < nr - 1, rs) && Pull(GridNodes.South(g, l, i, j), t) == Weighted(i < nr - 1, v, k + nc, rs)
    && Conductance(GridNodes.West(g, l, i, j)) == Via(j > 0, rl) && Pull(GridNodes.West(g, l, i, j), t) == Weighted(j > 0, v, k - 1, rl)
    && Conductance(GridNodes.East(g, l, i, j)) == Via(j < nc - 1, rl) && Pull(GridNodes.East(g, l, i, j), t) == Weighted(j < nc - 1, v, k + 1, rl)
    && Conductance(GridNodes.Above(g, l, i, j)) == Via(l > 0, UpRes(g, l, i))
    && Pull(GridNodes.Above(g, l, i, j), t) == Weighted(l > 0, v, k - Plane(g), UpRes(g, l, i))
    && Conductance(GridNodes.Below(g, l, i, j)) == Via(l < nl - 1, DownRes(g, l, i))
    && Pull(GridNodes.Below(g, l, i, j), t) == Weighted(l < nl - 1, v, k + Plane(g), DownRes(g, l, i))
  }

  lemma {:induction false} SixSides(g: Grid, v: seq<real>, l: nat, i: nat, j: nat)
    requires g.Positive() && g.Cell(l, i, j) && |v| >= Cells(g)
    ensures Idx(g, l, i, j) >= 0 && Around(g, l, i, j, Idx(g, l, i, j), |v|) && SidesOf(g, v, l, i, j, Idx(g, l, i, j))
  {
    hide Conductance, Pull, Inverse, Quotient, Idx, Plane, Cells, Via, Weighted, ValuesOf, FindRes;
    AroundCell(g, l, i, j);
    Steps(g, l, i, j);
    FindResPositive(g, l, i - 1, l, i);
    FindResPositive(g, l, i + 1, l, i);
    FindResPositive(g, l, i, l, i);
    var k, nr, nc, nl := Idx(g, l, i, j), g.rows, g.cols, |g.layers|;
    var rn, rs, rl := FindRes(g, l, i - 1, l, i), FindRes(g, l, i + 1, l, i), FindRes(g, l, i, l, i);
    OneSide(GridNodes.North(g, l, i, j), i > 0, v, k - nc, rn);
    OneSide(GridNodes.South(g, l, i, j), i < nr - 1, v, k + nc, rs);
    OneSide(GridNodes.West(g, l, i, j), j > 0, v, k - 1, rl);
    OneSide(GridNodes.East(g, l, i, j), j < nc - 1, v, k + 1, rl);
    OneSide(GridNodes.Above(g, l, i, j), l > 0, v, k - Plane(g), UpRes(g, l, i));
    OneSide(GridNodes.Below(g, l, i, j), l < nl - 1, v, k + Plane(g), DownRes(g, l, i));
  }

  // ---- links to the package ----

  lemma {:induction false} NoLink(t: int -> real)
    ensures Conductance([]) == 0.0 && Pull([], t) == 0.0
  {
  }

  /** One end of a row or column to package node e. */
  lemma {:induction false} EndLink(v: seq<real>, to: nat, r: real)
    requires to < |v| && r > 0.0
    ensures Conductance([Link(to, Inverse(r))]) == Inverse(r) && Pull([Link(to, Inverse(r))], ValuesOf(v)) == Quotient(v[to], r)
  {
    hide *;
    OneSide([Link(to, Inverse(r))], true, v, to, r);
    ViaIs(v, to, r);
  }

  lemma {:induction false} ViaIs(v: seq<real>, to: nat, r: real)
    requires to < |v| && r > 0.0
    ensures Via(true, r) == Inverse(r) && Weighted(true, v, to, r) == Quotient(v[to], r)
  {
  }

  /** Adds the links of a cell at the ends of its column and row. */
  method EdgeSums(first: bool, last: bool, west: bool, east: bool, v: seq<real>, n: nat, s: nat, w: nat, e: nat, ry: real, rx: real,
                  csum0: real, wsum0: real, ghost ns: seq<Link>, ghost we: seq<Link>)
    returns (csum: real, wsum: real)
    requires n < |v| && s < |v| && w < |v| && e < |v| && ry > 0.0 && rx > 0.0 && !(first && last) && !(west && east)
    requires ns == if first then [Link(n, Inverse(ry))] else if last then [Link(s, Inverse(ry))] else []
    requires we == if west then [Link(w, Inverse(rx))] else if east then [Link(e, Inverse(rx))] else []
    ensures csum == csum0 + Conductance(ns) + Conductance(we)
    ensures wsum == wsum0 + Pull(ns, ValuesOf(v)) + Pull(we, ValuesOf(v))
  {
    hide *;
    NoLink(ValuesOf(v));
    EndLink(v, n, ry);
    EndLink(v, s, ry);
    EndLink(v, w, rx);
    EndLink(v, e, rx);
    csum, wsum := csum0, wsum0;
    if first {
      csum, wsum := csum + Inverse(ry), wsum + Quotient(v[n], ry);
    }
    if last {
      csum, wsum := csum + Inverse(ry), wsum + Quotient(v[s], ry);
    }
    if east {
      csum, wsum := csum + Inverse(rx), wsum + Quotient(v[e], rx);
    }
    if west {
      csum, wsum := csum + Inverse(rx), wsum + Quotient(v[w], rx);
    }
  }

  /** Adds what spreader and sink cells are linked to besides their neighbours. */
  method RimSums(g: Grid, pk: Pack, v: seq<real>, l: nat, i: nat, j: nat, csum0: real, wsum0: real) returns (csum: real, wsum: real)
    requires Valid(g, pk) && g.Cell(l, i, j) && |v| == Cells(g) + EXTRA
    ensures csum == csum0 + Conductance(RimNS(g, pk, l, i, j)) + Conductance(RimWE(g, pk, l, i, j)) + Ground(g, l)
    ensures wsum == wsum0 + Pull(RimNS(g, pk, l, i, j), ValuesOf(v)) + Pull(RimWE(g, pk, l, i, j), ValuesOf(v)) + Times(Ground(g, l), g.ambient)
  {
    var n, nr, nc := Cells(g), g.rows, g.cols;
    csum, wsum := csum0, wsum0;
    TimesLaws(g.ambient, 0.0, 0.0);
    TimesLaws(0.0, g.ambient, 0.0);
    hide Inverse, Quotient, Times, Conductance, Pull, Cells, RimX, RimY, ValuesOf;
    NoLink(ValuesOf(v));
    if l == Spreader(g) {
      RimPositive(g, l, pk.sp1Y);
      RimPositive(g, l, pk.sp1X);
      csum, wsum := EdgeSums(i == 0, i == nr - 1, j == 0, j == nc - 1, v, n + SP_N, n + SP_S, n + SP_W, n + SP_E,
                             RimY(g, l, pk.sp1Y), RimX(g, l, pk.sp1X), csum, wsum, RimNS(g, pk, l, i, j), RimWE(g, pk, l, i, j));
    } else if l == SinkLayer(g) {
      QuotientInverse(g.ambient, g.layers[l].rz);
      csum, wsum := csum + Inverse(g.layers[l].rz), wsum + Quotient(g.ambient, g.layers[l].rz);
      RimPositive(g, l, pk.hs1Y);
      RimPositive(g, l, pk.hs1X);
      csum, wsum := EdgeSums(i == 0, i == nr - 1, j == 0, j == nc - 1, v, n + SINK_C_N, n + SINK_C_S, n + SINK_C_W, n + SINK_C_E,
                             RimY(g, l, pk.hs1Y), RimX(g, l, pk.hs1X), csum, wsum, RimNS(g, pk, l, i, j), RimWE(g, pk, l, i, j));
    }
  }

  /** What a node is relaxed with. */
  ghost predicate SumsOf(node: Node, ambient: real, t: int -> real, csum: real, wsum: real) {
    csum == Conductance(node.links) + node.ground && wsum == Pull(node.links, t) + Times(node.ground, ambient)
  }

  method CellSums(g: Grid, pk: Pack, ghost p: seq<real>, v: seq<real>, l: nat, i: nat, j: nat) returns (csum: real, wsum: real)
    requires Valid(g, pk) && g.Cell(l, i, j) && |v| == Cells(g) + EXTRA
    ensures SumsOf(CellNode(g, pk, p, l, i, j), g.ambient, ValuesOf(v), csum, wsum)
  {
    hide Inverse, Quotient, Times, Conductance, Pull, Cells, ValuesOf, Ground, CellLinks, Idx;
    AroundCell(g, l, i, j);
    csum, wsum := NeighbourSums(g, v, l, i, j, Idx(g, l, i, j));
    csum, wsum := RimSums(g, pk, v, l, i, j, csum, wsum);
    CellSumsAre(g, pk, l, i, j, ValuesOf(v));
  }

  // ---- package nodes ----

  /** Sums of the temperatures of the first k cells of a row or a column. */
  ghost function RowTotal(g: Grid, l: int, i: int, k: nat, t: int -> real): real {
    if k == 0 then 0.0 else RowTotal(g, l, i, k - 1, t) + t(Idx(g, l, i, k - 1))
  }

  ghost function ColTotal(g: Grid, l: int, j: int, k: nat, t: int -> real): real {
    if k == 0 then 0.0 else ColTotal(g, l, j, k - 1, t) + t(Idx(g, l, k - 1, j))
  }

  lemma {:induction false} RowLinksWeigh(g: Grid, l: int, i: int, k: nat, c: real, t: int -> real)
    requires 0 <= l < |g.layers| && 0 <= i < g.rows && k <= g.cols
    ensures Conductance(RowLinks(g, l, i, k, c)) == Times(c, k as real) && Pull(RowLinks(g, l, i, k, c), t) == Times(c, RowTotal(g, l, i, k, t))
  {
    TimesLaws(c, 0.0, 0.0);
    if k == 0 {
      NoLink(t);
    } else {
      RowLinksWeigh(g, l, i, k - 1, c, t);
      var x := CellLink(g, l, i, k - 1, c);
      TwoParts(RowLinks(g, l, i, k - 1, c), [x], t);
      OneLink(x, t);
      TimesLaws(c, (k - 1) as real, 1.0);
      TimesLaws(c, RowTotal(g, l, i, k - 1, t), t(Idx(g, l, i, k - 1)));
      hide Times, Conductance, Pull, Idx;
    }
  }

  lemma {:induction false} ColLinksWeigh(g: Grid, l: int, j: int, k: nat, c: real, t: int -> real)
    requires 0 <= l < |g.layers| && 0 <= j < g.cols && k <= g.rows
    ensures Conductance(ColLinks(g, l, j, k, c)) == Times(c, k as real) && Pull(ColLinks(g, l, j, k, c), t) == Times(c, ColTotal(g, l, j, k, t))
  {
    TimesLaws(c, 0.0, 0.0);
    if k == 0 {
      NoLink(t);
    } else {
      ColLinksWeigh(g, l, j, k - 1, c, t);
      var x := CellLink(g, l, k - 1, j, c);
      TwoParts(ColLinks(g, l, j, k - 1, c), [x], t);
      OneLink(x, t);
      TimesLaws(c, (k - 1) as real, 1.0);
      TimesLaws(c, ColTotal(g, l, j, k - 1, t), t(Idx(g, l, k - 1, j)));
      hide Times, Conductance, Pull, Idx;
    }
  }

  /** Conductance and weighted temperatures of a whole row over one resistance. */
  method RowSums(g: Grid, v: seq<real>, l: nat, i: nat, r: real) returns (csum: real, wsum: real)
    requires l < |g.layers| && i < g.rows && |v| >= Cells(g) && r > 0.0
    ensures csum == Conductance(RowLinks(g, l, i, g.cols, Inverse(r)))
    ensures wsum == Pull(RowLinks(g, l, i, g.cols, Inverse(r)), ValuesOf(v))
  {
    hide Times, Conductance, Pull, Idx, Inverse, Quotient, RowLinks, Cells;
    ghost var t := ValuesOf(v);
    wsum := 0.0;
    for j := 0 to g.cols
      invariant wsum == RowTotal(g, l, i, j, t)
    {
      Located(g, l, i, j);
      wsum := wsum + v[Idx(g, l, i, j)];
    }
    QuotientInverse(g.cols as real, r);
    QuotientInverse(wsum, r);
    RowLinksWeigh(g, l, i, g.cols, Inverse(r), t);
    csum, wsum := Quotient(g.cols as real, r), Quotient(wsum, r);
  }

  method ColSums(g: Grid, v: seq<real>, l: nat, j: nat, r: real) returns (csum: real, wsum: real)
    requires l < |g.layers| && j < g.cols && |v| >= Cells(g) && r > 0.0
    ensures csum == Conductance(ColLinks(g, l, j, g.rows, Inverse(r)))
    ensures wsum == Pull(ColLinks(g, l, j, g.rows, Inverse(r)), ValuesOf(v))
  {
    hide Times, Conductance, Pull, Idx, Inverse, Quotient, ColLinks, Cells;
    ghost var t := ValuesOf(v);
    wsum := 0.0;
    for i := 0 to g.rows
      invariant wsum == ColTotal(g, l, j, i, t)
    {
      Located(g, l, i, j);
      wsum := wsum + v[Idx(g, l, i, j)];
    }
    QuotientInverse(g.rows as real, r);
    QuotientInverse(wsum, r);
    ColLinksWeigh(g, l, j, g.rows, Inverse(r), t);
    csum, wsum := Quotient(g.rows as real, r), Quotient(wsum, r);
  }

  /** Outer sink node. */
  method OuterSums(v: seq<real>, n: nat, inner: nat, r: real, amb: real, ambient: real) returns (csum: real, wsum: real)
    requires n + inner < |v| && r > 0.0 && amb > 0.0
    ensures SumsOf(Node([Link(n + inner, Inverse(r))], Inverse(amb), 0.0), ambient, ValuesOf(v), csum, wsum)
  {
    hide Times, Conductance, Pull, Inverse, Quotient, ValuesOf;
    EndLink(v, n + inner, r);
    QuotientInverse(ambient, amb);
    csum := Inverse(amb) + Inverse(r);
    wsum := Quotient(ambient, amb) + Quotient(v[n + inner], r);
  }

  /** Inner sink node, after its edge cells. */
  method InnerSums(v: seq<real>, n: nat, ghost links: seq<Link>, csum0: real, wsum0: real, sp: nat, spR: real, outer: nat, outerR: real,
                   amb: real, ambient: real)
    returns (csum: real, wsum: real)
    requires n + sp < |v| && n + outer < |v| && spR > 0.0 && outerR > 0.0 && amb > 0.0
    requires csum0 == Conductance(links) && wsum0 == Pull(links, ValuesOf(v))
    ensures SumsOf(Node(links + [Link(n + sp, Inverse(spR)), Link(n + outer, Inverse(outerR))], Inverse(amb), 0.0), ambient, ValuesOf(v), csum, wsum)
  {
    hide Times, Conductance, Pull, Inverse, Quotient, ValuesOf;
    EndLink(v, n + sp, spR);
    EndLink(v, n + outer, outerR);
    QuotientInverse(ambient, amb);
    ghost var a, b := [Link(n + sp, Inverse(spR))], [Link(n + outer, Inverse(outerR))];
    TwoParts(links, a, ValuesOf(v));
    TwoParts(links + a, b, ValuesOf(v));
    assert links + a + b == links + [Link(n + sp, Inverse(spR)), Link(n + outer, Inverse(outerR))];
    csum := csum0 + Inverse(amb) + Inverse(spR) + Inverse(outerR);
    wsum := wsum0 + Quotient(ambient, amb) + Quotient(v[n + sp], spR) + Quotient(v[n + outer], outerR);
  }

  /** Spreader node, after its edge cells. */
  method SpreaderSums(v: seq<real>, n: nat, ghost links: seq<Link>, csum0: real, wsum0: real, sink: nat, r: real, ghost ambient: real)
    returns (csum: real, wsum: real)
    requires n + sink < |v| && r > 0.0
    requires csum0 == Conductance(links) && wsum0 == Pull(links, ValuesOf(v))
    ensures SumsOf(Node(links + [Link(n + sink, Inverse(r))], 0.0, 0.0), ambient, ValuesOf(v), csum, wsum)
  {
    TimesLaws(ambient, 0.0, 0.0);
    TimesLaws(0.0, ambient, 0.0);
    hide Times, Conductance, Pull, Inverse, Quotient, ValuesOf;
    EndLink(v, n + sink, r);
    TwoParts(links, [Link(n + sink, Inverse(r))], ValuesOf(v));
    csum := csum0 + Inverse(r);
    wsum := wsum0 + Quotient(v[n + sink], r);
  }

  /** Sums of a package node. */
  method PackSums(g: Grid, pk: Pack, v: seq<real>, e: nat) returns (csum: real, wsum: real)
    requires Valid(g, pk) && e < EXTRA && |v| == Cells(g) + EXTRA
    ensures SumsOf(PackNode(g, pk, e), g.ambient, ValuesOf(v), csum, wsum)
  {
    hide Inverse, RowLinks, ColLinks, Cells, RimX, RimY, SumsOf, ValuesOf, Conductance, Pull;
    var hs, sp, n := SinkLayer(g), Spreader(g), Cells(g);
    var nr, nc, amb := g.rows, g.cols, g.ambient;
    RimPositive(g, hs, pk.hs1Y);
    RimPositive(g, hs, pk.hs1X);
    RimPositive(g, sp, pk.sp1Y);
    RimPositive(g, sp, pk.sp1X);
    var hsY, hsX, spY, spX := RimY(g, hs, pk.hs1Y), RimX(g, hs, pk.hs1X), RimY(g, sp, pk.sp1Y), RimX(g, sp, pk.sp1X);
    if e == SINK_N {
      csum, wsum := OuterSums(v, n, SINK_C_N, pk.hs2Y + pk.hs, pk.hsPer + pk.ambPer, amb);
    } else if e == SINK_S {
      csum, wsum := OuterSums(v, n, SINK_C_S, pk.hs2Y + pk.hs, pk.hsPer + pk.ambPer, amb);
    } else if e == SINK_W {
      csum, wsum := OuterSums(v, n, SINK_C_W, pk.hs2X + pk.hs, pk.hsPer + pk.ambPer, amb);
    } else if e == SINK_E {
      csum, wsum := OuterSums(v, n, SINK_C_E, pk.hs2X + pk.hs, pk.hsPer + pk.ambPer, amb);
    } else if e == SINK_C_N {
      csum, wsum := RowSums(g, v, hs, 0, hsY);
      csum, wsum := InnerSums(v, n, RowLinks(g, hs, 0, nc, Inverse(hsY)), csum, wsum, SP_N, pk.spPerY, SINK_N, pk.hs2Y + pk.hs, pk.hsCPerY + pk.ambCPerY, amb);
    } else if e == SINK_C_S {
      csum, wsum := RowSums(g, v, hs, nr - 1, hsY);
      csum, wsum := InnerSums(v, n, RowLinks(g, hs, nr - 1, nc, Inverse(hsY)), csum, wsum, SP_S, pk.spPerY, SINK_S, pk.hs2Y + pk.hs, pk.hsCPerY + pk.ambCPerY, amb);
    } else if e == SINK_C_W {
      csum, wsum := ColSums(g, v, hs, 0, hsX);
      csum, wsum := InnerSums(v, n, ColLinks(g, hs, 0, nr, Inverse(hsX)), csum, wsum, SP_W, pk.spPerX, SINK_W, pk.hs2X + pk.hs, pk.hsCPerX + pk.ambCPerX, amb);
    } else if e == SINK_C_E {
      csum, wsum := ColSums(g, v, hs, nc - 1, hsX);
      csum, wsum := InnerSums(v, n, ColLinks(g, hs, nc - 1, nr, Inverse(hsX)), csum, wsum, SP_E, pk.spPerX, SINK_E, pk.hs2X + pk.hs, pk.hsCPerX + pk.ambCPerX, amb);
    } else if e == SP_N {
      csum, wsum := RowSums(g, v, sp, 0, spY);
      csum, wsum := SpreaderSums(v, n, RowLinks(g, sp, 0, nc, Inverse(spY)), csum, wsum, SINK_C_N, pk.spPerY, amb);
    } else if e == SP_S {
      csum, wsum := RowSums(g, v, sp, nr - 1, spY);
      csum, wsum := SpreaderSums(v, n, RowLinks(g, sp, nr - 1, nc, Inverse(spY)), csum, wsum, SINK_C_S, pk.spPerY, amb);
    } else if e == SP_W {
      csum, wsum := ColSums(g, v, sp, 0, spX);
      csum, wsum := SpreaderSums(v, n, ColLinks(g, sp, 0, nr, Inverse(spX)), csum, wsum, SINK_C_W, pk.spPerX, amb);
    } else {
      csum, wsum := ColSums(g, v, sp, nc - 1, spX);
      csum, wsum := SpreaderSums(v, n, ColLinks(g, sp, nc - 1, nr, Inverse(spX)), csum, wsum, SINK_C_E, pk.spPerX, amb);
    }
  }
}
