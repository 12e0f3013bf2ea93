/** How the package nodes are linked, told for all four sides at once, and that every link of
    the network runs both ways: the matrix is symmetric. */
module GridPackage {
  import opened Sums
  import opened SparseMatrix
  import opened GridStencil
  import opened NodeNetwork
  import opened GridNodes
  import opened GridLinks
  import opened GridMatrix

  /** Sides are numbered as the spreader nodes: west, east, north, south. The inner and outer
      sink nodes follow in the same order. */
  const SIDES := 4

  predicate OnEdge(g: Grid, s: nat, i: int, j: int) {
    if s == SP_W then j == 0 else if s == SP_E then j == g.cols - 1 else if s == SP_N then i == 0 else i == g.rows - 1
  }

  /** From a cell on the edge of spreader or sink to the node beside it: half a cell and the
      cell's part of the rim. */
  function RimConductance(g: Grid, pk: Pack, l: int, s: nat): real
    requires 0 <= l < |g.layers|
  {
    if s == SP_W || s == SP_E then Inverse(RimX(g, l, if l == Spreader(g) then pk.sp1X else pk.hs1X))
    else Inverse(RimY(g, l, if l == Spreader(g) then pk.sp1Y else pk.hs1Y))
  }

  function Between(pk: Pack, s: nat): real {
    Inverse(if s == SP_W || s == SP_E then pk.spPerX else pk.spPerY)
  }

  function Outwards(pk: Pack, s: nat): real {
    Inverse(if s == SP_W || s == SP_E then pk.hs2X + pk.hs else pk.hs2Y + pk.hs)
  }

  function GroundOf(pk: Pack, e: nat): real {
    if e < SIDES then 0.0
    else if e >= 2 * SIDES then Inverse(pk.hsPer + pk.ambPer)
    else if e - SIDES == SP_W || e - SIDES == SP_E then Inverse(pk.hsCPerX + pk.ambCPerX)
    else Inverse(pk.hsCPerY + pk.ambCPerY)
  }

  /** A link to a cell on the edge of the layer. */
  ghost predicate ToEdge(g: Grid, pk: Pack, l: int, s: nat, link: Link)
    requires 0 <= l < |g.layers|
  {
    exists i, j :: g.Cell(l, i, j) && OnEdge(g, s, i, j) && link.to == Idx(g, l, i, j) && link.conductance == RimConductance(g, pk, l, s)
  }

  /** The links of package node e: spreader nodes to the edge of the spreader and to the inner
      sink node of the same side, that one also to the edge of the sink and to the outer node. */
  ghost predicate PackLinked(g: Grid, pk: Pack, e: nat, link: Link)
    requires |g.layers| >= 2
  {
    if e < SIDES then ToEdge(g, pk, Spreader(g), e, link) || link == PackLink(g, e + SIDES, Between(pk, e))
    else if e < 2 * SIDES then
      ToEdge(g, pk, SinkLayer(g), e - SIDES, link) || link == PackLink(g, e - SIDES, Between(pk, e - SIDES))
      || link == PackLink(g, e + SIDES, Outwards(pk, e - SIDES))
    else link == PackLink(g, e - SIDES, Outwards(pk, e - 2 * SIDES))
  }

  lemma {:induction false} RowIsEdge(g: Grid, pk: Pack, l: int, s: nat, link: Link)
    requires 0 <= l < |g.layers| && g.rows > 0 && g.cols > 0 && (s == SP_N || s == SP_S)
    ensures link in RowLinks(g, l, if s == SP_N then 0 else g.rows - 1, g.cols, RimConductance(g, pk, l, s)) <==> ToEdge(g, pk, l, s, link)
  {
    var i, c := if s == SP_N then 0 else g.rows - 1, RimConductance(g, pk, l, s);
    RowLinksAre(g, l, i, g.cols, c);
    hide Idx, RowLinks, RimConductance;
    if ToEdge(g, pk, l, s, link) {
      var r, j :| g.Cell(l, r, j) && OnEdge(g, s, r, j) && link.to == Idx(g, l, r, j) && link.conductance == c;
      assert RowLinks(g, l, i, g.cols, c)[j] == link;
    }
    if link in RowLinks(g, l, i, g.cols, c) {
      var j :| 0 <= j < g.cols && RowLinks(g, l, i, g.cols, c)[j] == link;
      assert g.Cell(l, i, j) && OnEdge(g, s, i, j);
    }
  }

  lemma {:induction false} ColIsEdge(g: Grid, pk: Pack, l: int, s: nat, link: Link)
    requires 0 <= l < |g.layers| && g.rows > 0 && g.cols > 0 && (s == SP_W || s == SP_E)
    ensures link in ColLinks(g, l, if s == SP_W then 0 else g.cols - 1, g.rows, RimConductance(g, pk, l, s)) <==> ToEdge(g, pk, l, s, link)
  {
    var j, c := if s == SP_W then 0 else g.cols - 1, RimConductance(g, pk, l, s);
    ColLinksAre(g, l, j, g.rows, c);
    hide Idx, ColLinks, RimConductance;
    if ToEdge(g, pk, l, s, link) {
      var i, q :| g.Cell(l, i, q) && OnEdge(g, s, i, q) && link.to == Idx(g, l, i, q) && link.conductance == c;
      assert ColLinks(g, l, j, g.rows, c)[i] == link;
    }
    if link in ColLinks(g, l, j, g.rows, c) {
      var i :| 0 <= i < g.rows && ColLinks(g, l, j, g.rows, c)[i] == link;
      assert g.Cell(l, i, j) && OnEdge(g, s, i, j);
    }
  }

  lemma {:induction false} SpreaderLinksAre(g: Grid, pk: Pack, e: nat, link: Link)
    requires Valid(g, pk) && e < SIDES
    ensures link in PackNode(g, pk, e).links <==> PackLinked(g, pk, e, link)
    ensures PackNode(g, pk, e).ground == GroundOf(pk, e)
  {
    if e == SP_N || e == SP_S { RowIsEdge(g, pk, Spreader(g), e, link); } else { ColIsEdge(g, pk, Spreader(g), e, link); }
    hide ToEdge, RowLinks, ColLinks, RimX, RimY, Cells, Inverse;
  }

  lemma {:induction false} InnerLinksAre(g: Grid, pk: Pack, e: nat, link: Link)
    requires Valid(g, pk) && SIDES <= e < 2 * SIDES
    ensures link in PackNode(g, pk, e).links <==> PackLinked(g, pk, e, link)
    ensures PackNode(g, pk, e).ground == GroundOf(pk, e)
  {
    var s := e - SIDES;
    if s == SP_N || s == SP_S { RowIsEdge(g, pk, SinkLayer(g), s, link); } else { ColIsEdge(g, pk, SinkLayer(g), s, link); }
    hide ToEdge, RowLinks, ColLinks, RimX, RimY, Cells, Inverse;
  }

  /** The twelve branches come to this, side by side. */
  lemma {:induction false} PackLinksAre(g: Grid, pk: Pack, e: nat, link: Link)
    requires Valid(g, pk) && e < EXTRA
    ensures link in PackNode(g, pk, e).links <==> PackLinked(g, pk, e, link)
    ensures PackNode(g, pk, e).ground == GroundOf(pk, e)
  {
    if e < SIDES {
      SpreaderLinksAre(g, pk, e, link);
    } else if e < 2 * SIDES {
      InnerLinksAre(g, pk, e, link);
    }
    hide ToEdge, Cells, Inverse;
    if e >= 2 * SIDES { OuterLinkIs(g, pk, e, link); }
  }

  lemma {:induction false} OuterLinkIs(g: Grid, pk: Pack, e: nat, link: Link)
    requires Valid(g, pk) && 2 * SIDES <= e < EXTRA
    ensures link in PackNode(g, pk, e).links <==> PackLinked(g, pk, e, link)
    ensures PackNode(g, pk, e).ground == GroundOf(pk, e)
  {
    hide RowLinks, ColLinks, RimX, RimY, Cells, Inverse;
  }

  // ---- the cells ----

  /** The two cells share a face. */
  predicate Adjacent(l: int, i: int, j: int, m: int, r: int, c: int) {
    || (l == m && i == r && (c == j - 1 || c == j + 1))
    || (l == m && j == c && (r == i - 1 || r == i + 1))
    || (i == r && j == c && (m == l - 1 || m == l + 1))
  }

  /** Between cells of one row, of one column, and of two layers. */
  function FaceConductance(g: Grid, l: int, i: int, m: int, r: int): real
    requires g.Positive() && 0 <= l < |g.layers| && 0 <= m < |g.layers|
  {
    if l != m then Quotient(1.0, g.layers[if l < m then l else m].rz)
    else if i != r then Quotient(1.0, g.layers[l].rx)
    else Quotient(1.0, g.layers[l].ry)
  }

  ghost predicate ToNeighbour(g: Grid, l: int, i: int, j: int, link: Link)
    requires g.Positive() && g.Cell(l, i, j)
  {
    exists m, r, c :: g.Cell(m, r, c) && Adjacent(l, i, j, m, r, c) && link.to == Idx(g, m, r, c) && link.conductance == FaceConductance(g, l, i, m, r)
  }

  /** The package node beside a side of spreader or sink. */
  function BesideEdge(g: Grid, l: int, s: nat): nat {
    if l == Spreader(g) then s else s + SIDES
  }

  ghost predicate ToRim(g: Grid, pk: Pack, l: int, i: int, j: int, link: Link)
    requires g.Cell(l, i, j)
  {
    (l == Spreader(g) || l == SinkLayer(g))
    && exists s: nat :: s < SIDES && OnEdge(g, s, i, j) && link == PackLink(g, BesideEdge(g, l, s), RimConductance(g, pk, l, s))
  }

  /** The link over a face, if there is a cell beyond it. */
  function Face(g: Grid, l: int, i: int, j: int, m: int, r: int, c: int): seq<Link>
    requires g.Positive() && g.Cell(l, i, j)
  {
    if g.Cell(m, r, c) then [CellLink(g, m, r, c, FaceConductance(g, l, i, m, r))] else []
  }

  lemma {:induction false} FacesAre(g: Grid, l: int, i: int, j: int)
    requires g.Positive() && g.Cell(l, i, j)
    ensures GridNodes.North(g, l, i, j) == Face(g, l, i, j, l, i - 1, j) && GridNodes.South(g, l, i, j) == Face(g, l, i, j, l, i + 1, j)
    ensures GridNodes.West(g, l, i, j) == Face(g, l, i, j, l, i, j - 1) && GridNodes.East(g, l, i, j) == Face(g, l, i, j, l, i, j + 1)
    ensures GridNodes.Above(g, l, i, j) == Face(g, l, i, j, l - 1, i, j) && GridNodes.Below(g, l, i, j) == Face(g, l, i, j, l + 1, i, j)
  {
    hide Idx;
  }

  lemma {:induction false} FaceIsNeighbour(g: Grid, l: int, i: int, j: int, m: int, r: int, c: int, link: Link)
    requires g.Positive() && g.Cell(l, i, j) && Adjacent(l, i, j, m, r, c)
    ensures link in Face(g, l, i, j, m, r, c) ==> ToNeighbour(g, l, i, j, link)
  {
    hide Idx, FaceConductance;
  }

  lemma {:induction false} NeighbourIsFace(g: Grid, l: int, i: int, j: int, link: Link) returns (m: int, r: int, c: int)
    requires g.Positive() && g.Cell(l, i, j) && ToNeighbour(g, l, i, j, link)
    ensures Adjacent(l, i, j, m, r, c) && link in Face(g, l, i, j, m, r, c)
  {
    hide Idx, FaceConductance, Adjacent;
    m, r, c :| g.Cell(m, r, c) && Adjacent(l, i, j, m, r, c) && link.to == Idx(g, m, r, c) && link.conductance == FaceConductance(g, l, i, m, r);
  }

  lemma {:induction false} LateralIs(g: Grid, l: int, i: int, j: int, link: Link)
    requires g.Cell(l, i, j) && g.rows >= 2
    ensures link in Lateral(g, l, i, j)
      <==> link in GridNodes.North(g, l, i, j) || link in GridNodes.South(g, l, i, j) || link in GridNodes.West(g, l, i, j) || link in GridNodes.East(g, l, i, j)
  {
    assert i == 0 ==> GridNodes.North(g, l, i, j) == [];
    assert i == g.rows - 1 ==> GridNodes.South(g, l, i, j) == [];
    hide GridNodes.North, GridNodes.South, GridNodes.West, GridNodes.East;
  }

  lemma {:induction false} NeighboursAre(g: Grid, l: int, i: int, j: int, link: Link)
    requires g.Positive() && g.Cell(l, i, j) && g.rows >= 2
    ensures link in Lateral(g, l, i, j) || link in GridNodes.Below(g, l, i, j) || link in GridNodes.Above(g, l, i, j)
      <==> ToNeighbour(g, l, i, j, link)
  {
    LateralIs(g, l, i, j, link);
    FacesAre(g, l, i, j);
    FaceIsNeighbour(g, l, i, j, l, i - 1, j, link);
    FaceIsNeighbour(g, l, i, j, l, i + 1, j, link);
    FaceIsNeighbour(g, l, i, j, l, i, j - 1, link);
    FaceIsNeighbour(g, l, i, j, l, i, j + 1, link);
    FaceIsNeighbour(g, l, i, j, l - 1, i, j, link);
    FaceIsNeighbour(g, l, i, j, l + 1, i, j, link);
    hide Idx, Face, FaceConductance, Lateral, ToNeighbour, GridNodes.North, GridNodes.South, GridNodes.West, GridNodes.East, GridNodes.Below, GridNodes.Above;
    if ToNeighbour(g, l, i, j, link) {
      var m, r, c := NeighbourIsFace(g, l, i, j, link);
    }
  }

  lemma {:induction false} RimsAre(g: Grid, pk: Pack, l: int, i: int, j: int, link: Link)
    requires Valid(g, pk) && g.Cell(l, i, j)
    ensures link in RimNS(g, pk, l, i, j) || link in RimWE(g, pk, l, i, j) <==> ToRim(g, pk, l, i, j, link)
  {
    hide Inverse, RimX, RimY, Cells;
    if link in RimNS(g, pk, l, i, j) {
      var s := if i == 0 then SP_N else SP_S;
      assert OnEdge(g, s, i, j) && link == PackLink(g, BesideEdge(g, l, s), RimConductance(g, pk, l, s));
    }
    if link in RimWE(g, pk, l, i, j) {
      var s := if j == 0 then SP_W else SP_E;
      assert OnEdge(g, s, i, j) && link == PackLink(g, BesideEdge(g, l, s), RimConductance(g, pk, l, s));
    }
    if ToRim(g, pk, l, i, j, link) {
      var s: nat :| s < SIDES && OnEdge(g, s, i, j) && link == PackLink(g, BesideEdge(g, l, s), RimConductance(g, pk, l, s));
    }
  }

  /** A cell is linked to the cells it shares a face with, and on the edges of spreader and sink
      to the nodes beside them; to nothing else. */
  lemma {:induction false} CellLinksAre(g: Grid, pk: Pack, l: int, i: int, j: int, link: Link)
    requires Valid(g, pk) && g.Cell(l, i, j)
    ensures link in CellLinks(g, pk, l, i, j) <==> ToNeighbour(g, l, i, j, link) || ToRim(g, pk, l, i, j, link)
  {
    NeighboursAre(g, l, i, j, link);
    RimsAre(g, pk, l, i, j, link);
    hide Lateral, GridNodes.Below, GridNodes.Above, RimNS, RimWE, ToNeighbour, ToRim;
  }

  // ---- both ways ----

  lemma {:induction false} FaceBothWays(g: Grid, l: int, i: int, j: int, m: int, r: int, c: int)
    requires g.Positive() && g.Cell(l, i, j) && g.Cell(m, r, c) && Adjacent(l, i, j, m, r, c)
    ensures Adjacent(m, r, c, l, i, j) && FaceConductance(g, m, r, l, i) == FaceConductance(g, l, i, m, r)
  {
    hide Quotient;
  }

  lemma {:induction false} NeighbourBack(g: Grid, pk: Pack, p: seq<real>, l: int, i: int, j: int, link: Link)
    requires Valid(g, pk) && g.Cell(l, i, j) && ToNeighbour(g, l, i, j, link)
    ensures 0 <= Idx(g, l, i, j) && link.to < Cells(g) && Link(Idx(g, l, i, j), link.conductance) in Network(g, pk, p)[link.to].links
  {
    Located(g, l, i, j);
    var m, r, c :| g.Cell(m, r, c) && Adjacent(l, i, j, m, r, c) && link.to == Idx(g, m, r, c) && link.conductance == FaceConductance(g, l, i, m, r);
    var back := Link(Idx(g, l, i, j), link.conductance);
    FaceBothWays(g, l, i, j, m, r, c);
    CellInNetwork(g, pk, p, m, r, c);
    CellLinksAre(g, pk, m, r, c, back);
    hide Idx, Cells, FaceConductance, Adjacent, CellLinks, ToRim;
    assert ToNeighbour(g, m, r, c, back);
  }

  lemma {:induction false} RimBack(g: Grid, pk: Pack, p: seq<real>, l: int, i: int, j: int, link: Link)
    requires Valid(g, pk) && g.Cell(l, i, j) && ToRim(g, pk, l, i, j, link)
    ensures 0 <= Idx(g, l, i, j) && Cells(g) <= link.to < Cells(g) + EXTRA
    ensures Link(Idx(g, l, i, j), link.conductance) in Network(g, pk, p)[link.to].links
  {
    hide Idx, Cells, RimConductance, PackNode, OnEdge;
    Located(g, l, i, j);
    PlanePositive(g);
    var s: nat :| s < SIDES && OnEdge(g, s, i, j) && link == PackLink(g, BesideEdge(g, l, s), RimConductance(g, pk, l, s));
    var back, e := Link(Idx(g, l, i, j), link.conductance), BesideEdge(g, l, s);
    PackLinksAre(g, pk, e, back);
    assert Network(g, pk, p)[Cells(g) + e] == PackNode(g, pk, e);
    assert ToEdge(g, pk, l, s, back);
  }

  lemma {:induction false} EdgeBack(g: Grid, pk: Pack, p: seq<real>, l: int, s: nat, e: nat, link: Link)
    requires Valid(g, pk) && e < EXTRA && 0 <= l < |g.layers| && s < SIDES && ToEdge(g, pk, l, s, link)
    requires (l == Spreader(g) || l == SinkLayer(g)) && e == BesideEdge(g, l, s)
    ensures link.to < Cells(g) && Link(Cells(g) + e, link.conductance) in Network(g, pk, p)[link.to].links
  {
    hide Idx, Cells, RimConductance, OnEdge, Network;
    var i, j :| g.Cell(l, i, j) && OnEdge(g, s, i, j) && link.to == Idx(g, l, i, j) && link.conductance == RimConductance(g, pk, l, s);
    EdgeCellBack(g, pk, p, l, i, j, s, e);
  }

  lemma {:induction false} EdgeCellBack(g: Grid, pk: Pack, p: seq<real>, l: int, i: int, j: int, s: nat, e: nat)
    requires Valid(g, pk) && g.Cell(l, i, j) && OnEdge(g, s, i, j) && s < SIDES
    requires (l == Spreader(g) || l == SinkLayer(g)) && e == BesideEdge(g, l, s)
    ensures 0 <= Idx(g, l, i, j) < Cells(g)
    ensures Link(Cells(g) + e, RimConductance(g, pk, l, s)) in Network(g, pk, p)[Idx(g, l, i, j)].links
  {
    hide Idx, Cells, RimConductance, OnEdge, CellLinks, Ground, Network, RimX, RimY, Lateral, BesideEdge;
    CellInNetwork(g, pk, p, l, i, j);
    EdgeCellLink(g, pk, l, i, j, s, e);
  }

  lemma {:induction false} EdgeCellLink(g: Grid, pk: Pack, l: int, i: int, j: int, s: nat, e: nat)
    requires Valid(g, pk) && g.Cell(l, i, j) && OnEdge(g, s, i, j) && s < SIDES
    requires (l == Spreader(g) || l == SinkLayer(g)) && e == BesideEdge(g, l, s)
    ensures PackLink(g, e, RimConductance(g, pk, l, s)) in CellLinks(g, pk, l, i, j)
  {
    var back := PackLink(g, e, RimConductance(g, pk, l, s));
    CellLinksAre(g, pk, l, i, j, back);
    hide Idx, Cells, RimConductance, OnEdge, CellLinks, ToNeighbour;
    assert ToRim(g, pk, l, i, j, back);
  }

  lemma {:induction false} PackBack(g: Grid, pk: Pack, p: seq<real>, e: nat, f: nat, link: Link)
    requires Valid(g, pk) && e < EXTRA && f < EXTRA && link == PackLink(g, f, link.conductance)
    requires PackLinked(g, pk, f, PackLink(g, e, link.conductance))
    ensures Link(Cells(g) + e, link.conductance) in Network(g, pk, p)[Cells(g) + f].links
  {
    PlanePositive(g);
    PackLinksAre(g, pk, f, PackLink(g, e, link.conductance));
    assert Network(g, pk, p)[Cells(g) + f] == PackNode(g, pk, f);
    hide Cells, PackNode, PackLinked;
  }

  /** Every link of the network has one back with the same conductance. */
  lemma {:induction false} LinksRunBothWays(g: Grid, pk: Pack, p: seq<real>, k: nat, link: Link)
    requires Valid(g, pk) && k < Cells(g) + EXTRA && link in Network(g, pk, p)[k].links
    ensures link.to < Cells(g) + EXTRA && Link(k, link.conductance) in Network(g, pk, p)[link.to].links
  {
    PlanePositive(g);
    if k < Cells(g) {
      NodeIsCell(g, k);
      var l, i, j := LayerOfNode(g, k), RowOfNode(g, k), ColOfNode(g, k);
      hide PackNode, CellLinks, ToNeighbour, ToRim, Cells, Idx;
      CellLinksAre(g, pk, l, i, j, link);
      if ToNeighbour(g, l, i, j, link) { NeighbourBack(g, pk, p, l, i, j, link); } else { RimBack(g, pk, p, l, i, j, link); }
    } else {
      PackLinkBack(g, pk, p, k - Cells(g), link);
    }
  }

  lemma {:induction false} PackLinkBack(g: Grid, pk: Pack, p: seq<real>, e: nat, link: Link)
    requires Valid(g, pk) && e < EXTRA && link in Network(g, pk, p)[Cells(g) + e].links
    ensures link.to < Cells(g) + EXTRA && Link(Cells(g) + e, link.conductance) in Network(g, pk, p)[link.to].links
  {
    hide PackNode, ToEdge, Between, Outwards, Cells;
    PlanePositive(g);
    assert Network(g, pk, p)[Cells(g) + e] == PackNode(g, pk, e);
    PackLinksAre(g, pk, e, link);
    if e < SIDES {
      if ToEdge(g, pk, Spreader(g), e, link) { EdgeBack(g, pk, p, Spreader(g), e, e, link); } else { PackBack(g, pk, p, e, e + SIDES, link); }
    } else if e < 2 * SIDES {
      if ToEdge(g, pk, SinkLayer(g), e - SIDES, link) {
        EdgeBack(g, pk, p, SinkLayer(g), e - SIDES, e, link);
      } else if link == PackLink(g, e - SIDES, Between(pk, e - SIDES)) {
        PackBack(g, pk, p, e, e - SIDES, link);
      } else {
        PackBack(g, pk, p, e, e + SIDES, link);
      }
    } else {
      PackBack(g, pk, p, e, e - SIDES, link);
    }
  }

  // ---- the matrix ----

  lemma {:induction false} ElementsAre(net: seq<Node>, order: seq<nat>, e: Element)
    requires forall i | 0 <= i < |order| :: order[i] < |net|
    ensures e in RowsOf(net, order) <==> exists i :: 0 <= i < |order| && e in RowOf(order[i], net[order[i]])
  {
    if order != [] {
      var rest, k := order[..|order|-1], order[|order|-1];
      ElementsAre(net, rest, e);
      RowsStep(net, order);
      hide RowOf, RowsOf;
      if i :| 0 <= i < |rest| && e in RowOf(rest[i], net[rest[i]]) { assert rest[i] == order[i]; }
      if i :| 0 <= i < |order| && e in RowOf(order[i], net[order[i]]) {
        if i < |rest| { assert rest[i] == order[i]; }
      }
    }
  }

  lemma {:induction false} RowElement(k: nat, node: Node, e: Element)
    ensures e in RowOf(k, node) ==> e.x == k && (e.y == k || (e.y >= 0 && Link(e.y, -e.val) in node.links))
    ensures e.x == k && e.y >= 0 && Link(e.y, -e.val) in node.links ==> e in RowOf(k, node)
  {
    var s := LinkElements(k, node.links);
    if e.x == k && e.y >= 0 && Link(e.y, -e.val) in node.links {
      var i :| 0 <= i < |node.links| && node.links[i] == Link(e.y, -e.val);
      assert s[i] == e;
      assert RowOf(k, node)[i] == e;
    }
  }

  lemma {:induction false} ElementBack(g: Grid, pk: Pack, p: seq<real>, e: Element)
    requires Valid(g, pk) && e in RowsOf(Network(g, pk, p), Order(g))
    ensures Element(e.y, e.x, e.val) in RowsOf(Network(g, pk, p), Order(g))
  {
    var net, o := Network(g, pk, p), Order(g);
    OrderIsAll(g);
    hide *;
    ElementBackIn(g, pk, p, net, o, e);
  }

  lemma {:induction false} ElementBackIn(g: Grid, pk: Pack, p: seq<real>, net: seq<Node>, o: seq<nat>, e: Element)
    requires Valid(g, pk) && net == Network(g, pk, p) && EachOnce(o, |net|) && |o| == |net| == Cells(g) + EXTRA && e in RowsOf(net, o)
    ensures Element(e.y, e.x, e.val) in RowsOf(net, o)
  {
    var back := Element(e.y, e.x, e.val);
    hide RowOf, RowsOf, NodeAt, Cells, Network;
    ElementsAre(net, o, e);
    var i :| 0 <= i < |o| && e in RowOf(o[i], net[o[i]]);
    RowElement(o[i], net[o[i]], e);
    if e.y != e.x {
      LinksRunBothWays(g, pk, p, o[i], Link(e.y, -e.val));
      RowBack(net, o, Link(e.y, -e.val).to, back);
    }
  }

  lemma {:induction false} RowBack(net: seq<Node>, o: seq<nat>, k: nat, e: Element)
    requires EachOnce(o, |net|) && k < |net| && e.x == k && e.y >= 0 && Link(e.y, -e.val) in net[k].links
    ensures e in RowsOf(net, o)
  {
    ElementsAre(net, o, e);
    RowElement(k, net[k], e);
    hide RowOf, RowsOf;
    assert k in o;
    var j :| 0 <= j < |o| && o[j] == k;
  }

  lemma {:induction false} EntryOfElement(coo: seq<Element>, i: nat)
    requires i < |coo| && !Repeats(coo)
    ensures CooEntry(coo, coo[i].x, coo[i].y) == coo[i].val
  {
    var f := ValueAt(coo, coo[i].x, coo[i].y);
    forall k | 0 <= k < |coo| && k != i ensures f(k) == 0.0 {
      if k < i { assert coo[k].x != coo[i].x || coo[k].y != coo[i].y; } else { assert coo[i].x != coo[k].x || coo[i].y != coo[k].y; }
    }
    SumOne(f, |coo|, i);
  }

  lemma {:induction false} EntryWithout(coo: seq<Element>, r: int, c: int)
    requires forall i | 0 <= i < |coo| :: coo[i].x != r || coo[i].y != c
    ensures CooEntry(coo, r, c) == 0.0
  {
    SumZero(ValueAt(coo, r, c), |coo|);
  }

  /** The matrix that is assembled is symmetric. */
  lemma {:induction false} MatrixSymmetric(g: Grid, pk: Pack, p: seq<real>, r: int, c: int)
    requires Valid(g, pk)
    ensures var coo := RowsOf(Network(g, pk, p), Order(g)); CooEntry(coo, r, c) == CooEntry(coo, c, r)
  {
    var coo := RowsOf(Network(g, pk, p), Order(g));
    EachPositionOnce(g, pk, p);
    hide RowsOf, Order, Network, Repeats, CooEntry, Cells;
    forall x, y ensures (exists i :: 0 <= i < |coo| && coo[i].x == x && coo[i].y == y) ==> CooEntry(coo, x, y) == CooEntry(coo, y, x) {
      if i :| 0 <= i < |coo| && coo[i].x == x && coo[i].y == y {
        ElementBack(g, pk, p, coo[i]);
        var j :| 0 <= j < |coo| && coo[j] == Element(y, x, coo[i].val);
        EntryOfElement(coo, i);
        EntryOfElement(coo, j);
      }
    }
    if (forall i | 0 <= i < |coo| :: coo[i].x != r || coo[i].y != c) && forall i | 0 <= i < |coo| :: coo[i].x != c || coo[i].y != r {
      EntryWithout(coo, r, c);
      EntryWithout(coo, c, r);
    }
  }
}
