/** Assembly of the conductance matrix, node by node, for the direct solver. */
module GridAssembly {
  import opened Sums
  import opened SparseMatrix
  import opened GridStencil
  import opened NodeNetwork
  import opened GridNodes
  import opened GridLinks
  import opened GridCount

  datatype Place = TopLeft | TopRight | BottomLeft | BottomRight | TopRow | BottomRow | LeftColumn | RightColumn | Central

  /** Where a cell lies, told from its number within the layer. */
  function Where(nr: nat, nc: nat, grididx: int): Place
    requires nc > 0
  {
    if grididx == 0 then TopLeft
    else if grididx == nc - 1 then TopRight
    else if grididx == nr * nc - nc then BottomLeft
    else if grididx == nr * nc - 1 then BottomRight
    else if 0 < grididx < nc - 1 then TopRow
    else if nr * nc - nc < grididx < nr * nc - 1 then BottomRow
    else if grididx % nc == 0 then LeftColumn
    else if (grididx + 1) % nc == 0 then RightColumn
    else Central
  }

  function PlaceOf(nr: nat, nc: nat, i: int, j: int): Place {
    if i == 0 then if j == 0 then TopLeft else if j == nc - 1 then TopRight else TopRow
    else if i == nr - 1 then if j == 0 then BottomLeft else if j == nc - 1 then BottomRight else BottomRow
    else if j == 0 then LeftColumn else if j == nc - 1 then RightColumn else Central
  }

  lemma {:induction false} RowBase(nr: nat, nc: nat, i: int)
    requires nr >= 2 && nc >= 2 && 0 <= i < nr
    ensures i == 0 ==> i * nc == 0
    ensures i > 0 ==> i * nc >= nc
    ensures i == nr - 1 ==> i * nc == nr * nc - nc
    ensures i < nr - 1 ==> i * nc + nc <= nr * nc - nc
  {
    if i > 0 { Gap(nc, i, 0); }
    OneStep(nr, nc);
    if i < nr - 1 { Gap(nc, nr - 1, i); }
  }

  lemma {:induction false} ColumnEnds(nc: nat, i: int, j: int)
    requires nc >= 2 && i >= 0 && 0 <= j < nc
    ensures (i * nc + j) % nc == 0 <==> j == 0
    ensures (i * nc + j + 1) % nc == 0 <==> j == nc - 1
  {
    DivideBack(nc, i, j);
    if j < nc - 1 {
      DivideBack(nc, i, j + 1);
    } else {
      DivideBack(nc, i + 1, 0);
      OneStep(i, nc);
    }
  }

  /** The tests on the number find the place. */
  lemma {:induction false} WhereIs(nr: nat, nc: nat, i: int, j: int)
    requires nr >= 2 && nc >= 2 && 0 <= i < nr && 0 <= j < nc
    ensures Where(nr, nc, i * nc + j) == PlaceOf(nr, nc, i, j)
  {
    RowBase(nr, nc, i);
    ColumnEnds(nc, i, j);
  }

  // ---- one node ----

  /** One link: its element, and its share of the diagonal. */
  method Emit(k: nat, to: nat, r: real, row: seq<Element>, dia: real, ghost links: seq<Link>)
    returns (row': seq<Element>, dia': real, ghost links': seq<Link>)
    requires row == LinkElements(k, links) && dia == Conductance(links)
    ensures row' == LinkElements(k, links') && dia' == Conductance(links') && links' == links + [Link(to, Inverse(r))]
  {
    hide Inverse;
    row' := row + [Element(k, to, -Inverse(r))];
    dia' := dia + Inverse(r);
    links' := links + [Link(to, Inverse(r))];
    assert links'[..|links'|-1] == links;
  }

  function LateralLinks(place: Place, k: int, nc: nat, rn: real, rs: real, rw: real, re: real): seq<Link>
    requires RoomAround(place, k, nc)
  {
    match place
    case TopLeft => [Link(k + 1, Inverse(re)), Link(k + nc, Inverse(rs))]
    case TopRight => [Link(k - 1, Inverse(rw)), Link(k + nc, Inverse(rs))]
    case BottomLeft => [Link(k + 1, Inverse(re)), Link(k - nc, Inverse(rn))]
    case BottomRight => [Link(k - 1, Inverse(rw)), Link(k - nc, Inverse(rn))]
    case TopRow => [Link(k - 1, Inverse(rw)), Link(k + 1, Inverse(re)), Link(k + nc, Inverse(rs))]
    case BottomRow => [Link(k - 1, Inverse(rw)), Link(k + 1, Inverse(re)), Link(k - nc, Inverse(rn))]
    case LeftColumn => [Link(k - nc, Inverse(rn)), Link(k + nc, Inverse(rs)), Link(k + 1, Inverse(re))]
    case RightColumn => [Link(k - nc, Inverse(rn)), Link(k + nc, Inverse(rs)), Link(k - 1, Inverse(rw))]
    case Central => [Link(k - nc, Inverse(rn)), Link(k + nc, Inverse(rs)), Link(k - 1, Inverse(rw)), Link(k + 1, Inverse(re))]
  }

  predicate RoomAround(place: Place, k: int, nc: nat) {
    k >= 0
    && (place.TopRight? || place.BottomRight? || place.TopRow? || place.BottomRow? || place.RightColumn? || place.Central? ==> k >= 1)
    && (place.BottomLeft? || place.BottomRight? || place.BottomRow? || place.LeftColumn? || place.RightColumn? || place.Central? ==> k >= nc)
  }

  lemma {:induction false} LateralLinksAre(g: Grid, l: nat, i: nat, j: nat)
    requires g.rows >= 2 && g.cols >= 2 && g.Cell(l, i, j)
    ensures var place, k := PlaceOf(g.rows, g.cols, i, j), Idx(g, l, i, j);
      RoomAround(place, k, g.cols) && Lateral(g, l, i, j)
        == LateralLinks(place, k, g.cols, FindRes(g, l, i - 1, l, i), FindRes(g, l, i + 1, l, i), FindRes(g, l, i, l, i), FindRes(g, l, i, l, i))
  {
    hide Idx, FindRes, Inverse, Plane, Cells;
    NeighboursInRange(g, l, i, j);
    Steps(g, l, i, j);
  }

  /** Links within the layer. */
  method LateralElements(place: Place, k: nat, nc: nat, rn: real, rs: real, rw: real, re: real) returns (row: seq<Element>, dia: real)
    requires RoomAround(place, k, nc)
    ensures row == LinkElements(k, LateralLinks(place, k, nc, rn, rs, rw, re))
    ensures dia == Conductance(LateralLinks(place, k, nc, rn, rs, rw, re))
  {
    ghost var links: seq<Link> := [];
    row, dia := [], 0.0;
    hide LinkElements, Conductance, Inverse;
    EmptyRow(k);
    match place {
      case TopLeft =>
        row, dia, links := Emit(k, k + 1, re, row, dia, links);
        row, dia, links := Emit(k, k + nc, rs, row, dia, links);
      case TopRight =>
        row, dia, links := Emit(k, k - 1, rw, row, dia, links);
        row, dia, links := Emit(k, k + nc, rs, row, dia, links);
      case BottomLeft =>
        row, dia, links := Emit(k, k + 1, re, row, dia, links);
        row, dia, links := Emit(k, k - nc, rn, row, dia, links);
      case BottomRight =>
        row, dia, links := Emit(k, k - 1, rw, row, dia, links);
        row, dia, links := Emit(k, k - nc, rn, row, dia, links);
      case TopRow =>
        row, dia, links := Emit(k, k - 1, rw, row, dia, links);
        row, dia, links := Emit(k, k + 1, re, row, dia, links);
        row, dia, links := Emit(k, k + nc, rs, row, dia, links);
      case BottomRow =>
        row, dia, links := Emit(k, k - 1, rw, row, dia, links);
        row, dia, links := Emit(k, k + 1, re, row, dia, links);
        row, dia, links := Emit(k, k - nc, rn, row, dia, links);
      case LeftColumn =>
        row, dia, links := Emit(k, k - nc, rn, row, dia, links);
        row, dia, links := Emit(k, k + nc, rs, row, dia, links);
        row, dia, links := Emit(k, k + 1, re, row, dia, links);
      case RightColumn =>
        row, dia, links := Emit(k, k - nc, rn, row, dia, links);
        row, dia, links := Emit(k, k + nc, rs, row, dia, links);
        row, dia, links := Emit(k, k - 1, rw, row, dia, links);
      case Central =>
        row, dia, links := Emit(k, k - nc, rn, row, dia, links);
        row, dia, links := Emit(k, k + nc, rs, row, dia, links);
        row, dia, links := Emit(k, k - 1, rw, row, dia, links);
        row, dia, links := Emit(k, k + 1, re, row, dia, links);
    }
    assert links == LateralLinks(place, k, nc, rn, rs, rw, re);
  }

  lemma {:induction false} EmptyRow(k: nat)
    ensures [] == LinkElements(k, []) && 0.0 == Conductance([])
  {
  }

  function VerticalLinks(g: Grid, l: nat, i: nat, k: nat, plane: nat): seq<Link>
    requires l < |g.layers| && (l > 0 ==> k >= plane)
  {
    (if l < |g.layers| - 1 then [Link(k + plane, Inverse(FindRes(g, l + 1, i, l, i)))] else [])
    + (if l > 0 then [Link(k - plane, Inverse(FindRes(g, l - 1, i, l, i)))] else [])
  }

  lemma {:induction false} VerticalLinksAre(g: Grid, l: nat, i: nat, j: nat)
    requires g.Cell(l, i, j)
    ensures var k := Idx(g, l, i, j);
      && k >= 0 && (l > 0 ==> k >= Plane(g))
      && VerticalLinks(g, l, i, k, Plane(g)) == GridNodes.Below(g, l, i, j) + GridNodes.Above(g, l, i, j)
  {
    hide Idx, FindRes, Inverse, Plane, Cells;
    NeighboursInRange(g, l, i, j);
    Steps(g, l, i, j);
  }

  /** Links to the layers below and above. */
  method VerticalElements(g: Grid, l: nat, i: nat, k: nat, plane: nat, row0: seq<Element>, dia0: real, ghost links0: seq<Link>)
    returns (row: seq<Element>, dia: real, ghost links: seq<Link>)
    requires l < |g.layers| && (l > 0 ==> k >= plane)
    requires row0 == LinkElements(k, links0) && dia0 == Conductance(links0)
    ensures row == LinkElements(k, links) && dia == Conductance(links)
    ensures links == links0 + VerticalLinks(g, l, i, k, plane)
  {
    hide LinkElements, Conductance, FindRes, Inverse;
    row, dia, links := row0, dia0, links0;
    if l < |g.layers| - 1 {
      row, dia, links := Emit(k, k + plane, FindRes(g, l + 1, i, l, i), row, dia, links);
    }
    if l > 0 {
      row, dia, links := Emit(k, k - plane, FindRes(g, l - 1, i, l, i), row, dia, links);
    }
  }

  lemma {:induction false} RimLinksAre(g: Grid, pk: Pack, l: nat, i: nat, j: nat)
    requires g.rows >= 2 && g.cols >= 2 && |g.layers| >= 2 && g.Cell(l, i, j)
    ensures RimNS(g, pk, l, i, j) + RimWE(g, pk, l, i, j) == RimLinks(g, pk, l, PlaceOf(g.rows, g.cols, i, j))
  {
    hide RimX, RimY, Inverse, Cells;
  }

  function RimLinks(g: Grid, pk: Pack, l: nat, place: Place): seq<Link>
    requires l < |g.layers|
  {
    if l == Spreader(g) then EdgeLinks(place, SP_N, SP_S, SP_W, SP_E, RimY(g, l, pk.sp1Y), RimX(g, l, pk.sp1X), Cells(g))
    else if l == SinkLayer(g) then EdgeLinks(place, SINK_C_N, SINK_C_S, SINK_C_W, SINK_C_E, RimY(g, l, pk.hs1Y), RimX(g, l, pk.hs1X), Cells(g))
    else []
  }

  /** Links of an edge cell of spreader or sink to the package, and of the sink to the
      ambient. */
  method RimElements(g: Grid, pk: Pack, l: nat, place: Place, k: nat, row0: seq<Element>, dia0: real, ghost links0: seq<Link>)
    returns (row: seq<Element>, dia: real, ghost links: seq<Link>)
    requires |g.layers| >= 2 && l < |g.layers|
    requires row0 == LinkElements(k, links0) && dia0 == Conductance(links0)
    ensures links == links0 + RimLinks(g, pk, l, place)
    ensures row == LinkElements(k, links) && dia == Conductance(links) + Ground(g, l)
  {
    hide LinkElements, Conductance, Inverse, Cells, RimX, RimY, EdgeLinks;
    row, dia, links := row0, dia0, links0;
    if l == Spreader(g) {
      row, dia, links := EdgeElements(k, place, SP_N, SP_S, SP_W, SP_E, RimY(g, l, pk.sp1Y), RimX(g, l, pk.sp1X), Cells(g), row, dia, links);
    } else if l == SinkLayer(g) {
      row, dia, links := EdgeElements(k, place, SINK_C_N, SINK_C_S, SINK_C_W, SINK_C_E, RimY(g, l, pk.hs1Y), RimX(g, l, pk.hs1X), Cells(g), row, dia, links);
      dia := dia + Inverse(g.layers[l].rz);
    }
  }

  function EdgeLinks(place: Place, n: nat, s: nat, w: nat, e: nat, ry: real, rx: real, base: nat): seq<Link> {
    (match place
     case TopLeft => [Link(base + n, Inverse(ry))]
     case TopRight => [Link(base + n, Inverse(ry))]
     case TopRow => [Link(base + n, Inverse(ry))]
     case BottomLeft => [Link(base + s, Inverse(ry))]
     case BottomRight => [Link(base + s, Inverse(ry))]
     case BottomRow => [Link(base + s, Inverse(ry))]
     case _ => [])
    + (match place
       case TopLeft => [Link(base + w, Inverse(rx))]
       case BottomLeft => [Link(base + w, Inverse(rx))]
       case LeftColumn => [Link(base + w, Inverse(rx))]
       case TopRight => [Link(base + e, Inverse(rx))]
       case BottomRight => [Link(base + e, Inverse(rx))]
       case RightColumn => [Link(base + e, Inverse(rx))]
       case _ => [])
  }

  method EdgeElements(k: nat, place: Place, n: nat, s: nat, w: nat, e: nat, ry: real, rx: real, base: nat,
                      row0: seq<Element>, dia0: real, ghost links0: seq<Link>)
    returns (row: seq<Element>, dia: real, ghost links: seq<Link>)
    requires row0 == LinkElements(k, links0) && dia0 == Conductance(links0)
    ensures links == links0 + EdgeLinks(place, n, s, w, e, ry, rx, base)
    ensures row == LinkElements(k, links) && dia == Conductance(links)
  {
    hide LinkElements, Conductance, Inverse;
    row, dia, links := row0, dia0, links0;
    match place {
      case TopLeft =>
        row, dia, links := Emit(k, base + n, ry, row, dia, links);
        row, dia, links := Emit(k, base + w, rx, row, dia, links);
      case TopRight =>
        row, dia, links := Emit(k, base + n, ry, row, dia, links);
        row, dia, links := Emit(k, base + e, rx, row, dia, links);
      case BottomLeft =>
        row, dia, links := Emit(k, base + s, ry, row, dia, links);
        row, dia, links := Emit(k, base + w, rx, row, dia, links);
      case BottomRight =>
        row, dia, links := Emit(k, base + s, ry, row, dia, links);
        row, dia, links := Emit(k, base + e, rx, row, dia, links);
      case TopRow =>
        row, dia, links := Emit(k, base + n, ry, row, dia, links);
      case BottomRow =>
        row, dia, links := Emit(k, base + s, ry, row, dia, links);
      case LeftColumn =>
        row, dia, links := Emit(k, base + w, rx, row, dia, links);
      case RightColumn =>
        row, dia, links := Emit(k, base + e, rx, row, dia, links);
      case Central =>
    }
  }

  lemma {:induction false} CellLinksAre(g: Grid, pk: Pack, l: nat, i: nat, j: nat, a: seq<Link>, b: seq<Link>, c: seq<Link>)
    requires g.Cell(l, i, j) && a == Lateral(g, l, i, j) && b == GridNodes.Below(g, l, i, j) + GridNodes.Above(g, l, i, j)
    requires c == RimNS(g, pk, l, i, j) + RimWE(g, pk, l, i, j)
    ensures CellLinks(g, pk, l, i, j) == a + b + c
  {
    hide Lateral, GridNodes.Below, GridNodes.Above, RimNS, RimWE, Idx;
  }

  lemma {:induction false} RowIs(k: nat, node: Node, row: seq<Element>, dia: real)
    requires row == LinkElements(k, node.links) && dia == Conductance(node.links) + node.ground
    ensures row + [Element(k, k, dia)] == RowOf(k, node)
  {
  }

  /** The row of a cell. */
  method CellElements(g: Grid, pk: Pack, ghost p: seq<real>, l: nat, i: nat, j: nat) returns (row: seq<Element>)
    requires Valid(g, pk) && g.Cell(l, i, j)
    ensures Idx(g, l, i, j) >= 0 && row == RowOf(Idx(g, l, i, j), CellNode(g, pk, p, l, i, j))
  {
    var nr, nc := g.rows, g.cols;
    var grididx := i * nc + j;
    var k := Idx(g, l, i, j);
    WhereIs(nr, nc, i, j);
    hide *;
    LateralLinksAre(g, l, i, j);
    VerticalLinksAre(g, l, i, j);
    RimLinksAre(g, pk, l, i, j);
    var place := Where(nr, nc, grididx);
    ghost var links: seq<Link>;
    var dia: real;
    row, dia := LateralElements(place, k, nc, FindRes(g, l, i - 1, l, i), FindRes(g, l, i + 1, l, i), FindRes(g, l, i, l, i), FindRes(g, l, i, l, i));
    row, dia, links := VerticalElements(g, l, i, k, Plane(g), row, dia, Lateral(g, l, i, j));
    row, dia, links := RimElements(g, pk, l, place, k, row, dia, links);
    CellLinksAre(g, pk, l, i, j, Lateral(g, l, i, j), VerticalLinks(g, l, i, k, Plane(g)), RimLinks(g, pk, l, place));
    NodeIs(g, pk, p, l, i, j);
    RowIs(k, CellNode(g, pk, p, l, i, j), row, dia);
    row := row + [Element(k, k, dia)];
  }

  lemma {:induction false} NodeIs(g: Grid, pk: Pack, p: seq<real>, l: nat, i: nat, j: nat)
    requires g.Cell(l, i, j)
    ensures CellNode(g, pk, p, l, i, j).links == CellLinks(g, pk, l, i, j) && CellNode(g, pk, p, l, i, j).ground == Ground(g, l)
  {
  }

  // ---- package nodes ----

  /** Links to all cells of a row, each over the same resistance. */
  method RowElements(g: Grid, l: nat, i: nat, k: nat, r: real) returns (row: seq<Element>, dia: real, ghost links: seq<Link>)
    requires l < |g.layers| && i < g.rows
    ensures links == RowLinks(g, l, i, g.cols, Inverse(r)) && row == LinkElements(k, links) && dia == Conductance(links)
  {
    row, dia, links := [], 0.0, [];
    EmptyRow(k);
    hide LinkElements, Conductance, Inverse, Idx;
    for j := 0 to g.cols
      invariant links == RowLinks(g, l, i, j, Inverse(r)) && row == LinkElements(k, links) && dia == Conductance(links)
    {
      Located(g, l, i, j);
      row, dia, links := Emit(k, Idx(g, l, i, j), r, row, dia, links);
    }
  }

  /** Links to all cells of a column. */
  method ColElements(g: Grid, l: nat, j: nat, k: nat, r: real) returns (row: seq<Element>, dia: real, ghost links: seq<Link>)
    requires l < |g.layers| && j < g.cols
    ensures links == ColLinks(g, l, j, g.rows, Inverse(r)) && row == LinkElements(k, links) && dia == Conductance(links)
  {
    row, dia, links := [], 0.0, [];
    EmptyRow(k);
    hide LinkElements, Conductance, Inverse, Idx;
    for i := 0 to g.rows
      invariant links == ColLinks(g, l, j, i, Inverse(r)) && row == LinkElements(k, links) && dia == Conductance(links)
    {
      Located(g, l, i, j);
      row, dia, links := Emit(k, Idx(g, l, i, j), r, row, dia, links);
    }
  }

  /** Outer sink node: one link inward, the rest to the ambient. */
  method OuterSinkRow(n: nat, e: nat, inner: nat, r: real, amb: real) returns (row: seq<Element>)
    ensures row == RowOf(n + e, Node([Link(n + inner, Inverse(r))], Inverse(amb), 0.0))
  {
    EmptyRow(n + e);
    hide LinkElements, Conductance, Inverse;
    var dia: real; ghost var links;
    row, dia, links := Emit(n + e, n + inner, r, [], 0.0, []);
    dia := dia + Inverse(amb);
    row := row + [Element(n + e, n + e, dia)];
  }

  /** Inner sink node: after its edge cells the spreader node and the outer sink node. */
  method InnerSinkRow(n: nat, e: nat, row0: seq<Element>, dia0: real, ghost links0: seq<Link>, sp: nat, spR: real,
                      outer: nat, outerR: real, amb: real)
    returns (row: seq<Element>)
    requires row0 == LinkElements(n + e, links0) && dia0 == Conductance(links0)
    ensures row == RowOf(n + e, Node(links0 + [Link(n + sp, Inverse(spR)), Link(n + outer, Inverse(outerR))], Inverse(amb), 0.0))
  {
    hide LinkElements, Conductance, Inverse;
    var dia: real; ghost var links;
    row, dia, links := Emit(n + e, n + sp, spR, row0, dia0, links0);
    row, dia, links := Emit(n + e, n + outer, outerR, row, dia, links);
    assert links == links0 + [Link(n + sp, Inverse(spR)), Link(n + outer, Inverse(outerR))];
    dia := dia + Inverse(amb);
    row := row + [Element(n + e, n + e, dia)];
  }

  /** Spreader node: after its edge cells the inner sink node. */
  method SpreaderRow(n: nat, e: nat, row0: seq<Element>, dia0: real, ghost links0: seq<Link>, sink: nat, r: real)
    returns (row: seq<Element>)
    requires row0 == LinkElements(n + e, links0) && dia0 == Conductance(links0)
    ensures row == RowOf(n + e, Node(links0 + [Link(n + sink, Inverse(r))], 0.0, 0.0))
  {
    hide LinkElements, Conductance, Inverse;
    var dia: real; ghost var links;
    row, dia, links := Emit(n + e, n + sink, r, row0, dia0, links0);
    row := row + [Element(n + e, n + e, dia)];
  }

  /** The row of a package node. */
  method PackElements(g: Grid, pk: Pack, e: nat) returns (row: seq<Element>)
    requires Valid(g, pk) && e < EXTRA
    ensures row == RowOf(Cells(g) + e, PackNode(g, pk, e))
  {
    hide RowOf, LinkElements, Conductance, Inverse, RowLinks, ColLinks, Cells, RimX, RimY;
    var hs, sp, n := SinkLayer(g), Spreader(g), Cells(g);
    var nr, nc := g.rows, g.cols;
    var dia: real; ghost var links: seq<Link>;
    if e == SINK_N {
      row := OuterSinkRow(n, e, SINK_C_N, pk.hs2Y + pk.hs, pk.hsPer + pk.ambPer);
    } else if e == SINK_S {
      row := OuterSinkRow(n, e, SINK_C_S, pk.hs2Y + pk.hs, pk.hsPer + pk.ambPer);
    } else if e == SINK_W {
      row := OuterSinkRow(n, e, SINK_C_W, pk.hs2X + pk.hs, pk.hsPer + pk.ambPer);
    } else if e == SINK_E {
      row := OuterSinkRow(n, e, SINK_C_E, pk.hs2X + pk.hs, pk.hsPer + pk.ambPer);
    } else if e == SINK_C_N {
      row, dia, links := RowElements(g, hs, 0, n + e, RimY(g, hs, pk.hs1Y));
      row := InnerSinkRow(n, e, row, dia, links, SP_N, pk.spPerY, SINK_N, pk.hs2Y + pk.hs, pk.hsCPerY + pk.ambCPerY);
    } else if e == SINK_C_S {
      row, dia, links := RowElements(g, hs, nr - 1, n + e, RimY(g, hs, pk.hs1Y));
      row := InnerSinkRow(n, e, row, dia, links, SP_S, pk.spPerY, SINK_S, pk.hs2Y + pk.hs, pk.hsCPerY + pk.ambCPerY);
    } else if e == SINK_C_W {
      row, dia, links := ColElements(g, hs, 0, n + e, RimX(g, hs, pk.hs1X));
      row := InnerSinkRow(n, e, row, dia, links, SP_W, pk.spPerX, SINK_W, pk.hs2X + pk.hs, pk.hsCPerX + pk.ambCPerX);
    } else if e == SINK_C_E {
      row, dia, links := ColElements(g, hs, nc - 1, n + e, RimX(g, hs, pk.hs1X));
      row := InnerSinkRow(n, e, row, dia, links, SP_E, pk.spPerX, SINK_E, pk.hs2X + pk.hs, pk.hsCPerX + pk.ambCPerX);
    } else if e == SP_N {
      row, dia, links := RowElements(g, sp, 0, n + e, RimY(g, sp, pk.sp1Y));
      row := SpreaderRow(n, e, row, dia, links, SINK_C_N, pk.spPerY);
    } else if e == SP_S {
      row, dia, links := RowElements(g, sp, nr - 1, n + e, RimY(g, sp, pk.sp1Y));
      row := SpreaderRow(n, e, row, dia, links, SINK_C_S, pk.spPerY);
    } else if e == SP_W {
      row, dia, links := ColElements(g, sp, 0, n + e, RimX(g, sp, pk.sp1X));
      row := SpreaderRow(n, e, row, dia, links, SINK_C_W, pk.spPerX);
    } else {
      row, dia, links := ColElements(g, sp, nc - 1, n + e, RimX(g, sp, pk.sp1X));
      row := SpreaderRow(n, e, row, dia, links, SINK_C_E, pk.spPerX);
    }
  }

  // ---- the coordinate arrays ----

  /** Appends a row to the coordinate arrays. */
  method StoreRow(cooX: array<int>, cooY: array<int>, cooV: array<real>, curidx: nat, row: seq<Element>) returns (next: nat)
    requires curidx + |row| <= cooX.Length && curidx + |row| <= cooY.Length && curidx + |row| <= cooV.Length && cooX != cooY
    modifies cooX, cooY, cooV
    ensures next == curidx + |row|
    ensures ElementsOf(cooX[..], cooY[..], cooV[..], next) == old(ElementsOf(cooX[..], cooY[..], cooV[..], curidx)) + row
  {
    next := curidx;
    for m := 0 to |row|
      invariant next == curidx + m
      invariant forall q | 0 <= q < curidx :: cooX[q] == old(cooX[q]) && cooY[q] == old(cooY[q]) && cooV[q] == old(cooV[q])
      invariant forall q | 0 <= q < m :: Element(cooX[curidx + q], cooY[curidx + q], cooV[curidx + q]) == row[q]
    {
      cooX[next] := row[m].x;
      cooY[next] := row[m].y;
      cooV[next] := row[m].val;
      next := next + 1;
    }
    ghost var s := old(ElementsOf(cooX[..], cooY[..], cooV[..], curidx)) + row;
    forall q | 0 <= q < next ensures Element(cooX[q], cooY[q], cooV[q]) == s[q] {
      if q >= curidx { assert Element(cooX[curidx + (q - curidx)], cooY[curidx + (q - curidx)], cooV[curidx + (q - curidx)]) == row[q - curidx]; }
    }
  }

  /** The rows of the first k nodes have been stored. */
  ghost predicate Written(g: Grid, pk: Pack, p: seq<real>, xs: seq<int>, ys: seq<int>, vs: seq<real>, curidx: nat, k: nat)
    requires Valid(g, pk)
  {
    && |xs| == |ys| == |vs| == Nnz(g) && curidx <= |xs|
    && k <= |Order(g)| && (forall m | 0 <= m < k :: Order(g)[m] < |Network(g, pk, p)|)
    && ElementsOf(xs, ys, vs, curidx) == RowsOf(Network(g, pk, p), Order(g)[..k])
  }

  lemma {:induction false} PrefixShorter(net: seq<Node>, order: seq<nat>, k: nat)
    requires k <= |order| && forall m | 0 <= m < |order| :: order[m] < |net|
    ensures |RowsOf(net, order[..k])| <= |RowsOf(net, order)|
  {
    hide RowOf;
    if k < |order| {
      PrefixShorter(net, order[..|order|-1], k);
      assert order[..|order|-1][..k] == order[..k];
    } else {
      assert order[..k] == order;
    }
  }

  /** There is room for the next node's row. */
  lemma {:induction false} RoomForRow(g: Grid, pk: Pack, p: seq<real>, k: nat)
    requires Valid(g, pk) && k < Cells(g) + EXTRA
    ensures |Order(g)| == |Network(g, pk, p)| == Cells(g) + EXTRA && forall m | 0 <= m < |Order(g)| :: Order(g)[m] < |Network(g, pk, p)|
    ensures var net, o := Network(g, pk, p), Order(g);
      && RowsOf(net, o[..k+1]) == RowsOf(net, o[..k]) + RowOf(o[k], net[o[k]])
      && |RowsOf(net, o[..k+1])| <= Nnz(g)
  {
    hide Network, Order, Cells, Nnz, RowOf;
    ElementsAreNnz(g, pk, p);
    var net, o := Network(g, pk, p), Order(g);
    PrefixShorter(net, o, k + 1);
    assert o[..k+1][..k] == o[..k];
  }

  /** Stores the row of node k of the order. */
  method StoreNode(g: Grid, pk: Pack, ghost p: seq<real>, cooX: array<int>, cooY: array<int>, cooV: array<real>, curidx: nat,
                   row: seq<Element>, ghost k: nat)
    returns (next: nat)
    requires Valid(g, pk) && k < Cells(g) + EXTRA && cooX != cooY && Written(g, pk, p, cooX[..], cooY[..], cooV[..], curidx, k)
    requires k < |Order(g)| && Order(g)[k] < |Network(g, pk, p)| && row == RowOf(Order(g)[k], Network(g, pk, p)[Order(g)[k]])
    modifies cooX, cooY, cooV
    ensures Written(g, pk, p, cooX[..], cooY[..], cooV[..], next, k + 1)
  {
    hide Network, Order, Cells, Nnz, RowOf, RowsOf;
    RoomForRow(g, pk, p, k);
    next := StoreRow(cooX, cooY, cooV, curidx, row);
  }
}
