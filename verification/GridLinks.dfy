/** What holds of every node of the grid with package: its links go to different nodes,
    some conductance leaves it, and how many links there are in all. */
module GridLinks {
  import opened Sums
  import opened GridStencil
  import opened NodeNetwork
  import opened GridNodes

  // ---- every node is linked ----

  ghost predicate AllPositive(links: seq<Link>) {
    forall i | 0 <= i < |links| :: links[i].conductance > 0.0
  }

  lemma {:induction false} PositiveTotal(links: seq<Link>)
    requires AllPositive(links)
    ensures Conductance(links) >= 0.0 && (links != [] ==> Conductance(links) > 0.0)
  {
    if links != [] { PositiveTotal(links[..|links|-1]); }
  }

  lemma {:induction false} LateralPositive(g: Grid, l: int, i: int, j: int)
    requires g.Positive() && g.Cell(l, i, j) && g.rows >= 2
    ensures AllPositive(Lateral(g, l, i, j)) && Lateral(g, l, i, j) != []
  {
    hide Inverse, FindRes, Idx;
    forall i1, n1 | 0 <= n1 < |g.layers| ensures Inverse(FindRes(g, n1, i1, l, i)) > 0.0 {
      FindResPositive(g, n1, i1, l, i);
    }
  }

  lemma {:induction false} VerticalPositive(g: Grid, l: int, i: int, j: int)
    requires g.Positive() && g.Cell(l, i, j)
    ensures AllPositive(GridNodes.Below(g, l, i, j)) && AllPositive(GridNodes.Above(g, l, i, j))
  {
    hide Inverse, FindRes, Idx;
    forall i1, n1 | 0 <= n1 < |g.layers| ensures Inverse(FindRes(g, n1, i1, l, i)) > 0.0 {
      FindResPositive(g, n1, i1, l, i);
    }
  }

  lemma {:induction false} RimsPositive(g: Grid, pk: Pack, l: int, i: int, j: int)
    requires Valid(g, pk) && g.Cell(l, i, j)
    ensures AllPositive(RimNS(g, pk, l, i, j)) && AllPositive(RimWE(g, pk, l, i, j))
  {
    hide Inverse, RimX, RimY;
    forall r | r > 0.0 ensures Inverse(RimX(g, l, r)) > 0.0 && Inverse(RimY(g, l, r)) > 0.0 {
      RimPositive(g, l, r);
    }
  }

  lemma {:induction false} CellIsLinked(g: Grid, pk: Pack, p: seq<real>, l: int, i: int, j: int)
    requires Valid(g, pk) && g.Cell(l, i, j)
    ensures AllPositive(CellLinks(g, pk, l, i, j)) && Ground(g, l) >= 0.0
    ensures Conductance(CellLinks(g, pk, l, i, j)) + Ground(g, l) > 0.0
  {
    LateralPositive(g, l, i, j);
    VerticalPositive(g, l, i, j);
    RimsPositive(g, pk, l, i, j);
    hide Lateral, GridNodes.Below, GridNodes.Above, RimNS, RimWE, Inverse;
    PositiveTotal(CellLinks(g, pk, l, i, j));
  }

  lemma {:induction false} RowLinksAre(g: Grid, l: int, i: int, k: nat, c: real)
    requires 0 <= l < |g.layers| && 0 <= i < g.rows && k <= g.cols
    ensures |RowLinks(g, l, i, k, c)| == k
    ensures forall m | 0 <= m < k :: RowLinks(g, l, i, k, c)[m] == Link(Idx(g, l, i, m), c)
  {
    hide Idx;
    if k > 0 { RowLinksAre(g, l, i, k - 1, c); }
  }

  lemma {:induction false} ColLinksAre(g: Grid, l: int, j: int, k: nat, c: real)
    requires 0 <= l < |g.layers| && 0 <= j < g.cols && k <= g.rows
    ensures |ColLinks(g, l, j, k, c)| == k
    ensures forall m | 0 <= m < k :: ColLinks(g, l, j, k, c)[m] == Link(Idx(g, l, m, j), c)
  {
    hide Idx;
    if k > 0 { ColLinksAre(g, l, j, k - 1, c); }
  }

  /** Rows and columns the package nodes border on, with their conductance. */
  ghost predicate PackResistances(g: Grid, pk: Pack)
    requires |g.layers| >= 2
  {
    var hs, sp := SinkLayer(g), Spreader(g);
    && Inverse(RimY(g, hs, pk.hs1Y)) > 0.0 && Inverse(RimX(g, hs, pk.hs1X)) > 0.0
    && Inverse(RimY(g, sp, pk.sp1Y)) > 0.0 && Inverse(RimX(g, sp, pk.sp1X)) > 0.0
    && Inverse(pk.spPerX) > 0.0 && Inverse(pk.spPerY) > 0.0
    && OuterX(pk) > 0.0 && OuterY(pk) > 0.0
    && RimGround(pk) > 0.0 && Inverse(pk.hsCPerX + pk.ambCPerX) > 0.0 && Inverse(pk.hsCPerY + pk.ambCPerY) > 0.0
  }

  lemma {:induction false} PackResistancesPositive(g: Grid, pk: Pack)
    requires Valid(g, pk)
    ensures PackResistances(g, pk)
  {
    hide Inverse, RimX, RimY;
    var hs, sp := SinkLayer(g), Spreader(g);
    RimPositive(g, hs, pk.hs1Y);
    RimPositive(g, hs, pk.hs1X);
    RimPositive(g, sp, pk.sp1Y);
    RimPositive(g, sp, pk.sp1X);
  }

  lemma {:induction false} PackIsLinked(g: Grid, pk: Pack, e: nat)
    requires Valid(g, pk) && e < EXTRA
    ensures AllPositive(PackNode(g, pk, e).links) && PackNode(g, pk, e).ground >= 0.0
    ensures e >= SINK_C_W ==> PackNode(g, pk, e).ground > 0.0
    ensures Conductance(PackNode(g, pk, e).links) + PackNode(g, pk, e).ground > 0.0
  {
    PackResistancesPositive(g, pk);
    hide Inverse, RimX, RimY, RimGround, OuterX, OuterY, Idx, CellLink, Cells, RowLinks, ColLinks;
    forall l, i, c | 0 <= l < |g.layers| && 0 <= i < g.rows && c > 0.0 ensures AllPositive(RowLinks(g, l, i, g.cols, c)) {
      RowLinksAre(g, l, i, g.cols, c);
    }
    forall l, j, c | 0 <= l < |g.layers| && 0 <= j < g.cols && c > 0.0 ensures AllPositive(ColLinks(g, l, j, g.rows, c)) {
      ColLinksAre(g, l, j, g.rows, c);
    }
    PositiveTotal(PackNode(g, pk, e).links);
  }

  lemma {:induction false} NetworkLinked(g: Grid, pk: Pack, p: seq<real>)
    requires Valid(g, pk)
    ensures Linked(Network(g, pk, p))
  {
    var net := Network(g, pk, p);
    hide CellLinks, PackNode, Conductance, Ground, Idx;
    forall k: nat | k < |net| ensures Conductance(net[k].links) + net[k].ground > 0.0 {
      if k < Cells(g) {
        NodeIsCell(g, k);
        CellIsLinked(g, pk, p, LayerOfNode(g, k), RowOfNode(g, k), ColOfNode(g, k));
      } else {
        PackIsLinked(g, pk, k - Cells(g));
      }
    }
  }

  // ---- no two links to one node ----

  ghost predicate Within(links: seq<Link>, targets: seq<int>) {
    forall i | 0 <= i < |links| :: links[i].to in targets
  }

  /** Nothing, or one link to v. */
  ghost predicate Only(links: seq<Link>, v: int) {
    |links| == 0 || (|links| == 1 && links[0].to == v)
  }

  lemma {:induction false} OneMore(k: nat, a: seq<Link>, b: seq<Link>, targets: seq<int>, v: int)
    requires ColumnsDiffer(k, a) && Within(a, targets) && Only(b, v) && v != k && v !in targets
    ensures ColumnsDiffer(k, a + b) && Within(a + b, targets + [v])
  {
    var s := a + b;
    forall i | 0 <= i < |s| ensures s[i].to != k && s[i].to in targets + [v] {
      assert i < |a| ==> a[i].to in targets;
    }
    forall i, j | 0 <= i < j < |s| ensures s[i].to != s[j].to {
      assert i < |a| ==> a[i].to in targets;
    }
  }

  lemma {:induction false} FourMore(k: nat, a: seq<Link>, b: seq<Link>, c: seq<Link>, d: seq<Link>, e: seq<Link>,
                                    targets: seq<int>, v: int, w: int, x: int, y: int)
    requires ColumnsDiffer(k, a) && Within(a, targets)
    requires Only(b, v) && Only(c, w) && Only(d, x) && Only(e, y)
    requires k != v && k != w && k != x && k != y && v != w && v != x && v != y && w != x && w != y && x != y
    requires forall i | 0 <= i < |targets| :: targets[i] != v && targets[i] != w && targets[i] != x && targets[i] != y
    ensures ColumnsDiffer(k, a + b + c + d + e)
    ensures Within(a + b + c + d + e, targets + [v, w, x, y])
  {
    hide ColumnsDiffer, Only;
    OneMore(k, a, b, targets, v);
    OneMore(k, a + b, c, targets + [v], w);
    assert targets + [v] + [w] == targets + [v, w];
    OneMore(k, a + b + c, d, targets + [v, w], x);
    assert targets + [v, w] + [x] == targets + [v, w, x];
    OneMore(k, a + b + c + d, e, targets + [v, w, x], y);
    assert targets + [v, w, x] + [y] == targets + [v, w, x, y];
  }

  /** Steps in a layer and between layers. */
  lemma {:induction false} Steps(g: Grid, l: int, i: int, j: int)
    ensures Idx(g, l, i - 1, j) == Idx(g, l, i, j) - g.cols && Idx(g, l, i + 1, j) == Idx(g, l, i, j) + g.cols
    ensures Idx(g, l, i, j - 1) == Idx(g, l, i, j) - 1 && Idx(g, l, i, j + 1) == Idx(g, l, i, j) + 1
    ensures Idx(g, l - 1, i, j) == Idx(g, l, i, j) - Plane(g) && Idx(g, l + 1, i, j) == Idx(g, l, i, j) + Plane(g)
  {
    OneStep(i, g.cols);
    OneStep(l, Plane(g));
  }

  lemma {:induction false} OneStep(a: int, b: int)
    ensures (a - 1) * b == a * b - b && (a + 1) * b == a * b + b
  {
  }

  lemma {:induction false} PlaneAbove(g: Grid)
    requires g.rows >= 2 && g.cols >= 2
    ensures Plane(g) >= g.cols + g.cols
  {
    Gap(g.cols, g.rows, 0);
    if g.rows > 2 { Gap(g.cols, g.rows, 2); }
  }

  lemma {:induction false} NoLinks(k: nat)
    ensures ColumnsDiffer(k, []) && Within([], [])
  {
  }

  /** The number of a neighbour, or a negative number in place of one that is not there. */
  function Target(there: bool, v: int, absent: int): int {
    if there then v else absent
  }

  function Neighbours(g: Grid, l: int, i: int, j: int): (int, int, int, int, int, int) {
    var k := Idx(g, l, i, j);
    (Target(i > 0, k - g.cols, -1), Target(i < g.rows - 1, k + g.cols, -2), Target(j > 0, k - 1, -3), Target(j < g.cols - 1, k + 1, -4),
     Target(l < |g.layers| - 1, k + Plane(g), -5), Target(l > 0, k - Plane(g), -6))
  }

  ghost predicate SixApart(t: (int, int, int, int, int, int), k: int, n: int) {
    && t.0 < n && t.1 < n && t.2 < n && t.3 < n && t.4 < n && t.5 < n
    && t.0 != k && t.1 != k && t.2 != k && t.3 != k && t.4 != k && t.5 != k
    && t.0 != t.1 && t.0 != t.2 && t.0 != t.3 && t.0 != t.4 && t.0 != t.5
    && t.1 != t.2 && t.1 != t.3 && t.1 != t.4 && t.1 != t.5
    && t.2 != t.3 && t.2 != t.4 && t.2 != t.5 && t.3 != t.4 && t.3 != t.5 && t.4 != t.5
  }

  lemma {:induction false} NeighboursInRange(g: Grid, l: int, i: int, j: int)
    requires g.Cell(l, i, j)
    ensures var t, n := Neighbours(g, l, i, j), Cells(g); t.0 < n && t.1 < n && t.2 < n && t.3 < n && t.4 < n && t.5 < n
    ensures 0 <= Idx(g, l, i, j) < Cells(g)
    ensures var k := Idx(g, l, i, j); (i > 0 ==> k >= g.cols) && (j > 0 ==> k >= 1) && (l > 0 ==> k >= Plane(g))
  {
    hide Idx, Cells, Plane;
    Steps(g, l, i, j);
    Located(g, l, i, j);
    if i > 0 { Located(g, l, i - 1, j); }
    if i < g.rows - 1 { Located(g, l, i + 1, j); }
    if j > 0 { Located(g, l, i, j - 1); }
    if j < g.cols - 1 { Located(g, l, i, j + 1); }
    if l > 0 { Located(g, l - 1, i, j); }
    if l < |g.layers| - 1 { Located(g, l + 1, i, j); }
  }

  lemma {:induction false} NeighboursApart(g: Grid, l: int, i: int, j: int)
    requires g.Cell(l, i, j) && g.rows >= 2 && g.cols >= 2
    ensures SixApart(Neighbours(g, l, i, j), Idx(g, l, i, j), Cells(g))
  {
    hide Idx, Cells, Plane;
    NeighboursInRange(g, l, i, j);
    PlaneAbove(g);
  }

  lemma {:induction false} EachOnly(g: Grid, l: int, i: int, j: int)
    requires g.Cell(l, i, j)
    ensures var t := Neighbours(g, l, i, j);
      && Only(GridNodes.North(g, l, i, j), t.0) && Only(GridNodes.South(g, l, i, j), t.1) && Only(GridNodes.West(g, l, i, j), t.2)
      && Only(GridNodes.East(g, l, i, j), t.3) && Only(GridNodes.Below(g, l, i, j), t.4) && Only(GridNodes.Above(g, l, i, j), t.5)
  {
    hide Idx, Plane, Cells, Inverse, FindRes;
    Steps(g, l, i, j);
  }

  lemma {:induction false} NoneAtEdge(g: Grid, l: int, i: int, j: int)
    requires g.Cell(l, i, j)
    ensures i == 0 ==> GridNodes.North(g, l, i, j) == []
    ensures i == g.rows - 1 ==> GridNodes.South(g, l, i, j) == []
  {
  }

  lemma {:induction false} LateralDiffer(g: Grid, l: int, i: int, j: int)
    requires g.Cell(l, i, j) && g.rows >= 2 && g.cols >= 2
    ensures Idx(g, l, i, j) >= 0 && ColumnsDiffer(Idx(g, l, i, j), Lateral(g, l, i, j))
    ensures var t := Neighbours(g, l, i, j); Within(Lateral(g, l, i, j), [t.0, t.1, t.2, t.3])
  {
    hide Idx, GridNodes.North, GridNodes.South, GridNodes.West, GridNodes.East, Neighbours, ColumnsDiffer, Within, Only;
    NeighboursInRange(g, l, i, j);
    NeighboursApart(g, l, i, j);
    EachOnly(g, l, i, j);
    NoneAtEdge(g, l, i, j);
    var k, t := Idx(g, l, i, j), Neighbours(g, l, i, j);
    var n, s, w, e := GridNodes.North(g, l, i, j), GridNodes.South(g, l, i, j), GridNodes.West(g, l, i, j), GridNodes.East(g, l, i, j);
    NoLinks(k);
    if i == 0 {
      FourMore(k, [], w, e, s, n, [], t.2, t.3, t.1, t.0);
      assert [] + w + e + s + n == w + e + s;
      SameTargets(w + e + s, [] + [t.2, t.3, t.1, t.0], [t.0, t.1, t.2, t.3]);
    } else if i == g.rows - 1 {
      FourMore(k, [], w, e, n, s, [], t.2, t.3, t.0, t.1);
      assert [] + w + e + n + s == w + e + n;
      SameTargets(w + e + n, [] + [t.2, t.3, t.0, t.1], [t.0, t.1, t.2, t.3]);
    } else {
      FourMore(k, [], n, s, w, e, [], t.0, t.1, t.2, t.3);
      assert [] + n + s + w + e == n + s + w + e;
      SameTargets(n + s + w + e, [] + [t.0, t.1, t.2, t.3], [t.0, t.1, t.2, t.3]);
    }
  }

  lemma {:induction false} SameTargets(links: seq<Link>, a: seq<int>, b: seq<int>)
    requires Within(links, a) && forall i | 0 <= i < |a| :: a[i] in b
    ensures Within(links, b)
  {
  }

  /** The package nodes a cell may be linked to. */
  function RimTargets(g: Grid, l: int, i: int, j: int): (int, int) {
    if l == SinkLayer(g) then
      (Cells(g) + (if i == 0 then SINK_C_N else SINK_C_S), Cells(g) + (if j == 0 then SINK_C_W else SINK_C_E))
    else
      (Cells(g) + (if i == 0 then SP_N else SP_S), Cells(g) + (if j == 0 then SP_W else SP_E))
  }

  lemma {:induction false} RimsOnly(g: Grid, pk: Pack, l: int, i: int, j: int)
    requires g.Cell(l, i, j)
    ensures Only(RimNS(g, pk, l, i, j), RimTargets(g, l, i, j).0) && Only(RimWE(g, pk, l, i, j), RimTargets(g, l, i, j).1)
    ensures var t := RimTargets(g, l, i, j); Cells(g) <= t.0 < Cells(g) + EXTRA && Cells(g) <= t.1 < Cells(g) + EXTRA && t.0 != t.1
  {
    hide Cells, RimX, RimY, Inverse;
  }

  lemma {:induction false} CellColumnsDiffer(g: Grid, pk: Pack, l: int, i: int, j: int)
    requires Valid(g, pk) && g.Cell(l, i, j)
    ensures Idx(g, l, i, j) >= 0 && ColumnsDiffer(Idx(g, l, i, j), CellLinks(g, pk, l, i, j))
    ensures AllBelow(CellLinks(g, pk, l, i, j), Cells(g) + EXTRA)
  {
    hide Idx, Lateral, GridNodes.Below, GridNodes.Above, RimNS, RimWE, RimTargets, Neighbours, ColumnsDiffer, Within, Only, AllBelow, Cells;
    LateralDiffer(g, l, i, j);
    NeighboursInRange(g, l, i, j);
    NeighboursApart(g, l, i, j);
    EachOnly(g, l, i, j);
    RimsOnly(g, pk, l, i, j);
    var k, t, r := Idx(g, l, i, j), Neighbours(g, l, i, j), RimTargets(g, l, i, j);
    FourMore(k, Lateral(g, l, i, j), GridNodes.Below(g, l, i, j), GridNodes.Above(g, l, i, j), RimNS(g, pk, l, i, j),
             RimWE(g, pk, l, i, j), [t.0, t.1, t.2, t.3], t.4, t.5, r.0, r.1);
    WithinBelow(CellLinks(g, pk, l, i, j), [t.0, t.1, t.2, t.3] + [t.4, t.5, r.0, r.1], Cells(g) + EXTRA);
  }

  ghost predicate AllBelow(links: seq<Link>, n: nat) {
    forall i | 0 <= i < |links| :: links[i].to < n
  }

  lemma {:induction false} WithinBelow(links: seq<Link>, targets: seq<int>, n: nat)
    requires Within(links, targets) && forall i | 0 <= i < |targets| :: targets[i] < n
    ensures AllBelow(links, n)
  {
  }

  /** Links to cells that differ. */
  ghost predicate CellsDiffer(g: Grid, links: seq<Link>) {
    && (forall i | 0 <= i < |links| :: links[i].to < Cells(g))
    && (forall i, j | 0 <= i < j < |links| :: links[i].to != links[j].to)
  }

  /** Package nodes that differ from each other and from node e. */
  ghost predicate PackDiffer(g: Grid, e: nat, links: seq<Link>) {
    ColumnsDiffer(Cells(g) + e, links) && forall i | 0 <= i < |links| :: links[i].to >= Cells(g)
  }

  lemma {:induction false} CellsThenPack(g: Grid, e: nat, links: seq<Link>, a: seq<Link>)
    requires CellsDiffer(g, links) && PackDiffer(g, e, a)
    ensures ColumnsDiffer(Cells(g) + e, links + a)
  {
    hide Cells;
  }

  lemma {:induction false} RowLinksDiffer(g: Grid, l: int, i: int, c: real)
    requires 0 <= l < |g.layers| && 0 <= i < g.rows
    ensures CellsDiffer(g, RowLinks(g, l, i, g.cols, c))
  {
    RowLinksAre(g, l, i, g.cols, c);
    forall m | 0 <= m < g.cols ensures 0 <= Idx(g, l, i, m) < Cells(g) && Idx(g, l, i, m) == l * Plane(g) + (i * g.cols + m) { Located(g, l, i, m); }
    hide Idx, Cells, Plane, RowLinks;
  }

  lemma {:induction false} ColLinksDiffer(g: Grid, l: int, j: int, c: real)
    requires 0 <= l < |g.layers| && 0 <= j < g.cols
    ensures CellsDiffer(g, ColLinks(g, l, j, g.rows, c))
  {
    ColLinksAre(g, l, j, g.rows, c);
    forall m | 0 <= m < g.rows ensures 0 <= Idx(g, l, m, j) < Cells(g) && m == (Idx(g, l, m, j) % Plane(g)) / g.cols {
      PlanePositive(g);
      Located(g, l, m, j);
    }
    hide Idx, Cells, Plane, ColLinks;
  }

  lemma {:induction false} OnePackLink(g: Grid, e: nat, to: nat, c: real)
    requires e != to
    ensures PackDiffer(g, e, [PackLink(g, to, c)]) && ColumnsDiffer(Cells(g) + e, [PackLink(g, to, c)])
  {
    hide Cells;
  }

  lemma {:induction false} TwoPackLinks(g: Grid, e: nat, to: nat, c: real, to2: nat, c2: real)
    requires e != to && e != to2 && to != to2
    ensures PackDiffer(g, e, [PackLink(g, to, c), PackLink(g, to2, c2)])
  {
    hide Cells;
  }

  lemma {:induction false} InnerDiffers(g: Grid, e: nat, links: seq<Link>, to: nat, c: real, to2: nat, c2: real, ground: real)
    requires CellsDiffer(g, links) && e != to && e != to2 && to != to2
    ensures ColumnsDiffer(Cells(g) + e, InnerNode(links, g, to, c, to2, c2, ground).links)
  {
    hide CellsDiffer, PackDiffer, Cells, ColumnsDiffer, PackLink;
    TwoPackLinks(g, e, to, c, to2, c2);
    CellsThenPack(g, e, links, [PackLink(g, to, c), PackLink(g, to2, c2)]);
  }

  lemma {:induction false} OuterDiffers(g: Grid, e: nat, links: seq<Link>, to: nat, c: real)
    requires CellsDiffer(g, links) && e != to
    ensures ColumnsDiffer(Cells(g) + e, links + [PackLink(g, to, c)])
  {
    hide CellsDiffer, PackDiffer, Cells, ColumnsDiffer, PackLink;
    OnePackLink(g, e, to, c);
    CellsThenPack(g, e, links, [PackLink(g, to, c)]);
  }

  lemma {:induction false} PackColumnsDiffer(g: Grid, pk: Pack, e: nat)
    requires Valid(g, pk) && e < EXTRA
    ensures ColumnsDiffer(Cells(g) + e, PackNode(g, pk, e).links)
  {
    hide Inverse, RimX, RimY, RimGround, OuterX, OuterY, Cells, RowLinks, ColLinks, CellsDiffer, PackDiffer, ColumnsDiffer, InnerNode, PackLink;
    var hs, sp := SinkLayer(g), Spreader(g);
    var hsY, hsX, spY, spX := Inverse(RimY(g, hs, pk.hs1Y)), Inverse(RimX(g, hs, pk.hs1X)), Inverse(RimY(g, sp, pk.sp1Y)), Inverse(RimX(g, sp, pk.sp1X));
    var perY, perX := Inverse(pk.spPerY), Inverse(pk.spPerX);
    if e == SINK_N { OnePackLink(g, e, SINK_C_N, OuterY(pk)); }
    else if e == SINK_S { OnePackLink(g, e, SINK_C_S, OuterY(pk)); }
    else if e == SINK_W { OnePackLink(g, e, SINK_C_W, OuterX(pk)); }
    else if e == SINK_E { OnePackLink(g, e, SINK_C_E, OuterX(pk)); }
    else if e == SINK_C_N {
      RowLinksDiffer(g, hs, 0, hsY);
      InnerDiffers(g, e, RowLinks(g, hs, 0, g.cols, hsY), SP_N, perY, SINK_N, OuterY(pk), Inverse(pk.hsCPerY + pk.ambCPerY));
    } else if e == SINK_C_S {
      RowLinksDiffer(g, hs, g.rows - 1, hsY);
      InnerDiffers(g, e, RowLinks(g, hs, g.rows - 1, g.cols, hsY), SP_S, perY, SINK_S, OuterY(pk), Inverse(pk.hsCPerY + pk.ambCPerY));
    } else if e == SINK_C_W {
      ColLinksDiffer(g, hs, 0, hsX);
      InnerDiffers(g, e, ColLinks(g, hs, 0, g.rows, hsX), SP_W, perX, SINK_W, OuterX(pk), Inverse(pk.hsCPerX + pk.ambCPerX));
    } else if e == SINK_C_E {
      ColLinksDiffer(g, hs, g.cols - 1, hsX);
      InnerDiffers(g, e, ColLinks(g, hs, g.cols - 1, g.rows, hsX), SP_E, perX, SINK_E, OuterX(pk), Inverse(pk.hsCPerX + pk.ambCPerX));
    } else if e == SP_N {
      RowLinksDiffer(g, sp, 0, spY);
      OuterDiffers(g, e, RowLinks(g, sp, 0, g.cols, spY), SINK_C_N, perY);
    } else if e == SP_S {
      RowLinksDiffer(g, sp, g.rows - 1, spY);
      OuterDiffers(g, e, RowLinks(g, sp, g.rows - 1, g.cols, spY), SINK_C_S, perY);
    } else if e == SP_W {
      ColLinksDiffer(g, sp, 0, spX);
      OuterDiffers(g, e, ColLinks(g, sp, 0, g.rows, spX), SINK_C_W, perX);
    } else {
      ColLinksDiffer(g, sp, g.cols - 1, spX);
      OuterDiffers(g, e, ColLinks(g, sp, g.cols - 1, g.rows, spX), SINK_C_E, perX);
    }
  }

  lemma {:induction false} PackTargets(g: Grid, pk: Pack, e: nat)
    requires Valid(g, pk) && e < EXTRA
    ensures AllBelow(PackNode(g, pk, e).links, Cells(g) + EXTRA)
  {
    hide Inverse, RimX, RimY, RimGround, OuterX, OuterY, Cells, RowLinks, ColLinks, Idx;
    forall l, i, c | 0 <= l < |g.layers| && 0 <= i < g.rows ensures AllBelow(RowLinks(g, l, i, g.cols, c), Cells(g)) {
      RowLinksDiffer(g, l, i, c);
    }
    forall l, j, c | 0 <= l < |g.layers| && 0 <= j < g.cols ensures AllBelow(ColLinks(g, l, j, g.rows, c), Cells(g)) {
      ColLinksDiffer(g, l, j, c);
    }
  }

  /** Links lead to nodes of the network; no node has two links to one node, or one to
      itself. */
  lemma {:induction false} NetworkColumnsDiffer(g: Grid, pk: Pack, p: seq<real>, k: nat)
    requires Valid(g, pk) && k < Cells(g) + EXTRA
    ensures ColumnsDiffer(k, Network(g, pk, p)[k].links) && AllBelow(Network(g, pk, p)[k].links, Cells(g) + EXTRA)
  {
    hide CellLinks, PackNode, ColumnsDiffer, Ground, Idx, AllBelow;
    if k < Cells(g) {
      NodeIsCell(g, k);
      CellColumnsDiffer(g, pk, LayerOfNode(g, k), RowOfNode(g, k), ColOfNode(g, k));
    } else {
      PackColumnsDiffer(g, pk, k - Cells(g));
      PackTargets(g, pk, k - Cells(g));
    }
  }
}
