/** The small grid model seen as a network of nodes: its balance equations have a solution. */
module GridSolution {
  import opened Sums
  import opened GridStencil
  import opened NodeNetwork
  import opened GridNodes
  import NetworkSolution

  /** The six neighbours of a cell: north, south, east, west, above and below. */
  function Neighbour(n: int, i: int, j: int, d: nat): (int, int, int) {
    if d == 0 then (n, i - 1, j) else if d == 1 then (n, i + 1, j) else if d == 2 then (n, i, j + 1)
    else if d == 3 then (n, i, j - 1) else if d == 4 then (n - 1, i, j) else (n + 1, i, j)
  }

  predicate Exists(g: Grid, n: int, i: int, j: int, d: nat) {
    var b := Neighbour(n, i, j, d);
    g.Cell(b.0, b.1, b.2)
  }

  function Towards(g: Grid, n: int, i: int, j: int, d: nat): real
    requires g.Positive() && g.Cell(n, i, j)
  {
    if d == 0 then GridStencil.North(g, n, i, j) else if d == 1 then GridStencil.South(g, n, i, j)
    else if d == 2 then GridStencil.East(g, n, i, j) else if d == 3 then GridStencil.West(g, n, i, j)
    else if d == 4 then GridStencil.Above(g, n, i, j) else GridStencil.Below(g, n, i, j)
  }

  /** There is conductance exactly to the neighbours that exist. */
  lemma {:induction false} TowardsExisting(g: Grid, n: int, i: int, j: int, d: nat)
    requires g.Positive() && g.Cell(n, i, j) && d < 6
    ensures if Exists(g, n, i, j, d) then Towards(g, n, i, j, d) > 0.0 else Towards(g, n, i, j, d) == 0.0
  {
    InversePositive(g.layers[n].rx);
    InversePositive(g.layers[n].ry);
    InversePositive(g.layers[n].rz);
    if n > 0 { InversePositive(g.layers[n-1].rz); }
    hide Quotient;
  }

  /** Links to the first k neighbours. */
  function LinksTo(g: Grid, n: int, i: int, j: int, k: nat): seq<Link>
    requires g.Positive() && g.Cell(n, i, j)
  {
    if k == 0 then []
    else
      var b := Neighbour(n, i, j, k - 1);
      LinksTo(g, n, i, j, k - 1) + if Exists(g, n, i, j, k - 1) then [CellLink(g, b.0, b.1, b.2, Towards(g, n, i, j, k - 1))] else []
  }

  ghost function StencilNode(g: Grid, p: Field, n: int, i: int, j: int): Node
    requires g.Positive() && g.Cell(n, i, j)
  {
    Node(LinksTo(g, n, i, j, 6), Sink(g, n, i, j), p(n, i, j))
  }

  /** The temperatures of the cells of the network. */
  ghost function CellsOf(g: Grid, t: int -> real): Field {
    (n, i, j) => t(Idx(g, n, i, j))
  }

  ghost function Flows(g: Grid, v: Field, n: int, i: int, j: int, k: nat): real
    requires g.Positive() && g.Cell(n, i, j)
  {
    if k == 0 then 0.0
    else
      var b := Neighbour(n, i, j, k - 1);
      Flows(g, v, n, i, j, k - 1) + Times(Towards(g, n, i, j, k - 1), v(b.0, b.1, b.2) - v(n, i, j))
  }

  lemma {:induction false} InflowIsFlows(g: Grid, t: int -> real, n: int, i: int, j: int, k: nat)
    requires g.Positive() && g.Cell(n, i, j) && k <= 6
    ensures NetworkSolution.Inflow(LinksTo(g, n, i, j, k), t, t(Idx(g, n, i, j))) == Flows(g, CellsOf(g, t), n, i, j, k)
  {
    if k > 0 {
      InflowIsFlows(g, t, n, i, j, k - 1);
      TowardsExisting(g, n, i, j, k - 1);
      hide Idx, Times, Towards, Exists, Neighbour;
      var b, rest := Neighbour(n, i, j, k - 1), LinksTo(g, n, i, j, k - 1);
      if Exists(g, n, i, j, k - 1) {
        var l := CellLink(g, b.0, b.1, b.2, Towards(g, n, i, j, k - 1));
        assert (rest + [l])[..|rest + [l]| - 1] == rest;
      } else {
        assert rest + [] == rest;
        var x := CellsOf(g, t)(b.0, b.1, b.2) - t(Idx(g, n, i, j));
        TimesLaws(x, 0.0, 0.0);
        TimesLaws(0.0, x, 0.0);
      }
    }
  }

  lemma {:induction false} SixFlows(g: Grid, p: Field, v: Field, n: int, i: int, j: int)
    requires g.Positive() && g.Cell(n, i, j)
    ensures Residual(g, p, v, n, i, j) == p(n, i, j) + Flows(g, v, n, i, j, 6) + Times(Sink(g, n, i, j), g.ambient - v(n, i, j))
  {
    hide Times, GridStencil.North, GridStencil.South, GridStencil.East, GridStencil.West, GridStencil.Above, GridStencil.Below;
    var x := v(n, i, j);
    assert Flows(g, v, n, i, j, 1) == Times(GridStencil.North(g, n, i, j), v(n, i - 1, j) - x);
    assert Flows(g, v, n, i, j, 2) == Flows(g, v, n, i, j, 1) + Times(GridStencil.South(g, n, i, j), v(n, i + 1, j) - x);
    assert Flows(g, v, n, i, j, 3) == Flows(g, v, n, i, j, 2) + Times(GridStencil.East(g, n, i, j), v(n, i, j + 1) - x);
    assert Flows(g, v, n, i, j, 4) == Flows(g, v, n, i, j, 3) + Times(GridStencil.West(g, n, i, j), v(n, i, j - 1) - x);
    assert Flows(g, v, n, i, j, 5) == Flows(g, v, n, i, j, 4) + Times(GridStencil.Above(g, n, i, j), v(n - 1, i, j) - x);
  }

  /** A node is short of balance by as much as its cell. */
  lemma {:induction false} RestIsResidual(g: Grid, p: Field, t: int -> real, n: int, i: int, j: int)
    requires g.Positive() && g.Cell(n, i, j)
    ensures NetworkSolution.Rest(StencilNode(g, p, n, i, j), g.ambient, p(n, i, j), t, t(Idx(g, n, i, j)))
         == Residual(g, p, CellsOf(g, t), n, i, j)
  {
    hide Idx, Residual, Flows, LinksTo, Times;
    InflowIsFlows(g, t, n, i, j, 6);
    SixFlows(g, p, CellsOf(g, t), n, i, j);
  }

  /** The node of every cell number. */
  ghost function StencilNetwork(g: Grid, p: Field): (net: seq<Node>)
    requires g.Positive() && g.rows > 0 && g.cols > 0
    ensures |net| == Cells(g)
    ensures forall n, i, j | g.Cell(n, i, j) :: 0 <= Idx(g, n, i, j) < |net| && net[Idx(g, n, i, j)] == StencilNode(g, p, n, i, j)
  {
    forall n, i, j | g.Cell(n, i, j) { Located(g, n, i, j); }
    seq(Cells(g), k requires 0 <= k < Cells(g) =>
      NodeIsCell(g, k);
      StencilNode(g, p, LayerOfNode(g, k), RowOfNode(g, k), ColOfNode(g, k)))
  }

  ghost function LayersBelow(g: Grid): int -> nat {
    k => if 0 <= k < Cells(g) && Plane(g) > 0 && k / Plane(g) < |g.layers| then |g.layers| - k / Plane(g) else 0
  }

  ghost predicate Inner(links: seq<Link>, n: nat) {
    forall i | 0 <= i < |links| :: links[i].conductance > 0.0 && links[i].to < n
  }

  lemma {:induction false} LinksInner(g: Grid, n: int, i: int, j: int, k: nat)
    requires g.Positive() && g.Cell(n, i, j) && k <= 6
    ensures Inner(LinksTo(g, n, i, j, k), Cells(g))
  {
    if k > 0 {
      LinksInner(g, n, i, j, k - 1);
      TowardsExisting(g, n, i, j, k - 1);
      var b := Neighbour(n, i, j, k - 1);
      if Exists(g, n, i, j, k - 1) { Located(g, b.0, b.1, b.2); }
      hide Idx, Cells, Towards, Exists, Neighbour;
    }
  }

  /** Every cell drains through the layers below it. */
  lemma {:induction false} CellDrains(g: Grid, p: Field, n: int, i: int, j: int)
    requires g.Positive() && g.Cell(n, i, j)
    ensures 0 <= Idx(g, n, i, j) < |StencilNetwork(g, p)|
    ensures NetworkSolution.Drains(StencilNetwork(g, p), LayersBelow(g), Idx(g, n, i, j))
  {
    var net, rank, node := StencilNetwork(g, p), LayersBelow(g), StencilNode(g, p, n, i, j);
    Conductances(g, n, i, j);
    Located(g, n, i, j);
    LinksInner(g, n, i, j, 6);
    assert net[Idx(g, n, i, j)] == node;
    assert rank(Idx(g, n, i, j)) == |g.layers| - n;
    if n < |g.layers| - 1 {
      Located(g, n + 1, i, j);
      LastLink(g, n, i, j);
      var k := |node.links| - 1;
      hide Idx, Cells, Plane, LinksTo;
      assert rank(node.links[k].to) < rank(Idx(g, n, i, j));
    }
  }

  lemma {:induction false} LastLink(g: Grid, n: int, i: int, j: int)
    requires g.Positive() && g.Cell(n, i, j) && n < |g.layers| - 1
    ensures var links := LinksTo(g, n, i, j, 6); links != [] && links[|links|-1].to == Idx(g, n + 1, i, j)
  {
    hide Idx;
  }

  /** For every power there is a steady field. */
  lemma {:induction false} SteadyExists(g: Grid, p: Field) returns (v: Field)
    requires g.Positive()
    ensures Steady(g, p, v)
  {
    v := Uniform(0.0);
    if |g.layers| > 0 && g.rows > 0 && g.cols > 0 {
      var net, rank := StencilNetwork(g, p), LayersBelow(g);
      hide StencilNetwork, LayersBelow, NetworkSolution.Drains, Idx, StencilNode;
      forall k: nat | k < |net| ensures NetworkSolution.Drains(net, rank, k) {
        NodeIsCell(g, k);
        CellDrains(g, p, LayerOfNode(g, k), RowOfNode(g, k), ColOfNode(g, k));
      }
      var t := NetworkSolution.SolutionExists(net, rank, g.ambient);
      v := CellsOf(g, t);
      forall n, i, j | g.Cell(n, i, j) ensures GridStencil.Balanced(g, p, v, n, i, j) {
        SolvedCell(g, p, net, t, n, i, j);
      }
    }
  }

  lemma {:induction false} SolvedCell(g: Grid, p: Field, net: seq<Node>, t: int -> real, n: int, i: int, j: int)
    requires g.Positive() && g.Cell(n, i, j) && net == StencilNetwork(g, p) && Solved(net, g.ambient, t)
    ensures GridStencil.Balanced(g, p, CellsOf(g, t), n, i, j)
  {
    var k := Idx(g, n, i, j);
    assert 0 <= k < |net| && net[k] == StencilNode(g, p, n, i, j);
    assert NodeNetwork.Balanced(net, g.ambient, t, k);
    NetworkSolution.BalancedIsRest(net, g.ambient, t, k);
    RestIsResidual(g, p, t, n, i, j);
    hide Idx, NetworkSolution.Rest, Residual;
  }

  /** So sweeps from the ambient temperature rise below a bound: the one steady field. */
  lemma {:induction false} SweepsBounded(g: Grid, p: Field, vs: seq<Field>) returns (t: Field)
    requires g.Positive() && AtMost(g, Uniform(0.0), p) && Sweeps(g, p, vs) && |vs| > 0 && vs[0] == Uniform(g.ambient)
    ensures Steady(g, p, t) && forall k | 0 <= k < |vs| :: AtMost(g, vs[k], t)
  {
    hide Steady, AtMost, Sweeps;
    t := SteadyExists(g, p);
    forall k | 0 <= k < |vs| ensures AtMost(g, vs[k], t) { SweepsBelowSteady(g, p, vs, t, k); }
  }
}
