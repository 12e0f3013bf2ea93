/** The grid with its package drains to the ambient, so its matrix equation has exactly one
    solution whatever the power. */
module GridWellPosed {
  import opened Sums
  import opened GridStencil
  import opened SparseMatrix
  import opened NodeNetwork
  import opened GridNodes
  import opened GridLinks
  import opened GridMatrix
  import opened GridDirect
  import opened NetworkSolution

  /** Cells drain down to the sink, whose cells are linked to the ambient, and so are all
      nodes around the sink; the nodes around the spreader drain into those of the sink. */
  ghost function Depth(g: Grid): int -> nat {
    k => if 0 <= k < Cells(g) && Plane(g) > 0 && k / Plane(g) < |g.layers| then |g.layers| - k / Plane(g)
         else if Cells(g) <= k < Cells(g) + SINK_C_W then 1 else 0
  }

  lemma {:induction false} CellDrains(g: Grid, pk: Pack, p: seq<real>, l: int, i: int, j: int)
    requires Valid(g, pk) && g.Cell(l, i, j)
    ensures 0 <= Idx(g, l, i, j) < |Network(g, pk, p)| && Drains(Network(g, pk, p), Depth(g), Idx(g, l, i, j))
  {
    hide Idx, Cells, Plane, CellLinks, Quotient;
    CellInNetwork(g, pk, p, l, i, j);
    CellIsLinked(g, pk, p, l, i, j);
    NetworkColumnsDiffer(g, pk, p, Idx(g, l, i, j));
    DepthOfCell(g, l, i, j);
    InversePositive(g.layers[l].rz);
    if l < |g.layers| - 1 {
      DepthOfCell(g, l + 1, i, j);
      BelowIsLinked(g, pk, l, i, j);
    }
  }

  lemma {:induction false} DepthOfCell(g: Grid, l: int, i: int, j: int)
    requires g.Cell(l, i, j)
    ensures Depth(g)(Idx(g, l, i, j)) == |g.layers| - l
  {
    Located(g, l, i, j);
  }

  lemma {:induction false} BelowIsLinked(g: Grid, pk: Pack, l: int, i: int, j: int)
    requires g.Cell(l, i, j) && l < |g.layers| - 1
    ensures exists k :: 0 <= k < |CellLinks(g, pk, l, i, j)| && CellLinks(g, pk, l, i, j)[k].to == Idx(g, l + 1, i, j)
  {
    var k := |Lateral(g, l, i, j)|;
    hide Lateral, GridNodes.Above, RimNS, RimWE, Idx;
    assert CellLinks(g, pk, l, i, j)[k] == GridNodes.Below(g, l, i, j)[0];
  }

  lemma {:induction false} PackDrains(g: Grid, pk: Pack, p: seq<real>, e: nat)
    requires Valid(g, pk) && e < EXTRA
    ensures Drains(Network(g, pk, p), Depth(g), Cells(g) + e)
  {
    PlanePositive(g);
    PackIsLinked(g, pk, e);
    NetworkColumnsDiffer(g, pk, p, Cells(g) + e);
    hide Cells, Plane, PackNode;
    assert Network(g, pk, p)[Cells(g) + e] == PackNode(g, pk, e);
    if e < SINK_C_W { SpreaderIsLinked(g, pk, e); }
  }

  lemma {:induction false} SpreaderIsLinked(g: Grid, pk: Pack, e: nat)
    requires Valid(g, pk) && e < SINK_C_W
    ensures var links := PackNode(g, pk, e).links;
      exists k :: 0 <= k < |links| && Cells(g) + SINK_C_W <= links[k].to < Cells(g) + EXTRA
  {
    hide Cells, RowLinks, ColLinks, Inverse;
    var links := PackNode(g, pk, e).links;
    assert Cells(g) + SINK_C_W <= links[|links|-1].to < Cells(g) + EXTRA;
  }

  lemma {:induction false} NetworkDrains(g: Grid, pk: Pack, p: seq<real>)
    requires Valid(g, pk)
    ensures Drained(Network(g, pk, p), Depth(g))
  {
    var net := Network(g, pk, p);
    hide Drains, Depth, Idx;
    forall k: nat | k < |net| ensures Drains(net, Depth(g), k) {
      if k < Cells(g) {
        NodeIsCell(g, k);
        CellDrains(g, pk, p, LayerOfNode(g, k), RowOfNode(g, k), ColOfNode(g, k));
      } else {
        PackDrains(g, pk, p, k - Cells(g));
      }
    }
  }

  ghost predicate AgreeOn(t: int -> real, u: int -> real, n: nat) {
    forall k | 0 <= k < n :: t(k) == u(k)
  }

  /** The equation of the direct solver has exactly one solution, for every power; if no
      cell draws power, the solution is nowhere below the ambient temperature. */
  lemma {:induction false} ExactlyOneSolution(g: Grid, pk: Pack, p: seq<real>, coo: seq<Element>, s: seq<Element>, asub: seq<int>,
                                              xa0: seq<int>, xa: seq<int>, a: seq<real>, b: seq<real>, n: nat) returns (t: int -> real)
    requires Valid(g, pk) && Complete(g, pk, coo, s, asub, xa0, xa, a) && n == Cells(g) + EXTRA && Sources(g, pk, p, b, n)
    ensures DirectlySolves(asub, xa, a, n, t, b)
    ensures forall u | DirectlySolves(asub, xa, a, n, u, b) :: AgreeOn(u, t, n)
    ensures (forall k | 0 <= k < |p| :: p[k] >= 0.0) ==> forall k | 0 <= k < n :: t(k) >= g.ambient
  {
    var net, rank := Network(g, pk, p), Depth(g);
    assert |net| == n;
    NetworkDrains(g, pk, p);
    PowerNonnegative(g, pk, p);
    hide *;
    t := SolutionExists(net, rank, g.ambient);
    DirectIffBalanced(g, pk, p, coo, s, asub, xa0, xa, a, t, b);
    forall u | DirectlySolves(asub, xa, a, n, u, b) ensures AgreeOn(u, t, n) {
      DirectIffBalanced(g, pk, p, coo, s, asub, xa0, xa, a, u, b);
      Agree(net, rank, g.ambient, u, t);
    }
    if forall k | 0 <= k < |p| :: p[k] >= 0.0 {
      forall k | 0 <= k < n ensures t(k) >= g.ambient { SolvedAboveAmbient(net, rank, g.ambient, t, k); }
    }
  }

  lemma {:induction false} Agree(net: seq<Node>, rank: int -> nat, ambient: real, u: int -> real, t: int -> real)
    requires Drained(net, rank) && Solved(net, ambient, u) && Solved(net, ambient, t)
    ensures AgreeOn(u, t, |net|)
  {
    hide Drained, Solved;
    forall k | 0 <= k < |net| ensures u(k) == t(k) { SolutionUnique(net, rank, ambient, u, t, k); }
  }

  lemma {:induction false} PowerNonnegative(g: Grid, pk: Pack, p: seq<real>)
    requires Valid(g, pk)
    ensures (forall k | 0 <= k < |p| :: p[k] >= 0.0) ==> forall k: nat | k < Cells(g) + EXTRA :: Network(g, pk, p)[k].source >= 0.0
  {
    var net := Network(g, pk, p);
    PlanePositive(g);
    hide CellLinks, RowLinks, ColLinks, Inverse, Ground, Cells;
    if forall k | 0 <= k < |p| :: p[k] >= 0.0 {
      forall k: nat | k < Cells(g) + EXTRA ensures net[k].source >= 0.0 {
        if k < Cells(g) {
          NodeIsCell(g, k);
          hide Idx;
        }
      }
    }
  }
}
