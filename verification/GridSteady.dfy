/** The sweep over grid and package against the direct solver's equation: the sweep stands
    still exactly on its solutions. */
module GridSteady {
  import opened Sums
  import opened SparseMatrix
  import opened GridStencil
  import opened NodeNetwork
  import opened GridNodes
  import opened GridLinks
  import opened GridCount
  import opened GridMatrix
  import opened GridDirect
  import opened GridPackSweep

  ghost predicate Moves(ts: seq<int -> real>, i: nat)
    requires i + 1 < |ts|
  {
    !Same(ts[i], ts[i+1])
  }

  /** The largest change so far: zero exactly when nothing has changed. */
  ghost predicate Largest(ts: seq<int -> real>, max: real) {
    max >= 0.0 && (max == 0.0 <==> forall i | 0 <= i < |ts| - 1 :: !Moves(ts, i))
  }

  /** The first k nodes of the order have been relaxed. */
  ghost predicate Swept(g: Grid, pk: Pack, p: seq<real>, v0: seq<real>, v: seq<real>, ts: seq<int -> real>, max: real, k: int)
    requires Valid(g, pk)
  {
    && |v0| == |v| == Cells(g) + EXTRA && 0 <= k <= |Order(g)|
    && Sweep(Network(g, pk, p), g.ambient, Order(g)[..k], ts)
    && ts[0] == ValuesOf(v0) && ts[k] == ValuesOf(v) && Largest(ts, max)
  }

  lemma {:induction false} SweepNext(net: seq<Node>, ambient: real, order: seq<nat>, k: nat, ts: seq<int -> real>, u: int -> real)
    requires k < |order| && Sweep(net, ambient, order[..k], ts) && order[k] < |net| && Relaxed(net, ambient, ts[k], u, order[k])
    ensures Sweep(net, ambient, order[..k+1], ts + [u])
  {
    var us, first := ts + [u], order[..k+1];
    hide Relaxed;
    forall i | 0 <= i < |first| ensures SweepStep(net, ambient, first, us, i) {
      if i < k { assert SweepStep(net, ambient, order[..k], ts, i); }
    }
  }

  lemma {:induction false} LargestNext(ts: seq<int -> real>, max: real, u: int -> real, delta: real)
    requires |ts| > 0 && Largest(ts, max) && delta >= 0.0 && (delta == 0.0 <==> Same(ts[|ts|-1], u))
    ensures Largest(ts + [u], if delta > max then delta else max)
  {
    hide Same;
    var us := ts + [u];
    assert forall i | 0 <= i < |ts| - 1 :: Moves(us, i) == Moves(ts, i);
    assert Moves(us, |ts| - 1) == !Same(ts[|ts|-1], u);
  }

  lemma {:induction false} RelaxedBy(net: seq<Node>, ambient: real, v: seq<real>, k: nat, csum: real, wsum: real, x: real)
    requires k < |net| && k < |v| && SumsOf(net[k], ambient, ValuesOf(v), csum, wsum) && csum > 0.0
    requires x == Quotient(net[k].source + wsum, csum)
    ensures Relaxed(net, ambient, ValuesOf(v), ValuesOf(v[k := x]), k)
    ensures Same(ValuesOf(v), ValuesOf(v[k := x])) <==> v[k] == x
  {
    hide Times, Quotient, Conductance, Pull;
    QuotientTimes(net[k].source + wsum, csum);
    assert ValuesOf(v)(k) == v[k] && ValuesOf(v[k := x])(k) == x;
  }

  function Distance(a: real, b: real): (d: real)
    ensures d >= 0.0 && (d == 0.0 <==> a == b)
  {
    if a < b then b - a else a - b
  }

  function Larger(a: real, b: real): real {
    if b > a then b else a
  }

  /** Relaxes one node in place. */
  method RelaxNode(g: Grid, pk: Pack, ghost p: seq<real>, v: array<real>, k: nat, source: real, csum: real, wsum: real, max0: real,
                   ghost v0: seq<real>, ghost ts0: seq<int -> real>, ghost turn: nat)
    returns (max: real, ghost ts: seq<int -> real>)
    requires Valid(g, pk) && Swept(g, pk, p, v0, v[..], ts0, max0, turn) && turn < |Order(g)| && k == Order(g)[turn]
    requires k < |Network(g, pk, p)| == v.Length && source == Network(g, pk, p)[k].source
    requires SumsOf(Network(g, pk, p)[k], g.ambient, ValuesOf(v[..]), csum, wsum)
    modifies v
    ensures Swept(g, pk, p, v0, v[..], ts, max, turn + 1)
  {
    hide Network, Order, Cells, ValuesOf, Sweep, Largest, Quotient, Conductance, Pull, Relaxed, Same;
    ghost var before := v[..];
    NetworkLinked(g, pk, p);
    assert csum > 0.0 by { LinkedAt(Network(g, pk, p), k); }
    var prev := v[k];
    v[k] := Quotient(source + wsum, csum);
    var delta := Distance(prev, v[k]);
    max := Larger(max0, delta);
    assert v[..] == before[k := v[k]];
    RelaxedBy(Network(g, pk, p), g.ambient, before, k, csum, wsum, v[k]);
    ts := ts0 + [ValuesOf(v[..])];
    SweptNext(g, pk, p, v0, before, v[..], ts0, max0, delta, turn);
  }

  lemma {:induction false} SweptNext(g: Grid, pk: Pack, p: seq<real>, v0: seq<real>, v: seq<real>, w: seq<real>, ts: seq<int -> real>,
                                     max: real, delta: real, turn: nat)
    requires Valid(g, pk) && Swept(g, pk, p, v0, v, ts, max, turn) && turn < |Order(g)| && |w| == |v|
    requires Order(g)[turn] < |Network(g, pk, p)| && Relaxed(Network(g, pk, p), g.ambient, ValuesOf(v), ValuesOf(w), Order(g)[turn])
    requires delta >= 0.0 && (delta == 0.0 <==> Same(ValuesOf(v), ValuesOf(w)))
    ensures Swept(g, pk, p, v0, w, ts + [ValuesOf(w)], Larger(max, delta), turn + 1)
  {
    hide Network, Order, Cells, ValuesOf, Largest, Relaxed, Same, SweepStep;
    assert |ts| == turn + 1;
    SweepNext(Network(g, pk, p), g.ambient, Order(g), turn, ts, ValuesOf(w));
    LargestNext(ts, max, ValuesOf(w), delta);
  }

  /** Relaxes a cell. */
  method SweepCell(g: Grid, pk: Pack, p: seq<real>, v: array<real>, l: nat, i: nat, j: nat, max0: real, ghost v0: seq<real>, ghost ts0: seq<int -> real>)
    returns (max: real, ghost ts: seq<int -> real>)
    requires Valid(g, pk) && g.Cell(l, i, j) && |p| == Cells(g) && v.Length == Cells(g) + EXTRA
    requires Swept(g, pk, p, v0, v[..], ts0, max0, Idx(g, l, i, j))
    modifies v
    ensures Swept(g, pk, p, v0, v[..], ts, max, Idx(g, l, i, j + 1))
  {
    hide Network, Order, Cells, ValuesOf, Swept, SumsOf, CellLinks, Idx, Ground;
    CellTurn(g, pk, p, l, i, j);
    var csum, wsum := CellSums(g, pk, p, v[..], l, i, j);
    var k := Idx(g, l, i, j);
    max, ts := RelaxNode(g, pk, p, v, k, p[k], csum, wsum, max0, v0, ts0, k);
  }

  method SweepRow(g: Grid, pk: Pack, p: seq<real>, v: array<real>, l: nat, i: nat, max0: real, ghost v0: seq<real>, ghost ts0: seq<int -> real>)
    returns (max: real, ghost ts: seq<int -> real>)
    requires Valid(g, pk) && l < |g.layers| && i < g.rows && |p| == Cells(g) && v.Length == Cells(g) + EXTRA
    requires Swept(g, pk, p, v0, v[..], ts0, max0, Idx(g, l, i, 0))
    modifies v
    ensures Swept(g, pk, p, v0, v[..], ts, max, Idx(g, l, i + 1, 0))
  {
    hide *;
    max, ts := max0, ts0;
    for j := 0 to g.cols
      invariant Swept(g, pk, p, v0, v[..], ts, max, Idx(g, l, i, j))
    {
      IsCell(g, l, i, j);
      max, ts := SweepCell(g, pk, p, v, l, i, j, max, v0, ts);
    }
    RowEnd(g, l, i + 1);
  }

  method SweepLayer(g: Grid, pk: Pack, p: seq<real>, v: array<real>, l: nat, max0: real, ghost v0: seq<real>, ghost ts0: seq<int -> real>)
    returns (max: real, ghost ts: seq<int -> real>)
    requires Valid(g, pk) && l < |g.layers| && |p| == Cells(g) && v.Length == Cells(g) + EXTRA
    requires Swept(g, pk, p, v0, v[..], ts0, max0, Idx(g, l, 0, 0))
    modifies v
    ensures Swept(g, pk, p, v0, v[..], ts, max, Idx(g, l + 1, 0, 0))
  {
    hide *;
    max, ts := max0, ts0;
    for i := 0 to g.rows
      invariant Swept(g, pk, p, v0, v[..], ts, max, Idx(g, l, i, 0))
    {
      max, ts := SweepRow(g, pk, p, v, l, i, max, v0, ts);
    }
    LayerEnd(g, l + 1);
  }

  /** The package part of the sweep. */
  method SingleIterationSteadyPack(g: Grid, pk: Pack, ghost p: seq<real>, v: array<real>, max0: real, ghost v0: seq<real>, ghost ts0: seq<int -> real>)
    returns (max: real, ghost ts: seq<int -> real>)
    requires Valid(g, pk) && v.Length == Cells(g) + EXTRA && Swept(g, pk, p, v0, v[..], ts0, max0, Cells(g))
    modifies v
    ensures Swept(g, pk, p, v0, v[..], ts, max, Cells(g) + EXTRA)
  {
    hide Network, Order, Cells, ValuesOf, Swept, SumsOf, PackNode, PackOrder, Valid;
    max, ts := max0, ts0;
    for i := 0 to EXTRA
      invariant Swept(g, pk, p, v0, v[..], ts, max, Cells(g) + i)
    {
      PackTurn(g, pk, p, i);
      var e := PackOrder(0)[i];
      var csum, wsum := PackSums(g, pk, v[..], e);
      NoPackSource(g, pk, e);
      max, ts := RelaxNode(g, pk, p, v, Cells(g) + e, 0.0, csum, wsum, max, v0, ts, Cells(g) + i);
    }
  }

  lemma {:induction false} NoPackSource(g: Grid, pk: Pack, e: nat)
    requires Valid(g, pk)
    ensures PackNode(g, pk, e).source == 0.0
  {
    hide RowLinks, ColLinks, RimX, RimY, OuterX, OuterY, RimGround, Inverse, Cells;
  }

  /** One sweep over grid and package. It reports no change exactly when it changed nothing,
      and that is exactly when the field it started from balances every node. */
  method SingleIterationSteadyGrid(g: Grid, pk: Pack, p: seq<real>, v: array<real>) returns (max: real, ghost ts: seq<int -> real>)
    requires Valid(g, pk) && |p| == Cells(g) && v.Length == Cells(g) + EXTRA
    modifies v
    ensures Sweep(Network(g, pk, p), g.ambient, Order(g), ts) && ts[0] == ValuesOf(old(v[..])) && ts[|Order(g)|] == ValuesOf(v[..])
    ensures max >= 0.0 && (max == 0.0 <==> v[..] == old(v[..]))
    ensures max == 0.0 <==> Solved(Network(g, pk, p), g.ambient, ValuesOf(old(v[..])))
  {
    ghost var v0 := v[..];
    hide *;
    max, ts := 0.0, [ValuesOf(v0)];
    NothingSwept(g, pk, p, v0, ts);
    for l := 0 to |g.layers|
      invariant Swept(g, pk, p, v0, v[..], ts, max, Idx(g, l, 0, 0))
    {
      max, ts := SweepLayer(g, pk, p, v, l, max, v0, ts);
    }
    LastIdx(g);
    max, ts := SingleIterationSteadyPack(g, pk, p, v, max, v0, ts);
    AfterSweep(g, pk, p, v0, v[..], ts, max);
  }

  lemma {:induction false} NothingSwept(g: Grid, pk: Pack, p: seq<real>, v: seq<real>, ts: seq<int -> real>)
    requires Valid(g, pk) && |v| == Cells(g) + EXTRA && ts == [ValuesOf(v)]
    ensures Swept(g, pk, p, v, v, ts, 0.0, Idx(g, 0, 0, 0))
  {
    hide Network, Order, Cells, ValuesOf;
    NothingYet(g, pk, p, 0, 0);
    assert Order(g)[..0] == [];
  }

  lemma {:induction false} SameValues(v: seq<real>, w: seq<real>)
    requires |v| == |w|
    ensures Same(ValuesOf(v), ValuesOf(w)) <==> v == w
  {
    if Same(ValuesOf(v), ValuesOf(w)) {
      forall i | 0 <= i < |v| ensures v[i] == w[i] { assert ValuesOf(v)(i) == v[i] && ValuesOf(w)(i) == w[i]; }
    }
  }

  /** No step moved exactly when the whole did not. */
  lemma {:induction false} StillThroughout(net: seq<Node>, ambient: real, order: seq<nat>, ts: seq<int -> real>)
    requires Sweep(net, ambient, order, ts) && NoneTwice(order)
    ensures (forall i | 0 <= i < |order| :: !Moves(ts, i)) <==> Same(ts[0], ts[|order|])
  {
    hide Sweep, NoneTwice, SweepStep;
    SweepLength(net, ambient, order, ts);
    if Same(ts[0], ts[|order|]) {
      forall i: nat | i < |order| ensures !Moves(ts, i) {
        NothingMoved(net, ambient, order, ts, i);
        NothingMoved(net, ambient, order, ts, i + 1);
      }
    }
    if forall i | 0 <= i < |order| :: !Moves(ts, i) {
      StillUpTo(ts, |order|);
    }
  }

  lemma {:induction false} SweepLength(net: seq<Node>, ambient: real, order: seq<nat>, ts: seq<int -> real>)
    requires Sweep(net, ambient, order, ts)
    ensures |ts| == |order| + 1
  {
  }

  lemma {:induction false} StillUpTo(ts: seq<int -> real>, k: nat)
    requires k < |ts| && forall i | 0 <= i < k :: !Moves(ts, i)
    ensures Same(ts[0], ts[k])
  {
    if k > 0 {
      StillUpTo(ts, k - 1);
      assert !Moves(ts, k - 1);
    }
  }

  lemma {:induction false} AfterSweep(g: Grid, pk: Pack, p: seq<real>, v0: seq<real>, v: seq<real>, ts: seq<int -> real>, max: real)
    requires Valid(g, pk) && Swept(g, pk, p, v0, v, ts, max, Cells(g) + EXTRA)
    ensures Sweep(Network(g, pk, p), g.ambient, Order(g), ts) && ts[0] == ValuesOf(v0) && ts[|Order(g)|] == ValuesOf(v)
    ensures max >= 0.0 && (max == 0.0 <==> v == v0)
    ensures max == 0.0 <==> Solved(Network(g, pk, p), g.ambient, ValuesOf(v0))
  {
    hide Network, Order, Cells, ValuesOf, Same, Sweep, Solved, Linked, EachOnce, NoneTwice, Moves;
    OrderIsAll(g);
    assert Order(g)[..Cells(g) + EXTRA] == Order(g);
    SweepLength(Network(g, pk, p), g.ambient, Order(g), ts);
    NetworkLinked(g, pk, p);
    SizeOfNetwork(g, pk, p);
    StillThroughout(Network(g, pk, p), g.ambient, Order(g), ts);
    UnchangedIffSolved(Network(g, pk, p), g.ambient, Order(g), ts);
    SameValues(v0, v);
  }

  lemma {:induction false} SizeOfNetwork(g: Grid, pk: Pack, p: seq<real>)
    requires Valid(g, pk)
    ensures |Network(g, pk, p)| == Cells(g) + EXTRA
  {
  }

  /** The iterative and the direct solver agree: a field is left unchanged by one sweep
      exactly when it satisfies the matrix equation that was assembled separately. */
  lemma {:induction false} UnchangedIffDirectlySolves(g: Grid, pk: Pack, p: seq<real>, ts: seq<int -> real>, t: seq<real>,
                                                      coo: seq<Element>, s: seq<Element>, asub: seq<int>, xa0: seq<int>, xa: seq<int>,
                                                      a: seq<real>, b: seq<real>)
    requires Valid(g, pk) && Complete(g, pk, coo, s, asub, xa0, xa, a) && Sources(g, pk, p, b, Cells(g) + EXTRA)
    requires Sweep(Network(g, pk, p), g.ambient, Order(g), ts) && ts[0] == ValuesOf(t)
    ensures Same(ts[0], ts[|Order(g)|]) <==> DirectlySolves(asub, xa, a, Cells(g) + EXTRA, ValuesOf(t), b)
  {
    hide *;
    OrderIsAll(g);
    NetworkLinked(g, pk, p);
    SizeOfNetwork(g, pk, p);
    UnchangedIffSolved(Network(g, pk, p), g.ambient, Order(g), ts);
    DirectIffBalanced(g, pk, p, coo, s, asub, xa0, xa, a, ValuesOf(t), b);
  }
}
