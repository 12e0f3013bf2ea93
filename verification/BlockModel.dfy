/** The block thermal model: the conductance matrix B assembled from pairwise
    conductances, when it is positive definite, and the steady state it gives. */
module BlockModel {
  import opened Sums
  import opened Numbers
  import opened Lup
  import opened LupSolve

  // four layers per block, twelve package nodes
  const NL := 4
  const IFACE := 1
  const HSP := 2
  const HSINK := 3
  const EXTRA := 12
  const SINK_C_W := 4

  /** Two conductances in series, or none when one of them is missing. */
  function Series(g: real, h: real): real
    requires g >= 0.0 && h >= 0.0
  {
    if g == 0.0 || h == 0.0 then 0.0 else 1.0 / (1.0 / g + 1.0 / h)
  }

  lemma {:induction false} SeriesLaws(g: real, h: real)
    requires g >= 0.0 && h >= 0.0
    ensures Series(g, h) >= 0.0 && Series(g, h) == Series(h, g)
    ensures Series(g, h) > 0.0 <==> g > 0.0 && h > 0.0
  {
    if g > 0.0 && h > 0.0 {
      assert 1.0 / g > 0.0 && 1.0 / h > 0.0;
    }
  }

  /** The conductance from a node to the ambient. */
  ghost function Ambient(gAmb: Vector, n: nat, i: int): real {
    if n > 0 && HSINK * n <= i < NL * n then gAmb(i % n)
    else if i >= NL * n + SINK_C_W then gAmb(n + i - NL * n)
    else 0.0
  }

  /** The conductance between two different nodes. */
  ghost function Link(g: Matrix, i: int, j: int): real
  {
    if i != j && g(i, j) >= 0.0 && g(j, i) >= 0.0 then Series(g(i, j), g(j, i)) else 0.0
  }

  ghost function LinkTerm(g: Matrix, i: int): Vector {
    j => Link(g, i, j)
  }

  ghost predicate Nonnegative(g: Matrix, gAmb: Vector, n: nat, nodes: nat) {
    && nodes == NL * n + EXTRA
    && (forall i, j | 0 <= i < nodes && 0 <= j < nodes :: g(i, j) >= 0.0)
    && (forall i | 0 <= i < n + EXTRA :: gAmb(i) >= 0.0)
    && (forall k | n <= k < n + SINK_C_W :: gAmb(k) == 0.0)
  }

  /** B: minus the links off the diagonal, their sum and the ambient link on it. */
  ghost predicate IsConductance(b: Matrix, g: Matrix, gAmb: Vector, n: nat, nodes: nat) {
    && (forall i, j | 0 <= i < nodes && 0 <= j < nodes && i != j :: b(i, j) == -Link(g, i, j))
    && (forall i | 0 <= i < nodes :: b(i, i) == Ambient(gAmb, n, i) + Sum(LinkTerm(g, i), nodes))
  }

  lemma {:induction false} LinkLaws(g: Matrix, i: int, j: int)
    ensures Link(g, i, j) >= 0.0 && Link(g, i, j) == Link(g, j, i) && Link(g, i, i) == 0.0
  {
    if i != j && g(i, j) >= 0.0 && g(j, i) >= 0.0 { SeriesLaws(g(i, j), g(j, i)); }
  }

  // ---- the assembly ----

  /** Fills B from g and the ambient conductances. */
  method AssembleB(g: array2<real>, gAmb: array<real>, b: array2<real>, n: nat)
    requires g.Length0 == g.Length1 == b.Length0 == b.Length1 == NL * n + EXTRA && b != g
    requires gAmb.Length == n + EXTRA
    requires Nonnegative(Entries(g), Values(gAmb), n, g.Length0)
    modifies b
    ensures IsConductance(Entries(b), Entries(g), Values(gAmb), n, g.Length0)
  {
    OffDiagonal(g, b);
    Diagonal(g, gAmb, b, n);
  }

  method OffDiagonal(g: array2<real>, b: array2<real>)
    requires g.Length0 == g.Length1 == b.Length0 == b.Length1 && b != g
    requires forall i, j | 0 <= i < g.Length0 && 0 <= j < g.Length0 :: g[i, j] >= 0.0
    modifies b
    ensures forall i, j | 0 <= i < g.Length0 && 0 <= j < g.Length0 && i != j :: b[i, j] == -Link(Entries(g), i, j)
  {
    var i, m := 0, g.Length0;
    while i < m
      invariant i <= m
      invariant forall r, c | 0 <= r < i && 0 <= c < i && r != c :: b[r, c] == -Link(Entries(g), r, c)
    {
      OffDiagonalRow(g, b, i);
      i := i + 1;
    }
  }

  /** Row i left of the diagonal, mirrored above it. */
  method OffDiagonalRow(g: array2<real>, b: array2<real>, i: nat)
    requires g.Length0 == g.Length1 == b.Length0 == b.Length1 && b != g && i < g.Length0
    requires forall r, c | 0 <= r < g.Length0 && 0 <= c < g.Length0 :: g[r, c] >= 0.0
    modifies b
    ensures forall r, c | 0 <= r < b.Length0 && 0 <= c < b.Length0 && (r < i && c < i) :: b[r, c] == old(b[r, c])
    ensures forall c | 0 <= c < i :: b[i, c] == -Link(Entries(g), i, c) && b[c, i] == -Link(Entries(g), c, i)
  {
    hide Series;
    var j := 0;
    while j < i
      invariant j <= i
      invariant forall r, c | 0 <= r < b.Length0 && 0 <= c < b.Length0 && (r < i && c < i) :: b[r, c] == old(b[r, c])
      invariant forall c | 0 <= c < j :: b[i, c] == -Link(Entries(g), i, c) && b[c, i] == -Link(Entries(g), c, i)
    {
      SeriesLaws(g[i, j], g[j, i]);
      var v := SeriesOrZero(g[i, j], g[j, i]);
      b[i, j] := v;
      b[j, i] := v;
      j := j + 1;
    }
  }

  method SeriesOrZero(gij: real, gji: real) returns (v: real)
    requires gij >= 0.0 && gji >= 0.0
    ensures v == -Series(gij, gji)
  {
    if gij == 0.0 || gji == 0.0 {
      v := 0.0;
    } else {
      assert 1.0 / gij > 0.0 && 1.0 / gji > 0.0;
      v := -1.0 / (1.0 / gij + 1.0 / gji);
      NegatedQuotient(1.0 / gij + 1.0 / gji);
    }
  }

  lemma {:induction false} NegatedQuotient(d: real)
    requires d != 0.0
    ensures -1.0 / d == -(1.0 / d)
  {
    assert (-1.0 / d) * d == -1.0;
    assert (-(1.0 / d)) * d == -1.0;
  }

  /** The conductance to the ambient starts the diagonal entry of node i. */
  method StartDiagonal(gAmb: array<real>, b: array2<real>, n: nat, i: nat)
    requires i < b.Length0 == b.Length1 == NL * n + EXTRA && gAmb.Length == n + EXTRA
    modifies b
    ensures b[i, i] == Ambient(Values(gAmb), n, i)
    ensures forall r, c | 0 <= r < b.Length0 && 0 <= c < b.Length1 && (r != i || c != i) :: b[r, c] == old(b[r, c])
  {
    if i >= HSINK * n && i < NL * n {
      ModRange(i, n);
      b[i, i] := gAmb[i % n];
    } else if i >= NL * n + SINK_C_W {
      b[i, i] := gAmb[n + i - NL * n];
    } else {
      b[i, i] := 0.0;
    }
  }

  /** Adds the links of node i to its diagonal entry. */
  method AddLinks(g: array2<real>, b: array2<real>, i: nat)
    requires g.Length0 == g.Length1 == b.Length0 == b.Length1 && b != g && i < g.Length0
    requires forall c | 0 <= c < g.Length0 && c != i :: b[i, c] == -Link(Entries(g), i, c)
    modifies b
    ensures b[i, i] == old(b[i, i]) + Sum(LinkTerm(Entries(g), i), g.Length0)
    ensures forall r, c | 0 <= r < b.Length0 && 0 <= c < b.Length1 && (r != i || c != i) :: b[r, c] == old(b[r, c])
  {
    hide Link;
    LinkLaws(Entries(g), i, i);
    var j, m := 0, g.Length0;
    while j < m
      invariant j <= m && b[i, i] == old(b[i, i]) + Sum(LinkTerm(Entries(g), i), j)
      invariant forall r, c | 0 <= r < m && 0 <= c < m && (r != i || c != i) :: b[r, c] == old(b[r, c])
    {
      if i != j {
        b[i, i] := b[i, i] - b[i, j];
      }
      j := j + 1;
    }
  }

  method Diagonal(g: array2<real>, gAmb: array<real>, b: array2<real>, n: nat)
    requires g.Length0 == g.Length1 == b.Length0 == b.Length1 == NL * n + EXTRA && b != g
    requires gAmb.Length == n + EXTRA
    requires forall i, j | 0 <= i < g.Length0 && 0 <= j < g.Length0 && i != j :: b[i, j] == -Link(Entries(g), i, j)
    modifies b
    ensures IsConductance(Entries(b), Entries(g), Values(gAmb), n, g.Length0)
  {
    hide Series, Link, Ambient;
    var i, m := 0, g.Length0;
    while i < m
      invariant i <= m
      invariant forall r, c | 0 <= r < m && 0 <= c < m && r != c :: b[r, c] == -Link(Entries(g), r, c)
      invariant forall r | 0 <= r < i :: b[r, r] == Ambient(Values(gAmb), n, r) + Sum(LinkTerm(Entries(g), r), m)
    {
      StartDiagonal(gAmb, b, n, i);
      AddLinks(g, b, i);
      i := i + 1;
    }
  }

  lemma {:induction false} ModRange(i: nat, n: nat)
    requires n > 0
    ensures 0 <= i % n < n
  {
  }

  // ---- the middle nodes ----

  /** What leaves a node at temperature a over a conductance to one at t. */
  ghost function Half(g: real, a: real, t: real): real {
    Times(g, a - t)
  }

  /** A node between the two halves that draws no power passes on what it gets; the flow is
      then that of the halves in series, and some temperature of the node allows it. */
  lemma {:induction false} SeriesFlow(g: real, h: real, a: real, c: real)
    requires g > 0.0 && h > 0.0
    ensures forall t :: Half(g, a, t) == Half(h, t, c) ==> Half(g, a, t) == Times(Series(g, h), a - c)
    ensures exists t :: Half(g, a, t) == Half(h, t, c)
  {
    forall t ensures Half(g, a, t) == Half(h, t, c) ==> Half(g, a, t) == Times(Series(g, h), a - c) {
      if Half(g, a, t) == Half(h, t, c) { FlowThrough(g, h, a, t, c); }
    }
    var t := (g * a + h * c) / (g + h);
    assert (g + h) * t == g * a + h * c;
    assert Half(g, a, t) == Half(h, t, c);
  }

  lemma {:induction false} FlowThrough(g: real, h: real, a: real, t: real, c: real)
    requires g > 0.0 && h > 0.0 && Half(g, a, t) == Half(h, t, c)
    ensures Half(g, a, t) == Times(Series(g, h), a - c)
  {
    var q, u, v := Half(g, a, t), 1.0 / g, 1.0 / h;
    assert u > 0.0 && v > 0.0 && u * q == a - t by { assert g * u == 1.0; assert u * q == (g * u) * (a - t); }
    assert v * q == t - c by { assert h * v == 1.0; assert v * q == (h * v) * (t - c); }
    var s := 1.0 / (u + v);
    assert (u + v) * q == a - c && s * (u + v) == 1.0;
    assert s * (a - c) == (s * (u + v)) * q;
  }

  /** Between any two nodes i and j with both halves there is a middle node that draws no power,
      and its temperature m(i, j) makes what it gets from one half leave by the other. */
  ghost predicate Middles(g: Matrix, x: Vector, m: Matrix, nodes: nat) {
    forall i, j | 0 <= i < nodes && 0 <= j < nodes && i != j && g(i, j) > 0.0 && g(j, i) > 0.0 ::
      m(i, j) == m(j, i) && Half(g(i, j), x(i), m(i, j)) == Half(g(j, i), m(i, j), x(j))
  }

  /** What node i loses over its own half towards j; nothing where a half is missing. */
  ghost function HalfFlow(g: Matrix, x: Vector, m: Matrix, i: int): Vector {
    j => if i != j && g(i, j) != 0.0 && g(j, i) != 0.0 then Half(g(i, j), x(i), m(i, j)) else 0.0
  }

  /** B is what is left when the middle nodes are eliminated: with them at rest, a row of B
      times the temperatures is what the node loses to the ambient and over its own halves. */
  lemma {:induction false} MiddlesEliminated(b: Matrix, g: Matrix, gAmb: Vector, n: nat, nodes: nat, x: Vector, m: Matrix, i: nat)
    requires Nonnegative(g, gAmb, n, nodes) && IsConductance(b, g, gAmb, n, nodes)
    requires Middles(g, x, m, nodes) && i < nodes
    ensures Applied(b, i, x, nodes) == Times(Ambient(gAmb, n, i), x(i)) + Sum(HalfFlow(g, x, m, i), nodes)
    ensures forall j | 0 <= j < nodes && j != i :: HalfFlow(g, x, m, i)(j) == Times(-b(i, j), x(i) - x(j))
  {
    hide Times, Ambient, Link, Half, Middles, Flow, HalfFlow, Sum, Applied, LinkTerm, IsConductance;
    RowForm(b, g, gAmb, n, nodes, i, x);
    forall j | 0 <= j < nodes ensures HalfFlow(g, x, m, i)(j) == Flow(g, i, x)(j) { HalfFlowIs(g, x, m, nodes, i, j); }
    forall j | 0 <= j < nodes && j != i ensures HalfFlow(g, x, m, i)(j) == Times(-b(i, j), x(i) - x(j)) {
      HalfFlowIs(g, x, m, nodes, i, j);
      OffDiagonalIs(b, g, gAmb, n, nodes, i, j);
    }
    SumSame(HalfFlow(g, x, m, i), Flow(g, i, x), nodes);
  }

  lemma {:induction false} OffDiagonalIs(b: Matrix, g: Matrix, gAmb: Vector, n: nat, nodes: nat, i: nat, j: nat)
    requires IsConductance(b, g, gAmb, n, nodes) && i < nodes && j < nodes && i != j
    ensures b(i, j) == -Link(g, i, j)
  {
  }

  lemma {:induction false} HalfFlowIs(g: Matrix, x: Vector, m: Matrix, nodes: nat, i: nat, j: nat)
    requires i < nodes && j < nodes && g(i, j) >= 0.0 && g(j, i) >= 0.0 && Middles(g, x, m, nodes)
    ensures HalfFlow(g, x, m, i)(j) == Flow(g, i, x)(j) == Times(Link(g, i, j), x(i) - x(j))
  {
    hide Series;
    if i != j { SeriesLaws(g(i, j), g(j, i)); }
    if i != j && g(i, j) > 0.0 && g(j, i) > 0.0 { SeriesFlow(g(i, j), g(j, i), x(i), x(j)); }
    assert Times(0.0, x(i) - x(j)) == 0.0;
    hide Half, Times;
  }

  /** Whatever the temperatures, the middle nodes can be at rest. */
  lemma {:induction false} MiddlesExist(g: Matrix, x: Vector, nodes: nat) returns (m: Matrix)
    ensures Middles(g, x, m, nodes)
  {
    m := (i, j) => if g(i, j) > 0.0 && g(j, i) > 0.0 then (g(i, j) * x(i) + g(j, i) * x(j)) / (g(i, j) + g(j, i)) else 0.0;
    forall i, j | 0 <= i < nodes && 0 <= j < nodes && i != j && g(i, j) > 0.0 && g(j, i) > 0.0
      ensures m(i, j) == m(j, i) && Half(g(i, j), x(i), m(i, j)) == Half(g(j, i), m(i, j), x(j)) {
      WeightedMiddle(g(i, j), g(j, i), x(i), x(j));
    }
  }

  lemma {:induction false} WeightedMiddle(g: real, h: real, a: real, c: real)
    requires g > 0.0 && h > 0.0
    ensures (g * a + h * c) / (g + h) == (h * c + g * a) / (h + g)
    ensures Half(g, a, (g * a + h * c) / (g + h)) == Half(h, (g * a + h * c) / (g + h), c)
  {
    var t := (g * a + h * c) / (g + h);
    assert (g + h) * t == g * a + h * c;
  }

  /** Only the heat sink's blocks, its rim nodes and the outer nodes are linked to the ambient,
      each over its own entry: block k over entry k, package node e over entry n + e. */
  lemma {:induction false} AmbientOf(gAmb: Vector, n: nat, l: nat, k: nat, e: nat)
    requires l < NL && k < n && e < EXTRA
    ensures Ambient(gAmb, n, l * n + k) == if l == HSINK then gAmb(k) else 0.0
    ensures Ambient(gAmb, n, NL * n + e) == if e < SINK_C_W then 0.0 else gAmb(n + e)
  {
    SinkIndex(n, k);
    assert l == 0 || l == 1 || l == 2 || l == HSINK;
  }

  lemma {:induction false} SinkIndex(n: nat, k: nat)
    requires k < n
    ensures HSINK * n <= HSINK * n + k < NL * n && (HSINK * n + k) % n == k
  {
  }

  // ---- the quadratic form ----

  ghost function Flow(g: Matrix, i: int, x: Vector): Vector {
    j => Times(Link(g, i, j), x(i) - x(j))
  }

  /** A row of B: what leaves the node to the ambient and to the other nodes. */
  lemma {:induction false} RowForm(b: Matrix, g: Matrix, gAmb: Vector, n: nat, nodes: nat, i: nat, x: Vector)
    requires IsConductance(b, g, gAmb, n, nodes) && i < nodes
    ensures Applied(b, i, x, nodes) == Times(Ambient(gAmb, n, i), x(i)) + Sum(Flow(g, i, x), nodes)
  {
    hide Times, Ambient, Link;
    var d: Vector := j => if j == i then Times(b(i, i), x(i)) else 0.0;
    var e: Vector := j => Times(-x(j), Link(g, i, j));
    forall j | 0 <= j < nodes ensures RowTerm(b, i, x)(j) == d(j) + e(j) {
      LinkLaws(g, i, j);
      NegatedTimes(Link(g, i, j), x(j));
      TimesLaws(-x(j), 0.0, 0.0);
    }
    SumOne(d, nodes, i);
    SumAdd(d, e, RowTerm(b, i, x), nodes);
    var f: Vector := j => Times(x(i), LinkTerm(g, i)(j));
    SumScale(LinkTerm(g, i), x(i), f, nodes);
    forall j | 0 <= j < nodes ensures Flow(g, i, x)(j) == f(j) + e(j) {
      TimesLaws(Link(g, i, j), x(i), x(j));
      TimesLaws(x(i), Link(g, i, j), 0.0);
      NegatedTimes(Link(g, i, j), x(j));
      TimesLaws(-x(j), Link(g, i, j), 0.0);
    }
    SumAdd(f, e, Flow(g, i, x), nodes);
    TimesLaws(x(i), Ambient(gAmb, n, i), Sum(LinkTerm(g, i), nodes));
    TimesLaws(b(i, i), x(i), 0.0);
    TimesLaws(Ambient(gAmb, n, i), x(i), 0.0);
  }

  lemma {:induction false} NegatedTimes(a: real, b: real)
    ensures Times(-a, b) == -Times(a, b) == Times(-b, a)
  {
  }

  ghost function QuadraticTerm(b: Matrix, x: Vector, nodes: nat): Vector {
    i => Times(x(i), Applied(b, i, x, nodes))
  }

  /** x transposed times B times x. */
  ghost function Quadratic(b: Matrix, x: Vector, nodes: nat): real {
    Sum(QuadraticTerm(b, x, nodes), nodes)
  }

  /** What the link between i and j dissipates. */
  ghost function Dissipated(g: Matrix, x: Vector): Matrix {
    (i, j) => Times(Link(g, i, j), Times(x(i) - x(j), x(i) - x(j)))
  }

  ghost function BelowDiagonal(s: Matrix): Vector {
    i => if i >= 0 then Sum(j => s(i, j), i) else 0.0
  }

  ghost function AmbientTerm(gAmb: Vector, n: nat, x: Vector): Vector {
    i => Times(Ambient(gAmb, n, i), Times(x(i), x(i)))
  }

  /** The power dissipated in all links i > j and in the links to the ambient. */
  ghost function Dissipation(g: Matrix, gAmb: Vector, n: nat, nodes: nat, x: Vector): real {
    Sum(BelowDiagonal(Dissipated(g, x)), nodes) + Sum(AmbientTerm(gAmb, n, x), nodes)
  }

  ghost predicate SymmetricZero(s: Matrix) {
    forall i, j :: s(i, j) == s(j, i) && s(i, i) == 0.0
  }

  /** A symmetric double sum counts every pair twice. */
  lemma {:induction false} SymmetricSum(s: Matrix, n: nat)
    requires SymmetricZero(s)
    ensures Sum(RowSum(s, n), n) == 2.0 * Sum(BelowDiagonal(s), n)
  {
    hide Sum, RowSum, BelowDiagonal;
    if n > 0 {
      SymmetricSum(s, n - 1);
      var c: Vector := i => s(i, n - 1);
      var d: Vector := j => s(n - 1, j);
      LastColumn(s, c, n);
      SumSame(c, d, n - 1);
      LastRow(s, d, n);
      SumNext(RowSum(s, n), n);
      SumNext(BelowDiagonal(s), n);
    } else {
      SumZero(RowSum(s, 0), 0);
      SumZero(BelowDiagonal(s), 0);
    }
  }

  lemma {:induction false} SumNext(f: Vector, n: nat)
    requires n > 0
    ensures Sum(f, n) == Sum(f, n - 1) + f(n - 1)
  {
  }

  /** One column more in every row. */
  lemma {:induction false} LastColumn(s: Matrix, c: Vector, n: nat)
    requires n > 0 && forall i | 0 <= i < n :: c(i) == s(i, n - 1)
    ensures Sum(RowSum(s, n), n - 1) == Sum(RowSum(s, n - 1), n - 1) + Sum(c, n - 1)
  {
    forall i | 0 <= i < n ensures RowSum(s, n)(i) == RowSum(s, n - 1)(i) + c(i) {
      var f: Vector := j => s(i, j);
      RowSumIs(s, i, f, n);
      RowSumIs(s, i, f, n - 1);
      SumNext(f, n);
    }
    hide RowSum;
    SumAdd(RowSum(s, n - 1), c, RowSum(s, n), n - 1);
  }

  lemma {:induction false} LastRow(s: Matrix, d: Vector, n: nat)
    requires n > 0 && SymmetricZero(s) && forall j | 0 <= j < n :: d(j) == s(n - 1, j)
    ensures BelowDiagonal(s)(n - 1) == RowSum(s, n)(n - 1) == Sum(d, n - 1)
  {
    SumSame(j => s(n - 1, j), d, n - 1);
    RowSumIs(s, n - 1, d, n);
    assert Sum(d, n) == Sum(d, n - 1) + d(n - 1);
    hide Sum, RowSum;
  }

  ghost function Weighted(g: Matrix, x: Vector): Matrix {
    (i, j) => Times(x(i), Times(Link(g, i, j), x(i) - x(j)))
  }

  lemma {:induction false} WeightedPair(g: Matrix, x: Vector, i: int, j: int)
    ensures Weighted(g, x)(i, j) + Weighted(g, x)(j, i) == Dissipated(g, x)(i, j)
    ensures Dissipated(g, x)(i, j) == Dissipated(g, x)(j, i) && Dissipated(g, x)(i, i) == 0.0
  {
    LinkLaws(g, i, j);
    var l, a, b := Link(g, i, j), x(i), x(j);
    assert a * (l * (a - b)) + b * (l * (b - a)) == l * ((a - b) * (a - b));
    assert (a - b) * (a - b) == (b - a) * (b - a);
  }

  /** Twice the weighted flows is the dissipation counted over ordered pairs. */
  lemma {:induction false} WeightedFlows(g: Matrix, x: Vector, nodes: nat)
    ensures Sum(RowSum(Weighted(g, x), nodes), nodes) == Sum(BelowDiagonal(Dissipated(g, x)), nodes)
  {
    hide Weighted, Dissipated;
    var h, s := Weighted(g, x), Dissipated(g, x);
    SumSwap(h, nodes, nodes);
    forall i | 0 <= i < nodes ensures RowSum(s, nodes)(i) == RowSum(h, nodes)(i) + ColumnSum(h, nodes)(i) {
      forall j | 0 <= j < nodes ensures s(i, j) == h(i, j) + h(j, i) { WeightedPair(g, x, i, j); }
      SumAdd(j => h(i, j), j => h(j, i), j => s(i, j), nodes);
    }
    SumAdd(RowSum(h, nodes), ColumnSum(h, nodes), RowSum(s, nodes), nodes);
    forall i, j ensures s(i, j) == s(j, i) && s(i, i) == 0.0 { WeightedPair(g, x, i, j); }
    SymmetricSum(s, nodes);
  }

  /** The identity behind the positive definiteness of B: the quadratic form is the
      total power dissipated in the conductances. */
  lemma {:induction false} QuadraticIsDissipation(b: Matrix, g: Matrix, gAmb: Vector, n: nat, nodes: nat, x: Vector)
    requires IsConductance(b, g, gAmb, n, nodes)
    ensures Quadratic(b, x, nodes) == Dissipation(g, gAmb, n, nodes, x)
  {
    hide Times, Ambient, Link, Applied;
    var h := Weighted(g, x);
    forall i | 0 <= i < nodes
      ensures QuadraticTerm(b, x, nodes)(i) == AmbientTerm(gAmb, n, x)(i) + RowSum(h, nodes)(i) {
      RowForm(b, g, gAmb, n, nodes, i, x);
      var f: Vector := j => h(i, j);
      SumScale(Flow(g, i, x), x(i), f, nodes);
      TimesLaws(x(i), Times(Ambient(gAmb, n, i), x(i)), Sum(Flow(g, i, x), nodes));
      TimesLaws(Ambient(gAmb, n, i), x(i), x(i));
      TimesLaws(x(i), Times(Ambient(gAmb, n, i), x(i)), 0.0);
    }
    SumAdd(AmbientTerm(gAmb, n, x), RowSum(h, nodes), QuadraticTerm(b, x, nodes), nodes);
    WeightedFlows(g, x, nodes);
  }

  // ---- when B is positive definite ----

  lemma {:induction false} AmbientNonnegative(g: Matrix, gAmb: Vector, n: nat, nodes: nat, i: nat)
    requires Nonnegative(g, gAmb, n, nodes) && i < nodes
    ensures Ambient(gAmb, n, i) >= 0.0
  {
    if n > 0 { ModRange(i, n); }
  }

  lemma {:induction false} WeightedSquare(a: real, d: real)
    requires a >= 0.0
    ensures Times(a, Times(d, d)) >= 0.0
    ensures Times(a, Times(d, d)) == 0.0 <==> a == 0.0 || d == 0.0
  {
    SquarePositive(d);
    TimesLaws(a, 0.0, 0.0);
    TimesLaws(0.0, Times(d, d), 0.0);
    if a > 0.0 && d != 0.0 { ProductPositive(a, Times(d, d)); }
  }

  lemma {:induction false} RowNonnegative(s: Matrix, i: nat, j: nat)
    requires forall k: nat | k < i :: s(i, k) >= 0.0
    ensures BelowDiagonal(s)(i) >= 0.0 && (j < i ==> BelowDiagonal(s)(i) >= s(i, j))
  {
    var f: Vector := k => s(i, k);
    SumNonnegative(f, i);
    assert j < i ==> Sum(f, i) >= f(j);
  }

  /** Dissipation is never negative, and zero only if every part of it is. */
  lemma {:induction false} DissipationParts(g: Matrix, gAmb: Vector, n: nat, nodes: nat, x: Vector)
    requires Nonnegative(g, gAmb, n, nodes)
    ensures Dissipation(g, gAmb, n, nodes, x) >= 0.0
    ensures Dissipation(g, gAmb, n, nodes, x) == 0.0 <==>
      (forall i: nat, j: nat | i < nodes && j < i :: Dissipated(g, x)(i, j) == 0.0)
      && (forall i: nat | i < nodes :: AmbientTerm(gAmb, n, x)(i) == 0.0)
  {
    hide Ambient, Link, Times, Nonnegative;
    var s, a := Dissipated(g, x), AmbientTerm(gAmb, n, x);
    forall i: nat, j: nat ensures s(i, j) >= 0.0 {
      LinkLaws(g, i, j);
      WeightedSquare(Link(g, i, j), x(i) - x(j));
    }
    forall i: nat | i < nodes ensures a(i) >= 0.0 {
      AmbientNonnegative(g, gAmb, n, nodes, i);
      WeightedSquare(Ambient(gAmb, n, i), x(i));
    }
    SumNonnegative(a, nodes);
    forall i: nat ensures BelowDiagonal(s)(i) >= 0.0 { RowNonnegative(s, i, 0); }
    forall i: nat, j: nat | j < i ensures BelowDiagonal(s)(i) >= s(i, j) { RowNonnegative(s, i, j); }
    SumNonnegative(BelowDiagonal(s), nodes);
    if (forall i: nat, j: nat | i < nodes && j < i :: s(i, j) == 0.0) && forall i: nat | i < nodes :: a(i) == 0.0 {
      SumZero(a, nodes);
      forall i: nat | i < nodes ensures BelowDiagonal(s)(i) == 0.0 { SumZero(j => s(i, j), i); }
      SumZero(BelowDiagonal(s), nodes);
    }
  }

  /** A chain of conducting nodes that ends at one linked to the ambient. */
  ghost predicate Conducts(g: Matrix, gAmb: Vector, n: nat, nodes: nat, path: seq<int>) {
    && |path| >= 1
    && (forall k | 0 <= k < |path| :: 0 <= path[k] < nodes)
    && if |path| == 1 then Ambient(gAmb, n, path[0]) > 0.0
       else Link(g, path[0], path[1]) > 0.0 && Conducts(g, gAmb, n, nodes, path[1..])
  }

  ghost predicate Linked(g: Matrix, gAmb: Vector, n: nat, nodes: nat, i: int) {
    exists path: seq<int> :: Conducts(g, gAmb, n, nodes, path) && path[0] == i
  }

  ghost predicate AllLinked(g: Matrix, gAmb: Vector, n: nat, nodes: nat) {
    forall i | 0 <= i < nodes :: Linked(g, gAmb, n, nodes, i)
  }

  ghost predicate Nonzero(x: Vector, nodes: nat) {
    exists i :: 0 <= i < nodes && x(i) != 0.0
  }

  ghost predicate PositiveDefinite(b: Matrix, nodes: nat) {
    forall x: Vector :: Nonzero(x, nodes) ==> Quadratic(b, x, nodes) > 0.0
  }

  /** Zero dissipation makes x vanish along every chain to the ambient. */
  lemma {:induction false} VanishesAlong(g: Matrix, gAmb: Vector, n: nat, nodes: nat, x: Vector, path: seq<int>)
    requires Nonnegative(g, gAmb, n, nodes) && Conducts(g, gAmb, n, nodes, path)
    requires Dissipation(g, gAmb, n, nodes, x) == 0.0
    ensures x(path[0]) == 0.0
    decreases |path|
  {
    DissipationParts(g, gAmb, n, nodes, x);
    hide Ambient, Link, Times, Dissipation, Nonnegative;
    if |path| == 1 {
      AmbientDissipates(gAmb, n, x, path[0]);
    } else {
      VanishesAlong(g, gAmb, n, nodes, x, path[1..]);
      LinkDissipates(g, x, path[0], path[1]);
    }
  }

  lemma {:induction false} AmbientDissipates(gAmb: Vector, n: nat, x: Vector, i: int)
    requires Ambient(gAmb, n, i) > 0.0 && AmbientTerm(gAmb, n, x)(i) == 0.0
    ensures x(i) == 0.0
  {
    hide Ambient, Times;
    WeightedSquare(Ambient(gAmb, n, i), x(i));
  }

  lemma {:induction false} LinkDissipates(g: Matrix, x: Vector, i: nat, j: nat)
    requires Link(g, i, j) > 0.0
    requires (j < i ==> Dissipated(g, x)(i, j) == 0.0) && (i < j ==> Dissipated(g, x)(j, i) == 0.0)
    ensures x(i) == x(j)
  {
    LinkLaws(g, i, j);
    WeightedPair(g, x, j, i);
    hide Link, Times;
    WeightedSquare(Link(g, i, j), x(i) - x(j));
  }

  ghost function Unlinked(g: Matrix, gAmb: Vector, n: nat, nodes: nat): Vector {
    i => if Linked(g, gAmb, n, nodes, i) then 0.0 else 1.0
  }

  /** Current cannot leave the set of nodes that no chain links to the ambient. */
  lemma {:induction false} UnlinkedDissipatesNothing(g: Matrix, gAmb: Vector, n: nat, nodes: nat)
    requires Nonnegative(g, gAmb, n, nodes)
    ensures Dissipation(g, gAmb, n, nodes, Unlinked(g, gAmb, n, nodes)) == 0.0
  {
    hide Nonnegative, Times, Ambient, Link;
    var x := Unlinked(g, gAmb, n, nodes);
    forall i: nat, j: nat | i < nodes && j < i ensures Dissipated(g, x)(i, j) == 0.0 {
      LinkLaws(g, i, j);
      WeightedSquare(Link(g, i, j), x(i) - x(j));
      if Link(g, i, j) > 0.0 {
        if Linked(g, gAmb, n, nodes, j) { LinkedAcross(g, gAmb, n, nodes, i, j); }
        if Linked(g, gAmb, n, nodes, i) { LinkedAcross(g, gAmb, n, nodes, j, i); }
      }
    }
    forall i: nat | i < nodes ensures AmbientTerm(gAmb, n, x)(i) == 0.0 {
      AmbientNonnegative(g, gAmb, n, nodes, i);
      WeightedSquare(Ambient(gAmb, n, i), x(i));
      if Ambient(gAmb, n, i) > 0.0 {
        assert Conducts(g, gAmb, n, nodes, [i]) && [i][0] == i;
      }
    }
    DissipationParts(g, gAmb, n, nodes, x);
  }

  lemma {:induction false} LinkedAcross(g: Matrix, gAmb: Vector, n: nat, nodes: nat, i: nat, j: nat)
    requires i < nodes && j < nodes && Link(g, i, j) > 0.0 && Linked(g, gAmb, n, nodes, j)
    ensures Linked(g, gAmb, n, nodes, i)
  {
    var path: seq<int> :| Conducts(g, gAmb, n, nodes, path) && path[0] == j;
    var longer := [i] + path;
    assert longer[1..] == path;
    assert Conducts(g, gAmb, n, nodes, longer) && longer[0] == i;
  }

  /** The comment's claim made exact: B is positive definite if and only if every node
      is linked to the ambient by some chain of conductances. */
  lemma {:induction false} PositiveDefiniteIffLinked(b: Matrix, g: Matrix, gAmb: Vector, n: nat, nodes: nat)
    requires Nonnegative(g, gAmb, n, nodes) && IsConductance(b, g, gAmb, n, nodes)
    ensures PositiveDefinite(b, nodes) <==> AllLinked(g, gAmb, n, nodes)
  {
    hide Nonnegative, IsConductance, Dissipation, Quadratic;
    if AllLinked(g, gAmb, n, nodes) {
      forall x: Vector | Nonzero(x, nodes) ensures Quadratic(b, x, nodes) > 0.0 {
        QuadraticIsDissipation(b, g, gAmb, n, nodes, x);
        DissipationParts(g, gAmb, n, nodes, x);
        var i :| 0 <= i < nodes && x(i) != 0.0;
        if Dissipation(g, gAmb, n, nodes, x) == 0.0 {
          assert Linked(g, gAmb, n, nodes, i);
          var path: seq<int> :| Conducts(g, gAmb, n, nodes, path) && path[0] == i;
          VanishesAlong(g, gAmb, n, nodes, x, path);
          assert false;
        }
      }
    }
    if PositiveDefinite(b, nodes) {
      var x := Unlinked(g, gAmb, n, nodes);
      UnlinkedDissipatesNothing(g, gAmb, n, nodes);
      QuadraticIsDissipation(b, g, gAmb, n, nodes, x);
      assert !Nonzero(x, nodes);
      forall i | 0 <= i < nodes ensures Linked(g, gAmb, n, nodes, i) { assert x(i) == 0.0; }
    }
  }

  ghost function Ones(): Vector {
    i => 1.0
  }

  lemma {:induction false} NoAmbient(n: nat, i: int)
    ensures Ambient(Zero(), n, i) == 0.0
  {
  }

  lemma {:induction false} OnesDissipateNothing(g: Matrix, n: nat, nodes: nat)
    requires Nonnegative(g, Zero(), n, nodes)
    ensures Dissipation(g, Zero(), n, nodes, Ones()) == 0.0
  {
    hide Nonnegative, Dissipation, Link, Times, Ambient;
    forall i: nat, j: nat | i < nodes && j < i ensures Dissipated(g, Ones())(i, j) == 0.0 {
      LinkLaws(g, i, j);
      WeightedSquare(Link(g, i, j), 0.0);
    }
    forall i: nat | i < nodes ensures AmbientTerm(Zero(), n, Ones())(i) == 0.0 {
      NoAmbient(n, i);
      WeightedSquare(0.0, 1.0);
    }
    DissipationParts(g, Zero(), n, nodes, Ones());
  }

  /** Without any conductance to the ambient a uniform field dissipates nothing, whatever
      the links between the nodes are. */
  lemma {:induction false} FloatingExample(b: Matrix, g: Matrix, n: nat, nodes: nat)
    requires Nonnegative(g, Zero(), n, nodes) && IsConductance(b, g, Zero(), n, nodes)
    ensures Nonzero(Ones(), nodes) && Quadratic(b, Ones(), nodes) == 0.0 && !PositiveDefinite(b, nodes)
  {
    assert nodes > 0 && Ones()(0) == 1.0;
    hide IsConductance, Quadratic, Dissipation, Nonnegative;
    QuadraticIsDissipation(b, g, Zero(), n, nodes, Ones());
    OnesDissipateNothing(g, n, nodes);
  }

  /** B is always symmetric and positive semidefinite. */
  lemma {:induction false} SymmetricSemidefinite(b: Matrix, g: Matrix, gAmb: Vector, n: nat, nodes: nat, x: Vector, i: nat, j: nat)
    requires Nonnegative(g, gAmb, n, nodes) && IsConductance(b, g, gAmb, n, nodes) && i < nodes && j < nodes
    ensures b(i, j) == b(j, i) && Quadratic(b, x, nodes) >= 0.0
  {
    LinkLaws(g, i, j);
    QuadraticIsDissipation(b, g, gAmb, n, nodes, x);
    DissipationParts(g, gAmb, n, nodes, x);
  }

  // ---- the steady state ----

  /** The right-hand side: block power, and the ambient's share at the linked nodes. */
  ghost function Injected(power: Vector, gAmb: Vector, n: nat, ambient: real): Vector {
    i => power(i) + Times(Ambient(gAmb, n, i), ambient)
  }

  /** With no block power the uniform ambient temperature is a solution. */
  lemma {:induction false} AmbientIsSteady(b: Matrix, g: Matrix, gAmb: Vector, n: nat, nodes: nat, ambient: real)
    requires IsConductance(b, g, gAmb, n, nodes)
    ensures Solves(b, i => ambient, Injected(Zero(), gAmb, n, ambient), nodes)
  {
    var t: Vector := i => ambient;
    forall i: nat | i < nodes ensures Applied(b, i, t, nodes) == Injected(Zero(), gAmb, n, ambient)(i) {
      RowForm(b, g, gAmb, n, nodes, i, t);
      forall j | 0 <= j < nodes ensures Flow(g, i, t)(j) == 0.0 { TimesLaws(Link(g, i, j), 0.0, 0.0); }
      SumZero(Flow(g, i, t), nodes);
    }
  }

  ghost predicate Coldest(t: Vector, nodes: nat, i: int) {
    0 <= i < nodes && forall j | 0 <= j < nodes :: t(i) <= t(j)
  }

  lemma {:induction false} SomeColdest(t: Vector, nodes: nat) returns (i: nat)
    requires nodes > 0
    ensures Coldest(t, nodes, i)
  {
    if nodes == 1 {
      i := 0;
    } else {
      i := SomeColdest(t, nodes - 1);
      if t(nodes - 1) < t(i) { i := nodes - 1; }
    }
  }

  lemma {:induction false} TimesSign(a: real, d: real)
    requires a >= 0.0 && d <= 0.0
    ensures Times(a, d) <= 0.0 && (Times(a, d) == 0.0 ==> a == 0.0 || d == 0.0)
  {
  }

  /** A coldest node below ambient has no ambient link and its neighbours are as cold. */
  lemma {:induction false} ColdSpreads(b: Matrix, g: Matrix, gAmb: Vector, n: nat, nodes: nat, power: Vector, ambient: real, t: Vector, i: nat)
    requires Nonnegative(g, gAmb, n, nodes) && IsConductance(b, g, gAmb, n, nodes)
    requires Solves(b, t, Injected(power, gAmb, n, ambient), nodes)
    requires Coldest(t, nodes, i) && t(i) < ambient && power(i) >= 0.0
    ensures Ambient(gAmb, n, i) == 0.0
    ensures forall j | 0 <= j < nodes && Link(g, i, j) > 0.0 :: t(j) == t(i)
  {
    hide Times, Ambient, Link, Nonnegative, IsConductance;
    RowForm(b, g, gAmb, n, nodes, i, t);
    AmbientNonnegative(g, gAmb, n, nodes, i);
    TimesLaws(Ambient(gAmb, n, i), t(i), ambient);
    TimesSign(Ambient(gAmb, n, i), t(i) - ambient);
    var f: Vector := j => -Flow(g, i, t)(j);
    forall j | 0 <= j < nodes ensures f(j) >= 0.0 {
      LinkLaws(g, i, j);
      TimesSign(Link(g, i, j), t(i) - t(j));
    }
    SumNonnegative(f, nodes);
    SumAdd(f, Flow(g, i, t), j => 0.0, nodes);
    SumZero(j => 0.0, nodes);
    forall j | 0 <= j < nodes && Link(g, i, j) > 0.0 ensures t(j) == t(i) {
      assert f(j) == 0.0;
      TimesSign(Link(g, i, j), t(i) - t(j));
    }
  }

  lemma {:induction false} ColdAlong(b: Matrix, g: Matrix, gAmb: Vector, n: nat, nodes: nat, power: Vector, ambient: real, t: Vector, path: seq<int>)
    requires Nonnegative(g, gAmb, n, nodes) && IsConductance(b, g, gAmb, n, nodes)
    requires Solves(b, t, Injected(power, gAmb, n, ambient), nodes)
    requires forall i | 0 <= i < nodes :: power(i) >= 0.0
    requires Conducts(g, gAmb, n, nodes, path) && Coldest(t, nodes, path[0])
    ensures t(path[0]) >= ambient
    decreases |path|
  {
    if t(path[0]) < ambient {
      ColdSpreads(b, g, gAmb, n, nodes, power, ambient, t, path[0]);
      hide *;
      if |path| > 1 {
        assert Conducts(g, gAmb, n, nodes, path[1..]);
        ColdAlong(b, g, gAmb, n, nodes, power, ambient, t, path[1..]);
      }
    }
  }

  /** Nonnegative block power keeps every node at or above the ambient temperature. */
  lemma {:induction false} NowhereBelowAmbient(b: Matrix, g: Matrix, gAmb: Vector, n: nat, nodes: nat, power: Vector, ambient: real, t: Vector)
    requires Nonnegative(g, gAmb, n, nodes) && IsConductance(b, g, gAmb, n, nodes) && AllLinked(g, gAmb, n, nodes)
    requires Solves(b, t, Injected(power, gAmb, n, ambient), nodes)
    requires forall i | 0 <= i < nodes :: power(i) >= 0.0
    ensures forall i | 0 <= i < nodes :: t(i) >= ambient
  {
    var i := SomeColdest(t, nodes);
    hide IsConductance, Nonnegative, Solves;
    assert Linked(g, gAmb, n, nodes, i);
    var path: seq<int> :| Conducts(g, gAmb, n, nodes, path) && path[0] == i;
    ColdAlong(b, g, gAmb, n, nodes, power, ambient, t, path);
  }

  /** A positive definite matrix is nonsingular, so a decomposition that returns has
      only nonzero pivots. */
  lemma {:induction false} LinkedPivots(b: Matrix, g: Matrix, gAmb: Vector, n: nat, nodes: nat, lu: Matrix, p: seq<int>)
    requires Nonnegative(g, gAmb, n, nodes) && IsConductance(b, g, gAmb, n, nodes) && AllLinked(g, gAmb, n, nodes)
    requires Permutation(p, nodes) && Factored(b, lu, p, nodes, nodes - 1)
    ensures PivotsNonzero(lu, nodes)
  {
    PositiveDefiniteIffLinked(b, g, gAmb, n, nodes);
    forall d: Vector | Solves(b, d, Zero(), nodes) ensures forall i: nat | i < nodes :: d(i) == 0.0 {
      forall i: nat | i < nodes ensures QuadraticTerm(b, d, nodes)(i) == 0.0 {
        assert Applied(b, i, d, nodes) == 0.0;
        TimesLaws(d(i), 0.0, 0.0);
      }
      SumZero(QuadraticTerm(b, d, nodes), nodes);
      assert !Nonzero(d, nodes);
    }
    assert Nonsingular(b, nodes);
    NonsingularIffLastPivot(b, lu, p, nodes);
    forall i: nat | i < nodes ensures lu(i, i) != 0.0 {
      assert i < nodes - 1 ==> Abs(lu(i, i)) >= DELTA;
    }
  }

  ghost function BlocksOnly(power: Vector, n: nat): Vector {
    i => if i < n then power(i) else 0.0
  }

  method ZeroRange(power: array<real>, start: nat, count: nat)
    requires start + count <= power.Length
    modifies power
    ensures forall i | 0 <= i < power.Length :: power[i] == if start <= i < start + count then 0.0 else old(power[i])
  {
    var i := 0;
    while i < count
      invariant i <= count
      invariant forall k | 0 <= k < power.Length :: power[k] == if start <= k < start + i then 0.0 else old(power[k])
    {
      power[start + i] := 0.0;
      i := i + 1;
    }
  }

  /** Sets the power of every node that is not a silicon block. */
  method SetInternalPower(power: array<real>, gAmb: array<real>, n: nat, ambient: real)
    requires power.Length == NL * n + EXTRA && gAmb.Length == n + EXTRA && power != gAmb
    requires forall k | n <= k < n + SINK_C_W :: gAmb[k] == 0.0
    modifies power
    ensures forall i | 0 <= i < power.Length ::
        power[i] == Injected(BlocksOnly(old(Values(power)), n), Values(gAmb), n, ambient)(i)
  {
    ghost var before, amb := Values(power), Values(gAmb);
    ZeroRange(power, IFACE * n, n);
    ZeroRange(power, HSP * n, n);
    var i := 0;
    while i < n + EXTRA
      invariant i <= n + EXTRA && Values(gAmb) == amb
      invariant forall k | 0 <= k < power.Length ::
          power[k] == if k < n then before(k) else if k < HSINK * n then 0.0
                      else if k < HSINK * n + i then Times(gAmb[k - HSINK * n], ambient) else power[k]
    {
      power[HSINK * n + i] := ambient * gAmb[i];
      TimesLaws(ambient, gAmb[i], 0.0);
      i := i + 1;
    }
    forall k | 0 <= k < power.Length
      ensures power[k] == Injected(BlocksOnly(before, n), amb, n, ambient)(k) {
      AmbientAt(amb, n, k);
      TimesLaws(ambient, 0.0, 0.0);
      TimesLaws(0.0, ambient, 0.0);
    }
  }

  lemma {:induction false} AmbientAt(gAmb: Vector, n: nat, k: nat)
    requires k < NL * n + EXTRA && forall j | n <= j < n + SINK_C_W :: gAmb(j) == 0.0
    ensures Ambient(gAmb, n, k) == if k < HSINK * n then 0.0 else gAmb(k - HSINK * n)
  {
    if n > 0 && HSINK * n <= k < NL * n {
      ModOfLayer(n, k - HSINK * n);
    }
  }

  lemma {:induction false} ModOfLayer(n: nat, r: nat)
    requires r < n
    ensures (HSINK * n + r) % n == r
  {
    assert (HSINK * n + r) / n == HSINK && (HSINK * n + r) % n == r;
  }

  /** Steady temperatures from the stored decomposition of B. */
  method SteadyStateTempBlock(lu: array2<real>, p: array<int>, power: array<real>, temp: array<real>,
                              gAmb: array<real>, n: nat, ambient: real, ghost b: Matrix, ghost g: Matrix)
    requires lu.Length0 == lu.Length1 == p.Length == power.Length == temp.Length == NL * n + EXTRA
    requires gAmb.Length == n + EXTRA && power != gAmb && temp != power && temp != gAmb
    requires Nonnegative(g, Values(gAmb), n, p.Length) && IsConductance(b, g, Values(gAmb), n, p.Length)
    requires AllLinked(g, Values(gAmb), n, p.Length)
    requires Permutation(p[..], p.Length) && Factored(b, Entries(lu), p[..], p.Length, p.Length - 1)
    modifies power, temp
    ensures Solves(b, Values(temp), Injected(BlocksOnly(old(Values(power)), n), old(Values(gAmb)), n, ambient), temp.Length)
    ensures (forall i | 0 <= i < n :: old(power[i]) >= 0.0) ==> forall i | 0 <= i < temp.Length :: temp[i] >= ambient
  {
    ghost var before, amb, nodes := Values(power), Values(gAmb), p.Length;
    ghost var blocks := BlocksOnly(before, n);
    ghost var rhs := Injected(blocks, amb, n, ambient);
    assert forall i | 0 <= i < n :: before(i) == power[i];
    LinkedPivots(b, g, amb, n, nodes, Entries(lu), p[..]);
    SetInternalPower(power, gAmb, n, ambient);
    hide IsConductance, Nonnegative, AllLinked, Factored, Permutation, PivotsNonzero, Injected, Solves;
    Lusolve(lu, p, power, temp, b);
    SolvesSame(b, Values(temp), Values(temp), Values(power), rhs, nodes);
    if forall i | 0 <= i < nodes :: blocks(i) >= 0.0 {
      NowhereBelowAmbient(b, g, amb, n, nodes, blocks, ambient, Values(temp));
    }
  }
}
