/** Shape curves: the feasible (width, height) pairs of a block, and the addition of
    two curves under a cut by a single two-pointer sweep. */
module ShapeCurve {
  import opened Numbers
  import opened PolishExpression

  function Area(width: real, height: real): real {
    width * height
  }

  /** The contents of a curve. The last three lists are empty at a leaf. */
  datatype Curve = Curve(x: seq<real>, y: seq<real>,
                         leftPos: seq<nat>, rightPos: seq<nat>, median: seq<real>)

  ghost predicate Nondecreasing(s: seq<real>) {
    forall i, j | 0 <= i <= j < |s| :: s[i] <= s[j]
  }

  ghost predicate Nonincreasing(s: seq<real>) {
    forall i, j | 0 <= i <= j < |s| :: s[i] >= s[j]
  }

  /** A nonempty descending staircase of positive sizes. */
  ghost predicate Staircase(c: Curve) {
    && |c.x| == |c.y| >= 1
    && Nondecreasing(c.x) && Nonincreasing(c.y)
    && (forall i | 0 <= i < |c.x| :: c.x[i] > 0.0 && c.y[i] > 0.0)
  }

  function Reversed(s: seq<real>): (r: seq<real>)
    ensures |r| == |s| && forall i | 0 <= i < |s| :: r[i] == s[|s| - 1 - i]
  {
    seq(|s|, i requires 0 <= i < |s| => s[|s| - 1 - i])
  }

  /** The index pairs the sweep visits from (i, j) on: the side with the larger
      height advances, until one side runs out. */
  function Sweep(a: seq<real>, b: seq<real>, i: nat, j: nat): seq<(nat, nat)>
    requires i <= |a| && j <= |b|
    decreases |a| - i + |b| - j
  {
    if i == |a| || j == |b| then []
    else [(i, j)] + if a[i] >= b[j] then Sweep(a, b, i + 1, j) else Sweep(a, b, i, j + 1)
  }

  /** One step of the addition's two pointers. */
  function Advance(c: Curve, d: Curve, cut: int, i: nat, j: nat): (n: (nat, nat))
    requires SameSizes(c) && SameSizes(d) && i < |c.x| && j < |d.x|
    ensures n == (i + 1, j) || n == (i, j + 1)
  {
    if (if cut == CUT_VERTICAL then c.y[i] >= d.y[j] else c.x[|c.x|-1-i] >= d.x[|d.x|-1-j])
    then (i + 1, j) else (i, j + 1)
  }

  /** The path the addition takes: for a horizontal cut both curves are read from
      the back and widths are compared instead of heights. */
  function Path(c: Curve, d: Curve, cut: int, i: nat, j: nat): seq<(nat, nat)>
    requires SameSizes(c) && SameSizes(d) && i <= |c.x| && j <= |d.x|
    decreases |c.x| - i + |d.x| - j
  {
    if i == |c.x| || j == |d.x| then []
    else
      var n := Advance(c, d, cut, i, j);
      [(i, j)] + Path(c, d, cut, n.0, n.1)
  }

  lemma {:induction false} PathStep(c: Curve, d: Curve, cut: int, i: nat, j: nat, p: seq<(nat, nat)>, k: nat)
    requires SameSizes(c) && SameSizes(d) && i <= |c.x| && j <= |d.x|
    requires k <= |p| && p[k..] == Path(c, d, cut, i, j)
    ensures i == |c.x| || j == |d.x| ==> k == |p|
    ensures i < |c.x| && j < |d.x| ==> k < |p| && p[k] == (i, j)
    ensures i < |c.x| && j < |d.x| ==>
        p[k+1..] == Path(c, d, cut, Advance(c, d, cut, i, j).0, Advance(c, d, cut, i, j).1)
  {
    if i < |c.x| && j < |d.x| {
      assert p[k] == p[k..][0];
      assert p[k+1..] == p[k..][1..];
    }
  }

  /** Entry i of n, counted from the end that the cut type starts from. */
  function Turn(cut: int, n: nat, i: nat): nat
    requires i < n
  {
    if cut == CUT_VERTICAL then i else n - 1 - i
  }

  /** Width and height of two rectangles joined by a cut. */
  function JoinX(cut: int, x1: real, x2: real): real {
    if cut == CUT_VERTICAL then x1 + x2 else Max(x1, x2)
  }

  function JoinY(cut: int, y1: real, y2: real): real {
    if cut == CUT_VERTICAL then Max(y1, y2) else y1 + y2
  }

  predicate SameSizes(c: Curve) {
    |c.x| == |c.y| >= 1
  }

  /** What the addition computes: one entry per pair on the path. */
  ghost predicate IsSum(c: Curve, d: Curve, cut: int, s: Curve)
    requires SameSizes(c) && SameSizes(d)
  {
    var p := Path(c, d, cut, 0, 0);
    && |s.x| == |s.y| == |s.leftPos| == |s.rightPos| == |s.median| == |p|
    && forall k | 0 <= k < |p| :: IsEntry(c, d, cut, s, k, p[k])
  }

  ghost predicate IsEntry(c: Curve, d: Curve, cut: int, s: Curve, k: nat, p: (nat, nat))
    requires SameSizes(c) && SameSizes(d)
    requires k < |s.x| == |s.y| == |s.leftPos| == |s.rightPos| == |s.median|
  {
    && p.0 < |c.x| && p.1 < |d.x|
    && var e, i, j := Turn(cut, |s.x|, k), Turn(cut, |c.x|, p.0), Turn(cut, |d.x|, p.1);
    && s.leftPos[e] == i && s.rightPos[e] == j
    && s.x[e] == JoinX(cut, c.x[i], d.x[j])
    && s.y[e] == JoinY(cut, c.y[i], d.y[j])
    && s.median[e] == if cut == CUT_VERTICAL then c.x[i] else c.y[i]
  }

  // ---- the sweep on two descending lists of heights ----

  lemma {:induction false} SweepInRange(a: seq<real>, b: seq<real>, i: nat, j: nat, k: nat)
    requires i <= |a| && j <= |b| && k < |Sweep(a, b, i, j)|
    ensures var p := Sweep(a, b, i, j)[k]; i <= p.0 < |a| && j <= p.1 < |b|
    decreases |a| - i + |b| - j
  {
    if k > 0 {
      if a[i] >= b[j] { SweepInRange(a, b, i + 1, j, k - 1); } else { SweepInRange(a, b, i, j + 1, k - 1); }
    }
  }

  lemma {:induction false} SweepNonempty(a: seq<real>, b: seq<real>)
    requires |a| >= 1 && |b| >= 1
    ensures |Sweep(a, b, 0, 0)| >= 1
  {
  }

  /** Both coordinates of the visited pairs only grow. */
  lemma {:induction false} SweepGrows(a: seq<real>, b: seq<real>, i: nat, j: nat, k: nat, l: nat)
    requires i <= |a| && j <= |b| && k <= l < |Sweep(a, b, i, j)|
    ensures var p, q := Sweep(a, b, i, j)[k], Sweep(a, b, i, j)[l]; p.0 <= q.0 && p.1 <= q.1
    decreases |a| - i + |b| - j
  {
    if k == 0 {
      SweepInRange(a, b, i, j, l);
    } else {
      if a[i] >= b[j] { SweepGrows(a, b, i + 1, j, k - 1, l - 1); } else { SweepGrows(a, b, i, j + 1, k - 1, l - 1); }
    }
  }

  /** The sweep skips no pair worth keeping: for every pair (u, v) it visits one that
      comes no later on either side and whose greater height is no greater. */
  lemma {:induction false} SweepDominates(a: seq<real>, b: seq<real>, i: nat, j: nat, u: nat, v: nat) returns (k: nat)
    requires Nonincreasing(a) && Nonincreasing(b)
    requires i <= u < |a| && j <= v < |b|
    ensures k < |Sweep(a, b, i, j)|
    ensures var p := Sweep(a, b, i, j)[k];
            i <= p.0 <= u && j <= p.1 <= v && Max(a[p.0], b[p.1]) <= Max(a[u], b[v])
    decreases |a| - i + |b| - j
  {
    if a[i] >= b[j] && i < u {
      k := SweepDominates(a, b, i + 1, j, u, v);
      k := k + 1;
    } else if a[i] < b[j] && j < v {
      k := SweepDominates(a, b, i, j + 1, u, v);
      k := k + 1;
    } else {
      k := 0;
    }
  }

  // ---- the sum of two staircases ----

  /** The descending list the cut type compares. */
  function Heights(c: Curve, cut: int): (h: seq<real>)
    requires SameSizes(c)
    ensures |h| == |c.x|
    ensures forall i | 0 <= i < |h| :: h[i] == if cut == CUT_VERTICAL then c.y[i] else c.x[|c.x|-1-i]
  {
    if cut == CUT_VERTICAL then c.y else Reversed(c.x)
  }

  lemma {:induction false} AdvanceByHeights(c: Curve, d: Curve, cut: int, i: nat, j: nat)
    requires SameSizes(c) && SameSizes(d) && i < |c.x| && j < |d.x|
    ensures Advance(c, d, cut, i, j) ==
            if Heights(c, cut)[i] >= Heights(d, cut)[j] then (i + 1, j) else (i, j + 1)
  {
    hide Heights;
  }

  lemma {:induction false} PathIsSweep(c: Curve, d: Curve, cut: int, i: nat, j: nat)
    requires SameSizes(c) && SameSizes(d) && i <= |c.x| && j <= |d.x|
    ensures Path(c, d, cut, i, j) == Sweep(Heights(c, cut), Heights(d, cut), i, j)
    decreases |c.x| - i + |d.x| - j
  {
    hide Heights;
    if i < |c.x| && j < |d.x| {
      var n := Advance(c, d, cut, i, j);
      AdvanceByHeights(c, d, cut, i, j);
      hide Advance;
      PathIsSweep(c, d, cut, n.0, n.1);
    }
  }

  /** Every kept pair is a pair of entries, and there is at least one. */
  lemma {:induction false} PathInRange(c: Curve, d: Curve, cut: int)
    requires SameSizes(c) && SameSizes(d)
    ensures |Path(c, d, cut, 0, 0)| >= 1
    ensures forall k | 0 <= k < |Path(c, d, cut, 0, 0)| ::
        Path(c, d, cut, 0, 0)[k].0 < |c.x| && Path(c, d, cut, 0, 0)[k].1 < |d.x|
  {
    PathIsSweep(c, d, cut, 0, 0);
    SweepNonempty(Heights(c, cut), Heights(d, cut));
    forall k | 0 <= k < |Path(c, d, cut, 0, 0)|
      ensures Path(c, d, cut, 0, 0)[k].0 < |c.x| && Path(c, d, cut, 0, 0)[k].1 < |d.x| {
      SweepInRange(Heights(c, cut), Heights(d, cut), 0, 0, k);
    }
  }

  /** Entry e of a sum joins its left and right orientations. */
  lemma {:induction false} SumEntry(c: Curve, d: Curve, cut: int, s: Curve, e: nat)
    requires SameSizes(c) && SameSizes(d) && IsSum(c, d, cut, s) && e < |s.x|
    ensures s.leftPos[e] < |c.x| && s.rightPos[e] < |d.x|
    ensures s.x[e] == JoinX(cut, c.x[s.leftPos[e]], d.x[s.rightPos[e]])
    ensures s.y[e] == JoinY(cut, c.y[s.leftPos[e]], d.y[s.rightPos[e]])
    ensures s.median[e] == if cut == CUT_VERTICAL then c.x[s.leftPos[e]] else c.y[s.leftPos[e]]
  {
    var k, p := Turn(cut, |s.x|, e), Path(c, d, cut, 0, 0);
    assert IsEntry(c, d, cut, s, k, p[k]);
  }

  /** Along the entries of a sum both positions only grow. */
  lemma {:induction false} PositionsGrow(c: Curve, d: Curve, cut: int, s: Curve, e: nat, f: nat)
    requires SameSizes(c) && SameSizes(d) && IsSum(c, d, cut, s) && e <= f < |s.x|
    ensures s.leftPos[e] <= s.leftPos[f] && s.rightPos[e] <= s.rightPos[f]
  {
    var k, l, p := Turn(cut, |s.x|, e), Turn(cut, |s.x|, f), Path(c, d, cut, 0, 0);
    assert IsEntry(c, d, cut, s, k, p[k]) && IsEntry(c, d, cut, s, l, p[l]);
    PathIsSweep(c, d, cut, 0, 0);
    if cut == CUT_VERTICAL {
      SweepGrows(Heights(c, cut), Heights(d, cut), 0, 0, k, l);
    } else {
      SweepGrows(Heights(c, cut), Heights(d, cut), 0, 0, l, k);
    }
  }

  /** Adding staircases gives a staircase, for both cut types. */
  lemma {:induction false} SumIsStaircase(c: Curve, d: Curve, cut: int, s: Curve)
    requires Staircase(c) && Staircase(d) && IsSum(c, d, cut, s)
    ensures Staircase(s)
  {
    PathInRange(c, d, cut);
    forall e, f | 0 <= e <= f < |s.x|
      ensures s.x[e] <= s.x[f] && s.y[e] >= s.y[f] && s.x[e] > 0.0 && s.y[e] > 0.0 {
      SumEntry(c, d, cut, s, e);
      SumEntry(c, d, cut, s, f);
      PositionsGrow(c, d, cut, s, e, f);
    }
  }

  /** The sum has an entry no wider and no taller than any pair of orientations. */
  lemma {:induction false} SumDominates(c: Curve, d: Curve, cut: int, s: Curve, u: nat, v: nat) returns (e: nat)
    requires Staircase(c) && Staircase(d) && IsSum(c, d, cut, s)
    requires u < |c.x| && v < |d.x|
    ensures e < |s.x|
    ensures s.x[e] <= JoinX(cut, c.x[u], d.x[v]) && s.y[e] <= JoinY(cut, c.y[u], d.y[v])
  {
    hide Heights, Sweep, Path, JoinX, JoinY;
    PathIsSweep(c, d, cut, 0, 0);
    var a, b := Heights(c, cut), Heights(d, cut);
    var u', v' := Turn(cut, |a|, u), Turn(cut, |b|, v);
    var k := SweepDominates(a, b, 0, 0, u', v');
    var p := Path(c, d, cut, 0, 0)[k];
    assert IsEntry(c, d, cut, s, k, p);
    e := Turn(cut, |s.x|, k);
    PairNoLarger(c, d, cut, p.0, p.1, u', v');
  }

  /** An earlier pair with no greater larger height joins to a rectangle no wider and
      no taller. */
  lemma {:induction false} PairNoLarger(c: Curve, d: Curve, cut: int, i: nat, j: nat, u: nat, v: nat)
    requires Staircase(c) && Staircase(d) && i <= u < |c.x| && j <= v < |d.x|
    requires Max(Heights(c, cut)[i], Heights(d, cut)[j]) <= Max(Heights(c, cut)[u], Heights(d, cut)[v])
    ensures JoinX(cut, c.x[Turn(cut, |c.x|, i)], d.x[Turn(cut, |d.x|, j)])
         <= JoinX(cut, c.x[Turn(cut, |c.x|, u)], d.x[Turn(cut, |d.x|, v)])
    ensures JoinY(cut, c.y[Turn(cut, |c.x|, i)], d.y[Turn(cut, |d.x|, j)])
         <= JoinY(cut, c.y[Turn(cut, |c.x|, u)], d.y[Turn(cut, |d.x|, v)])
  {
    hide Heights;
    var i', j', u', v' := Turn(cut, |c.x|, i), Turn(cut, |d.x|, j), Turn(cut, |c.x|, u), Turn(cut, |d.x|, v);
    if cut == CUT_VERTICAL {
      assert c.x[i'] <= c.x[u'] && d.x[j'] <= d.x[v'];
    } else {
      assert c.y[i'] <= c.y[u'] && d.y[j'] <= d.y[v'];
    }
  }

  // ---- the arrays ----

  /** A curve in memory: widths and heights are patched in place when a floorplan is
      sized; the other lists are filled once. */
  class Shape {
    const x: array<real>
    const y: array<real>
    const leftPos: seq<nat>
    const rightPos: seq<nat>
    const median: seq<real>

    constructor (x: array<real>, y: array<real>, leftPos: seq<nat>, rightPos: seq<nat>, median: seq<real>)
      ensures this.x == x && this.y == y
      ensures this.leftPos == leftPos && this.rightPos == rightPos && this.median == median
    {
      this.x, this.y, this.leftPos, this.rightPos, this.median := x, y, leftPos, rightPos, median;
    }

    ghost function Value(): Curve
      reads x, y
    {
      Curve(x[..], y[..], leftPos, rightPos, median)
    }
  }

  /** The first pass of the addition: the number of entries of the sum. */
  method SumSize(s1: Shape, s2: Shape, cut: int) returns (total: nat)
    requires SameSizes(s1.Value()) && SameSizes(s2.Value())
    ensures total == |Path(s1.Value(), s2.Value(), cut, 0, 0)|
  {
    var m, n := s1.x.Length, s2.x.Length;
    var i, j := 0, 0;
    total := 0;
    while i < m && j < n
      invariant i <= m && j <= n
      invariant total + |Path(s1.Value(), s2.Value(), cut, i, j)| == |Path(s1.Value(), s2.Value(), cut, 0, 0)|
      decreases m - i + n - j
    {
      if cut == CUT_VERTICAL {
        if s1.y[i] >= s2.y[j] { i := i + 1; } else { j := j + 1; }
      } else {
        if s1.x[m-1-i] >= s2.x[n-1-j] { i := i + 1; } else { j := j + 1; }
      }
      total := total + 1;
    }
  }

  /** Curve addition. A vertical cut fills the sum from the front, a horizontal cut
      from the back. */
  method ShapeAdd(s1: Shape, s2: Shape, cut: int) returns (sum: Shape)
    requires SameSizes(s1.Value()) && SameSizes(s2.Value())
    ensures fresh(sum) && fresh(sum.x) && fresh(sum.y) && sum.x != sum.y
    ensures IsSum(s1.Value(), s2.Value(), cut, sum.Value())
  {
    var total := SumSize(s1, s2, cut);
    var x, y := new real[total], new real[total];
    var leftPos, rightPos, median := new nat[total], new nat[total], new real[total];
    FillSum(s1, s2, cut, total, x, y, leftPos, rightPos, median);
    sum := new Shape(x, y, leftPos[..], rightPos[..], median[..]);
  }

  /** The second pass of the addition. */
  method FillSum(s1: Shape, s2: Shape, cut: int, total: nat,
                 x: array<real>, y: array<real>, leftPos: array<nat>, rightPos: array<nat>, median: array<real>)
    requires SameSizes(s1.Value()) && SameSizes(s2.Value())
    requires total == |Path(s1.Value(), s2.Value(), cut, 0, 0)|
    requires Allocated(x, y, leftPos, rightPos, median, total)
    requires {x, y, median} !! {s1.x, s1.y, s2.x, s2.y}
    modifies x, y, leftPos, rightPos, median
    ensures s1.Value() == old(s1.Value()) && s2.Value() == old(s2.Value())
    ensures IsSum(s1.Value(), s2.Value(), cut, Curve(x[..], y[..], leftPos[..], rightPos[..], median[..]))
  {
    ghost var c, d := s1.Value(), s2.Value();
    ghost var p := Path(c, d, cut, 0, 0);
    hide IsEntry, Path, Advance;
    var m, n := s1.x.Length, s2.x.Length;
    var i: nat, j: nat, k: nat := 0, 0, 0;
    ghost var s := Curve(x[..], y[..], leftPos[..], rightPos[..], median[..]);
    while i < m && j < n
      invariant i <= m && j <= n && k <= total && p[k..] == Path(c, d, cut, i, j)
      invariant s == Curve(x[..], y[..], leftPos[..], rightPos[..], median[..])
      invariant forall q | 0 <= q < k :: IsEntry(c, d, cut, s, q, p[q])
      decreases m - i + n - j
    {
      PathStep(c, d, cut, i, j, p, k);
      i, j, s := AddStep(s1, s2, cut, total, k, i, j, x, y, leftPos, rightPos, median, p, s);
      k := k + 1;
    }
    PathStep(c, d, cut, i, j, p, k);
  }

  /** The loop body of the addition: write one entry, advance one side. */
  method AddStep(s1: Shape, s2: Shape, cut: int, total: nat, k: nat, i: nat, j: nat,
                 x: array<real>, y: array<real>, leftPos: array<nat>, rightPos: array<nat>, median: array<real>,
                 ghost p: seq<(nat, nat)>, ghost s: Curve)
    returns (i': nat, j': nat, ghost t: Curve)
    requires SameSizes(s1.Value()) && SameSizes(s2.Value())
    requires i < s1.x.Length && j < s2.x.Length && |p| == total
    requires k < total && p[k] == (i, j)
    requires Allocated(x, y, leftPos, rightPos, median, total)
    requires {x, y, median} !! {s1.x, s1.y, s2.x, s2.y}
    requires s == Curve(x[..], y[..], leftPos[..], rightPos[..], median[..])
    requires forall q | 0 <= q < k :: IsEntry(s1.Value(), s2.Value(), cut, s, q, p[q])
    modifies x, y, leftPos, rightPos, median
    ensures t == Curve(x[..], y[..], leftPos[..], rightPos[..], median[..])
    ensures |t.x| == |t.y| == |t.leftPos| == |t.rightPos| == |t.median| == total
    ensures forall q | 0 <= q < k + 1 :: IsEntry(s1.Value(), s2.Value(), cut, t, q, p[q])
    ensures (i', j') == Advance(s1.Value(), s2.Value(), cut, i, j)
  {
    hide IsEntry, JoinX, JoinY;
    PutEntry(s1, s2, cut, total, k, i, j, x, y, leftPos, rightPos, median);
    t := Curve(x[..], y[..], leftPos[..], rightPos[..], median[..]);
    EntriesKept(s1.Value(), s2.Value(), cut, s, t, p, k);
    var m, n := s1.x.Length, s2.x.Length;
    i', j' := i, j;
    if cut == CUT_VERTICAL {
      if s1.y[i] >= s2.y[j] { i' := i + 1; } else { j' := j + 1; }
    } else {
      if s1.x[m-1-i] >= s2.x[n-1-j] { i' := i + 1; } else { j' := j + 1; }
    }
  }

  ghost predicate Allocated(x: array<real>, y: array<real>, l: array<nat>, r: array<nat>, m: array<real>, total: nat) {
    && x.Length == y.Length == l.Length == r.Length == m.Length == total
    && x != y && x != m && y != m && l != r
  }

  /** The k-th step of the sweep writes one entry of the five lists. */
  method PutEntry(s1: Shape, s2: Shape, cut: int, total: nat, k: nat, i: nat, j: nat,
                  x: array<real>, y: array<real>, leftPos: array<nat>, rightPos: array<nat>, median: array<real>)
    requires SameSizes(s1.Value()) && SameSizes(s2.Value())
    requires k < total && i < s1.x.Length && j < s2.x.Length
    requires Allocated(x, y, leftPos, rightPos, median, total)
    requires {x, y, median} !! {s1.x, s1.y, s2.x, s2.y}
    modifies x, y, leftPos, rightPos, median
    ensures var c, d, e := s1.Value(), s2.Value(), Turn(cut, total, k);
            var i', j' := Turn(cut, |c.x|, i), Turn(cut, |d.x|, j);
            && x[..] == old(x[..])[e := JoinX(cut, c.x[i'], d.x[j'])]
            && y[..] == old(y[..])[e := JoinY(cut, c.y[i'], d.y[j'])]
            && leftPos[..] == old(leftPos[..])[e := i'] && rightPos[..] == old(rightPos[..])[e := j']
            && median[..] == old(median[..])[e := if cut == CUT_VERTICAL then c.x[i'] else c.y[i']]
  {
    var m, n := s1.x.Length, s2.x.Length;
    if cut == CUT_VERTICAL {
      x[k] := s1.x[i] + s2.x[j];
      y[k] := Max(s1.y[i], s2.y[j]);
      leftPos[k], rightPos[k] := i, j;
      median[k] := s1.x[i];
    } else {
      x[total-1-k] := Max(s1.x[m-1-i], s2.x[n-1-j]);
      y[total-1-k] := s1.y[m-1-i] + s2.y[n-1-j];
      leftPos[total-1-k], rightPos[total-1-k] := m - 1 - i, n - 1 - j;
      median[total-1-k] := s1.y[m-1-i];
    }
  }

  /** Writing entry k disturbs none of the earlier ones. */
  lemma {:induction false} EntriesKept(c: Curve, d: Curve, cut: int, s: Curve, t: Curve, p: seq<(nat, nat)>, k: nat)
    requires SameSizes(c) && SameSizes(d) && k < |p|
    requires |p| == |s.x| == |s.y| == |s.leftPos| == |s.rightPos| == |s.median|
    requires p[k].0 < |c.x| && p[k].1 < |d.x|
    requires forall q | 0 <= q < k :: IsEntry(c, d, cut, s, q, p[q])
    requires var e := Turn(cut, |p|, k);
             var i, j := Turn(cut, |c.x|, p[k].0), Turn(cut, |d.x|, p[k].1);
             t == Curve(s.x[e := JoinX(cut, c.x[i], d.x[j])], s.y[e := JoinY(cut, c.y[i], d.y[j])],
                        s.leftPos[e := i], s.rightPos[e := j],
                        s.median[e := if cut == CUT_VERTICAL then c.x[i] else c.y[i]])
    ensures forall q | 0 <= q < k + 1 :: IsEntry(c, d, cut, t, q, p[q])
  {
    forall q | 0 <= q < k + 1 ensures IsEntry(c, d, cut, t, q, p[q]) {
      if q < k { assert IsEntry(c, d, cut, s, q, p[q]); }
    }
  }

  /** A private copy of a curve. */
  method ShapeDuplicate(shape: Shape) returns (copy: Shape)
    requires shape.x.Length == shape.y.Length
    ensures fresh(copy) && fresh(copy.x) && fresh(copy.y) && copy.x != copy.y
    ensures copy.Value() == shape.Value()
  {
    var x, y := new real[shape.x.Length], new real[shape.x.Length];
    var i := 0;
    while i < shape.x.Length
      invariant i <= shape.x.Length && x[..i] == shape.x[..i] && y[..i] == shape.y[..i]
    {
      x[i], y[i] := shape.x[i], shape.y[i];
      i := i + 1;
    }
    copy := new Shape(x, y, shape.leftPos, shape.rightPos, shape.median);
    assert x[..] == shape.x[..] && y[..] == shape.y[..];
  }

  /** Position of the first entry of least area. */
  method MinAreaPos(curve: Shape) returns (pos: nat)
    requires SameSizes(curve.Value())
    ensures pos < curve.x.Length
    ensures forall k | 0 <= k < curve.x.Length :: Area(curve.x[pos], curve.y[pos]) <= Area(curve.x[k], curve.y[k])
    ensures forall k | 0 <= k < pos :: Area(curve.x[pos], curve.y[pos]) < Area(curve.x[k], curve.y[k])
  {
    var i := 1;
    pos := 0;
    var min := curve.x[0] * curve.y[0];
    while i < curve.x.Length
      invariant pos < i <= curve.x.Length && min == Area(curve.x[pos], curve.y[pos])
      invariant forall k | 0 <= k < i :: min <= Area(curve.x[k], curve.y[k])
      invariant forall k | 0 <= k < pos :: min < Area(curve.x[k], curve.y[k])
    {
      if min > curve.x[i] * curve.y[i] {
        min := curve.x[i] * curve.y[i];
        pos := i;
      }
      i := i + 1;
    }
  }
}
