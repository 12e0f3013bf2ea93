/** Turning a slicing tree into placed blocks: children grow to absorb compacted dead
    space, and what is written tiles the root rectangle exactly. */
module Sizing {
  import opened Numbers
  import opened PolishExpression
  import opened ShapeCurve
  import opened SlicingTree
  import opened Rectangles
  import opened FiniteSets

  /** The current sizes of the two children of a cut. */
  datatype Pair = Pair(x1: real, y1: real, x2: real, y2: real)

  /** Children absorb what the parent's rectangle has beyond their join. */
  function Grow(cut: int, w: real, h: real, p: Pair): (g: Pair)
    ensures Positive(p) ==> Positive(g)
  {
    if cut == CUT_VERTICAL then
      var gap := if h > Max(p.y1, p.y2) then h - Max(p.y1, p.y2) else 0.0;
      Pair(p.x1, p.y1 + gap, if w > p.x1 + p.x2 then p.x2 + (w - (p.x1 + p.x2)) else p.x2, p.y2 + gap)
    else
      var gap := if w > Max(p.x1, p.x2) then w - Max(p.x1, p.x2) else 0.0;
      Pair(p.x1 + gap, p.y1, p.x2 + gap, if h > p.y1 + p.y2 then p.y2 + (h - (p.y1 + p.y2)) else p.y2)
  }

  /** The dead block beside the lower or narrower child, possibly of zero area. */
  function DeadBlock(cut: int, p: Pair, leftx: real, bottomy: real): Unit {
    if cut == CUT_VERTICAL then
      Unit(if p.y2 >= p.y1 then p.x1 else p.x2, Abs(p.y2 - p.y1),
           leftx + (if p.y2 >= p.y1 then 0.0 else p.x1), bottomy + Min(p.y1, p.y2))
    else
      Unit(Abs(p.x2 - p.x1), if p.x2 >= p.x1 then p.y1 else p.y2,
           leftx + Min(p.x1, p.x2), bottomy + (if p.x2 >= p.x1 then 0.0 else p.y1))
  }

  predicate Positive(p: Pair) {
    p.x1 > 0.0 && p.y1 > 0.0 && p.x2 > 0.0 && p.y2 > 0.0
  }

  /** Is the dead block small enough to be absorbed? */
  predicate Compacts(cut: int, p: Pair, compactDead: bool, ratio: real)
    requires Positive(p)
  {
    compactDead && if cut == CUT_VERTICAL then Abs(p.y2 - p.y1) / Min(p.y1, p.y2) <= ratio
                   else Abs(p.x2 - p.x1) / Min(p.x1, p.x2) <= ratio
  }

  /** The lower or narrower child takes the dead block over. */
  function Absorb(cut: int, p: Pair): (s: Pair)
    ensures Positive(p) ==> Positive(s)
  {
    if cut == CUT_VERTICAL then
      if p.y2 >= p.y1 then p.(y1 := p.y2) else p.(y2 := p.y1)
    else
      if p.x2 >= p.x1 then p.(x1 := p.x2) else p.(x2 := p.x1)
  }

  function CutCount(t: Tree): nat {
    if t.Leaf? then 0 else 1 + CutCount(t.left) + CutCount(t.right)
  }

  function Labels(t: Tree): set<nat> {
    if t.Leaf? then {t.unit} else Labels(t.left) + Labels(t.right)
  }

  ghost predicate DistinctLabels(t: Tree) {
    t.Cut? ==> DistinctLabels(t.left) && DistinctLabels(t.right) && Labels(t.left) !! Labels(t.right)
  }

  /** The join of the children's entries that entry pos of a cut refers to. */
  predicate InRange(t: Tree, pos: nat) {
    && pos < |t.curve.x| == |t.curve.y|
    && t.curve.x[pos] > 0.0 && t.curve.y[pos] > 0.0
    && (t.Cut? ==>
          && IsCut(t.cut)
          && |t.curve.leftPos| == |t.curve.rightPos| == |t.curve.median| == |t.curve.x|
          && t.curve.leftPos[pos] < |t.left.curve.x| == |t.left.curve.y|
          && t.curve.rightPos[pos] < |t.right.curve.x| == |t.right.curve.y|)
  }

  function Children(t: Tree, pos: nat): Pair
    requires t.Cut? && InRange(t, pos)
  {
    var l, r := t.curve.leftPos[pos], t.curve.rightPos[pos];
    Pair(t.left.curve.x[l], t.left.curve.y[l], t.right.curve.x[r], t.right.curve.y[r])
  }

  /** Entry pos has the size of its children's join. */
  predicate Natural(t: Tree, pos: nat)
    requires InRange(t, pos)
  {
    t.Cut? ==>
      var p := Children(t, pos);
      t.curve.x[pos] == JoinX(t.cut, p.x1, p.x2) && t.curve.y[pos] == JoinY(t.cut, p.y1, p.y2)
  }

  /** What sizing needs below entry pos; the entry itself may have grown. */
  predicate Sizable(t: Tree, pos: nat) {
    && InRange(t, pos)
    && (t.Cut? ==>
          var l, r := t.curve.leftPos[pos], t.curve.rightPos[pos];
          && Sizable(t.left, l) && Sizable(t.right, r)
          && Natural(t.left, l) && Natural(t.right, r) && Positive(Children(t, pos))
          && t.curve.median[pos] == if t.cut == CUT_VERTICAL then t.left.curve.x[l] else t.left.curve.y[l])
  }

  datatype Options = Options(compactDead: bool, ratio: real, first: nat)

  datatype Placed = Placed(units: seq<Unit>, dead: nat)

  predicate LabelsBelow(t: Tree, n: nat) {
    if t.Leaf? then t.unit < n else LabelsBelow(t.left, n) && LabelsBelow(t.right, n)
  }

  /** The unit and dead slots a subtree may write exist. */
  predicate Room(t: Tree, o: Options, dead: nat, size: nat) {
    LabelsBelow(t, o.first) && o.first + dead + CutCount(t) <= size
  }

  /** The sizes of the children after growth and absorption. */
  function Settled(t: Tree, pos: nat, w: real, h: real, o: Options): (s: Pair)
    requires t.Cut? && Sizable(t, pos)
    ensures Positive(s)
  {
    var g := Grow(t.cut, w, h, Children(t, pos));
    if Compacts(t.cut, g, o.compactDead, o.ratio) then Absorb(t.cut, g) else g
  }

  /** One cut placed, before its children: the dead block is written to the next dead
      slot, which is taken unless the block was absorbed. */
  function Marked(t: Tree, pos: nat, w: real, h: real, leftx: real, bottomy: real,
                  dead: nat, o: Options, us: seq<Unit>): (r: Placed)
    requires t.Cut? && Sizable(t, pos) && Room(t, o, dead, |us|)
    ensures |r.units| == |us| && Room(t.left, o, r.dead, |us|) && dead <= r.dead <= dead + 1
  {
    var g := Grow(t.cut, w, h, Children(t, pos));
    Placed(us[o.first + dead := DeadBlock(t.cut, g, leftx, bottomy)],
           if Compacts(t.cut, g, o.compactDead, o.ratio) then dead else dead + 1)
  }

  /** Lower left corner of the right child. */
  function Corner(t: Tree, pos: nat, leftx: real, bottomy: real): (real, real)
    requires t.Cut? && Sizable(t, pos)
  {
    Beside(t.cut, t.curve.median[pos], leftx, bottomy)
  }

  /** Where the right child of a cut goes. */
  function Beside(cut: int, median: real, leftx: real, bottomy: real): (real, real) {
    if cut == CUT_VERTICAL then (leftx + median, bottomy) else (leftx, bottomy + median)
  }

  /** The placement of a subtree whose entry pos currently measures w by h. */
  function Sized(t: Tree, pos: nat, w: real, h: real, leftx: real, bottomy: real,
                 dead: nat, o: Options, us: seq<Unit>): (r: Placed)
    requires Sizable(t, pos) && Room(t, o, dead, |us|)
    ensures |r.units| == |us| && dead <= r.dead <= dead + CutCount(t)
    decreases t
  {
    if t.Leaf? then Placed(us[t.unit := Unit(w, h, leftx, bottomy)], dead)
    else
      var m := Marked(t, pos, w, h, leftx, bottomy, dead, o, us);
      var s := Settled(t, pos, w, h, o);
      var a := Sized(t.left, t.curve.leftPos[pos], s.x1, s.y1, leftx, bottomy, m.dead, o, m.units);
      var c := Corner(t, pos, leftx, bottomy);
      Sized(t.right, t.curve.rightPos[pos], s.x2, s.y2, c.0, c.1, a.dead, o, a.units)
  }

  /** Only the root's own sizes may differ. */
  predicate SameBelow(t: Tree, s: Tree) {
    match (t, s)
    case (Leaf(c, u), Leaf(d, v)) => u == v
    case (Cut(c, k, l, r), Cut(d, m, p, q)) =>
      k == m && l == p && r == q && c.leftPos == d.leftPos && c.rightPos == d.rightPos && c.median == d.median
    case _ => false
  }

  /** Placement depends on the root's size only through w and h. */
  lemma {:induction false} SizedSameBelow(t: Tree, s: Tree, pos: nat, w: real, h: real, leftx: real, bottomy: real,
                       dead: nat, o: Options, us: seq<Unit>)
    requires SameBelow(t, s) && Sizable(t, pos) && Sizable(s, pos) && Room(t, o, dead, |us|)
    ensures Room(s, o, dead, |us|)
    ensures Sized(t, pos, w, h, leftx, bottomy, dead, o, us) == Sized(s, pos, w, h, leftx, bottomy, dead, o, us)
  {
  }

  // ---- the tiling ----

  ghost function SumLeaves(t: Tree, us: seq<Unit>, f: Unit -> real): real
    requires LabelsBelow(t, |us|)
  {
    if t.Leaf? then f(us[t.unit]) else SumLeaves(t.left, us, f) + SumLeaves(t.right, us, f)
  }

  lemma {:induction false} SumLeavesSame(t: Tree, us: seq<Unit>, vs: seq<Unit>, f: Unit -> real)
    requires LabelsBelow(t, |us|) && |us| == |vs| && forall u | u in Labels(t) && u < |us| :: us[u] == vs[u]
    ensures SumLeaves(t, us, f) == SumLeaves(t, vs, f)
  {
    if t.Cut? {
      SumLeavesSame(t.left, us, vs, f);
      SumLeavesSame(t.right, us, vs, f);
    }
  }

  /** A subtree writes only its own units and the dead slots from `dead` on. */
  lemma {:induction false} SizedFrame(t: Tree, pos: nat, w: real, h: real, leftx: real, bottomy: real,
                       dead: nat, o: Options, us: seq<Unit>, i: nat)
    requires Sizable(t, pos) && Room(t, o, dead, |us|) && i < |us|
    requires i !in Labels(t) && i < o.first + dead
    ensures Sized(t, pos, w, h, leftx, bottomy, dead, o, us).units[i] == us[i]
    decreases t
  {
    if t.Cut? {
      var m := Marked(t, pos, w, h, leftx, bottomy, dead, o, us);
      var s := Settled(t, pos, w, h, o);
      var c := Corner(t, pos, leftx, bottomy);
      var a := Sized(t.left, t.curve.leftPos[pos], s.x1, s.y1, leftx, bottomy, m.dead, o, m.units);
      SizedFrame(t.left, t.curve.leftPos[pos], s.x1, s.y1, leftx, bottomy, m.dead, o, m.units, i);
      SizedFrame(t.right, t.curve.rightPos[pos], s.x2, s.y2, c.0, c.1, a.dead, o, a.units, i);
    }
  }

  /** The rectangle is at least as large as the children's join. */
  predicate Encloses(t: Tree, pos: nat, w: real, h: real)
    requires Sizable(t, pos)
  {
    t.Cut? ==>
      var p := Children(t, pos);
      w >= JoinX(t.cut, p.x1, p.x2) && h >= JoinY(t.cut, p.y1, p.y2)
  }

  /** The two grown children and the dead block, or the two children alone when the
      block was absorbed, make up the parent's rectangle. */
  lemma {:induction false} CutTiles(cut: int, w: real, h: real, p: Pair, leftx: real, bottomy: real, f: Unit -> real)
    requires Positive(p) && IsCut(cut) && Additive(f)
    requires w >= JoinX(cut, p.x1, p.x2) && h >= JoinY(cut, p.y1, p.y2)
    ensures var g := Grow(cut, w, h, p); var s := Absorb(cut, g);
      var x2, y2 := if cut == CUT_VERTICAL then leftx + p.x1 else leftx, if cut == CUT_VERTICAL then bottomy else bottomy + p.y1;
      && f(Unit(w, h, leftx, bottomy)) == f(Unit(g.x1, g.y1, leftx, bottomy)) + f(Unit(g.x2, g.y2, x2, y2))
                                        + f(DeadBlock(cut, g, leftx, bottomy))
      && f(Unit(w, h, leftx, bottomy)) == f(Unit(s.x1, s.y1, leftx, bottomy)) + f(Unit(s.x2, s.y2, x2, y2))
  {
    var g := Grow(cut, w, h, p);
    if cut == CUT_VERTICAL {
      assert SplitsX(f, leftx, bottomy, g.x1, g.x2, h);
      assert g.x1 + g.x2 == w && Max(g.y1, g.y2) == h;
      if g.y2 >= g.y1 {
        assert SplitsY(f, leftx, bottomy, g.x1, g.y1, g.y2 - g.y1);
      } else {
        assert SplitsY(f, leftx + g.x1, bottomy, g.x2, g.y2, g.y1 - g.y2);
      }
    } else {
      assert SplitsY(f, leftx, bottomy, w, g.y1, g.y2);
      assert g.y1 + g.y2 == h && Max(g.x1, g.x2) == w;
      if g.x2 >= g.x1 {
        assert SplitsX(f, leftx, bottomy, g.x1, g.x2 - g.x1, g.y1);
      } else {
        assert SplitsX(f, leftx, bottomy + g.y1, g.x2, g.x1 - g.x2, g.y2);
      }
    }
  }

  /** A cut's rectangle is its settled children and its dead block, when that survives. */
  lemma {:induction false} CutMeasure(t: Tree, pos: nat, w: real, h: real, leftx: real, bottomy: real,
                       dead: nat, o: Options, us: seq<Unit>, f: Unit -> real)
    requires t.Cut? && Sizable(t, pos) && Room(t, o, dead, |us|) && Encloses(t, pos, w, h) && Additive(f)
    ensures var m := Marked(t, pos, w, h, leftx, bottomy, dead, o, us);
      var s, c := Settled(t, pos, w, h, o), Corner(t, pos, leftx, bottomy);
      && f(Unit(w, h, leftx, bottomy))
          == f(Unit(s.x1, s.y1, leftx, bottomy)) + f(Unit(s.x2, s.y2, c.0, c.1))
           + SumRange(m.units, o.first + dead, o.first + m.dead, f)
      && Encloses(t.left, t.curve.leftPos[pos], s.x1, s.y1)
      && Encloses(t.right, t.curve.rightPos[pos], s.x2, s.y2)
  {
    var m := Marked(t, pos, w, h, leftx, bottomy, dead, o, us);
    CutTiles(t.cut, w, h, Children(t, pos), leftx, bottomy, f);
    assert SumRange(m.units, o.first + dead, o.first + dead, f) == 0.0;
  }

  /** Sums over a subtree's slots are kept by a later sibling. */
  lemma {:induction false} SumsKept(l: Tree, r: Tree, o: Options, from: nat, to: nat, us: seq<Unit>, vs: seq<Unit>, f: Unit -> real)
    requires LabelsBelow(l, o.first) && LabelsBelow(r, o.first) && Labels(l) !! Labels(r)
    requires o.first + from <= o.first + to <= |us| == |vs|
    requires forall i | 0 <= i < o.first + to && i !in Labels(r) :: us[i] == vs[i]
    ensures LabelsBelow(l, |us|) && SumLeaves(l, us, f) == SumLeaves(l, vs, f)
    ensures SumRange(us, o.first + from, o.first + to, f) == SumRange(vs, o.first + from, o.first + to, f)
  {
    LabelsBelowMore(l, o.first, |us|);
    LabelsAreBelow(l, o.first);
    LabelsAreBelow(r, o.first);
    SumLeavesSame(l, us, vs, f);
    SumRangeSame(us, vs, o.first + from, o.first + to, f);
  }

  /** A subtree's units and its dead slots from `dead` to r.dead add up to total. */
  ghost predicate Totals(t: Tree, dead: nat, o: Options, r: Placed, f: Unit -> real, total: real) {
    && LabelsBelow(t, |r.units|) && o.first + dead <= o.first + r.dead <= |r.units|
    && SumLeaves(t, r.units, f) + SumRange(r.units, o.first + dead, o.first + r.dead, f) == total
  }

  /** The sums of the two children and the dead block taken between them combine. */
  lemma {:induction false} TotalsJoin(t: Tree, o: Options, dead: nat, m: Placed, a: Placed, b: Placed, f: Unit -> real,
                                      left: real, right: real)
    requires t.Cut? && LabelsBelow(t, o.first) && DistinctLabels(t)
    requires dead <= m.dead && |m.units| == |a.units| == |b.units|
    requires forall i | 0 <= i < o.first + a.dead && i !in Labels(t.right) && i < |b.units| :: a.units[i] == b.units[i]
    requires forall i | o.first <= i < o.first + m.dead && i < |a.units| :: m.units[i] == a.units[i]
    requires Totals(t.left, m.dead, o, a, f, left) && Totals(t.right, a.dead, o, b, f, right)
    ensures Totals(t, dead, o, b, f, left + right + SumRange(m.units, o.first + dead, o.first + m.dead, f))
  {
    hide SumRange;
    LabelsBelowMore(t.right, o.first, |b.units|);
    SumsKept(t.left, t.right, o, m.dead, a.dead, a.units, b.units, f);
    SumsKept(t.left, t.right, o, dead, m.dead, a.units, b.units, f);
    SumRangeSame(m.units, a.units, o.first + dead, o.first + m.dead, f);
    SumRangeSplit(b.units, o.first + dead, o.first + m.dead, o.first + b.dead, f);
    SumRangeSplit(b.units, o.first + m.dead, o.first + a.dead, o.first + b.dead, f);
  }

  /** The left child leaves the dead block alone, the right child leaves everything of
      the left child alone. */
  lemma {:induction false} ChildFrames(t: Tree, pos: nat, s: Pair, c: (real, real), leftx: real, bottomy: real,
                       o: Options, m: Placed, a: Placed, b: Placed)
    requires t.Cut? && Sizable(t, pos) && Room(t.left, o, m.dead, |m.units|)
    requires a == Sized(t.left, t.curve.leftPos[pos], s.x1, s.y1, leftx, bottomy, m.dead, o, m.units)
    requires Room(t.right, o, a.dead, |m.units|)
    requires b == Sized(t.right, t.curve.rightPos[pos], s.x2, s.y2, c.0, c.1, a.dead, o, a.units)
    ensures forall i | 0 <= i < o.first + a.dead && i !in Labels(t.right) :: a.units[i] == b.units[i]
    ensures forall i | o.first <= i < o.first + m.dead :: m.units[i] == a.units[i]
  {
    hide Sized;
    forall i | 0 <= i < o.first + a.dead && i !in Labels(t.right) ensures a.units[i] == b.units[i] {
      SizedFrame(t.right, t.curve.rightPos[pos], s.x2, s.y2, c.0, c.1, a.dead, o, a.units, i);
    }
    LabelsAreBelow(t.left, o.first);
    forall i | o.first <= i < o.first + m.dead ensures m.units[i] == a.units[i] {
      SizedFrame(t.left, t.curve.leftPos[pos], s.x1, s.y1, leftx, bottomy, m.dead, o, m.units, i);
    }
  }

  /** The units and surviving dead blocks of a subtree add up to its rectangle under
      every additive measure. */
  lemma {:induction false} SizedTiles(t: Tree, pos: nat, w: real, h: real, leftx: real, bottomy: real,
                       dead: nat, o: Options, us: seq<Unit>, f: Unit -> real)
    requires Sizable(t, pos) && Room(t, o, dead, |us|) && DistinctLabels(t)
    requires Encloses(t, pos, w, h) && Additive(f)
    ensures Totals(t, dead, o, Sized(t, pos, w, h, leftx, bottomy, dead, o, us), f, f(Unit(w, h, leftx, bottomy)))
    decreases t
  {
    LabelsBelowMore(t, o.first, |us|);
    if t.Cut? {
      var m := Marked(t, pos, w, h, leftx, bottomy, dead, o, us);
      var s, c := Settled(t, pos, w, h, o), Corner(t, pos, leftx, bottomy);
      var l, r := t.curve.leftPos[pos], t.curve.rightPos[pos];
      CutMeasure(t, pos, w, h, leftx, bottomy, dead, o, us, f);
      hide Marked, Settled, Corner, Encloses, Additive, Natural, InRange, Totals;
      var a := Sized(t.left, l, s.x1, s.y1, leftx, bottomy, m.dead, o, m.units);
      var b := Sized(t.right, r, s.x2, s.y2, c.0, c.1, a.dead, o, a.units);
      assert b == Sized(t, pos, w, h, leftx, bottomy, dead, o, us);
      hide Sized, Sizable;
      SizedTiles(t.left, l, s.x1, s.y1, leftx, bottomy, m.dead, o, m.units, f);
      SizedTiles(t.right, r, s.x2, s.y2, c.0, c.1, a.dead, o, a.units, f);
      ChildFrames(t, pos, s, c, leftx, bottomy, o, m, a, b);
      TotalsJoin(t, o, dead, m, a, b, f, f(Unit(s.x1, s.y1, leftx, bottomy)), f(Unit(s.x2, s.y2, c.0, c.1)));
    }
  }

  lemma {:induction false} LabelsBelowMore(t: Tree, m: nat, n: nat)
    requires LabelsBelow(t, m) && m <= n
    ensures LabelsBelow(t, n)
  {
    if t.Cut? {
      LabelsBelowMore(t.left, m, n);
      LabelsBelowMore(t.right, m, n);
    }
  }

  lemma {:induction false} LabelsAreBelow(t: Tree, n: nat)
    requires LabelsBelow(t, n)
    ensures forall u | u in Labels(t) :: u < n
  {
    if t.Cut? {
      LabelsAreBelow(t.left, n);
      LabelsAreBelow(t.right, n);
    }
  }

  // ---- trees read off normalized expressions ----

  /** Every entry of a tree built from positive staircases can be sized. */
  lemma {:induction false} BuiltSizable(t: Tree, leaves: seq<Curve>, pos: nat)
    requires Built(t, leaves) && Staircases(leaves) && pos < |t.curve.x|
    ensures Sizable(t, pos) && Natural(t, pos) && Encloses(t, pos, t.curve.x[pos], t.curve.y[pos])
  {
    BuiltStaircase(t, leaves);
    if t.Cut? {
      SumEntry(t.left.curve, t.right.curve, t.cut, t.curve, pos);
      BuiltSizable(t.left, leaves, t.curve.leftPos[pos]);
      BuiltSizable(t.right, leaves, t.curve.rightPos[pos]);
    }
  }

  /** The labels of a tree are the units of its printed form. */
  lemma {:induction false} LabelsPrinted(t: Tree, leaves: seq<Curve>)
    requires Built(t, leaves)
    ensures forall u: nat :: u in Labels(t) <==> u in Postorder(t)
    ensures |Postorder(t)| == 2 * CutCount(t) + 1
  {
    if t.Cut? {
      LabelsPrinted(t.left, leaves);
      LabelsPrinted(t.right, leaves);
      forall u: nat ensures u in Labels(t) <==> u in Postorder(t) {
        assert u in Postorder(t) <==> u in Postorder(t.left) || u in Postorder(t.right);
      }
    }
  }

  lemma {:induction false} LabelsDistinct(t: Tree, leaves: seq<Curve>)
    requires Built(t, leaves) && UnitsDistinct(Postorder(t))
    ensures DistinctLabels(t)
  {
    if t.Cut? {
      PartsDistinct(Postorder(t.left), Postorder(t.right), t.cut);
      LabelsDistinct(t.left, leaves);
      LabelsDistinct(t.right, leaves);
      LabelsPrinted(t.left, leaves);
      LabelsPrinted(t.right, leaves);
      hide Postorder, UnitsDistinct;
    }
  }

  /** Distinct units of an expression are distinct in its parts and between them. */
  lemma {:induction false} PartsDistinct(l: seq<int>, r: seq<int>, cut: int)
    requires UnitsDistinct(l + r + [cut])
    ensures UnitsDistinct(l) && UnitsDistinct(r)
    ensures forall i, j | 0 <= i < |l| && 0 <= j < |r| && l[i] >= 0 :: l[i] != r[j]
  {
    var e := l + r + [cut];
    assert forall i | 0 <= i < |l| :: e[i] == l[i];
    assert forall j | 0 <= j < |r| :: e[|l| + j] == r[j];
  }

  lemma {:induction false} LabelsCount(t: Tree)
    requires DistinctLabels(t)
    ensures |Labels(t)| == CutCount(t) + 1
  {
    if t.Cut? {
      LabelsCount(t.left);
      LabelsCount(t.right);
    }
  }

  /** A tree that prints a normalized expression has every unit exactly once. */
  lemma {:induction false} LabelsAll(t: Tree, leaves: seq<Curve>, n: nat)
    requires Built(t, leaves) && Normalized(Postorder(t), n) && n >= 1
    ensures DistinctLabels(t) && CutCount(t) == n - 1 && LabelsBelow(t, n)
    ensures forall u: nat :: u in Labels(t) <==> u < n
  {
    LabelsPrinted(t, leaves);
    LabelsDistinct(t, leaves);
    LabelsCount(t);
    FullBelow(Labels(t), n);
    BelowFromLabels(t, n);
  }

  lemma {:induction false} BelowFromLabels(t: Tree, n: nat)
    requires forall u | u in Labels(t) :: u < n
    ensures LabelsBelow(t, n)
  {
    assert t.Leaf? ==> t.unit in Labels(t);
    if t.Cut? {
      assert forall u | u in Labels(t.left) || u in Labels(t.right) :: u in Labels(t);
      BelowFromLabels(t.left, n);
      BelowFromLabels(t.right, n);
    }
  }

  /** The measure of the listed units among the first k. */
  ghost function SumIn(s: set<nat>, us: seq<Unit>, k: nat, f: Unit -> real): real
    requires k <= |us|
  {
    if k == 0 then 0.0 else SumIn(s, us, k - 1, f) + if k - 1 in s then f(us[k-1]) else 0.0
  }

  lemma {:induction false} SumInOne(u: nat, us: seq<Unit>, k: nat, f: Unit -> real)
    requires k <= |us|
    ensures SumIn({u}, us, k, f) == if u < k then f(us[u]) else 0.0
  {
    if k > 0 { SumInOne(u, us, k - 1, f); }
  }

  lemma {:induction false} SumInUnion(s: set<nat>, t: set<nat>, us: seq<Unit>, k: nat, f: Unit -> real)
    requires k <= |us| && s !! t
    ensures SumIn(s + t, us, k, f) == SumIn(s, us, k, f) + SumIn(t, us, k, f)
  {
    if k > 0 { SumInUnion(s, t, us, k - 1, f); }
  }

  lemma {:induction false} SumInAll(s: set<nat>, us: seq<Unit>, k: nat, f: Unit -> real)
    requires k <= |us| && forall u | 0 <= u < k :: u in s
    ensures SumIn(s, us, k, f) == SumRange(us, 0, k, f)
  {
    if k > 0 { SumInAll(s, us, k - 1, f); }
  }

  lemma {:induction false} SumLeavesIn(t: Tree, us: seq<Unit>, k: nat, f: Unit -> real)
    requires DistinctLabels(t) && LabelsBelow(t, k) && k <= |us|
    ensures LabelsBelow(t, |us|) && SumLeaves(t, us, f) == SumIn(Labels(t), us, k, f)
  {
    LabelsBelowMore(t, k, |us|);
    if t.Leaf? {
      SumInOne(t.unit, us, k, f);
    } else {
      SumLeavesIn(t.left, us, k, f);
      SumLeavesIn(t.right, us, k, f);
      SumInUnion(Labels(t.left), Labels(t.right), us, k, f);
    }
  }

  /** Sizing a tree that prints a normalized expression from any position gives blocks
      that add up to the chosen root rectangle under every additive measure. */
  lemma {:induction false} FloorplanTotals(t: Tree, leaves: seq<Curve>, n: nat, pos: nat, o: Options, us: seq<Unit>, f: Unit -> real)
    requires Built(t, leaves) && Staircases(leaves) && Normalized(Postorder(t), n) && n >= 1
    requires pos < |t.curve.x| && o.first == n && |us| >= 2 * n - 1 && Additive(f)
    ensures Sizable(t, pos) && Room(t, o, 0, |us|)
    ensures var r := Sized(t, pos, t.curve.x[pos], t.curve.y[pos], 0.0, 0.0, 0, o, us);
      r.dead <= n - 1 && SumRange(r.units, 0, n + r.dead, f) == f(Unit(t.curve.x[pos], t.curve.y[pos], 0.0, 0.0))
  {
    hide Built, Normalized, Staircases, Sized, Labels, SumRange, Additive;
    LabelsAll(t, leaves, n);
    BuiltSizable(t, leaves, pos);
    var r := Sized(t, pos, t.curve.x[pos], t.curve.y[pos], 0.0, 0.0, 0, o, us);
    SizedTiles(t, pos, t.curve.x[pos], t.curve.y[pos], 0.0, 0.0, 0, o, us, f);
    SumLeavesIn(t, r.units, n, f);
    SumInAll(Labels(t), r.units, n, f);
    SumRangeSplit(r.units, 0, n, n + r.dead, f);
  }

  /** The blocks tile the root rectangle, and their areas add up to its area. */
  lemma {:induction false} FloorplanTiles(t: Tree, leaves: seq<Curve>, n: nat, pos: nat, o: Options, us: seq<Unit>)
    requires Built(t, leaves) && Staircases(leaves) && Normalized(Postorder(t), n) && n >= 1
    requires pos < |t.curve.x| && o.first == n && |us| >= 2 * n - 1
    ensures Sizable(t, pos) && Room(t, o, 0, |us|)
    ensures var r := Sized(t, pos, t.curve.x[pos], t.curve.y[pos], 0.0, 0.0, 0, o, us);
      && r.dead <= n - 1
      && SumRange(r.units, 0, n + r.dead, AreaOf) == AreaOf(Unit(t.curve.x[pos], t.curve.y[pos], 0.0, 0.0))
      && forall px: real, py: real ::
           SumRange(r.units, 0, n + r.dead, At(px, py)) == At(px, py)(Unit(t.curve.x[pos], t.curve.y[pos], 0.0, 0.0))
  {
    hide Built, Normalized, Staircases, Sized, SumRange, Additive, At, AreaOf;
    AreaIsAdditive();
    FloorplanTotals(t, leaves, n, pos, o, us, AreaOf);
    var r := Sized(t, pos, t.curve.x[pos], t.curve.y[pos], 0.0, 0.0, 0, o, us);
    var whole := Unit(t.curve.x[pos], t.curve.y[pos], 0.0, 0.0);
    forall px: real, py: real ensures SumRange(r.units, 0, n + r.dead, At(px, py)) == At(px, py)(whole) {
      AtIsAdditive(px, py);
      FloorplanTotals(t, leaves, n, pos, o, us, At(px, py));
    }
  }
}
