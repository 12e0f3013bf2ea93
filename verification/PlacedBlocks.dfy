/** Where sizing puts each single block: inside the root rectangle, and with positive
    area whenever dead space is compacted. */
module PlacedBlocks {
  import opened Numbers
  import opened PolishExpression
  import opened ShapeCurve
  import opened SlicingTree
  import opened Rectangles
  import opened RimStrips
  import Sizing

  /** Inside the box, and of positive area if dead blocks without area are absorbed. */
  predicate Good(u: Unit, box: Unit, compacting: bool) {
    Inside(u, box) && (compacting ==> Solid(u))
  }

  predicate Compacting(o: Sizing.Options) {
    o.compactDead && o.ratio >= 0.0
  }

  predicate RectIn(w: real, h: real, leftx: real, bottomy: real, box: Unit) {
    w > 0.0 && h > 0.0 && Inside(Unit(w, h, leftx, bottomy), box)
  }

  lemma {:induction false} RatioPositive(a: real, b: real, ratio: real)
    requires a >= 0.0 && b > 0.0 && ratio >= 0.0 && a / b > ratio
    ensures a > 0.0
  {
  }

  predicate PairIn(cut: int, p: Sizing.Pair, q: Sizing.Pair, leftx: real, bottomy: real, box: Unit) {
    && RectIn(q.x1, q.y1, leftx, bottomy, box)
    && RectIn(q.x2, q.y2, if cut == CUT_VERTICAL then leftx + p.x1 else leftx,
              if cut == CUT_VERTICAL then bottomy else bottomy + p.y1, box)
  }

  /** Grown children, absorbed or not, and their dead block stay in the rectangle. */
  lemma {:induction false} GrownInside(cut: int, w: real, h: real, p: Sizing.Pair, leftx: real, bottomy: real, box: Unit)
    requires Sizing.Positive(p) && IsCut(cut) && RectIn(w, h, leftx, bottomy, box)
    requires w >= JoinX(cut, p.x1, p.x2) && h >= JoinY(cut, p.y1, p.y2)
    ensures var g := Sizing.Grow(cut, w, h, p);
      PairIn(cut, p, g, leftx, bottomy, box) && Inside(Sizing.DeadBlock(cut, g, leftx, bottomy), box)
  {
  }

  lemma {:induction false} AbsorbedInside(cut: int, w: real, h: real, p: Sizing.Pair, leftx: real, bottomy: real, box: Unit)
    requires Sizing.Positive(p) && IsCut(cut) && RectIn(w, h, leftx, bottomy, box)
    requires w >= JoinX(cut, p.x1, p.x2) && h >= JoinY(cut, p.y1, p.y2)
    ensures PairIn(cut, p, Sizing.Absorb(cut, Sizing.Grow(cut, w, h, p)), leftx, bottomy, box)
  {
  }

  lemma {:induction false} DeadSolid(cut: int, g: Sizing.Pair, leftx: real, bottomy: real, compactDead: bool, ratio: real)
    requires Sizing.Positive(g) && IsCut(cut) && compactDead && ratio >= 0.0 && !Sizing.Compacts(cut, g, compactDead, ratio)
    ensures Solid(Sizing.DeadBlock(cut, g, leftx, bottomy))
  {
    if cut == CUT_VERTICAL {
      RatioPositive(Abs(g.y2 - g.y1), Min(g.y1, g.y2), ratio);
    } else {
      RatioPositive(Abs(g.x2 - g.x1), Min(g.x1, g.x2), ratio);
    }
  }

  /** Settled children stay in the rectangle of their cut, and so does a dead block that
      was not absorbed. */
  lemma {:induction false} CutInside(t: Tree, pos: nat, w: real, h: real, leftx: real, bottomy: real, dead: nat,
                                     o: Sizing.Options, us: seq<Unit>, box: Unit)
    requires t.Cut? && Sizing.Sizable(t, pos) && Sizing.Room(t, o, dead, |us|) && Sizing.Encloses(t, pos, w, h)
    requires RectIn(w, h, leftx, bottomy, box)
    ensures var s, c := Sizing.Settled(t, pos, w, h, o), Sizing.Corner(t, pos, leftx, bottomy);
      RectIn(s.x1, s.y1, leftx, bottomy, box) && RectIn(s.x2, s.y2, c.0, c.1, box)
    ensures var m := Sizing.Marked(t, pos, w, h, leftx, bottomy, dead, o, us);
      m.dead == dead || Good(m.units[o.first + dead], box, Compacting(o))
  {
    var p := Sizing.Children(t, pos);
    var g := Sizing.Grow(t.cut, w, h, p);
    assert Sizing.Corner(t, pos, leftx, bottomy)
        == (if t.cut == CUT_VERTICAL then leftx + p.x1 else leftx, if t.cut == CUT_VERTICAL then bottomy else bottomy + p.y1);
    hide Sizing.Corner, Sizing.Grow, Sizing.Absorb, Sizing.DeadBlock, Sizing.Compacts, Inside, Solid, RectIn;
    GrownInside(t.cut, w, h, p, leftx, bottomy, box);
    AbsorbedInside(t.cut, w, h, p, leftx, bottomy, box);
    if Compacting(o) && !Sizing.Compacts(t.cut, g, o.compactDead, o.ratio) {
      DeadSolid(t.cut, g, leftx, bottomy, o.compactDead, o.ratio);
    }
  }

  lemma {:induction false} SizedGood(t: Tree, pos: nat, w: real, h: real, leftx: real, bottomy: real, dead: nat,
                                     o: Sizing.Options, us: seq<Unit>, box: Unit)
    requires Sizing.Sizable(t, pos) && Sizing.Room(t, o, dead, |us|) && Sizing.DistinctLabels(t)
    requires Sizing.Encloses(t, pos, w, h) && RectIn(w, h, leftx, bottomy, box)
    ensures var r := Sizing.Sized(t, pos, w, h, leftx, bottomy, dead, o, us);
      forall i | 0 <= i < |us| && (i in Sizing.Labels(t) || o.first + dead <= i < o.first + r.dead) :: Good(r.units[i], box, Compacting(o))
    decreases t
  {
    if t.Cut? {
      var m := Sizing.Marked(t, pos, w, h, leftx, bottomy, dead, o, us);
      var s, c := Sizing.Settled(t, pos, w, h, o), Sizing.Corner(t, pos, leftx, bottomy);
      var l, r := t.curve.leftPos[pos], t.curve.rightPos[pos];
      Sizing.CutMeasure(t, pos, w, h, leftx, bottomy, dead, o, us, AreaOf) by { AreaIsAdditive(); }
      CutInside(t, pos, w, h, leftx, bottomy, dead, o, us, box);
      hide Good, RectIn, Inside, Solid, Sizing.Marked, Sizing.Settled, Sizing.Corner, Sizing.Encloses, Sizing.Natural, Sizing.InRange;
      var a := Sizing.Sized(t.left, l, s.x1, s.y1, leftx, bottomy, m.dead, o, m.units);
      var b := Sizing.Sized(t.right, r, s.x2, s.y2, c.0, c.1, a.dead, o, a.units);
      assert b == Sizing.Sized(t, pos, w, h, leftx, bottomy, dead, o, us);
      hide Sizing.Sized, Sizing.Sizable;
      SizedGood(t.left, l, s.x1, s.y1, leftx, bottomy, m.dead, o, m.units, box);
      SizedGood(t.right, r, s.x2, s.y2, c.0, c.1, a.dead, o, a.units, box);
      Sizing.ChildFrames(t, pos, s, c, leftx, bottomy, o, m, a, b);
      Sizing.LabelsAreBelow(t.left, o.first);
    }
  }

  ghost predicate AllGood(us: seq<Unit>, n: nat, box: Unit, compacting: bool) {
    n <= |us| && forall i | 0 <= i < n :: Good(us[i], box, compacting)
  }

  /** All blocks of a floorplan lie in its rectangle, and with compaction on all of them
      have area. */
  lemma {:induction false} FloorplanGood(t: Tree, leaves: seq<Curve>, n: nat, pos: nat, o: Sizing.Options, us: seq<Unit>)
    requires Built(t, leaves) && Staircases(leaves) && Normalized(Postorder(t), n) && n >= 1
    requires pos < |t.curve.x| && o.first == n && |us| >= 2 * n - 1
    ensures Sizing.Sizable(t, pos) && Sizing.Room(t, o, 0, |us|)
    ensures var r := Sizing.Sized(t, pos, t.curve.x[pos], t.curve.y[pos], 0.0, 0.0, 0, o, us);
      AllGood(r.units, n + r.dead, Unit(t.curve.x[pos], t.curve.y[pos], 0.0, 0.0), Compacting(o))
  {
    hide Good, Sizing.Sized;
    Sizing.LabelsAll(t, leaves, n);
    Sizing.BuiltSizable(t, leaves, pos);
    Sizing.FloorplanTiles(t, leaves, n, pos, o, us);
    var box := Unit(t.curve.x[pos], t.curve.y[pos], 0.0, 0.0);
    SizedGood(t, pos, t.curve.x[pos], t.curve.y[pos], 0.0, 0.0, 0, o, us, box);
    var r := Sizing.Sized(t, pos, t.curve.x[pos], t.curve.y[pos], 0.0, 0.0, 0, o, us);
    forall i | 0 <= i < n + r.dead ensures Good(r.units[i], box, Compacting(o)) {
      assert i < n ==> i in Sizing.Labels(t);
    }
  }
}
