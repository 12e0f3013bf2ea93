/** Which dead blocks survive compaction: those larger than the given share of the smaller
    child they lie against. */
module DeadBlocks {
  import opened Sums
  import opened Numbers
  import opened PolishExpression
  import opened ShapeCurve
  import opened SlicingTree
  import opened Rectangles
  import opened RimStrips
  import opened Sizing

  /** The dead block of a cut and the child it would enlarge. */
  datatype Gap = Gap(dead: Unit, child: Unit)

  /** The block lies right on top of the child or right beside it, as long as that side. */
  predicate Extends(dead: Unit, child: Unit) {
    || (dead.width == child.width && dead.leftx == child.leftx && dead.bottomy == Top(child))
    || (dead.height == child.height && dead.bottomy == child.bottomy && dead.leftx == Right(child))
  }

  function GapOf(cut: int, g: Pair, leftx: real, bottomy: real): Gap {
    var first := if cut == CUT_VERTICAL then g.y2 >= g.y1 else g.x2 >= g.x1;
    var second := Beside(cut, if cut == CUT_VERTICAL then g.x1 else g.y1, leftx, bottomy);
    Gap(DeadBlock(cut, g, leftx, bottomy),
        if first then Unit(g.x1, g.y1, leftx, bottomy) else Unit(g.x2, g.y2, second.0, second.1))
  }

  /** What decides, told from the two areas. */
  predicate Small(o: Options, gap: Gap) {
    o.compactDead && AreaOf(gap.dead) <= Times(o.ratio, AreaOf(gap.child))
  }

  lemma {:induction false} QuotientAgainst(d: real, m: real, s: real, ratio: real)
    requires m > 0.0 && s > 0.0
    ensures d / m <= ratio <==> s * d <= Times(ratio, s * m)
  {
    var q := d / m;
    assert q * m == d;
    assert s * d == (s * m) * q;
    assert Times(ratio, s * m) == (s * m) * ratio;
    ProductPositive(s, m);
    if q < ratio { ProductPositive(s * m, ratio - q); }
    if q > ratio { ProductPositive(s * m, q - ratio); }
  }

  /** A dead block is absorbed exactly if it is small against the child it extends. */
  lemma {:induction false} AbsorbedIffSmall(cut: int, g: Pair, leftx: real, bottomy: real, o: Options)
    requires Positive(g) && IsCut(cut)
    ensures Extends(GapOf(cut, g, leftx, bottomy).dead, GapOf(cut, g, leftx, bottomy).child)
    ensures Compacts(cut, g, o.compactDead, o.ratio) <==> Small(o, GapOf(cut, g, leftx, bottomy))
  {
    GapExtends(cut, g, leftx, bottomy);
    SmallIff(cut, g, leftx, bottomy, o);
    hide Extends, GapOf, Small, Compacts;
  }

  lemma {:induction false} GapExtends(cut: int, g: Pair, leftx: real, bottomy: real)
    requires Positive(g) && IsCut(cut)
    ensures Extends(GapOf(cut, g, leftx, bottomy).dead, GapOf(cut, g, leftx, bottomy).child)
  {
  }

  lemma {:induction false} SmallIff(cut: int, g: Pair, leftx: real, bottomy: real, o: Options)
    requires Positive(g) && IsCut(cut)
    ensures Compacts(cut, g, o.compactDead, o.ratio) <==> Small(o, GapOf(cut, g, leftx, bottomy))
  {
    var gap := GapOf(cut, g, leftx, bottomy);
    if cut == CUT_VERTICAL {
      QuotientAgainst(Abs(g.y2 - g.y1), Min(g.y1, g.y2), gap.child.width, o.ratio);
    } else {
      QuotientAgainst(Abs(g.x2 - g.x1), Min(g.x1, g.x2), gap.child.height, o.ratio);
    }
  }

  /** The area of the child of less area. */
  function Lesser(g: Pair): real {
    Min(Times(g.x1, g.y1), Times(g.x2, g.y2))
  }

  ghost predicate ComparesWithLesser(cut: int, g: Pair, leftx: real, bottomy: real)
    requires Positive(g)
  {
    forall ratio :: Compacts(cut, g, true, ratio) <==> AreaOf(GapOf(cut, g, leftx, bottomy).dead) <= Times(ratio, Lesser(g))
  }

  /** The child that a dead block extends is the lower or narrower one. So the test compares with
      the child of less area, at every ratio, if and only if that is the one, or there is no
      dead area. */
  lemma {:induction false} ComparesWithLesserIff(cut: int, g: Pair, leftx: real, bottomy: real)
    requires Positive(g) && IsCut(cut)
    ensures var gap := GapOf(cut, g, leftx, bottomy);
      ComparesWithLesser(cut, g, leftx, bottomy) <==> AreaOf(gap.dead) == 0.0 || AreaOf(gap.child) == Lesser(g)
  {
    var gap := GapOf(cut, g, leftx, bottomy);
    var d, a, b := AreaOf(gap.dead), AreaOf(gap.child), Lesser(g);
    GapAreas(cut, g, leftx, bottomy);
    forall ratio ensures Compacts(cut, g, true, ratio) <==> d <= Times(ratio, a) {
      SmallIff(cut, g, leftx, bottomy, Options(true, ratio, 0));
    }
    hide GapOf, Compacts, Lesser;
    SameThreshold(d, a, b);
    if ComparesWithLesser(cut, g, leftx, bottomy) {
      forall ratio ensures d <= Times(ratio, a) <==> d <= Times(ratio, b) {
        assert Compacts(cut, g, true, ratio) <==> d <= Times(ratio, a);
      }
    }
  }

  lemma {:induction false} GapAreas(cut: int, g: Pair, leftx: real, bottomy: real)
    requires Positive(g) && IsCut(cut)
    ensures var gap := GapOf(cut, g, leftx, bottomy); AreaOf(gap.dead) >= 0.0 && AreaOf(gap.child) >= Lesser(g) > 0.0
  {
    ProductPositive(g.x1, g.y1);
    ProductPositive(g.x2, g.y2);
  }

  /** Two thresholds are the same at every ratio only if they are equal, or d is zero. */
  lemma {:induction false} SameThreshold(d: real, a: real, b: real)
    requires d >= 0.0 && a >= b > 0.0
    ensures (forall ratio :: d <= Times(ratio, a) <==> d <= Times(ratio, b)) <==> d == 0.0 || a == b
  {
    forall ratio ensures d == 0.0 ==> (d <= Times(ratio, a) <==> d <= Times(ratio, b)) {
      if ratio < 0.0 { ProductPositive(-ratio, a); ProductPositive(-ratio, b); }
      if ratio > 0.0 { ProductPositive(ratio, a); ProductPositive(ratio, b); }
    }
    if d > 0.0 && a > b {
      var q := d / a;
      assert q * a == d;
      ProductPositive(1.0, d);
      assert q > 0.0;
      ProductPositive(q, a - b);
      assert d <= Times(q, a) && d > Times(q, b);
    }
  }

  /** A concrete case: a low wide block beside a narrow high one, ratio 1. The dead block over the
      wide one has five times the area of the narrow one, and is absorbed. */
  lemma {:induction false} WideExample()
    ensures var g := Pair(10.0, 1.0, 1.0, 2.0);
      Compacts(CUT_VERTICAL, g, true, 1.0) && AreaOf(GapOf(CUT_VERTICAL, g, 0.0, 0.0).dead) == 5.0 * Lesser(g)
  {
    var g := Pair(10.0, 1.0, 1.0, 2.0);
    assert Times(g.x1, g.y1) == 10.0 && Times(g.x2, g.y2) == 2.0;
  }

  /** Both children grow by what the rectangle has beyond their join across the cut, so they
      differ as before; along the cut only the right one grows. */
  lemma {:induction false} GrowthIs(cut: int, w: real, h: real, p: Pair)
    requires Positive(p) && IsCut(cut)
    ensures var g := Grow(cut, w, h, p);
      if cut == CUT_VERTICAL
      then g.y1 - g.y2 == p.y1 - p.y2 && Max(g.y1, g.y2) == Max(h, Max(p.y1, p.y2)) && g.x1 == p.x1 && g.x1 + g.x2 == Max(w, p.x1 + p.x2)
      else g.x1 - g.x2 == p.x1 - p.x2 && Max(g.x1, g.x2) == Max(w, Max(p.x1, p.x2)) && g.y1 == p.y1 && g.y1 + g.y2 == Max(h, p.y1 + p.y2)
  {
  }

  /** The gaps of all cuts, parents before children, left before right. */
  ghost function Gaps(t: Tree, pos: nat, w: real, h: real, leftx: real, bottomy: real, o: Options): seq<Gap>
    requires Sizable(t, pos)
    decreases t
  {
    if t.Leaf? then []
    else
      var s, c := Settled(t, pos, w, h, o), Corner(t, pos, leftx, bottomy);
      [GapOf(t.cut, Grow(t.cut, w, h, Children(t, pos)), leftx, bottomy)]
      + Gaps(t.left, t.curve.leftPos[pos], s.x1, s.y1, leftx, bottomy, o)
      + Gaps(t.right, t.curve.rightPos[pos], s.x2, s.y2, c.0, c.1, o)
  }

  /** The dead blocks that are not small. */
  function Surviving(o: Options, gaps: seq<Gap>): seq<Unit> {
    if gaps == [] then []
    else (if Small(o, gaps[0]) then [] else [gaps[0].dead]) + Surviving(o, gaps[1..])
  }

  lemma {:induction false} SurvivingConcat(o: Options, a: seq<Gap>, b: seq<Gap>)
    ensures Surviving(o, a + b) == Surviving(o, a) + Surviving(o, b)
  {
    hide Small;
    if a == [] {
      assert a + b == b;
    } else {
      assert (a + b)[1..] == a[1..] + b;
      SurvivingConcat(o, a[1..], b);
    }
  }

  lemma {:induction false} SurvivingOne(o: Options, gap: Gap)
    ensures Surviving(o, [gap]) == if Small(o, gap) then [] else [gap.dead]
  {
    assert [gap][1..] == [];
  }

  /** What every surviving dead block is: larger than the share of a child it extends. */
  lemma {:induction false} SurvivorsAreLarge(o: Options, gaps: seq<Gap>, i: nat)
    requires i < |Surviving(o, gaps)|
    ensures exists gap :: gap in gaps && gap.dead == Surviving(o, gaps)[i] && !Small(o, gap)
  {
    hide Small;
    var first := if Small(o, gaps[0]) then [] else [gaps[0].dead];
    if i >= |first| {
      SurvivorsAreLarge(o, gaps[1..], i - |first|);
      var gap :| gap in gaps[1..] && gap.dead == Surviving(o, gaps[1..])[i - |first|] && !Small(o, gap);
      assert gap in gaps;
    } else {
      assert gaps[0] in gaps;
    }
  }

  /** One cut: its slot is taken exactly if its dead block is not small. */
  lemma {:induction false} CutGap(t: Tree, pos: nat, w: real, h: real, leftx: real, bottomy: real, dead: nat, o: Options, us: seq<Unit>)
    requires t.Cut? && Sizable(t, pos) && Room(t, o, dead, |us|)
    ensures var gap := GapOf(t.cut, Grow(t.cut, w, h, Children(t, pos)), leftx, bottomy);
      var m := Marked(t, pos, w, h, leftx, bottomy, dead, o, us);
      && Extends(gap.dead, gap.child) && (m.dead == dead <==> Small(o, gap))
      && Holds(m.units, o.first + dead, o.first + m.dead, Surviving(o, [gap]))
  {
    var g := Grow(t.cut, w, h, Children(t, pos));
    AbsorbedIffSmall(t.cut, g, leftx, bottomy, o);
    SurvivingOne(o, GapOf(t.cut, g, leftx, bottomy));
    hide Small, Compacts, Grow, Extends;
  }

  /** Entries from..to of the list. */
  ghost predicate Holds(us: seq<Unit>, from: nat, to: nat, list: seq<Unit>) {
    from <= to <= |us| && us[from..to] == list
  }

  lemma {:induction false} HoldsStill(us: seq<Unit>, vs: seq<Unit>, from: nat, to: nat, list: seq<Unit>)
    requires Holds(us, from, to, list) && |us| == |vs| && forall i | from <= i < to :: us[i] == vs[i]
    ensures Holds(vs, from, to, list)
  {
  }

  lemma {:induction false} HoldsBoth(us: seq<Unit>, a: nat, b: nat, c: nat, first: seq<Unit>, second: seq<Unit>)
    requires Holds(us, a, b, first) && Holds(us, b, c, second)
    ensures Holds(us, a, c, first + second)
  {
  }

  ghost predicate SameFor(us: seq<Unit>, vs: seq<Unit>, a: nat, b: nat) {
    forall i | a <= i < b && i < |us| && i < |vs| :: us[i] == vs[i]
  }

  /** The slots of a cut are its own, those of the left child, and those of the right. */
  lemma {:induction false} JoinSlots(m: seq<Unit>, a: seq<Unit>, b: seq<Unit>, p: nat, q: nat, r: nat, e: nat,
                                     own: seq<Unit>, left: seq<Unit>, right: seq<Unit>)
    requires |m| == |a| == |b| && Holds(m, p, q, own) && Holds(a, q, r, left) && Holds(b, r, e, right)
    requires SameFor(m, a, p, q) && SameFor(a, b, p, r)
    ensures Holds(b, p, e, own + left + right)
  {
    HoldsStill(m, a, p, q, own);
    HoldsBoth(a, p, q, r, own, left);
    HoldsStill(a, b, p, r, own + left);
    HoldsBoth(b, p, r, e, own + left, right);
  }

  /** What a cut's children leave of the slots written before them. */
  lemma {:induction false} SlotsKept(t: Tree, pos: nat, w: real, h: real, leftx: real, bottomy: real, dead: nat, o: Options, us: seq<Unit>)
    requires t.Cut? && Sizable(t, pos) && Room(t, o, dead, |us|)
    ensures var m, s, c := Marked(t, pos, w, h, leftx, bottomy, dead, o, us), Settled(t, pos, w, h, o), Corner(t, pos, leftx, bottomy);
      var a := Sized(t.left, t.curve.leftPos[pos], s.x1, s.y1, leftx, bottomy, m.dead, o, m.units);
      var b := Sized(t.right, t.curve.rightPos[pos], s.x2, s.y2, c.0, c.1, a.dead, o, a.units);
      && b == Sized(t, pos, w, h, leftx, bottomy, dead, o, us)
      && |m.units| == |a.units| == |b.units| == |us| && dead <= m.dead <= a.dead <= b.dead
      && SameFor(m.units, a.units, o.first + dead, o.first + m.dead) && SameFor(a.units, b.units, o.first + dead, o.first + a.dead)
  {
    var m, s, c := Marked(t, pos, w, h, leftx, bottomy, dead, o, us), Settled(t, pos, w, h, o), Corner(t, pos, leftx, bottomy);
    hide Marked, Settled, Corner;
    var a := Sized(t.left, t.curve.leftPos[pos], s.x1, s.y1, leftx, bottomy, m.dead, o, m.units);
    var b := Sized(t.right, t.curve.rightPos[pos], s.x2, s.y2, c.0, c.1, a.dead, o, a.units);
    assert b == Sized(t, pos, w, h, leftx, bottomy, dead, o, us);
    ChildFrames(t, pos, s, c, leftx, bottomy, o, m, a, b);
    LabelsAreBelow(t.right, o.first);
    hide Sized, Sizable, Labels;
  }

  /** The dead slots a subtree takes hold its surviving dead blocks, in order. */
  ghost predicate SlotsHold(t: Tree, pos: nat, w: real, h: real, leftx: real, bottomy: real, dead: nat, o: Options, us: seq<Unit>)
    requires Sizable(t, pos) && Room(t, o, dead, |us|)
  {
    var r := Sized(t, pos, w, h, leftx, bottomy, dead, o, us);
    Holds(r.units, o.first + dead, o.first + r.dead, Surviving(o, Gaps(t, pos, w, h, leftx, bottomy, o)))
  }

  lemma {:induction false} SlotsHoldIs(t: Tree, pos: nat, w: real, h: real, leftx: real, bottomy: real, dead: nat, o: Options, us: seq<Unit>, r: Placed)
    requires Sizable(t, pos) && Room(t, o, dead, |us|) && r == Sized(t, pos, w, h, leftx, bottomy, dead, o, us)
    ensures SlotsHold(t, pos, w, h, leftx, bottomy, dead, o, us)
      <==> Holds(r.units, o.first + dead, o.first + r.dead, Surviving(o, Gaps(t, pos, w, h, leftx, bottomy, o)))
  {
  }

  lemma {:induction false} CutSlots(t: Tree, pos: nat, w: real, h: real, leftx: real, bottomy: real, dead: nat, o: Options, us: seq<Unit>)
    requires t.Cut? && Sizable(t, pos) && Room(t, o, dead, |us|)
    requires var m, s, c := Marked(t, pos, w, h, leftx, bottomy, dead, o, us), Settled(t, pos, w, h, o), Corner(t, pos, leftx, bottomy);
      var a := Sized(t.left, t.curve.leftPos[pos], s.x1, s.y1, leftx, bottomy, m.dead, o, m.units);
      && SlotsHold(t.left, t.curve.leftPos[pos], s.x1, s.y1, leftx, bottomy, m.dead, o, m.units)
      && SlotsHold(t.right, t.curve.rightPos[pos], s.x2, s.y2, c.0, c.1, a.dead, o, a.units)
    ensures SlotsHold(t, pos, w, h, leftx, bottomy, dead, o, us)
  {
    hide Sized, Sizable, Room, Marked, Settled, Corner, GapOf, Grow, Small, Surviving, Extends, Gaps, Holds, Natural, InRange, Children, SlotsHold, SameFor, Positive;
    PartsSizable(t, pos, w, h, leftx, bottomy, dead, o, us);
    var m := Marked(t, pos, w, h, leftx, bottomy, dead, o, us);
    var s, c := Settled(t, pos, w, h, o), Corner(t, pos, leftx, bottomy);
    var l, r := t.curve.leftPos[pos], t.curve.rightPos[pos];
    CutGap(t, pos, w, h, leftx, bottomy, dead, o, us);
    SlotsKept(t, pos, w, h, leftx, bottomy, dead, o, us);
    SurvivingOfCut(t, pos, w, h, leftx, bottomy, o);
    var a := Sized(t.left, l, s.x1, s.y1, leftx, bottomy, m.dead, o, m.units);
    var b := Sized(t.right, r, s.x2, s.y2, c.0, c.1, a.dead, o, a.units);
    SlotsHoldIs(t.left, l, s.x1, s.y1, leftx, bottomy, m.dead, o, m.units, a);
    SlotsHoldIs(t.right, r, s.x2, s.y2, c.0, c.1, a.dead, o, a.units, b);
    SlotsHoldIs(t, pos, w, h, leftx, bottomy, dead, o, us, b);
    JoinSlots(m.units, a.units, b.units, o.first + dead, o.first + m.dead, o.first + a.dead, o.first + b.dead,
              Surviving(o, [GapOf(t.cut, Grow(t.cut, w, h, Children(t, pos)), leftx, bottomy)]),
              Surviving(o, Gaps(t.left, l, s.x1, s.y1, leftx, bottomy, o)), Surviving(o, Gaps(t.right, r, s.x2, s.y2, c.0, c.1, o)));
  }

  lemma {:induction false} SurvivingOfCut(t: Tree, pos: nat, w: real, h: real, leftx: real, bottomy: real, o: Options)
    requires t.Cut? && Sizable(t, pos)
    ensures var s, c := Settled(t, pos, w, h, o), Corner(t, pos, leftx, bottomy);
      Surviving(o, Gaps(t, pos, w, h, leftx, bottomy, o))
      == Surviving(o, [GapOf(t.cut, Grow(t.cut, w, h, Children(t, pos)), leftx, bottomy)])
        + Surviving(o, Gaps(t.left, t.curve.leftPos[pos], s.x1, s.y1, leftx, bottomy, o))
        + Surviving(o, Gaps(t.right, t.curve.rightPos[pos], s.x2, s.y2, c.0, c.1, o))
  {
    GapsOfCut(t, pos, w, h, leftx, bottomy, o);
    hide Sizable, Settled, Corner, GapOf, Grow, Children, Gaps, Surviving;
    var s, c := Settled(t, pos, w, h, o), Corner(t, pos, leftx, bottomy);
    var gap := [GapOf(t.cut, Grow(t.cut, w, h, Children(t, pos)), leftx, bottomy)];
    var left := Gaps(t.left, t.curve.leftPos[pos], s.x1, s.y1, leftx, bottomy, o);
    SurvivingConcat(o, gap, left);
    SurvivingConcat(o, gap + left, Gaps(t.right, t.curve.rightPos[pos], s.x2, s.y2, c.0, c.1, o));
  }

  /** What the children of a cut need to be sized. */
  lemma {:induction false} PartsSizable(t: Tree, pos: nat, w: real, h: real, leftx: real, bottomy: real, dead: nat, o: Options, us: seq<Unit>)
    requires t.Cut? && Sizable(t, pos) && Room(t, o, dead, |us|)
    ensures pos < |t.curve.leftPos| && pos < |t.curve.rightPos| && InRange(t, pos) && Positive(Children(t, pos))
    ensures Sizable(t.left, t.curve.leftPos[pos]) && Sizable(t.right, t.curve.rightPos[pos]) && o.first + dead < |us|
    ensures var m, s := Marked(t, pos, w, h, leftx, bottomy, dead, o, us), Settled(t, pos, w, h, o);
      Room(t.left, o, m.dead, |m.units|)
      && Room(t.right, o, Sized(t.left, t.curve.leftPos[pos], s.x1, s.y1, leftx, bottomy, m.dead, o, m.units).dead, |us|)
  {
    hide Sized, Settled;
  }

  lemma {:induction false} GapsOfCut(t: Tree, pos: nat, w: real, h: real, leftx: real, bottomy: real, o: Options)
    requires t.Cut? && Sizable(t, pos)
    ensures var s, c := Settled(t, pos, w, h, o), Corner(t, pos, leftx, bottomy);
      Gaps(t, pos, w, h, leftx, bottomy, o) == [GapOf(t.cut, Grow(t.cut, w, h, Children(t, pos)), leftx, bottomy)]
        + Gaps(t.left, t.curve.leftPos[pos], s.x1, s.y1, leftx, bottomy, o)
        + Gaps(t.right, t.curve.rightPos[pos], s.x2, s.y2, c.0, c.1, o)
  {
    hide GapOf, Grow, Settled, Corner;
  }

  lemma {:induction false} DeadSlotsAre(t: Tree, pos: nat, w: real, h: real, leftx: real, bottomy: real, dead: nat, o: Options, us: seq<Unit>)
    requires Sizable(t, pos) && Room(t, o, dead, |us|)
    ensures SlotsHold(t, pos, w, h, leftx, bottomy, dead, o, us)
    decreases t
  {
    if t.Cut? {
      var m := Marked(t, pos, w, h, leftx, bottomy, dead, o, us);
      var s, c := Settled(t, pos, w, h, o), Corner(t, pos, leftx, bottomy);
      hide SlotsHold, Marked, Settled, Corner;
      var a := Sized(t.left, t.curve.leftPos[pos], s.x1, s.y1, leftx, bottomy, m.dead, o, m.units);
      DeadSlotsAre(t.left, t.curve.leftPos[pos], s.x1, s.y1, leftx, bottomy, m.dead, o, m.units);
      DeadSlotsAre(t.right, t.curve.rightPos[pos], s.x2, s.y2, c.0, c.1, a.dead, o, a.units);
      CutSlots(t, pos, w, h, leftx, bottomy, dead, o, us);
    }
  }

  lemma {:induction false} GapsCount(t: Tree, pos: nat, w: real, h: real, leftx: real, bottomy: real, o: Options)
    requires Sizable(t, pos)
    ensures var gaps := Gaps(t, pos, w, h, leftx, bottomy, o);
      |gaps| == CutCount(t) && forall i | 0 <= i < |gaps| :: Extends(gaps[i].dead, gaps[i].child)
    decreases t
  {
    if t.Cut? {
      var s, c := Settled(t, pos, w, h, o), Corner(t, pos, leftx, bottomy);
      var g := Grow(t.cut, w, h, Children(t, pos));
      AbsorbedIffSmall(t.cut, g, leftx, bottomy, o);
      hide Settled, Corner, GapOf, Grow, Extends, Small;
      GapsCount(t.left, t.curve.leftPos[pos], s.x1, s.y1, leftx, bottomy, o);
      GapsCount(t.right, t.curve.rightPos[pos], s.x2, s.y2, c.0, c.1, o);
    }
  }
}
