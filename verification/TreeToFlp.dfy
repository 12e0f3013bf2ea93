/** Recursive sizing in memory: the children's curves grow in place while the blocks
    are written into the floorplan's array. */
module TreeToFlp {
  import opened Numbers
  import opened PolishExpression
  import opened ShapeCurve
  import opened SlicingTree
  import opened TreeNodes
  import opened Rectangles
  import opened Sizing
  import opened DeadBlocks
  import PlacedBlocks

  class Floorplan {
    const units: array<Unit>
    var nUnits: nat

    constructor (size: nat)
      ensures fresh(units) && units.Length == nUnits == size
    {
      units := new Unit[size](_ => Unit(0.0, 0.0, 0.0, 0.0));
      nUnits := size;
    }
  }

  /** The two children's sizes as stored in their curves. */
  ghost predicate Holds(l: Shape, r: Shape, lp: nat, rp: nat, p: Pair)
    reads l.x, l.y, r.x, r.y
  {
    && lp < l.x.Length == l.y.Length && rp < r.x.Length == r.y.Length
    && p == Pair(l.x[lp], l.y[lp], r.x[rp], r.y[rp])
  }

  /** The first half of sizing a cut: the children absorb earlier compaction. */
  method GrowChildren(cut: int, w: real, h: real, l: Shape, r: Shape, lp: nat, rp: nat, ghost p: Pair)
    requires {l.x, l.y} !! {r.x, r.y} && l.x != l.y && r.x != r.y && Holds(l, r, lp, rp, p)
    modifies l.x, l.y, r.x, r.y
    ensures Holds(l, r, lp, rp, Grow(cut, w, h, p))
    ensures forall i | 0 <= i < l.x.Length && i != lp :: l.x[i] == old(l.x[i]) && l.y[i] == old(l.y[i])
    ensures forall i | 0 <= i < r.x.Length && i != rp :: r.x[i] == old(r.x[i]) && r.y[i] == old(r.y[i])
  {
    var x1, x2, y1, y2 := l.x[lp], r.x[rp], l.y[lp], r.y[rp];
    if cut == CUT_VERTICAL {
      if h > Max(y1, y2) {
        l.y[lp] := l.y[lp] + (h - Max(y1, y2));
        r.y[rp] := r.y[rp] + (h - Max(y1, y2));
      }
      if w > x1 + x2 {
        r.x[rp] := r.x[rp] + (w - (x1 + x2));
      }
    } else {
      if w > Max(x1, x2) {
        l.x[lp] := l.x[lp] + (w - Max(x1, x2));
        r.x[rp] := r.x[rp] + (w - Max(x1, x2));
      }
      if h > y1 + y2 {
        r.y[rp] := r.y[rp] + (h - (y1 + y2));
      }
    }
  }

  /** The second half: a small enough dead block goes to the lower or narrower child. */
  method AbsorbDead(cut: int, l: Shape, r: Shape, lp: nat, rp: nat, o: Options, ghost p: Pair) returns (kept: bool)
    requires {l.x, l.y} !! {r.x, r.y} && l.x != l.y && r.x != r.y && Holds(l, r, lp, rp, p) && Positive(p)
    modifies l.x, l.y, r.x, r.y
    ensures kept == !Compacts(cut, p, o.compactDead, o.ratio)
    ensures Holds(l, r, lp, rp, if kept then p else Absorb(cut, p))
    ensures forall i | 0 <= i < l.x.Length && i != lp :: l.x[i] == old(l.x[i]) && l.y[i] == old(l.y[i])
    ensures forall i | 0 <= i < r.x.Length && i != rp :: r.x[i] == old(r.x[i]) && r.y[i] == old(r.y[i])
  {
    var x1, x2, y1, y2 := l.x[lp], r.x[rp], l.y[lp], r.y[rp];
    kept := true;
    if cut == CUT_VERTICAL {
      if o.compactDead && Abs(y2 - y1) / Min(y1, y2) <= o.ratio {
        kept := false;
        if y2 >= y1 { l.y[lp] := y2; } else { r.y[rp] := y1; }
      }
    } else {
      if o.compactDead && Abs(x2 - x1) / Min(x1, x2) <= o.ratio {
        kept := false;
        if x2 >= x1 { l.x[lp] := x2; } else { r.x[rp] := x1; }
      }
    }
  }

  /** A node whose own curve changed at one entry. */
  lemma {:induction false} Patched(t: Tree, s: Tree, pos: nat, w: real, h: real)
    requires SameBelow(t, s) && Sizable(t, pos) && w > 0.0 && h > 0.0
    requires |s.curve.x| == |t.curve.x| && |s.curve.y| == |t.curve.y|
    requires s.curve.x[pos] == w && s.curve.y[pos] == h
    ensures Sizable(s, pos)
  {
  }

  /** Below the patched entry of its root a child is what it was. */
  ghost predicate Settles(node: TreeNode, t: Tree, pos: nat, w: real, h: real)
    reads node.Arrays
  {
    && node.Valid() && pos < node.curve.x.Length == node.curve.y.Length
    && SameBelow(t, node.Value()) && Sizable(node.Value(), pos)
    && node.curve.x[pos] == w && node.curve.y[pos] == h
  }

  /** A node whose own curve alone was patched, at one entry. */
  lemma {:induction false} SettlesAfterPatch(node: TreeNode, t: Tree, pos: nat, w: real, h: real)
    requires node.Valid() && Sizable(t, pos) && w > 0.0 && h > 0.0
    requires pos < node.curve.x.Length == node.curve.y.Length == |t.curve.x|
    requires node.curve.x[pos] == w && node.curve.y[pos] == h
    requires SameBelow(t, node.Value())
    ensures Settles(node, t, pos, w, h)
  {
    Patched(t, node.Value(), pos, w, h);
  }

  /** The children of a cut, their curves and the arrays they own. */
  lemma {:induction false} ChildArrays(node: TreeNode)
    requires node.Valid() && node.tag < 0
    ensures node.left != null && node.right != null
    ensures var l, r := node.left, node.right;
      && l.Valid() && r.Valid() && l.height < node.height && r.height < node.height
      && l.Arrays <= node.Arrays && r.Arrays <= node.Arrays && l.Arrays !! r.Arrays
      && l.curve.x in l.Arrays && l.curve.y in l.Arrays && l.curve.x != l.curve.y
      && r.curve.x in r.Arrays && r.curve.y in r.Arrays && r.curve.x != r.curve.y
      && node.Value() == Cut(node.curve.Value(), node.tag, l.Value(), r.Value())
      && l.Value().curve == l.curve.Value() && r.Value().curve == r.curve.Value()
  {
  }

  /** Patching the root's own curve leaves the tree below as it was. */
  twostate lemma OnlyRootPatched(node: TreeNode)
    requires node.Valid()
    requires forall o | o in node.Arrays && o != node.curve.x && o != node.curve.y :: unchanged(o)
    ensures SameBelow(old(node.Value()), node.Value())
  {
    if node.tag < 0 {
      ChildArrays(node);
      assert node.curve.x !in node.left.Arrays && node.curve.y !in node.left.Arrays;
      assert node.curve.x !in node.right.Arrays && node.curve.y !in node.right.Arrays;
    }
  }

  lemma {:induction false} PositiveChildren(t: Tree, pos: nat)
    requires t.Cut? && Sizable(t, pos)
    ensures InRange(t, pos) && Positive(Children(t, pos))
  {
  }

  /** The writes sizing makes at one cut. */
  method PatchCut(node: TreeNode, pos: nat, leftx: real, bottomy: real, deadCount: nat, o: Options,
                  flp: Floorplan, l: Shape, r: Shape, ghost p: Pair)
    returns (dead: nat)
    requires pos < node.curve.x.Length == node.curve.y.Length
    requires pos < |node.curve.leftPos| == |node.curve.rightPos|
    requires {l.x, l.y} !! {r.x, r.y} && l.x != l.y && r.x != r.y
    requires Holds(l, r, node.curve.leftPos[pos], node.curve.rightPos[pos], p) && Positive(p)
    requires o.first == (flp.nUnits + 1) / 2 && o.first + deadCount < flp.units.Length
    modifies l.x, l.y, r.x, r.y, flp.units
    ensures var g := Grow(node.tag, old(node.curve.x[pos]), old(node.curve.y[pos]), p);
      && Positive(g)
      && var taken := Compacts(node.tag, g, o.compactDead, o.ratio);
      && dead == (if taken then deadCount else deadCount + 1)
      && flp.units[..] == old(flp.units[..])[o.first + deadCount := DeadBlock(node.tag, g, leftx, bottomy)]
      && Holds(l, r, node.curve.leftPos[pos], node.curve.rightPos[pos], if taken then Absorb(node.tag, g) else g)
  {
    var w, h := node.curve.x[pos], node.curve.y[pos];
    var lp, rp := node.curve.leftPos[pos], node.curve.rightPos[pos];
    var idx := (flp.nUnits + 1) / 2 + deadCount;
    ghost var g := Grow(node.tag, w, h, p);
    hide Grow, Absorb, Compacts, DeadBlock, Positive;
    GrowChildren(node.tag, w, h, l, r, lp, rp, p);
    var x1, x2, y1, y2 := l.x[lp], r.x[rp], l.y[lp], r.y[rp];
    flp.units[idx] := DeadBlock(node.tag, Pair(x1, y1, x2, y2), leftx, bottomy);
    var kept := AbsorbDead(node.tag, l, r, lp, rp, o, g);
    dead := if kept then deadCount + 1 else deadCount;
  }

  lemma {:induction false} EntryInRange(node: TreeNode, pos: nat)
    requires node.Valid() && node.tag < 0 && Sizable(node.Value(), pos)
    ensures pos < node.curve.x.Length == node.curve.y.Length && node.Value().Cut?
    ensures pos < |node.curve.leftPos| == |node.curve.rightPos| && pos < |node.curve.median|
  {
    ChildArrays(node);
  }

  /** The children's entries a cut's entry points to. */
  lemma {:induction false} ChildEntries(node: TreeNode, pos: nat, left: TreeNode, right: TreeNode)
    requires node.Valid() && node.tag < 0 && node.left == left && node.right == right && Sizable(node.Value(), pos)
    ensures var t, lp, rp := node.Value(), node.curve.leftPos[pos], node.curve.rightPos[pos];
      && t.Cut? && t.curve.leftPos[pos] == lp && t.curve.rightPos[pos] == rp && t.cut == node.tag
      && pos < |t.curve.median| && t.curve.median[pos] == node.curve.median[pos]
      && left.Valid() && right.Valid() && t.left == left.Value() && t.right == right.Value()
      && lp < left.curve.x.Length == left.curve.y.Length == |t.left.curve.x|
      && rp < right.curve.x.Length == right.curve.y.Length == |t.right.curve.x|
      && Holds(left.curve, right.curve, lp, rp, Children(t, pos))
  {
    ChildArrays(node);
  }

  /** What marking and settling a cut come to. */
  lemma {:induction false} CutSettled(t: Tree, pos: nat, w: real, h: real, leftx: real, bottomy: real, dead: nat, o: Options, us: seq<Unit>)
    requires t.Cut? && Sizable(t, pos) && Room(t, o, dead, |us|)
    ensures Positive(Settled(t, pos, w, h, o)) && o.first + dead < |us|
    ensures var g := Grow(t.cut, w, h, Children(t, pos));
      && Settled(t, pos, w, h, o) == (if Compacts(t.cut, g, o.compactDead, o.ratio) then Absorb(t.cut, g) else g)
      && Marked(t, pos, w, h, leftx, bottomy, dead, o, us)
         == Placed(us[o.first + dead := DeadBlock(t.cut, g, leftx, bottomy)], if Compacts(t.cut, g, o.compactDead, o.ratio) then dead else dead + 1)
  {
    PositiveChildren(t, pos);
    hide Sized, Sizable;
  }

  lemma {:induction false} PairHeld(l: Shape, r: Shape, lp: nat, rp: nat, p: Pair)
    requires Holds(l, r, lp, rp, p) && Positive(p)
    ensures lp < l.x.Length == l.y.Length && rp < r.x.Length == r.y.Length
    ensures l.x[lp] == p.x1 > 0.0 && l.y[lp] == p.y1 > 0.0 && r.x[rp] == p.x2 > 0.0 && r.y[rp] == p.y2 > 0.0
  {
  }

  /** Sizing one cut, up to the recursive calls. */
  method SettleCut(node: TreeNode, pos: nat, leftx: real, bottomy: real, deadCount: nat, o: Options,
                   flp: Floorplan, left: TreeNode, right: TreeNode)
    returns (dead: nat)
    requires node.Valid() && node.left == left && node.right == right && node.tag < 0
    requires Sizable(node.Value(), pos) && Room(node.Value(), o, deadCount, flp.units.Length)
    requires o.first == (flp.nUnits + 1) / 2 && {flp, flp.units} !! node.Arrays
    modifies left.curve.x, left.curve.y, right.curve.x, right.curve.y, flp.units
    ensures var m := old(Marked(node.Value(), pos, node.curve.x[pos], node.curve.y[pos], leftx, bottomy, deadCount, o, flp.units[..]));
      flp.units[..] == m.units && dead == m.dead
    ensures var t := old(node.Value()); var s := old(Settled(node.Value(), pos, node.curve.x[pos], node.curve.y[pos], o));
      && Settles(left, t.left, t.curve.leftPos[pos], s.x1, s.y1)
      && Settles(right, t.right, t.curve.rightPos[pos], s.x2, s.y2)
  {
    hide *;
    EntryInRange(node, pos);
    ghost var t, us := node.Value(), flp.units[..];
    ghost var w, h := node.curve.x[pos], node.curve.y[pos];
    ghost var s := Settled(t, pos, w, h, o);
    var lp, rp := node.curve.leftPos[pos], node.curve.rightPos[pos];
    ChildArrays(node);
    ChildEntries(node, pos, left, right);
    CutPlaced(t, pos, w, h, leftx, bottomy, deadCount, o, us);
    assert forall q | q in left.Arrays :: q != right.curve.x && q != right.curve.y && q != flp.units;
    assert forall q | q in right.Arrays :: q != left.curve.x && q != left.curve.y && q != flp.units;
    PositiveChildren(t, pos);
    ghost var g := Grow(t.cut, w, h, Children(t, pos));
    ghost var m := Marked(t, pos, w, h, leftx, bottomy, deadCount, o, us);
    CutSettled(t, pos, w, h, leftx, bottomy, deadCount, o, us);
    dead := PatchCut(node, pos, leftx, bottomy, deadCount, o, flp, left.curve, right.curve, Children(t, pos));
    OnlyRootPatched(left);
    OnlyRootPatched(right);
    PairHeld(left.curve, right.curve, lp, rp, s);
    SettlesAfterPatch(left, t.left, lp, s.x1, s.y1);
    SettlesAfterPatch(right, t.right, rp, s.x2, s.y2);
  }

  /** What the left child of a cut leaves behind. */
  ghost function AfterLeft(t: Tree, pos: nat, w: real, h: real, leftx: real, bottomy: real,
                           dead: nat, o: Options, us: seq<Unit>): (a: Placed)
    requires t.Cut? && Sizable(t, pos) && Room(t, o, dead, |us|)
    ensures |a.units| == |us| && Room(t.right, o, a.dead, |us|)
  {
    var m, s := Marked(t, pos, w, h, leftx, bottomy, dead, o, us), Settled(t, pos, w, h, o);
    Sized(t.left, t.curve.leftPos[pos], s.x1, s.y1, leftx, bottomy, m.dead, o, m.units)
  }

  /** How a cut's placement is put together from its children's. */
  lemma {:induction false} CutPlaced(t: Tree, pos: nat, w: real, h: real, leftx: real, bottomy: real,
                       dead: nat, o: Options, us: seq<Unit>)
    requires t.Cut? && Sizable(t, pos) && Room(t, o, dead, |us|)
    ensures Sizable(t.left, t.curve.leftPos[pos]) && Sizable(t.right, t.curve.rightPos[pos])
    ensures var m, s := Marked(t, pos, w, h, leftx, bottomy, dead, o, us), Settled(t, pos, w, h, o);
      && |m.units| == |us| && Room(t.left, o, m.dead, |us|)
      && AfterLeft(t, pos, w, h, leftx, bottomy, dead, o, us)
         == Sized(t.left, t.curve.leftPos[pos], s.x1, s.y1, leftx, bottomy, m.dead, o, m.units)
    ensures var s, c := Settled(t, pos, w, h, o), Corner(t, pos, leftx, bottomy);
      var a := AfterLeft(t, pos, w, h, leftx, bottomy, dead, o, us);
      Sized(t, pos, w, h, leftx, bottomy, dead, o, us)
        == Sized(t.right, t.curve.rightPos[pos], s.x2, s.y2, c.0, c.1, a.dead, o, a.units)
    ensures pos < |t.curve.median| && Corner(t, pos, leftx, bottomy) == Beside(t.cut, t.curve.median[pos], leftx, bottomy)
  {
  }

  /** The dead block and the left child of a cut. */
  method SizeLeft(node: TreeNode, pos: nat, leftx: real, bottomy: real, deadCount: nat, o: Options, flp: Floorplan,
                  left: TreeNode, right: TreeNode)
    returns (dead: nat)
    requires node.Valid() && node.tag < 0 && node.left == left && node.right == right
    requires Sizable(node.Value(), pos) && Room(node.Value(), o, deadCount, flp.units.Length)
    requires o.first == (flp.nUnits + 1) / 2
    requires {flp, flp.units} !! node.Arrays && left.height < node.height
    modifies left.Arrays, right.curve.x, right.curve.y, flp.units
    ensures Placed(flp.units[..], dead) ==
      old(AfterLeft(node.Value(), pos, node.curve.x[pos], node.curve.y[pos], leftx, bottomy, deadCount, o, flp.units[..]))
    ensures var t := old(node.Value()); var s := old(Settled(node.Value(), pos, node.curve.x[pos], node.curve.y[pos], o));
      Settles(right, t.right, t.curve.rightPos[pos], s.x2, s.y2)
    decreases node.height, 0
  {
    hide Sized, Sizable, Room, Marked, Settled, Settles, AfterLeft, Corner;
    EntryInRange(node, pos);
    ghost var t, us := node.Value(), flp.units[..];
    ghost var w, h := node.curve.x[pos], node.curve.y[pos];
    ghost var s := Settled(t, pos, w, h, o);
    ChildArrays(node);
    var lp := node.curve.leftPos[pos];
    CutPlaced(t, pos, w, h, leftx, bottomy, deadCount, o, us);
    var dead1 := SettleCut(node, pos, leftx, bottomy, deadCount, o, flp, left, right);
    dead := SizeChild(left, lp, leftx, bottomy, dead1, o, flp, t.left, s.x1, s.y1);
  }

  /** Places the subtree at entry pos of its curve, which holds the size to fill.
      Returns the number of dead slots in use. */
  method RecursiveSizing(node: TreeNode, pos: nat, leftx: real, bottomy: real, deadCount: nat, o: Options,
                         flp: Floorplan)
    returns (dead: nat)
    requires node.Valid() && Sizable(node.Value(), pos) && Room(node.Value(), o, deadCount, flp.units.Length)
    requires o.first == (flp.nUnits + 1) / 2
    requires {flp, flp.units} !! node.Arrays
    modifies node.Arrays, flp.units
    ensures Placed(flp.units[..], dead) ==
      old(Sized(node.Value(), pos, node.curve.x[pos], node.curve.y[pos], leftx, bottomy, deadCount, o, flp.units[..]))
    decreases node.height, 2
  {
    if node.tag >= 0 {
      flp.units[node.tag] := Unit(node.curve.x[pos], node.curve.y[pos], leftx, bottomy);
      dead := deadCount;
    } else {
      dead := SizeCut(node, pos, leftx, bottomy, deadCount, o, flp);
    }
  }

  method SizeCut(node: TreeNode, pos: nat, leftx: real, bottomy: real, deadCount: nat, o: Options, flp: Floorplan)
    returns (dead: nat)
    requires node.Valid() && node.tag < 0
    requires Sizable(node.Value(), pos) && Room(node.Value(), o, deadCount, flp.units.Length)
    requires o.first == (flp.nUnits + 1) / 2
    requires {flp, flp.units} !! node.Arrays
    modifies node.Arrays, flp.units
    ensures Placed(flp.units[..], dead) ==
      old(Sized(node.Value(), pos, node.curve.x[pos], node.curve.y[pos], leftx, bottomy, deadCount, o, flp.units[..]))
    decreases node.height, 1
  {
    hide *;
    EntryInRange(node, pos);
    ghost var t, us := node.Value(), flp.units[..];
    ghost var w, h := node.curve.x[pos], node.curve.y[pos];
    ghost var s := Settled(t, pos, w, h, o);
    ChildArrays(node);
    ChildHeights(node);
    var left, right, rp, median := node.left, node.right, node.curve.rightPos[pos], node.curve.median[pos];
    ChildEntries(node, pos, left, right);
    CutPlaced(t, pos, w, h, leftx, bottomy, deadCount, o, us);
    var (x2, y2) := Beside(node.tag, median, leftx, bottomy);
    var dead2 := SizeLeft(node, pos, leftx, bottomy, deadCount, o, flp, left, right);
    dead := SizeChild(right, rp, x2, y2, dead2, o, flp, t.right, s.x2, s.y2);
  }

  lemma {:induction false} ChildHeights(node: TreeNode)
    requires node.Valid() && node.tag < 0
    ensures node.left != null && node.left.height < node.height && node.right != null && node.right.height < node.height
  {
  }

  /** A recursive call on a child whose root entry was patched gives the placement of
      the child as it was, at the patched size. */
  method SizeChild(node: TreeNode, pos: nat, leftx: real, bottomy: real, deadCount: nat, o: Options, flp: Floorplan,
                   ghost t: Tree, ghost w: real, ghost h: real)
    returns (dead: nat)
    requires Settles(node, t, pos, w, h) && Sizable(t, pos) && Room(t, o, deadCount, flp.units.Length)
    requires o.first == (flp.nUnits + 1) / 2 && {flp, flp.units} !! node.Arrays
    modifies node.Arrays, flp.units
    ensures Placed(flp.units[..], dead) == old(Sized(t, pos, w, h, leftx, bottomy, deadCount, o, flp.units[..]))
    decreases node.height, 3
  {
    hide Sized;
    SizedSameBelow(t, node.Value(), pos, w, h, leftx, bottomy, deadCount, o, flp.units[..]);
    dead := RecursiveSizing(node, pos, leftx, bottomy, deadCount, o, flp);
  }

  /** The chosen root rectangle: no orientations of the blocks give a smaller box. */
  ghost predicate LeastBox(t: Tree, leaves: seq<Curve>, whole: Unit)
    requires Built(t, leaves)
  {
    && (exists o :: Fits(t, o) && Width(t, o) == whole.width && Height(t, o, leaves) == whole.height)
    && forall o :: Fits(t, o) ==> Area(whole.width, whole.height) <= Area(Width(t, o), Height(t, o, leaves))
  }

  lemma {:induction false} LeastBoxAt(t: Tree, leaves: seq<Curve>, pos: nat)
    requires Built(t, leaves) && Staircases(leaves) && pos < |t.curve.x| == |t.curve.y|
    requires forall k | 0 <= k < |t.curve.x| ::
        Area(t.curve.x[pos], t.curve.y[pos]) <= Area(t.curve.x[k], t.curve.y[k])
    ensures LeastBox(t, leaves, Unit(t.curve.x[pos], t.curve.y[pos], 0.0, 0.0))
  {
    hide Area;
    RootAchieves(t, leaves, pos);
    assert Fits(t, Recorded(t, pos));
    forall o | Fits(t, o)
      ensures Area(t.curve.x[pos], t.curve.y[pos]) <= Area(Width(t, o), Height(t, o, leaves)) {
      LeastArea(t, leaves, pos, o);
    }
  }

  /** The first m blocks tile the rectangle, their areas add up to its area, they lie in
      it, and with compaction on each has area. */
  ghost predicate Floorplanned(us: seq<Unit>, m: nat, whole: Unit, compactDead: bool, ratio: real) {
    && m <= |us| && Tiles(us, m, whole) && SumRange(us, 0, m, AreaOf) == AreaOf(whole)
    && PlacedBlocks.AllGood(us, m, whole, compactDead && ratio >= 0.0)
  }

  /** The gaps of all cuts when the tree fills the rectangle of a root entry. */
  ghost predicate RootGaps(t: Tree, pos: nat, whole: Unit, o: Options, gaps: seq<Gap>) {
    && pos < |t.curve.x| && pos < |t.curve.y| && whole == Unit(t.curve.x[pos], t.curve.y[pos], 0.0, 0.0)
    && Sizable(t, pos) && gaps == Gaps(t, pos, whole.width, whole.height, 0.0, 0.0, o)
  }

  /** Every cut has a dead block, which extends a child; the blocks after the n units
      are those that are not small against it. */
  ghost predicate GapsDecide(us: seq<Unit>, m: nat, n: nat, o: Options, gaps: seq<Gap>) {
    && |gaps| == n - 1 && (forall i | 0 <= i < |gaps| :: Extends(gaps[i].dead, gaps[i].child))
    && n <= m <= |us| && us[n..m] == Surviving(o, gaps)
  }

  lemma {:induction false} SizedGaps(t: Tree, leaves: seq<Curve>, n: nat, pos: nat, o: Options, us: seq<Unit>)
    requires Built(t, leaves) && Staircases(leaves) && Normalized(Postorder(t), n) && n >= 1
    requires pos < |t.curve.x| && o.first == n && |us| >= 2 * n - 1
    requires Sizable(t, pos) && Room(t, o, 0, |us|)
    ensures var w, h := t.curve.x[pos], t.curve.y[pos];
      GapsDecide(Sized(t, pos, w, h, 0.0, 0.0, 0, o, us).units, n + Sized(t, pos, w, h, 0.0, 0.0, 0, o, us).dead, n, o,
                 Gaps(t, pos, w, h, 0.0, 0.0, o))
  {
    var w, h := t.curve.x[pos], t.curve.y[pos];
    hide *;
    LabelsAll(t, leaves, n);
    DeadSlotsAre(t, pos, w, h, 0.0, 0.0, 0, o, us);
    GapsCount(t, pos, w, h, 0.0, 0.0, o);
    HeldSlots(t, pos, w, h, o, us, n);
  }

  lemma {:induction false} HeldSlots(t: Tree, pos: nat, w: real, h: real, o: Options, us: seq<Unit>, n: nat)
    requires Sizable(t, pos) && Room(t, o, 0, |us|) && SlotsHold(t, pos, w, h, 0.0, 0.0, 0, o, us) && o.first == n
    requires var gaps := Gaps(t, pos, w, h, 0.0, 0.0, o);
      |gaps| == n - 1 && forall i | 0 <= i < |gaps| :: Extends(gaps[i].dead, gaps[i].child)
    ensures var r := Sized(t, pos, w, h, 0.0, 0.0, 0, o, us); GapsDecide(r.units, n + r.dead, n, o, Gaps(t, pos, w, h, 0.0, 0.0, o))
  {
    hide Sized, Gaps, Surviving, Extends, Sizable;
  }

  lemma {:induction false} SizedFloorplan(t: Tree, leaves: seq<Curve>, n: nat, pos: nat, o: Options, us: seq<Unit>)
    requires Built(t, leaves) && Staircases(leaves) && Normalized(Postorder(t), n) && n >= 1
    requires pos < |t.curve.x| && o.first == n && |us| >= 2 * n - 1
    ensures Sizable(t, pos) && Room(t, o, 0, |us|)
    ensures var r := Sized(t, pos, t.curve.x[pos], t.curve.y[pos], 0.0, 0.0, 0, o, us);
      && r.dead <= n - 1
      && Floorplanned(r.units, n + r.dead, Unit(t.curve.x[pos], t.curve.y[pos], 0.0, 0.0), o.compactDead, o.ratio)
  {
    FloorplanTiles(t, leaves, n, pos, o, us);
    PlacedBlocks.FloorplanGood(t, leaves, n, pos, o, us);
    hide Sized, SumRange, AreaOf, At, PlacedBlocks.AllGood;
  }

  lemma {:induction false} RootGapsAre(t: Tree, pos: nat, whole: Unit, o: Options)
    requires pos < |t.curve.x| && pos < |t.curve.y| && whole == Unit(t.curve.x[pos], t.curve.y[pos], 0.0, 0.0) && Sizable(t, pos)
    ensures RootGaps(t, pos, whole, o, Gaps(t, pos, whole.width, whole.height, 0.0, 0.0, o))
  {
  }

  /** Converts a slicing tree over n units into a floorplan: units 0..n-1 and then the
      surviving dead blocks tile the least bounding box exactly. */
  method TreeToFlp(root: TreeNode, flp: Floorplan, compactDead: bool, ratio: real,
                   ghost leaves: seq<Curve>, ghost n: nat)
    returns (compacted: int, ghost whole: Unit, ghost pos: nat, ghost gaps: seq<Gap>)
    requires root.Valid() && Built(root.Value(), leaves) && Staircases(leaves)
    requires n >= 1 && Normalized(Postorder(root.Value()), n)
    requires flp.nUnits == 2 * n - 1 <= flp.units.Length && {flp, flp.units} !! root.Arrays
    modifies root.Arrays, flp, flp.units
    ensures 0 <= compacted <= n - 1 && flp.nUnits == 2 * n - 1 - compacted
    ensures Floorplanned(flp.units[..], flp.nUnits, whole, compactDead, ratio) && whole.leftx == whole.bottomy == 0.0
    ensures old(LeastBox(root.Value(), leaves, whole))
    ensures old(RootGaps(root.Value(), pos, whole, Options(compactDead, ratio, n), gaps))
    ensures GapsDecide(flp.units[..], flp.nUnits, n, Options(compactDead, ratio, n), gaps)
  {
    hide *;
    ghost var t, us := root.Value(), flp.units[..];
    var chosen := ChooseLeast(root, leaves);
    pos := chosen;
    ghost var w, h := root.curve.x[pos], root.curve.y[pos];
    whole := Unit(w, h, 0.0, 0.0);
    var o := Options(compactDead, ratio, (flp.nUnits + 1) / 2);
    SizedFloorplan(t, leaves, n, pos, o, us);
    SizedGaps(t, leaves, n, pos, o, us);
    gaps := Gaps(t, pos, w, h, 0.0, 0.0, o);
    RootGapsAre(t, pos, whole, o);
    var dead := RecursiveSizing(root, chosen, 0.0, 0.0, 0, o, flp);
    compacted := (flp.nUnits - 1) / 2 - dead;
    flp.nUnits := flp.nUnits - compacted;
  }

  method ChooseLeast(root: TreeNode, ghost leaves: seq<Curve>) returns (pos: nat)
    requires root.Valid() && Built(root.Value(), leaves) && Staircases(leaves)
    ensures pos < root.curve.x.Length == root.curve.y.Length
    ensures var c := root.Value().curve;
      pos < |c.x| == |c.y| && c.x[pos] == root.curve.x[pos] && c.y[pos] == root.curve.y[pos]
    ensures LeastBox(root.Value(), leaves, Unit(root.curve.x[pos], root.curve.y[pos], 0.0, 0.0))
  {
    ghost var t := root.Value();
    BuiltStaircase(t, leaves);
    assert t.curve == root.curve.Value();
    hide Area, Built, LeastBox, IsSum;
    pos := MinAreaPos(root.curve);
    LeastBoxAt(t, leaves, pos);
  }
}
