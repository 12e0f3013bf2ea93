/** Slicing trees: reading one off a Polish expression with a bounded stack, printing
    it back, and the bounding box of least area. */
module SlicingTree {
  import opened PolishExpression
  import opened ShapeCurve

  /** A slicing tree as a value. */
  datatype Tree =
    | Leaf(curve: Curve, unit: nat)
    | Cut(curve: Curve, cut: int, left: Tree, right: Tree)

  function Postorder(t: Tree): seq<int> {
    match t
    case Leaf(_, unit) => [unit]
    case Cut(_, cut, l, r) => Postorder(l) + Postorder(r) + [cut]
  }

  /** Every curve is the sum of its children's curves, as built from the leaves. */
  ghost predicate Built(t: Tree, leaves: seq<Curve>) {
    match t
    case Leaf(c, unit) => unit < |leaves| && c == leaves[unit] && SameSizes(c)
    case Cut(c, cut, l, r) =>
      && IsCut(cut) && Built(l, leaves) && Built(r, leaves)
      && SameSizes(c) && SameSizes(l.curve) && SameSizes(r.curve)
      && IsSum(l.curve, r.curve, cut, c)
  }

  /** No right child is cut the same way as its parent. */
  ghost predicate Skewed(t: Tree) {
    t.Cut? ==> (t.right.Cut? ==> t.right.cut != t.cut) && Skewed(t.left) && Skewed(t.right)
  }

  // ---- the box of least area ----

  /** One orientation for every leaf, arranged like the tree. */
  datatype Choice = AtLeaf(entry: nat) | AtCut(left: Choice, right: Choice)

  ghost predicate Fits(t: Tree, o: Choice) {
    match t
    case Leaf(c, _) => o.AtLeaf? && o.entry < |c.x|
    case Cut(_, _, l, r) => o.AtCut? && Fits(l, o.left) && Fits(r, o.right)
  }

  /** Width and height of the bounding box a choice of orientations gives. */
  ghost function Width(t: Tree, o: Choice): real
    requires Fits(t, o)
  {
    match t
    case Leaf(c, _) => c.x[o.entry]
    case Cut(_, cut, l, r) => JoinX(cut, Width(l, o.left), Width(r, o.right))
  }

  ghost function Height(t: Tree, o: Choice, leaves: seq<Curve>): real
    requires Fits(t, o) && Built(t, leaves)
  {
    match t
    case Leaf(c, _) => c.y[o.entry]
    case Cut(_, cut, l, r) => JoinY(cut, Height(l, o.left, leaves), Height(r, o.right, leaves))
  }

  ghost predicate Staircases(leaves: seq<Curve>) {
    forall i | 0 <= i < |leaves| :: Staircase(leaves[i])
  }

  lemma {:induction false} BuiltStaircase(t: Tree, leaves: seq<Curve>)
    requires Built(t, leaves) && Staircases(leaves)
    ensures Staircase(t.curve)
  {
    if t.Cut? {
      BuiltStaircase(t.left, leaves);
      BuiltStaircase(t.right, leaves);
      SumIsStaircase(t.left.curve, t.right.curve, t.cut, t.curve);
    }
  }

  /** The root curve dominates every one of the exponentially many choices. */
  lemma {:induction false} RootDominates(t: Tree, leaves: seq<Curve>, o: Choice) returns (e: nat)
    requires Built(t, leaves) && Staircases(leaves) && Fits(t, o)
    ensures e < |t.curve.x|
    ensures t.curve.x[e] <= Width(t, o) && t.curve.y[e] <= Height(t, o, leaves)
  {
    if t.Leaf? {
      e := o.entry;
    } else {
      var u := RootDominates(t.left, leaves, o.left);
      var v := RootDominates(t.right, leaves, o.right);
      BuiltStaircase(t.left, leaves);
      BuiltStaircase(t.right, leaves);
      e := SumDominates(t.left.curve, t.right.curve, t.cut, t.curve, u, v);
    }
  }

  /** The orientations recorded below an entry of the root curve. */
  ghost function Recorded(t: Tree, e: nat): Choice
  {
    match t
    case Leaf(_, _) => AtLeaf(e)
    case Cut(c, _, l, r) =>
      if e < |c.leftPos| && e < |c.rightPos| then AtCut(Recorded(l, c.leftPos[e]), Recorded(r, c.rightPos[e]))
      else AtLeaf(e)
  }

  /** Every entry of the root curve is the box of the orientations recorded for it. */
  lemma {:induction false} RootAchieves(t: Tree, leaves: seq<Curve>, e: nat)
    requires Built(t, leaves) && e < |t.curve.x|
    ensures Fits(t, Recorded(t, e))
    ensures Width(t, Recorded(t, e)) == t.curve.x[e]
    ensures Height(t, Recorded(t, e), leaves) == t.curve.y[e]
  {
    if t.Cut? {
      SumEntry(t.left.curve, t.right.curve, t.cut, t.curve, e);
      RootAchieves(t.left, leaves, t.curve.leftPos[e]);
      RootAchieves(t.right, leaves, t.curve.rightPos[e]);
    }
  }

  lemma {:induction false} BoxPositive(t: Tree, leaves: seq<Curve>, o: Choice)
    requires Built(t, leaves) && Staircases(leaves) && Fits(t, o)
    ensures Width(t, o) > 0.0 && Height(t, o, leaves) > 0.0
  {
    if t.Leaf? {
      assert Staircase(leaves[t.unit]);
    } else {
      BoxPositive(t.left, leaves, o.left);
      BoxPositive(t.right, leaves, o.right);
    }
  }

  lemma {:induction false} ProductMonotone(a: real, b: real, c: real, d: real)
    requires 0.0 < a <= c && 0.0 < b <= d
    ensures Area(a, b) <= Area(c, d)
  {
    assert a * b <= a * d;
    assert a * d <= c * d;
  }

  /** An entry of least area at the root has the least bounding box over all choices
      of orientations, and that box is attained. */
  lemma {:induction false} LeastArea(t: Tree, leaves: seq<Curve>, pos: nat, o: Choice)
    requires Built(t, leaves) && Staircases(leaves) && pos < |t.curve.x|
    requires forall k | 0 <= k < |t.curve.x| ::
        Area(t.curve.x[pos], t.curve.y[pos]) <= Area(t.curve.x[k], t.curve.y[k])
    requires Fits(t, o)
    ensures Fits(t, Recorded(t, pos))
    ensures Width(t, Recorded(t, pos)) == t.curve.x[pos]
    ensures Height(t, Recorded(t, pos), leaves) == t.curve.y[pos]
    ensures Area(t.curve.x[pos], t.curve.y[pos]) <= Area(Width(t, o), Height(t, o, leaves))
  {
    RootAchieves(t, leaves, pos);
    hide Area;
    var e := RootDominates(t, leaves, o);
    BuiltStaircase(t, leaves);
    BoxPositive(t, leaves, o);
    ProductMonotone(t.curve.x[e], t.curve.y[e], Width(t, o), Height(t, o, leaves));
  }

  // ---- from expression to tree and back ----

  /** The expression the stack stands for, bottom first. */
  function Flatten(stack: seq<Tree>): seq<int> {
    if stack == [] then [] else Flatten(stack[..|stack|-1]) + Postorder(stack[|stack|-1])
  }

  ghost predicate StackOf(stack: seq<Tree>, leaves: seq<Curve>, e: seq<int>, k: nat)
    requires k <= |e|
  {
    && Flatten(stack) == e[..k]
    && |stack| == k - 2 * Cuts(e, k)
    && forall i | 0 <= i < |stack| :: Built(stack[i], leaves)
  }

  lemma {:induction false} FlattenPush(stack: seq<Tree>, t: Tree)
    ensures Flatten(stack + [t]) == Flatten(stack) + Postorder(t)
  {
    assert (stack + [t])[..|stack|] == stack;
  }

  lemma {:induction false} PostorderCuts(t: Tree, leaves: seq<Curve>)
    requires Built(t, leaves)
    ensures |Postorder(t)| >= 1
    ensures t.Cut? ==> Postorder(t)[|Postorder(t)|-1] == t.cut
    ensures t.Leaf? ==> Postorder(t) == [t.unit]
  {
  }

  /** In a normalized expression no right child repeats its parent's cut. */
  lemma {:induction false} NormalizedIsSkewed(t: Tree, leaves: seq<Curve>)
    requires Built(t, leaves) && NoEqualAdjacentCuts(Postorder(t))
    ensures Skewed(t)
  {
    if t.Cut? {
      var l, r, e := Postorder(t.left), Postorder(t.right), Postorder(t);
      assert e == l + r + [t.cut];
      forall i, j | 0 <= i < j < |l| && j == i + 1 && l[i] < 0 ensures l[i] != l[j] {
        assert e[i] == l[i] && e[j] == l[j];
      }
      forall i, j | 0 <= i < j < |r| && j == i + 1 && r[i] < 0 ensures r[i] != r[j] {
        assert e[|l| + i] == r[i] && e[|l| + j] == r[j];
      }
      NormalizedIsSkewed(t.left, leaves);
      NormalizedIsSkewed(t.right, leaves);
      PostorderCuts(t.right, leaves);
      if t.right.Cut? {
        assert e[|l| + |r| - 1] == t.right.cut && e[|l| + |r|] == t.cut;
      }
    }
  }

  /** The printed form of a skewed tree has no equal neighbouring cuts: skewed trees
      and normalized expressions correspond. */
  lemma {:induction false} SkewedIsNormalized(t: Tree, leaves: seq<Curve>)
    requires Built(t, leaves) && Skewed(t)
    ensures NoEqualAdjacentCuts(Postorder(t))
  {
    if t.Cut? {
      var l, r, e := Postorder(t.left), Postorder(t.right), Postorder(t);
      SkewedIsNormalized(t.left, leaves);
      SkewedIsNormalized(t.right, leaves);
      PostorderCuts(t.right, leaves);
      PostorderStartsWithUnit(t.right, leaves);
      assert e == l + (r + [t.cut]);
      forall i, j | 0 <= i < j < |e| && j == i + 1 && e[i] < 0 ensures e[i] != e[j] {
        if j < |l| {
          assert e[i] == l[i] && e[j] == l[j];
        } else if i >= |l| && j < |l| + |r| {
          assert e[i] == r[i - |l|] && e[j] == r[j - |l|];
        }
      }
    }
  }

  lemma {:induction false} PostorderStartsWithUnit(t: Tree, leaves: seq<Curve>)
    requires Built(t, leaves)
    ensures |Postorder(t)| >= 1 && Postorder(t)[0] >= 0
  {
    if t.Cut? { PostorderStartsWithUnit(t.left, leaves); }
  }
}
