/** Tree nodes and their stack in memory, and the reading of a slicing tree from a
    Polish expression. */
module TreeNodes {
  import opened PolishExpression
  import opened ShapeCurve
  import opened SlicingTree
  import Npe

  const MAX_STACK := 128

  class TreeNode {
    const curve: Shape
    const tag: int
    const left: TreeNode?
    const right: TreeNode?
    ghost const height: nat
    ghost const Arrays: set<object>

    /** No two curves of the tree share an array, so patching one leaves the others alone. */
    ghost predicate Valid()
      decreases height
    {
      && curve.x != curve.y
      && if tag >= 0 then left == null && right == null && Arrays == {curve.x, curve.y}
         else
           && left != null && right != null
           && left.height < height && right.height < height
           && left.Valid() && right.Valid()
           && left.Arrays !! right.Arrays && {curve.x, curve.y} !! left.Arrays + right.Arrays
           && Arrays == {curve.x, curve.y} + left.Arrays + right.Arrays
    }

    ghost function Value(): Tree
      requires Valid()
      reads Arrays
      decreases height
    {
      if tag >= 0 then Leaf(curve.Value(), tag)
      else Cut(curve.Value(), tag, left.Value(), right.Value())
    }

    constructor MakeLeaf(curve: Shape, unit: nat)
      requires curve.x != curve.y
      ensures Valid() && Arrays == {curve.x, curve.y} && Value() == Leaf(curve.Value(), unit)
    {
      this.curve, tag, left, right := curve, unit, null, null;
      height, Arrays := 0, {curve.x, curve.y};
    }

    constructor MakeCut(curve: Shape, cut: int, left: TreeNode, right: TreeNode)
      requires cut < 0 && curve.x != curve.y && left.Valid() && right.Valid()
      requires left.Arrays !! right.Arrays && {curve.x, curve.y} !! left.Arrays + right.Arrays
      ensures Valid() && Arrays == {curve.x, curve.y} + left.Arrays + right.Arrays
      ensures Value() == Cut(curve.Value(), cut, left.Value(), right.Value())
    {
      this.curve, tag, this.left, this.right := curve, cut, left, right;
      height := left.height + right.height + 1;
      Arrays := {curve.x, curve.y} + left.Arrays + right.Arrays;
    }
  }

  class TreeNodeStack {
    const slots: array<TreeNode?>
    var top: nat

    ghost predicate Valid()
      reads this, slots
    {
      slots.Length == MAX_STACK && top <= MAX_STACK && forall i | 0 <= i < top :: slots[i] != null
    }

    /** The nodes on the stack, bottom first. */
    ghost function Nodes(): (s: seq<TreeNode>)
      requires Valid()
      reads this, slots
      ensures |s| == top
    {
      slots[..top]
    }

    constructor ()
      ensures Valid() && fresh(slots) && Nodes() == []
    {
      slots := new TreeNode?[MAX_STACK](_ => null);
      top := 0;
    }

    method IsEmpty() returns (r: bool)
      requires Valid()
      ensures r <==> Nodes() == []
    {
      r := top <= 0;
    }

    /** Pushing on a full stack stops the program. */
    method Push(node: TreeNode) returns (ok: bool)
      requires Valid()
      modifies this, slots
      ensures Valid() && ok == old(|Nodes()| < MAX_STACK)
      ensures Nodes() == if ok then old(Nodes()) + [node] else old(Nodes())
    {
      if top >= MAX_STACK {
        return false;
      }
      slots[top] := node;
      top := top + 1;
      return true;
    }

    /** Popping an empty stack stops the program. */
    method Pop() returns (node: TreeNode?)
      requires Valid()
      modifies this
      ensures Valid() && (node == null <==> old(Nodes()) == [])
      ensures if node == null then Nodes() == old(Nodes())
              else old(Nodes()) == Nodes() + [node]
    {
      if top <= 0 {
        return null;
      }
      top := top - 1;
      return slots[top];
    }

    method Clear()
      requires Valid()
      modifies this
      ensures Valid() && Nodes() == []
    {
      top := 0;
    }
  }

  ghost function ArraysOf(nodes: seq<TreeNode>): set<object> {
    if nodes == [] then {} else ArraysOf(nodes[..|nodes|-1]) + nodes[|nodes|-1].Arrays
  }

  lemma {:induction false} ArraysAllocated(nodes: seq<TreeNode>)
    ensures forall o | o in ArraysOf(nodes) :: allocated(o)
  {
    if nodes != [] { ArraysAllocated(nodes[..|nodes|-1]); }
  }

  /** The nodes are disjoint trees with these values. */
  ghost predicate Forest(nodes: seq<TreeNode>, stack: seq<Tree>)
    reads ArraysOf(nodes)
  {
    if nodes == [] || stack == [] then nodes == [] && stack == []
    else
      var n, t := nodes[|nodes|-1], stack[|stack|-1];
      && Forest(nodes[..|nodes|-1], stack[..|stack|-1])
      && n.Valid() && n.Value() == t && n.Arrays !! ArraysOf(nodes[..|nodes|-1])
  }

  lemma {:induction false} ForestPush(nodes: seq<TreeNode>, stack: seq<Tree>, node: TreeNode, t: Tree)
    requires Forest(nodes, stack) && node.Valid() && node.Value() == t
    requires node.Arrays !! ArraysOf(nodes)
    ensures Forest(nodes + [node], stack + [t])
    ensures ArraysOf(nodes + [node]) == ArraysOf(nodes) + node.Arrays
  {
    assert (nodes + [node])[..|nodes|] == nodes && (stack + [t])[..|stack|] == stack;
  }

  lemma {:induction false} ForestSize(nodes: seq<TreeNode>, stack: seq<Tree>)
    requires Forest(nodes, stack)
    ensures |nodes| == |stack|
    decreases |nodes|
  {
    if nodes != [] && stack != [] { ForestSize(nodes[..|nodes|-1], stack[..|stack|-1]); }
  }

  /** The two topmost trees of a forest, and the forest below them. */
  lemma {:induction false} ForestTop(nodes: seq<TreeNode>, stack: seq<Tree>)
    requires Forest(nodes, stack) && |nodes| >= 2
    ensures |nodes| == |stack|
    ensures var n := |nodes|;
      && Forest(nodes[..n-2], stack[..n-2])
      && nodes[n-2].Valid() && nodes[n-2].Value() == stack[n-2]
      && nodes[n-1].Valid() && nodes[n-1].Value() == stack[n-1]
      && nodes[n-2].Arrays !! nodes[n-1].Arrays
      && nodes[n-2].Arrays + nodes[n-1].Arrays !! ArraysOf(nodes[..n-2])
      && ArraysOf(nodes) == ArraysOf(nodes[..n-2]) + nodes[n-2].Arrays + nodes[n-1].Arrays
  {
    ForestSize(nodes, stack);
    var n := |nodes|;
    assert nodes[..n-1][..n-2] == nodes[..n-2] && stack[..n-1][..n-2] == stack[..n-2];
  }

  /** A new leaf carrying its own copy of the unit's curve. */
  method NewLeaf(shape: Shape, unit: nat) returns (node: TreeNode)
    requires SameSizes(shape.Value())
    ensures fresh(node) && fresh(node.Arrays) && node.Valid()
    ensures node.Value() == Leaf(shape.Value(), unit)
  {
    var curve := ShapeDuplicate(shape);
    node := new TreeNode.MakeLeaf(curve, unit);
  }

  /** A new inner node carrying the sum of its children's curves. */
  method NewCut(left: TreeNode, right: TreeNode, cut: int, ghost leaves: seq<Curve>) returns (node: TreeNode)
    requires IsCut(cut) && left.Valid() && right.Valid() && left.Arrays !! right.Arrays
    requires Built(left.Value(), leaves) && Built(right.Value(), leaves)
    ensures fresh(node) && fresh(node.Arrays - left.Arrays - right.Arrays)
    ensures left.Arrays + right.Arrays <= node.Arrays
    ensures node.Valid() && Built(node.Value(), leaves)
    ensures Postorder(node.Value()) == Postorder(left.Value()) + Postorder(right.Value()) + [cut]
  {
    hide *;
    ghost var l, r := left.Value(), right.Value();
    CurveOf(left, leaves);
    CurveOf(right, leaves);
    CutNegative(cut);
    var curve := ShapeAdd(left.curve, right.curve, cut);
    node := new TreeNode.MakeCut(curve, cut, left, right);
    JoinBuilt(l, r, cut, curve.Value(), leaves);
  }

  lemma {:induction false} CutNegative(cut: int)
    requires IsCut(cut)
    ensures cut < 0
  {
  }

  lemma {:induction false} CurveOf(node: TreeNode, leaves: seq<Curve>)
    requires node.Valid() && Built(node.Value(), leaves)
    ensures node.Value().curve == node.curve.Value() && SameSizes(node.curve.Value())
  {
  }

  /** The sum of two built trees is built, and reads as one then the other then the cut. */
  lemma {:induction false} JoinBuilt(l: Tree, r: Tree, cut: int, curve: Curve, leaves: seq<Curve>)
    requires IsCut(cut) && Built(l, leaves) && Built(r, leaves) && SameSizes(l.curve) && SameSizes(r.curve)
    requires IsSum(l.curve, r.curve, cut, curve)
    ensures Built(Cut(curve, cut, l, r), leaves)
    ensures Postorder(Cut(curve, cut, l, r)) == Postorder(l) + Postorder(r) + [cut]
  {
    PathInRange(l.curve, r.curve, cut);
  }

  /** The state of the reading after k elements. */
  ghost predicate Reading(nodes: seq<TreeNode>, stack: seq<Tree>, leaves: seq<Curve>, e: seq<int>, k: nat)
    requires k <= |e|
    reads ArraysOf(nodes)
  {
    |nodes| == |stack| && Forest(nodes, stack) && StackOf(stack, leaves, e, k)
  }

  /** A unit is pushed as a new leaf. */
  lemma {:induction false} LeafRead(stack: seq<Tree>, leaves: seq<Curve>, e: seq<int>, k: nat, c: Curve)
    requires k < |e| && 0 <= e[k] < |leaves| && StackOf(stack, leaves, e, k)
    requires c == leaves[e[k]] && SameSizes(c)
    ensures StackOf(stack + [Leaf(c, e[k])], leaves, e, k + 1)
  {
    FlattenPush(stack, Leaf(c, e[k]));
    assert e[..k+1] == e[..k] + [e[k]];
  }

  /** A cut replaces the two topmost trees by their join. */
  lemma {:induction false} CutRead(stack: seq<Tree>, leaves: seq<Curve>, e: seq<int>, k: nat, t: Tree)
    requires k < |e| && e[k] < 0 && StackOf(stack, leaves, e, k) && |stack| >= 2
    requires Built(t, leaves)
    requires Postorder(t) == Postorder(stack[|stack|-2]) + Postorder(stack[|stack|-1]) + [e[k]]
    ensures StackOf(stack[..|stack|-2] + [t], leaves, e, k + 1)
  {
    var rest, l, r := stack[..|stack|-2], stack[|stack|-2], stack[|stack|-1];
    assert stack == rest + [l] + [r];
    FlattenPush(rest + [l], r);
    FlattenPush(rest, l);
    FlattenPush(rest, t);
    assert e[..k+1] == e[..k] + [e[k]];
    assert Flatten(rest) + (Postorder(l) + Postorder(r) + [e[k]])
        == Flatten(rest) + Postorder(l) + Postorder(r) + [e[k]];
  }

  /** At a cut of a normalized expression at least two trees are waiting. */
  lemma {:induction false} TwoWaiting(e: seq<int>, n: nat, k: nat)
    requires Normalized(e, n) && k < |e| && e[k] < 0
    ensures k - 2 * Cuts(e, k) >= 2
  {
    assert 2 * Cuts(e, k + 1) < k + 1;
  }

  /** A unit is read: its leaf is pushed. */
  method ReadUnit(shape: Shape, stack: TreeNodeStack, unit: nat, ghost leaves: seq<Curve>,
                  ghost e: seq<int>, ghost k: nat, ghost trees: seq<Tree>)
    returns (node: TreeNode?, ghost after: seq<Tree>)
    requires stack.Valid() && k < |e| && e[k] == unit < |leaves|
    requires SameSizes(leaves[unit]) && shape.Value() == leaves[unit]
    requires Reading(stack.Nodes(), trees, leaves, e, k)
    requires {stack, stack.slots} !! ArraysOf(stack.Nodes())
    modifies stack, stack.slots
    ensures stack.Valid()
    ensures node != null <==> |trees| < MAX_STACK
    ensures node != null ==> Reading(stack.Nodes(), after, leaves, e, k + 1)
    ensures node != null ==> stack.Nodes() == old(stack.Nodes()) + [node] && fresh(node)
    ensures node != null ==> forall o | o in ArraysOf(stack.Nodes()) :: fresh(o) || o in old(ArraysOf(stack.Nodes()))
  {
    hide Forest;
    after := [];
    ghost var nodes := stack.Nodes();
    ArraysAllocated(nodes);
    var leaf := NewLeaf(shape, unit);
    LeafRead(trees, leaves, e, k, leaves[unit]);
    ForestPush(nodes, trees, leaf, Leaf(leaves[unit], unit));
    var ok := stack.Push(leaf);
    if !ok {
      return null, after;
    }
    node, after := leaf, trees + [Leaf(leaves[unit], unit)];
  }

  /** Joining the two topmost trees in a new node reads one cut. */
  lemma {:induction false} JoinTop(nodes: seq<TreeNode>, trees: seq<Tree>, node: TreeNode, leaves: seq<Curve>,
                                   e: seq<int>, k: nat)
    requires k < |e| && e[k] < 0 && |trees| >= 2 && Reading(nodes, trees, leaves, e, k)
    requires node.Valid() && Built(node.Value(), leaves)
    requires var n := |nodes|; node.Arrays !! ArraysOf(nodes[..n-2])
    requires var n := |nodes|;
        Postorder(node.Value()) == Postorder(trees[n-2]) + Postorder(trees[n-1]) + [e[k]]
    ensures var n := |nodes|;
        Reading(nodes[..n-2] + [node], trees[..n-2] + [node.Value()], leaves, e, k + 1)
    ensures var n := |nodes|; ArraysOf(nodes[..n-2] + [node]) == ArraysOf(nodes[..n-2]) + node.Arrays
  {
    var n := |nodes|;
    ForestTop(nodes, trees);
    CutRead(trees, leaves, e, k, node.Value());
    ForestPush(nodes[..n-2], trees[..n-2], node, node.Value());
  }

  /** The new node for a cut, over the two topmost of the waiting nodes. */
  method JoinNodes(left: TreeNode, right: TreeNode, cut: int, ghost leaves: seq<Curve>,
                   ghost e: seq<int>, ghost k: nat, ghost nodes: seq<TreeNode>, ghost trees: seq<Tree>)
    returns (node: TreeNode, ghost after: seq<Tree>)
    requires k < |e| && e[k] == cut && IsCut(cut) && |trees| >= 2
    requires Reading(nodes, trees, leaves, e, k)
    requires left == nodes[|nodes|-2] && right == nodes[|nodes|-1]
    ensures Reading(nodes[..|nodes|-2] + [node], after, leaves, e, k + 1)
    ensures fresh(node) && fresh(ArraysOf(nodes[..|nodes|-2] + [node]) - ArraysOf(nodes))
  {
    hide Built, Flatten, Postorder, StackOf, Forest, ArraysOf;
    ghost var n := |nodes|;
    ArraysAllocated(nodes);
    ForestTop(nodes, trees);
    StackBuilt(trees, leaves, e, k);
    node := NewCut(left, right, cut, leaves);
    after := trees[..n-2] + [node.Value()];
    JoinTop(nodes, trees, node, leaves, e, k);
  }

  /** A cut is read: the two topmost trees are joined. */
  method ReadCut(stack: TreeNodeStack, cut: int, ghost leaves: seq<Curve>,
                 ghost e: seq<int>, ghost k: nat, ghost trees: seq<Tree>)
    returns (node: TreeNode?, ghost after: seq<Tree>)
    requires stack.Valid() && k < |e| && e[k] == cut && IsCut(cut) && |trees| >= 2
    requires Reading(stack.Nodes(), trees, leaves, e, k)
    requires {stack, stack.slots} !! ArraysOf(stack.Nodes())
    modifies stack, stack.slots
    ensures stack.Valid() && node != null
    ensures Reading(stack.Nodes(), after, leaves, e, k + 1)
    ensures var n := old(|stack.Nodes()|); stack.Nodes() == old(stack.Nodes())[..n-2] + [node]
    ensures fresh(node) && forall o | o in ArraysOf(stack.Nodes()) :: fresh(o) || o in old(ArraysOf(stack.Nodes()))
  {
    hide Forest, StackOf, Normalized, Built;
    ghost var nodes := stack.Nodes();
    ArraysAllocated(nodes);
    var right := stack.Pop();
    var left := stack.Pop();
    if right == null || left == null {
      return null, [];
    }
    assert Reading(nodes, trees, leaves, e, k);
    node, after := JoinNodes(left, right, cut, leaves, e, k, nodes, trees);
    ghost var joined := nodes[..|nodes|-2] + [node];
    ArraysAllocated(joined);
    assert stack !in ArraysOf(joined) && stack.slots !in ArraysOf(joined);
    assert Forest(joined, after) && StackOf(after, leaves, e, k + 1);
    var ok := stack.Push(node);
    assert stack.Nodes() == joined;
    assert Forest(joined, after);
  }

  lemma {:induction false} StackBuilt(stack: seq<Tree>, leaves: seq<Curve>, e: seq<int>, k: nat)
    requires k <= |e| && StackOf(stack, leaves, e, k)
    ensures forall i | 0 <= i < |stack| :: Built(stack[i], leaves)
  {
  }

  /** One element is read; only a push on a full stack fails. */
  method ReadElement(shapes: seq<Shape>, stack: TreeNodeStack, element: int, ghost leaves: seq<Curve>,
                     ghost e: seq<int>, ghost n: nat, ghost k: nat, ghost trees: seq<Tree>)
    returns (node: TreeNode?, ghost after: seq<Tree>)
    requires Normalized(e, n) && k < |e| && e[k] == element && |shapes| == |leaves| == n && stack.Valid()
    requires forall u | 0 <= u < |shapes| :: SameSizes(leaves[u]) && shapes[u].Value() == leaves[u]
    requires Reading(stack.Nodes(), trees, leaves, e, k)
    requires {stack, stack.slots} !! ArraysOf(stack.Nodes())
    modifies stack, stack.slots
    ensures stack.Valid()
    ensures node != null <==> (element < 0 || |trees| < MAX_STACK)
    ensures node != null ==> Reading(stack.Nodes(), after, leaves, e, k + 1)
    ensures node != null ==> |stack.Nodes()| >= 1 && stack.Nodes()[|stack.Nodes()|-1] == node && fresh(node)
    ensures node != null ==> forall o | o in ArraysOf(stack.Nodes()) :: fresh(o) || o in old(ArraysOf(stack.Nodes()))
  {
    hide Forest, Flatten, Built, Postorder;
    if element >= 0 {
      node, after := ReadUnit(shapes[element], stack, element, leaves, e, k, trees);
    } else {
      TwoWaiting(e, n, k);
      node, after := ReadCut(stack, element, leaves, e, k, trees);
    }
  }

  /** When the whole expression is read one tree is left, and it prints the expression. */
  lemma {:induction false} AllRead(nodes: seq<TreeNode>, trees: seq<Tree>, leaves: seq<Curve>, e: seq<int>, n: nat)
    requires Normalized(e, n) && n >= 1 && Reading(nodes, trees, leaves, e, |e|)
    ensures |nodes| == 1 && nodes[0].Valid() && Built(nodes[0].Value(), leaves)
    ensures Postorder(nodes[0].Value()) == e && ArraysOf(nodes) == nodes[0].Arrays
  {
    OneTree(trees, leaves, e, n);
    hide StackOf, Postorder, Normalized;
    assert nodes[..0] == [] && trees[..0] == [];
  }

  lemma {:induction false} OneTree(trees: seq<Tree>, leaves: seq<Curve>, e: seq<int>, n: nat)
    requires Normalized(e, n) && n >= 1 && StackOf(trees, leaves, e, |e|)
    ensures |trees| == 1 && Built(trees[0], leaves) && Postorder(trees[0]) == e
  {
    hide Postorder;
    assert |trees| == 1;
    assert trees[..0] == [];
    assert Flatten(trees) == Flatten(trees[..0]) + Postorder(trees[0]);
    assert e[..|e|] == e;
  }

  /** Subtrees waiting on the stack after k elements: k - 2 * Cuts(e, k). */
  ghost predicate StackFits(e: seq<int>, i: nat)
    requires i <= |e|
  {
    forall k | 0 <= k <= i :: k - 2 * Cuts(e, k) <= MAX_STACK
  }

  lemma {:induction false} UnitsAhead(e: seq<int>, k: nat, m: nat)
    requires k <= m <= |e|
    ensures k - Cuts(e, k) <= m - Cuts(e, m)
  {
    if k < m { UnitsAhead(e, k, m - 1); }
  }

  /** No expression over at most MAX_STACK units overflows the stack. */
  lemma {:induction false} EnoughStack(e: seq<int>, n: nat)
    requires Normalized(e, n) && n <= MAX_STACK
    ensures StackFits(e, |e|)
  {
    forall k | 0 <= k <= |e| ensures k - 2 * Cuts(e, k) <= MAX_STACK { UnitsAhead(e, k, |e|); }
  }

  lemma {:induction false} StackFitsStep(e: seq<int>, i: nat)
    requires i < |e| && StackFits(e, i)
    ensures StackFits(e, i + 1) <==> e[i] < 0 || i - 2 * Cuts(e, i) < MAX_STACK
    ensures !StackFits(e, i + 1) ==> !StackFits(e, |e|)
  {
    assert i - 2 * Cuts(e, i) <= MAX_STACK;
    if !(e[i] < 0 || i - 2 * Cuts(e, i) < MAX_STACK) {
      assert i + 1 - 2 * Cuts(e, i + 1) > MAX_STACK;
    }
  }

  /** Reads the slicing tree off a normalized expression. Popping an empty stack is
      impossible; the program stops exactly when the stack was not empty or some
      prefix leaves more than MAX_STACK subtrees waiting. */
  method TreeFromNPE(shapes: seq<Shape>, stack: TreeNodeStack, expr: Npe.NPE, ghost leaves: seq<Curve>)
    returns (node: TreeNode?)
    requires expr.Valid() && stack.Valid() && |shapes| == |leaves| == expr.nUnits
    requires forall u | 0 <= u < |shapes| :: SameSizes(leaves[u]) && shapes[u].Value() == leaves[u]
    requires stack.slots as object != expr.elements
    modifies stack, stack.slots
    ensures node != null <==> old(stack.Nodes()) == [] && StackFits(expr.Expr(), |expr.Expr()|)
    ensures node != null ==> fresh(node) && fresh(node.Arrays) && node.Valid()
    ensures node != null ==> Built(node.Value(), leaves) && Postorder(node.Value()) == expr.Expr()
    ensures node != null ==> stack.Valid() && stack.Nodes() == []
  {
    hide Normalized, Built, Postorder, Flatten, Forest, StackOf, StackFits;
    var empty := stack.IsEmpty();
    if !empty {
      return null;
    }
    ghost var trees;
    node, trees := ReadAll(shapes, stack, expr, leaves);
    if node != null {
      AllRead(stack.Nodes(), trees, leaves, expr.Expr(), expr.nUnits);
      stack.Clear();
    }
  }

  /** Reads the elements one by one; stops where the stack is full. */
  method ReadAll(shapes: seq<Shape>, stack: TreeNodeStack, expr: Npe.NPE, ghost leaves: seq<Curve>)
    returns (node: TreeNode?, ghost trees: seq<Tree>)
    requires expr.Valid() && stack.Valid() && stack.Nodes() == [] && |shapes| == |leaves| == expr.nUnits
    requires forall u | 0 <= u < |shapes| :: SameSizes(leaves[u]) && shapes[u].Value() == leaves[u]
    requires stack.slots as object != expr.elements
    modifies stack, stack.slots
    ensures node != null <==> StackFits(expr.Expr(), |expr.Expr()|)
    ensures node != null ==> stack.Valid() && fresh(node) && fresh(ArraysOf(stack.Nodes()))
    ensures node != null ==> Reading(stack.Nodes(), trees, leaves, expr.Expr(), |expr.Expr()|)
    ensures node != null ==> |stack.Nodes()| >= 1 && stack.Nodes()[|stack.Nodes()|-1] == node
  {
    hide Normalized, Built, Postorder, Flatten, Forest, StackOf, StackFits;
    ghost var e, n := expr.Expr(), expr.nUnits;
    trees := [];
    EmptyReading(leaves, e);
    node := null;
    var i := 0;
    while i < expr.elements.Length
      invariant i <= |e| && stack.Valid() && expr.elements[..] == e
      invariant Reading(stack.Nodes(), trees, leaves, e, i)
      invariant fresh(ArraysOf(stack.Nodes())) && StackFits(e, i)
      invariant i > 0 ==> node != null && fresh(node) && |stack.Nodes()| >= 1
      invariant i > 0 ==> stack.Nodes()[|stack.Nodes()|-1] == node
    {
      StackFitsStep(e, i);
      Waiting(trees, leaves, e, i);
      ghost var before := ArraysOf(stack.Nodes());
      node, trees := ReadElement(shapes, stack, expr.elements[i], leaves, e, n, i, trees);
      if node == null {
        return;
      }
      assert forall o | o in ArraysOf(stack.Nodes()) :: fresh(o) || o in before;
      i := i + 1;
    }
  }

  lemma {:induction false} EmptyReading(leaves: seq<Curve>, e: seq<int>)
    ensures Reading([], [], leaves, e, 0) && ArraysOf([]) == {} && StackFits(e, 0)
  {
  }

  lemma {:induction false} Waiting(stack: seq<Tree>, leaves: seq<Curve>, e: seq<int>, k: nat)
    requires k <= |e| && StackOf(stack, leaves, e, k)
    ensures |stack| == k - 2 * Cuts(e, k)
  {
  }
}
