/** Nodes joined by conductances: the rows of their matrix, relaxation one node at a time,
    and why a sweep stands still exactly on the solutions of the matrix equation. */
module NodeNetwork {
  import opened Sums
  import opened SparseMatrix

  datatype Link = Link(to: nat, conductance: real)

  /** Links to other nodes, the conductance to the ambient, and the power put in. */
  datatype Node = Node(links: seq<Link>, ground: real, source: real)

  function Conductance(links: seq<Link>): real {
    if links == [] then 0.0 else Conductance(links[..|links|-1]) + links[|links|-1].conductance
  }

  /** Temperatures of the linked nodes weighted by conductance. */
  ghost function Pull(links: seq<Link>, t: int -> real): real {
    if links == [] then 0.0
    else Pull(links[..|links|-1], t) + Times(links[|links|-1].conductance, t(links[|links|-1].to))
  }

  /** Total conductance of a node times its temperature is what comes in. */
  ghost predicate Balanced(net: seq<Node>, ambient: real, t: int -> real, k: nat)
    requires k < |net|
  {
    Times(Conductance(net[k].links) + net[k].ground, t(k))
      == net[k].source + Pull(net[k].links, t) + Times(net[k].ground, ambient)
  }

  ghost predicate Solved(net: seq<Node>, ambient: real, t: int -> real) {
    forall k | 0 <= k < |net| :: Balanced(net, ambient, t, k)
  }

  ghost predicate Linked(net: seq<Node>) {
    forall k | 0 <= k < |net| :: Conductance(net[k].links) + net[k].ground > 0.0
  }

  // ---- links ----

  lemma {:induction false} LinksConcat(a: seq<Link>, b: seq<Link>, t: int -> real)
    ensures Conductance(a + b) == Conductance(a) + Conductance(b) && Pull(a + b, t) == Pull(a, t) + Pull(b, t)
  {
    if b == [] {
      assert a + b == a;
    } else {
      assert (a + b)[..|a + b| - 1] == a + b[..|b|-1];
      hide Times;
      LinksConcat(a, b[..|b|-1], t);
    }
  }

  lemma {:induction false} OneLink(l: Link, t: int -> real)
    ensures Conductance([l]) == l.conductance && Pull([l], t) == Times(l.conductance, t(l.to))
    ensures Conductance([]) == 0.0 && Pull([], t) == 0.0
  {
    assert [l][..0] == [];
    hide Times;
  }

  lemma {:induction false} PullSame(links: seq<Link>, t: int -> real, u: int -> real)
    requires forall i | 0 <= i < |links| :: t(links[i].to) == u(links[i].to)
    ensures Pull(links, t) == Pull(links, u)
  {
    if links != [] { PullSame(links[..|links|-1], t, u); }
  }

  // ---- the matrix ----

  /** Row k: minus the conductance for every link, the total on the diagonal. */
  function RowOf(k: nat, node: Node): seq<Element> {
    LinkElements(k, node.links) + [Element(k, k, Conductance(node.links) + node.ground)]
  }

  function LinkElements(k: nat, links: seq<Link>): (s: seq<Element>)
    ensures |s| == |links| && forall i | 0 <= i < |links| :: s[i] == Element(k, links[i].to, -links[i].conductance)
  {
    seq(|links|, i requires 0 <= i < |links| => Element(k, links[i].to, -links[i].conductance))
  }

  /** The rows of the listed nodes one after the other. */
  function RowsOf(net: seq<Node>, order: seq<nat>): seq<Element>
    requires forall i | 0 <= i < |order| :: order[i] < |net|
  {
    if order == [] then [] else RowsOf(net, order[..|order|-1]) + RowOf(order[|order|-1], net[order[|order|-1]])
  }

  /** Row r applied to t: the sum over the row's elements. */
  ghost function Applied(coo: seq<Element>, r: int, t: int -> real): real {
    if coo == [] then 0.0
    else
      var e := coo[|coo|-1];
      Applied(coo[..|coo|-1], r, t) + if e.x == r then Times(e.val, t(e.y)) else 0.0
  }

  lemma {:induction false} AppliedConcat(a: seq<Element>, b: seq<Element>, r: int, t: int -> real)
    ensures Applied(a + b, r, t) == Applied(a, r, t) + Applied(b, r, t)
  {
    hide Times;
    if b == [] {
      assert a + b == a;
    } else {
      assert (a + b)[..|a + b| - 1] == a + b[..|b|-1];
      AppliedConcat(a, b[..|b|-1], r, t);
    }
  }

  lemma {:induction false} AppliedLinks(k: nat, links: seq<Link>, r: int, t: int -> real)
    ensures Applied(LinkElements(k, links), r, t) == if r == k then -Pull(links, t) else 0.0
  {
    hide Times;
    if links != [] {
      var rest, l := links[..|links|-1], links[|links|-1];
      AppliedLinks(k, rest, r, t);
      assert LinkElements(k, links)[..|links|-1] == LinkElements(k, rest);
      TimesNegative(l.conductance, t(l.to));
    }
  }

  lemma {:induction false} TimesNegative(a: real, b: real)
    ensures Times(-a, b) == -Times(a, b)
  {
  }

  lemma {:induction false} AppliedRow(k: nat, node: Node, r: int, t: int -> real)
    ensures Applied(RowOf(k, node), r, t)
         == if r == k then Times(Conductance(node.links) + node.ground, t(k)) - Pull(node.links, t) else 0.0
  {
    hide Times;
    var d := Element(k, k, Conductance(node.links) + node.ground);
    AppliedConcat(LinkElements(k, node.links), [d], r, t);
    AppliedLinks(k, node.links, r, t);
    assert [d][..0] == [];
    assert Applied([d], r, t) == if r == k then Times(d.val, t(k)) else 0.0;
  }

  ghost predicate EachOnce(order: seq<nat>, n: nat) {
    && (forall i | 0 <= i < |order| :: order[i] < n)
    && (forall i, j | 0 <= i < j < |order| :: order[i] != order[j])
    && (forall k: nat | k < n :: k in order)
  }

  ghost predicate NoneTwice(order: seq<nat>) {
    forall i, j | 0 <= i < j < |order| :: order[i] != order[j]
  }

  lemma {:induction false} AppliedRows(net: seq<Node>, order: seq<nat>, r: nat, t: int -> real)
    requires r < |net| && NoneTwice(order) && forall i | 0 <= i < |order| :: order[i] < |net|
    ensures Applied(RowsOf(net, order), r, t)
         == if r in order then Times(Conductance(net[r].links) + net[r].ground, t(r)) - Pull(net[r].links, t) else 0.0
  {
    hide Times, RowOf, Conductance, Pull;
    if order != [] {
      var rest, k := order[..|order|-1], order[|order|-1];
      AppliedRows(net, rest, r, t);
      AppliedConcat(RowsOf(net, rest), RowOf(k, net[k]), r, t);
      AppliedRow(k, net[k], r, t);
      assert order == rest + [k];
      assert r in rest ==> r != k;
    }
  }

  ghost predicate Solves(coo: seq<Element>, n: nat, t: int -> real, b: int -> real) {
    forall r: nat | r < n :: Applied(coo, r, t) == b(r)
  }

  ghost function Source(net: seq<Node>, ambient: real): int -> real {
    k => if 0 <= k < |net| then net[k].source + Times(net[k].ground, ambient) else 0.0
  }

  /** The matrix equation says that every node is balanced. */
  lemma {:induction false} SolvesIffBalanced(net: seq<Node>, order: seq<nat>, ambient: real, t: int -> real)
    requires EachOnce(order, |net|)
    ensures Solves(RowsOf(net, order), |net|, t, Source(net, ambient)) <==> Solved(net, ambient, t)
  {
    hide Times;
    forall r: nat | r < |net|
      ensures Applied(RowsOf(net, order), r, t) == Source(net, ambient)(r) <==> Balanced(net, ambient, t, r)
    {
      AppliedRows(net, order, r, t);
      hide Conductance, Pull;
    }
    hide Balanced, Applied;
  }

  // ---- entries of the matrix ----

  /** A row applied is the sum over the columns of its entries times t. */
  lemma {:induction false} AppliedIsEntries(coo: seq<Element>, n: nat, r: int, t: int -> real)
    requires forall i | 0 <= i < |coo| :: 0 <= coo[i].y < n
    ensures Applied(coo, r, t) == Sum(CooTerm(coo, r, t), n)
  {
    hide Times;
    if coo == [] {
      forall c | 0 <= c < n ensures CooTerm(coo, r, t)(c) == 0.0 { TimesLaws(t(c), 0.0, 0.0); }
      SumZero(CooTerm(coo, r, t), n);
    } else {
      var rest, e := coo[..|coo|-1], coo[|coo|-1];
      AppliedIsEntries(rest, n, r, t);
      var one: int -> real := c => if e.x == r && c == e.y then Times(e.val, t(c)) else 0.0;
      forall c | 0 <= c < n ensures CooTerm(coo, r, t)(c) == CooTerm(rest, r, t)(c) + one(c) {
        EntryNext(coo, r, c);
        hide CooEntry;
        TimesLaws(t(c), CooEntry(rest, r, c), if e.x == r && c == e.y then e.val else 0.0);
        TimesLaws(t(c), 0.0, 0.0);
        TimesLaws(e.val, t(c), 0.0);
        TimesLaws(CooEntry(rest, r, c), t(c), 0.0);
        TimesLaws(CooEntry(coo, r, c), t(c), 0.0);
      }
      SumAdd(CooTerm(rest, r, t), one, CooTerm(coo, r, t), n);
      SumOne(one, n, e.y);
    }
  }

  lemma {:induction false} EntryNext(coo: seq<Element>, r: int, c: int)
    requires coo != []
    ensures var e := coo[|coo|-1];
      CooEntry(coo, r, c) == CooEntry(coo[..|coo|-1], r, c) + if e.x == r && e.y == c then e.val else 0.0
  {
    SumSame(ValueAt(coo, r, c), ValueAt(coo[..|coo|-1], r, c), |coo| - 1);
  }

  // ---- one sweep ----

  /** Node k solved for its own temperature, all others kept. */
  ghost predicate Relaxed(net: seq<Node>, ambient: real, t: int -> real, u: int -> real, k: nat)
    requires k < |net|
  {
    && Times(Conductance(net[k].links) + net[k].ground, u(k)) == net[k].source + Pull(net[k].links, t) + Times(net[k].ground, ambient)
    && forall i | i != k :: u(i) == t(i)
  }

  /** The fields of a sweep that relaxes the listed nodes in turn. */
  ghost predicate Sweep(net: seq<Node>, ambient: real, order: seq<nat>, ts: seq<int -> real>) {
    && |ts| == |order| + 1
    && forall i | 0 <= i < |order| :: SweepStep(net, ambient, order, ts, i)
  }

  ghost predicate SweepStep(net: seq<Node>, ambient: real, order: seq<nat>, ts: seq<int -> real>, i: nat)
    requires |ts| == |order| + 1 && i < |order|
  {
    order[i] < |net| && Relaxed(net, ambient, ts[i], ts[i+1], order[i])
  }

  ghost predicate Same(t: int -> real, u: int -> real) {
    forall i :: t(i) == u(i)
  }

  lemma {:induction false} CancelConductance(c: real, x: real, y: real)
    requires c > 0.0 && Times(c, x) == Times(c, y)
    ensures x == y
  {
    assert c * (x - y) == 0.0;
  }

  /** On a solution relaxing changes nothing. */
  lemma {:induction false} SolvedStays(net: seq<Node>, ambient: real, order: seq<nat>, ts: seq<int -> real>, i: nat)
    requires Linked(net) && Sweep(net, ambient, order, ts) && i <= |order| && Solved(net, ambient, ts[0])
    ensures Same(ts[0], ts[i])
  {
    if i > 0 {
      SolvedStays(net, ambient, order, ts, i - 1);
      assert SweepStep(net, ambient, order, ts, i - 1);
      var k := order[i-1];
      assert Balanced(net, ambient, ts[0], k);
      hide Times, Conductance, Solved, Linked;
      PullSame(net[k].links, ts[0], ts[i-1]);
      assert Conductance(net[k].links) + net[k].ground > 0.0 by { LinkedAt(net, k); }
      CancelConductance(Conductance(net[k].links) + net[k].ground, ts[0](k), ts[i](k));
    }
  }

  lemma {:induction false} LinkedAt(net: seq<Node>, k: nat)
    requires Linked(net) && k < |net|
    ensures Conductance(net[k].links) + net[k].ground > 0.0
  {
  }

  /** A node keeps its value up to its turn and after it. */
  lemma {:induction false} OneTurn(net: seq<Node>, ambient: real, order: seq<nat>, ts: seq<int -> real>, i: nat, a: nat, b: nat)
    requires Sweep(net, ambient, order, ts) && NoneTwice(order) && i < |order| && a <= b <= |order|
    requires b <= i || i < a
    ensures ts[a](order[i]) == ts[b](order[i])
  {
    if a < b {
      OneTurn(net, ambient, order, ts, i, a, b - 1);
      assert SweepStep(net, ambient, order, ts, b - 1);
      hide Times;
    }
  }

  /** If the whole sweep changes nothing, no step of it did. */
  lemma {:induction false} NothingMoved(net: seq<Node>, ambient: real, order: seq<nat>, ts: seq<int -> real>, i: nat)
    requires Sweep(net, ambient, order, ts) && NoneTwice(order) && i <= |order| && Same(ts[0], ts[|order|])
    ensures Same(ts[0], ts[i])
  {
    if i > 0 {
      NothingMoved(net, ambient, order, ts, i - 1);
      assert SweepStep(net, ambient, order, ts, i - 1);
      hide Times;
      OneTurn(net, ambient, order, ts, i - 1, i, |order|);
    }
  }

  /** A sweep over all nodes leaves the field unchanged exactly when it solves the
      matrix equation of the network. */
  lemma {:induction false} UnchangedIffSolved(net: seq<Node>, ambient: real, order: seq<nat>, ts: seq<int -> real>)
    requires Linked(net) && Sweep(net, ambient, order, ts) && EachOnce(order, |net|)
    ensures Same(ts[0], ts[|order|]) <==> Solved(net, ambient, ts[0])
  {
    if Solved(net, ambient, ts[0]) {
      SolvedStays(net, ambient, order, ts, |order|);
    }
    if Same(ts[0], ts[|order|]) {
      forall k: nat | k < |net| ensures Balanced(net, ambient, ts[0], k) {
        assert k in order;
        var i :| 0 <= i < |order| && order[i] == k;
        NothingMoved(net, ambient, order, ts, i);
        NothingMoved(net, ambient, order, ts, i + 1);
        assert SweepStep(net, ambient, order, ts, i);
        hide Times, Conductance, Sweep;
        PullSame(net[k].links, ts[0], ts[i]);
      }
    }
  }

  // ---- no position twice ----

  ghost predicate ColumnsDiffer(k: nat, links: seq<Link>) {
    && (forall i | 0 <= i < |links| :: links[i].to != k)
    && (forall i, j | 0 <= i < j < |links| :: links[i].to != links[j].to)
  }

  lemma {:induction false} RowsIn(net: seq<Node>, order: seq<nat>, e: Element)
    requires (forall i | 0 <= i < |order| :: order[i] < |net|) && e in RowsOf(net, order)
    ensures exists i :: 0 <= i < |order| && e.x == order[i]
  {
    if order != [] {
      var rest, k := order[..|order|-1], order[|order|-1];
      if e in RowsOf(net, rest) {
        RowsIn(net, rest, e);
      } else {
        assert e.x == order[|order|-1];
      }
    }
  }

  /** If every node's links go to different nodes, no position occurs twice. */
  lemma {:induction false} RowsDoNotRepeat(net: seq<Node>, order: seq<nat>)
    requires NoneTwice(order) && forall i | 0 <= i < |order| :: order[i] < |net| && ColumnsDiffer(order[i], net[order[i]].links)
    ensures !Repeats(RowsOf(net, order))
  {
    if order != [] {
      var rest, k := order[..|order|-1], order[|order|-1];
      RowsDoNotRepeat(net, rest);
      var a, b := RowsOf(net, rest), RowOf(k, net[k]);
      assert ColumnsDiffer(order[|order|-1], net[k].links);
      RowDoesNotRepeat(k, net[k]);
      hide RowsOf, RowOf, ColumnsDiffer;
      forall i | 0 <= i < |a| ensures a[i].x != k {
        RowsIn(net, rest, a[i]);
        var p :| 0 <= p < |rest| && a[i].x == rest[p];
        assert rest[p] == order[p];
      }
      assert RowsOf(net, order) == a + b by { RowsStep(net, order); }
      RowHasRow(k, net[k]);
      JoinRepeats(a, b, k);
    }
  }

  lemma {:induction false} RowsStep(net: seq<Node>, order: seq<nat>)
    requires order != [] && forall i | 0 <= i < |order| :: order[i] < |net|
    ensures RowsOf(net, order) == RowsOf(net, order[..|order|-1]) + RowOf(order[|order|-1], net[order[|order|-1]])
  {
  }

  lemma {:induction false} RowHasRow(k: nat, node: Node)
    ensures forall i | 0 <= i < |RowOf(k, node)| :: RowOf(k, node)[i].x == k
  {
  }

  lemma {:induction false} RowDoesNotRepeat(k: nat, node: Node)
    requires ColumnsDiffer(k, node.links)
    ensures !Repeats(RowOf(k, node))
  {
  }

  lemma {:induction false} JoinRepeats(a: seq<Element>, b: seq<Element>, k: int)
    requires !Repeats(a) && !Repeats(b) && (forall i | 0 <= i < |a| :: a[i].x != k) && forall i | 0 <= i < |b| :: b[i].x == k
    ensures !Repeats(a + b)
  {
    var c: seq<Element> := a + b;
    forall i, j | 0 <= i < j < |c| ensures c[i].x != c[j].x || c[i].y != c[j].y {
      if j < |a| {
        assert a[i].x != a[j].x || a[i].y != a[j].y;
      } else if i >= |a| {
        assert b[i - |a|].x != b[j - |a|].x || b[i - |a|].y != b[j - |a|].y;
      }
    }
  }

  /** Every listed node has its diagonal element. */
  lemma {:induction false} DiagonalIn(net: seq<Node>, order: seq<nat>, k: nat)
    requires (forall i | 0 <= i < |order| :: order[i] < |net|) && k in order
    ensures HasColumn(RowsOf(net, order), k)
  {
    var rest, last := order[..|order|-1], order[|order|-1];
    var s := RowsOf(net, order);
    RowsStep(net, order);
    assert order == rest + [last];
    if k == last {
      assert s[|s|-1].y == k;
    } else {
      DiagonalIn(net, rest, k);
      var i :| 0 <= i < |RowsOf(net, rest)| && RowsOf(net, rest)[i].y == k;
      assert s[i].y == k;
    }
  }
}
