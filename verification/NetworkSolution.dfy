/** Networks from which every node drains to the ambient: the balance of all nodes has exactly
    one solution, and with no power drawn it is nowhere below the ambient temperature. */
module NetworkSolution {
  import opened Sums
  import opened NodeNetwork

  type Field = int -> real

  /** Conductances are positive and links stay in the network; the node is linked to the
      ambient or to a node of lower rank. */
  ghost predicate Drains(net: seq<Node>, rank: int -> nat, k: nat)
    requires k < |net|
  {
    var node := net[k];
    && node.ground >= 0.0
    && (forall i | 0 <= i < |node.links| :: node.links[i].conductance > 0.0 && node.links[i].to < |net|)
    && (node.ground > 0.0 || exists i :: 0 <= i < |node.links| && rank(node.links[i].to) < rank(k))
  }

  ghost predicate Drained(net: seq<Node>, rank: int -> nat) {
    forall k: nat | k < |net| :: Drains(net, rank, k)
  }

  /** What flows in over the links to a node of temperature x. */
  ghost function Inflow(links: seq<Link>, t: Field, x: real): real {
    if links == [] then 0.0
    else Inflow(links[..|links|-1], t, x) + Times(links[|links|-1].conductance, t(links[|links|-1].to) - x)
  }

  /** What a node with this power is short of balance. */
  ghost function Rest(node: Node, ambient: real, power: real, t: Field, x: real): real {
    power + Inflow(node.links, t, x) + Times(node.ground, ambient - x)
  }

  lemma {:induction false} InflowIsPull(links: seq<Link>, t: Field, x: real)
    ensures Inflow(links, t, x) == Pull(links, t) - Times(Conductance(links), x)
  {
    hide Times;
    TimesLaws(x, 0.0, 0.0);
    TimesLaws(0.0, x, 0.0);
    if links != [] {
      var rest, l := links[..|links|-1], links[|links|-1];
      InflowIsPull(rest, t, x);
      TimesLaws(l.conductance, t(l.to), x);
      TimesLaws(x, Conductance(rest), l.conductance);
      TimesLaws(Conductance(links), x, 0.0);
      TimesLaws(Conductance(rest), x, 0.0);
      TimesLaws(l.conductance, x, 0.0);
    }
  }

  lemma {:induction false} BalancedIsRest(net: seq<Node>, ambient: real, t: Field, k: nat)
    requires k < |net|
    ensures Balanced(net, ambient, t, k) <==> Rest(net[k], ambient, net[k].source, t, t(k)) == 0.0
  {
    var node, x := net[k], t(k);
    InflowIsPull(node.links, t, x);
    hide Times;
    TimesLaws(x, Conductance(node.links), node.ground);
    TimesLaws(Conductance(node.links) + node.ground, x, 0.0);
    TimesLaws(Conductance(node.links), x, 0.0);
    TimesLaws(node.ground, x, 0.0);
    TimesLaws(node.ground, ambient, x);
  }

  // ---- nothing is colder than the ambient ----

  /** Into a node no warmer than its neighbours nothing flows out, and nothing at all only
      if all are as cold. */
  lemma {:induction false} ColdInflow(links: seq<Link>, t: Field, x: real)
    requires forall i | 0 <= i < |links| :: links[i].conductance > 0.0 && t(links[i].to) >= x
    ensures Inflow(links, t, x) >= 0.0
    ensures Inflow(links, t, x) == 0.0 ==> forall i | 0 <= i < |links| :: t(links[i].to) == x
  {
    if links != [] {
      var rest, l := links[..|links|-1], links[|links|-1];
      ColdInflow(rest, t, x);
      PositiveFlow(l.conductance, t(l.to) - x);
      hide Times;
      if Inflow(links, t, x) == 0.0 {
        forall i | 0 <= i < |links| ensures t(links[i].to) == x {
          if i < |rest| { assert t(rest[i].to) == x; }
        }
      }
    }
  }

  lemma {:induction false} PositiveFlow(c: real, d: real)
    requires c > 0.0 && d >= 0.0
    ensures Times(c, d) >= 0.0 && (Times(c, d) == 0.0 ==> d == 0.0)
  {
    if d > 0.0 { ProductPositive(c, d); }
  }

  ghost predicate Coldest(net: seq<Node>, t: Field, k: nat) {
    k < |net| && forall m: nat | m < |net| :: t(k) <= t(m)
  }

  lemma {:induction false} SomeColdest(net: seq<Node>, t: Field, n: nat) returns (k: nat)
    requires 0 < n <= |net|
    ensures k < n && forall m: nat | m < n :: t(k) <= t(m)
  {
    k := n - 1;
    if n > 1 {
      var c := SomeColdest(net, t, n - 1);
      if t(c) <= t(n - 1) { k := c; }
    }
  }

  /** Every node below the ambient temperature balances some nonnegative power. */
  ghost predicate Held(net: seq<Node>, ambient: real, power: Field, t: Field) {
    forall k: nat | k < |net| :: power(k) >= 0.0 && (t(k) < ambient ==> Rest(net[k], ambient, power(k), t, t(k)) == 0.0)
  }

  lemma {:induction false} ColdestNotBelowAmbient(net: seq<Node>, rank: int -> nat, ambient: real, power: Field, t: Field, k: nat)
    requires Drained(net, rank) && Held(net, ambient, power, t) && Coldest(net, t, k)
    ensures t(k) >= ambient
    decreases rank(k)
  {
    if t(k) < ambient {
      var node, x := net[k], t(k);
      assert Drains(net, rank, k);
      ColdInflow(node.links, t, x);
      if node.ground > 0.0 { PositiveFlow(node.ground, ambient - x); } else { TimesLaws(ambient - x, 0.0, 0.0); TimesLaws(0.0, ambient - x, 0.0); }
      hide Times;
      assert Inflow(node.links, t, x) == 0.0 && node.ground == 0.0;
      var i :| 0 <= i < |node.links| && rank(node.links[i].to) < rank(k);
      ColdestNotBelowAmbient(net, rank, ambient, power, t, node.links[i].to);
    }
  }

  lemma {:induction false} HeldAboveAmbient(net: seq<Node>, rank: int -> nat, ambient: real, power: Field, t: Field, m: nat)
    requires Drained(net, rank) && Held(net, ambient, power, t) && m < |net|
    ensures t(m) >= ambient
  {
    hide Drained, Held;
    var k := SomeColdest(net, t, |net|);
    ColdestNotBelowAmbient(net, rank, ambient, power, t, k);
  }

  /** Power put in, none drawn: no solution is below the ambient temperature anywhere. */
  lemma {:induction false} SolvedAboveAmbient(net: seq<Node>, rank: int -> nat, ambient: real, t: Field, m: nat)
    requires Drained(net, rank) && Solved(net, ambient, t) && m < |net| && forall k: nat | k < |net| :: net[k].source >= 0.0
    ensures t(m) >= ambient
  {
    var power: Field := k => if 0 <= k < |net| then net[k].source else 0.0;
    forall k: nat | k < |net| ensures power(k) >= 0.0 && Rest(net[k], ambient, power(k), t, t(k)) == 0.0 {
      assert Balanced(net, ambient, t, k);
      BalancedIsRest(net, ambient, t, k);
    }
    hide Drained, Rest;
    HeldAboveAmbient(net, rank, ambient, power, t, m);
  }

  // ---- at most one solution ----

  lemma {:induction false} InflowOfDifference(links: seq<Link>, u: Field, v: Field, d: Field, ambient: real, x: real, y: real)
    requires forall k :: d(k) == v(k) - u(k) + ambient
    ensures Inflow(links, d, y - x + ambient) == Inflow(links, v, y) - Inflow(links, u, x)
  {
    hide Times;
    if links != [] {
      var l := links[|links|-1];
      InflowOfDifference(links[..|links|-1], u, v, d, ambient, x, y);
      TimesLaws(l.conductance, v(l.to) - y, u(l.to) - x);
    }
  }

  /** Where two fields do not balance the same power they agree: then they agree everywhere. */
  lemma {:induction false} SameWhereSolved(net: seq<Node>, rank: int -> nat, ambient: real, power: Field, u: Field, v: Field, m: nat)
    requires Drained(net, rank) && m < |net|
    requires forall k: nat | k < |net| ::
      (Rest(net[k], ambient, power(k), u, u(k)) == 0.0 && Rest(net[k], ambient, power(k), v, v(k)) == 0.0) || u(k) == v(k)
    ensures u(m) <= v(m)
  {
    var d: Field := k => v(k) - u(k) + ambient;
    var none: Field := k => 0.0;
    forall k: nat | k < |net| && d(k) < ambient ensures Rest(net[k], ambient, none(k), d, d(k)) == 0.0 {
      hide Times;
      InflowOfDifference(net[k].links, u, v, d, ambient, u(k), v(k));
      TimesLaws(net[k].ground, ambient - v(k), ambient - u(k));
    }
    hide Drained, Rest;
    HeldAboveAmbient(net, rank, ambient, none, d, m);
  }

  lemma {:induction false} SolutionUnique(net: seq<Node>, rank: int -> nat, ambient: real, u: Field, v: Field, m: nat)
    requires Drained(net, rank) && Solved(net, ambient, u) && Solved(net, ambient, v) && m < |net|
    ensures u(m) == v(m)
  {
    var power: Field := k => if 0 <= k < |net| then net[k].source else 0.0;
    forall k: nat | k < |net|
      ensures Rest(net[k], ambient, power(k), u, u(k)) == 0.0 && Rest(net[k], ambient, power(k), v, v(k)) == 0.0 {
      assert Balanced(net, ambient, u, k) && Balanced(net, ambient, v, k);
      BalancedIsRest(net, ambient, u, k);
      BalancedIsRest(net, ambient, v, k);
    }
    hide Drained, Rest;
    SameWhereSolved(net, rank, ambient, power, u, v, m);
    SameWhereSolved(net, rank, ambient, power, v, u, m);
  }

  // ---- a solution, one unknown at a time ----

  ghost function Put(t: Field, n: int, x: real): Field {
    k => if k == n then x else t(k)
  }

  /** From u towards v, s of the way. */
  ghost function Mixed(u: Field, v: Field, s: real): Field {
    k => u(k) + Times(s, v(k) - u(k))
  }

  lemma {:induction false} MixedTerm(a: real, s: real, x0: real, y0: real, x: real, y: real)
    ensures Times(a, (x + Times(s, y - x)) - (x0 + Times(s, y0 - x0)))
         == Times(a, x - x0) + Times(s, Times(a, y - y0) - Times(a, x - x0))
  {
    assert a * ((x + s * (y - x)) - (x0 + s * (y0 - x0))) == a * (x - x0) + s * (a * (y - y0) - a * (x - x0));
  }

  lemma {:induction false} MixedInflow(links: seq<Link>, u: Field, v: Field, s: real, x: real, y: real)
    ensures Inflow(links, Mixed(u, v, s), x + Times(s, y - x)) == Inflow(links, u, x) + Times(s, Inflow(links, v, y) - Inflow(links, u, x))
  {
    hide Times;
    if links == [] {
      TimesLaws(s, 0.0, 0.0);
    } else {
      var rest, l := links[..|links|-1], links[|links|-1];
      MixedInflow(rest, u, v, s, x, y);
      MixedTerm(l.conductance, s, x, y, u(l.to), v(l.to));
      TimesLaws(s, Inflow(rest, v, y) - Inflow(rest, u, x), Times(l.conductance, v(l.to) - y) - Times(l.conductance, u(l.to) - x));
    }
  }

  lemma {:induction false} MixedRest(node: Node, ambient: real, power: real, u: Field, v: Field, s: real, k: nat)
    ensures Rest(node, ambient, power, Mixed(u, v, s), Mixed(u, v, s)(k))
         == Rest(node, ambient, power, u, u(k)) + Times(s, Rest(node, ambient, power, v, v(k)) - Rest(node, ambient, power, u, u(k)))
  {
    hide Times;
    var x, y := u(k), v(k);
    MixedInflow(node.links, u, v, s, x, y);
    MixedTerm(node.ground, s, x, y, ambient, ambient);
    TimesLaws(s, 0.0, 0.0);
    TimesLaws(s, Inflow(node.links, v, y) - Inflow(node.links, u, x), Times(node.ground, ambient - y) - Times(node.ground, ambient - x));
  }

  /** The nodes before n balance, all others have the values given. */
  ghost predicate SolvedBefore(net: seq<Node>, ambient: real, power: Field, given: Field, t: Field, n: nat) {
    && (forall k: nat | k < n && k < |net| :: Rest(net[k], ambient, power(k), t, t(k)) == 0.0)
    && (forall k | !(0 <= k < n) :: t(k) == given(k))
  }

  /** Raising the value given to the next node changes what it is short of balance. */
  lemma {:induction false} NodeDecides(net: seq<Node>, rank: int -> nat, ambient: real, power: Field, given: Field, t0: Field, t1: Field, n: nat)
    requires Drained(net, rank) && n < |net|
    requires SolvedBefore(net, ambient, power, Put(given, n, 0.0), t0, n) && SolvedBefore(net, ambient, power, Put(given, n, 1.0), t1, n)
    ensures Rest(net[n], ambient, power(n), t0, t0(n)) != Rest(net[n], ambient, power(n), t1, t1(n))
  {
    assert t0(n) == Put(given, n, 0.0)(n) == 0.0 && t1(n) == Put(given, n, 1.0)(n) == 1.0;
    var r := Rest(net[n], ambient, power(n), t0, t0(n));
    if r == Rest(net[n], ambient, power(n), t1, t1(n)) {
      var q := Put(power, n, power(n) - r);
      forall k: nat | k < |net|
        ensures (Rest(net[k], ambient, q(k), t0, t0(k)) == 0.0 && Rest(net[k], ambient, q(k), t1, t1(k)) == 0.0) || t0(k) == t1(k)
      {
        if k > n {
          assert t0(k) == Put(given, n, 0.0)(k) && t1(k) == Put(given, n, 1.0)(k);
        }
      }
      hide Drained, Rest, SolvedBefore;
      SameWhereSolved(net, rank, ambient, q, t1, t0, n);
      assert false;
    }
  }

  lemma {:induction false} RootOfLine(r0: real, r1: real)
    requires r0 != r1
    ensures r0 + Times(Quotient(r0, r0 - r1), r1 - r0) == 0.0
  {
    QuotientTimes(r0, r0 - r1);
  }

  /** Whatever values the later nodes are given, the earlier ones can be balanced. */
  lemma {:induction false} SolveBefore(net: seq<Node>, rank: int -> nat, ambient: real, power: Field, given: Field, n: nat) returns (t: Field)
    requires Drained(net, rank) && n <= |net|
    ensures SolvedBefore(net, ambient, power, given, t, n)
    decreases n
  {
    if n == 0 {
      return given;
    }
    hide SolvedBefore, Drained;
    var t0 := SolveBefore(net, rank, ambient, power, Put(given, n - 1, 0.0), n - 1);
    var t1 := SolveBefore(net, rank, ambient, power, Put(given, n - 1, 1.0), n - 1);
    NodeDecides(net, rank, ambient, power, given, t0, t1, n - 1);
    t := MixToBalance(net, ambient, power, given, t0, t1, n - 1);
  }

  lemma {:induction false} MixToBalance(net: seq<Node>, ambient: real, power: Field, given: Field, t0: Field, t1: Field, n: nat) returns (t: Field)
    requires n < |net|
    requires SolvedBefore(net, ambient, power, Put(given, n, 0.0), t0, n) && SolvedBefore(net, ambient, power, Put(given, n, 1.0), t1, n)
    requires Rest(net[n], ambient, power(n), t0, t0(n)) != Rest(net[n], ambient, power(n), t1, t1(n))
    ensures SolvedBefore(net, ambient, power, given, t, n + 1)
  {
    hide Times, Quotient, Rest;
    var r0, r1 := Rest(net[n], ambient, power(n), t0, t0(n)), Rest(net[n], ambient, power(n), t1, t1(n));
    var s := Quotient(r0, r0 - r1);
    t := Mixed(t0, t1, s);
    TimesLaws(s, 0.0, 0.0);
    forall k: nat | k <= n ensures Rest(net[k], ambient, power(k), t, t(k)) == 0.0 {
      MixedRest(net[k], ambient, power(k), t0, t1, s, k);
      RootOfLine(r0, r1);
    }
    forall k | !(0 <= k < n + 1) ensures t(k) == given(k) {
      assert t0(k) == Put(given, n, 0.0)(k) && t1(k) == Put(given, n, 1.0)(k);
    }
  }

  /** A network that drains has a solution. */
  lemma {:induction false} SolutionExists(net: seq<Node>, rank: int -> nat, ambient: real) returns (t: Field)
    requires Drained(net, rank)
    ensures Solved(net, ambient, t)
  {
    var power: Field := k => if 0 <= k < |net| then net[k].source else 0.0;
    t := SolveBefore(net, rank, ambient, power, k => 0.0, |net|);
    hide Drained, Rest;
    forall k: nat | k < |net| ensures Balanced(net, ambient, t, k) {
      BalancedIsRest(net, ambient, t, k);
    }
  }
}
