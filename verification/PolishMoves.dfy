/** What the annealing moves keep, how they are undone, and what they reach. */
module PolishMoves {
  import opened PolishExpression

  // ---- every legal move keeps the expression normalized ----

  lemma {:induction false} PrefixesSameSigns(e: seq<int>, f: seq<int>, n: nat)
    requires Normalized(e, n) && SameSigns(e, f)
    ensures Balloting(f) && Cuts(f, |f|) == n - 1
  {
    IndexesSameSigns(e, f);
  }

  lemma {:induction false} SwapUnitsKeeps(e: seq<int>, n: nat, pos: nat)
    requires Normalized(e, n) && Legal(e, M1(pos))
    ensures Normalized(Apply(e, M1(pos)), n)
    ensures SameSigns(e, Apply(e, M1(pos)))
  {
    PrefixesSameSigns(e, Apply(e, M1(pos)), n);
  }

  /** Inverting a maximal stretch of cuts leaves no two equal neighbours. */
  lemma {:induction false} InvertChainNormal(e: seq<int>, pos: nat)
    requires Marks(Chains, e, pos) && NoEqualAdjacentCuts(e)
    requires forall k | 0 <= k < |e| && e[k] < 0 :: IsCut(e[k])
    ensures NoEqualAdjacentCuts(InvertChain(e, pos))
    ensures SameSigns(e, InvertChain(e, pos))
  {
    var f, end := InvertChain(e, pos), NextUnit(e, pos);
    forall i, j | 0 <= i < j < |f| && j == i + 1 && f[i] < 0 ensures f[i] != f[j] {
      assert e[i] < 0 && e[i] != e[j];
    }
  }

  lemma {:induction false} InvertChainUnits(e: seq<int>, pos: nat, n: nat)
    requires Marks(Chains, e, pos) && UnitsDistinct(e)
    requires forall k | 0 <= k < |e| :: IsCut(e[k]) || 0 <= e[k] < n
    ensures UnitsDistinct(InvertChain(e, pos))
    ensures forall k | 0 <= k < |e| :: var f := InvertChain(e, pos); IsCut(f[k]) || 0 <= f[k] < n
  {
    var f := InvertChain(e, pos);
    assert forall k | 0 <= k < |e| :: f[k] >= 0 ==> f[k] == e[k];
  }

  lemma {:induction false} InvertChainKeeps(e: seq<int>, n: nat, pos: nat)
    requires Normalized(e, n) && Legal(e, M2(pos))
    ensures Normalized(Apply(e, M2(pos)), n)
    ensures SameSigns(e, Apply(e, M2(pos)))
  {
    InvertChainNormal(e, pos);
    PrefixesSameSigns(e, Apply(e, M2(pos)), n);
    InvertChainUnits(e, pos, n);
  }

  lemma {:induction false} SwapCutUnitKeeps(e: seq<int>, n: nat, pos: nat)
    requires Normalized(e, n) && Legal(e, M3(pos))
    ensures Normalized(Apply(e, M3(pos)), n)
  {
    hide Balloting, Cuts;
    SwapKeepsBalance(e, n, pos);
  }

  lemma {:induction false} SwapKeepsBalance(e: seq<int>, n: nat, pos: nat)
    requires Normalized(e, n) && Legal(e, M3(pos))
    ensures var f := Apply(e, M3(pos)); Balloting(f) && Cuts(f, |f|) == Cuts(e, |e|)
  {
    hide Elements, UnitsDistinct, NoEqualAdjacentCuts;
    var f := Apply(e, M3(pos));
    forall k | 0 <= k <= |e| ensures Cuts(f, k) == Cuts(e, k) + if k != pos + 1 then 0 else if e[pos] >= 0 then 1 else -1 {
      CutsSwapped(e, pos, k);
    }
    assert Cuts(e, pos + 2) == Cuts(e, pos + 1) + if e[pos+1] < 0 then 1 else 0;
    assert Cuts(e, pos + 1) == Cuts(e, pos) + if e[pos] < 0 then 1 else 0;
    assert 2 * Cuts(e, pos + 1) < pos + 1;
    forall k | 1 <= k <= |f| ensures 2 * Cuts(f, k) < k {
      assert 2 * Cuts(e, k) < k;
    }
  }

  /** The two tests of the third move are exactly what it takes: a unit and a cut that are
      neighbours may change places if and only if the expression stays normalized. */
  lemma {:induction false} SwapLegalIff(e: seq<int>, n: nat, pos: nat)
    requires Normalized(e, n) && Marks(Flips, e, pos)
    ensures pos > 0 && (Legal(e, M3(pos)) <==> Normalized(Swapped(e, pos, pos + 1), n))
  {
    StartsWithUnits(e, n);
    if Legal(e, M3(pos)) { MoveKeeps(e, n, M3(pos)); }
    if Normalized(Swapped(e, pos, pos + 1), n) { SwapPasses(e, n, pos); }
  }

  lemma {:induction false} SwapPasses(e: seq<int>, n: nat, pos: nat)
    requires Normalized(e, n) && Marks(Flips, e, pos) && pos > 0 && Normalized(Swapped(e, pos, pos + 1), n)
    ensures SwapAllowed(e, pos)
  {
    var f := Swapped(e, pos, pos + 1);
    hide Elements, UnitsDistinct;
    CutsSwapped(e, pos, pos + 1);
    assert 2 * Cuts(f, pos + 1) < pos + 1;
    assert f[pos-1] == e[pos-1] && f[pos] == e[pos+1] && f[pos+1] == e[pos];
    assert e[pos+1] < 0 ==> f[pos-1] != f[pos];
    assert pos < |e| - 2 && e[pos] < 0 ==> f[pos+1] != f[pos+2];
  }

  /** An expression over two units or more begins with two of them. */
  lemma {:induction false} StartsWithUnits(e: seq<int>, n: nat)
    requires Normalized(e, n) && |e| >= 2
    ensures e[0] >= 0 && e[1] >= 0
  {
    assert 2 * Cuts(e, 1) < 1 && 2 * Cuts(e, 2) < 2;
  }

  /** Invariant of the annealing: one legal move keeps a normalized expression
      over the same units. */
  lemma {:induction false} MoveKeeps(e: seq<int>, n: nat, m: Move)
    requires Normalized(e, n) && Legal(e, m)
    ensures Normalized(Apply(e, m), n)
  {
    match m
    case M1(pos) => SwapUnitsKeeps(e, n, pos);
    case M2(pos) => InvertChainKeeps(e, n, pos);
    case M3(pos) => SwapCutUnitKeeps(e, n, pos);
  }

  lemma {:induction false} RunKeeps(e: seq<int>, n: nat, ms: seq<Move>, f: seq<int>)
    requires Normalized(e, n) && Run(e, ms, f)
    ensures Normalized(f, n)
    decreases |ms|
  {
    if ms != [] {
      MoveKeeps(e, n, ms[0]);
      RunKeeps(Apply(e, ms[0]), n, ms[1..], f);
    }
  }

  // ---- every legal move is undone by the same move ----

  lemma {:induction false} UndoSwapUnits(e: seq<int>, n: nat, pos: nat)
    requires Normalized(e, n) && Legal(e, M1(pos))
    ensures var f := Apply(e, M1(pos)); Legal(f, M1(pos)) && Apply(f, M1(pos)) == e
  {
    var f, q := Apply(e, M1(pos)), NextUnit(e, pos + 1);
    assert f[q] == e[pos] && f[pos] == e[q];
    FirstUnitAfter(f, pos + 1, q);
  }

  lemma {:induction false} FirstUnitAfter(e: seq<int>, i: nat, j: nat)
    requires i <= j < |e| && e[j] >= 0 && forall k | i <= k < j :: e[k] < 0
    ensures NextUnit(e, i) == j
    decreases j - i
  {
    if i < j { FirstUnitAfter(e, i + 1, j); }
  }

  lemma {:induction false} UndoInvertChain(e: seq<int>, n: nat, pos: nat)
    requires Normalized(e, n) && Legal(e, M2(pos))
    ensures var f := Apply(e, M2(pos)); Legal(f, M2(pos)) && Apply(f, M2(pos)) == e
  {
    var f := Apply(e, M2(pos));
    InvertChainKeeps(e, n, pos);
    NextUnitSameSigns(e, f, pos);
    assert Apply(f, M2(pos)) == e;
  }

  lemma {:induction false} UndoSwapCutUnit(e: seq<int>, n: nat, pos: nat)
    requires Normalized(e, n) && Legal(e, M3(pos))
    ensures var f := Apply(e, M3(pos)); Legal(f, M3(pos)) && Apply(f, M3(pos)) == e
  {
    var f := Apply(e, M3(pos));
    CutsSwapped(e, pos, pos + 2);
    assert Cuts(e, pos + 2) == Cuts(e, pos + 1) + if e[pos+1] < 0 then 1 else 0;
    assert 2 * Cuts(e, pos + 1) < pos + 1;
    assert Apply(f, M3(pos)) == e;
  }

  lemma {:induction false} MoveUndone(e: seq<int>, n: nat, m: Move)
    requires Normalized(e, n) && Legal(e, m)
    ensures Legal(Apply(e, m), m) && Apply(Apply(e, m), m) == e
  {
    match m
    case M1(pos) => UndoSwapUnits(e, n, pos);
    case M2(pos) => UndoInvertChain(e, n, pos);
    case M3(pos) => UndoSwapCutUnit(e, n, pos);
  }

  lemma {:induction false} RunAppend(e: seq<int>, ms: seq<Move>, f: seq<int>, ns: seq<Move>, g: seq<int>)
    requires Run(e, ms, f) && Run(f, ns, g)
    ensures Run(e, ms + ns, g)
    decreases |ms|
  {
    hide Legal, Apply;
    if ms == [] {
      assert ms + ns == ns;
    } else {
      RunAppend(Apply(e, ms[0]), ms[1..], f, ns, g);
      var all := ms + ns;
      assert all[0] == ms[0] && all[1..] == ms[1..] + ns;
    }
  }

  function Reversed(ms: seq<Move>): seq<Move> {
    if ms == [] then [] else Reversed(ms[1..]) + [ms[0]]
  }

  /** A whole run is undone by its own moves in reverse order. */
  lemma {:induction false} RunUndone(e: seq<int>, n: nat, ms: seq<Move>, f: seq<int>)
    requires Normalized(e, n) && Run(e, ms, f)
    ensures Run(f, Reversed(ms), e)
    decreases |ms|
  {
    if ms != [] {
      var d := Apply(e, ms[0]);
      MoveKeeps(e, n, ms[0]);
      RunUndone(d, n, ms[1..], f);
      MoveUndone(e, n, ms[0]);
      var back := [ms[0]];
      assert back[1..] == [];
      assert Run(Apply(d, back[0]), back[1..], e);
      assert Run(d, back, e);
      RunAppend(f, Reversed(ms[1..]), d, back, e);
    }
  }
}
