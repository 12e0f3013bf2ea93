/** Normalized Polish expressions over units 0..n-1, the index lists kept beside
    them, and the three annealing moves, all as functions on sequences. */
module PolishExpression {

  const CUT_VERTICAL := -2
  const CUT_HORIZONTAL := -3

  predicate IsCut(t: int) {
    t == CUT_VERTICAL || t == CUT_HORIZONTAL
  }

  function Invert(t: int): int {
    if t == CUT_VERTICAL then CUT_HORIZONTAL
    else if t == CUT_HORIZONTAL then CUT_VERTICAL
    else t
  }

  /** The number of cuts among the first k elements. */
  function Cuts(e: seq<int>, k: nat): (c: nat)
    requires k <= |e|
  {
    if k == 0 then 0 else Cuts(e, k - 1) + if e[k-1] < 0 then 1 else 0
  }

  ghost predicate UnitsDistinct(e: seq<int>) {
    forall i, j | 0 <= i < j < |e| && e[i] >= 0 && e[j] >= 0 :: e[i] != e[j]
  }

  ghost predicate NoEqualAdjacentCuts(e: seq<int>) {
    forall i, j | 0 <= i < j < |e| && j == i + 1 && e[i] < 0 :: e[i] != e[j]
  }

  /** In every nonempty prefix the units outnumber the cuts. */
  ghost predicate Balloting(e: seq<int>) {
    forall k | 1 <= k <= |e| :: 2 * Cuts(e, k) < k
  }

  ghost predicate Elements(e: seq<int>, n: nat) {
    && |e| == 2 * n - 1
    && (forall i | 0 <= i < |e| :: IsCut(e[i]) || 0 <= e[i] < n)
    && Cuts(e, |e|) == n - 1
  }

  /** A normalized Polish expression over the units 0..n-1. */
  ghost predicate Normalized(e: seq<int>, n: nat) {
    && Elements(e, n)
    && UnitsDistinct(e)
    && NoEqualAdjacentCuts(e)
    && Balloting(e)
  }

  /** The three index lists: units, unit/cut boundaries, first cuts of chains. */
  datatype Index = Units | Flips | Chains

  predicate Marks(x: Index, e: seq<int>, i: int) {
    && 0 <= i < |e|
    && match x
       case Units => e[i] >= 0
       case Flips => i < |e| - 1 && (e[i] < 0 <==> e[i+1] >= 0)
       case Chains => e[i] < 0 && (i == 0 || e[i-1] >= 0)
  }

  ghost predicate Ascending(s: seq<int>) {
    forall a, b | 0 <= a < b < |s| :: s[a] < s[b]
  }

  /** The marked positions below k, in ascending order. */
  function Where(x: Index, e: seq<int>, k: nat): seq<int> {
    if k == 0 then [] else Where(x, e, k - 1) + if Marks(x, e, k - 1) then [k - 1] else []
  }

  lemma {:induction false} WhereIs(x: Index, e: seq<int>, k: nat)
    ensures Ascending(Where(x, e, k))
    ensures forall p :: p in Where(x, e, k) <==> p < k && Marks(x, e, p)
  {
    if k > 0 {
      WhereIs(x, e, k - 1);
      var w := Where(x, e, k - 1);
      assert forall a | 0 <= a < |w| :: w[a] in w;
    }
  }

  function Ballot(e: seq<int>): (b: seq<int>)
    ensures |b| == |e| && forall i | 0 <= i < |e| :: b[i] == Cuts(e, i + 1)
  {
    seq(|e|, i requires 0 <= i < |e| => Cuts(e, i + 1))
  }

  /** The first expression of the annealing: 0 1 V 2 V ... n-1 V. */
  function Initial(n: nat): (e: seq<int>)
    requires n >= 1
    ensures |e| == 2 * n - 1
  {
    if n == 1 then [0] else Initial(n - 1) + [n - 1, CUT_VERTICAL]
  }

  // ---- the moves ----

  /** The first unit after pos, or |e|. */
  function NextUnit(e: seq<int>, i: nat): (j: nat)
    requires i <= |e|
    ensures i <= j <= |e|
    ensures forall k | i <= k < j :: e[k] < 0
    ensures j < |e| ==> e[j] >= 0
    decreases |e| - i
  {
    if i < |e| && e[i] < 0 then NextUnit(e, i + 1) else i
  }

  function Swapped(e: seq<int>, i: nat, j: nat): seq<int>
    requires i < |e| && j < |e|
  {
    e[i := e[j]][j := e[i]]
  }

  function InvertChain(e: seq<int>, pos: nat): (r: seq<int>)
    requires pos <= |e|
  {
    var end := NextUnit(e, pos);
    seq(|e|, k requires 0 <= k < |e| => if pos <= k < end then Invert(e[k]) else e[k])
  }

  /** The two tests that let a unit and a cut change places. */
  predicate SwapAllowed(e: seq<int>, pos: int)
    requires 0 < pos < |e| - 1
  {
    if e[pos] >= 0 then e[pos-1] != e[pos+1] && 2 * Cuts(e, pos + 2) < pos + 1
    else pos < |e| - 2 ==> e[pos] != e[pos+2]
  }

  datatype Move = M1(pos: nat) | M2(pos: nat) | M3(pos: nat)

  /** A move the annealer can make: its position comes from the matching index
      list (for M1, not the last unit) and M3 passes its tests. */
  predicate Legal(e: seq<int>, m: Move) {
    match m
    case M1(pos) => Marks(Units, e, pos) && NextUnit(e, pos + 1) < |e|
    case M2(pos) => Marks(Chains, e, pos)
    case M3(pos) => Marks(Flips, e, pos) && 0 < pos && SwapAllowed(e, pos)
  }

  function Apply(e: seq<int>, m: Move): seq<int>
    requires Legal(e, m)
  {
    match m
    case M1(pos) => Swapped(e, pos, NextUnit(e, pos + 1))
    case M2(pos) => InvertChain(e, pos)
    case M3(pos) => Swapped(e, pos, pos + 1)
  }

  /** e becomes f by the legal moves ms, in order. */
  predicate Run(e: seq<int>, ms: seq<Move>, f: seq<int>)
    decreases |ms|
  {
    if ms == [] then e == f
    else Legal(e, ms[0]) && Run(Apply(e, ms[0]), ms[1..], f)
  }

  // ---- facts about the index lists ----

  lemma {:induction false} AscendingUnique(s: seq<int>, t: seq<int>)
    requires Ascending(s) && Ascending(t)
    requires forall p :: p in s <==> p in t
    ensures s == t
  {
    assert t != [] ==> t[0] in t;
    if s != [] {
      assert s[0] in s;
      assert t[0] in s;
      assert s[0] == t[0];
      forall p ensures p in s[1..] <==> p in t[1..] {
        assert p in s <==> p == s[0] || p in s[1..] by { assert s == [s[0]] + s[1..]; }
        assert p in t <==> p == t[0] || p in t[1..] by { assert t == [t[0]] + t[1..]; }
      }
      AscendingUnique(s[1..], t[1..]);
      assert s == [s[0]] + s[1..];
    }
  }

  ghost predicate SameSigns(e: seq<int>, f: seq<int>) {
    |e| == |f| && forall i | 0 <= i < |e| :: e[i] < 0 <==> f[i] < 0
  }

  lemma {:induction false} NextUnitSameSigns(e: seq<int>, f: seq<int>, i: nat)
    requires SameSigns(e, f) && i <= |e|
    ensures NextUnit(e, i) == NextUnit(f, i)
    decreases |e| - i
  {
    if i < |e| { NextUnitSameSigns(e, f, i + 1); }
  }

  lemma {:induction false} CutsSameSigns(e: seq<int>, f: seq<int>, k: nat)
    requires SameSigns(e, f) && k <= |e|
    ensures Cuts(e, k) == Cuts(f, k)
  {
    if k > 0 { CutsSameSigns(e, f, k - 1); }
  }

  /** Changing labels but no sign leaves all four index lists alone. */
  lemma {:induction false} IndexesSameSigns(e: seq<int>, f: seq<int>)
    requires SameSigns(e, f)
    ensures forall x: Index, k: nat :: Where(x, e, k) == Where(x, f, k)
    ensures Ballot(e) == Ballot(f)
    ensures forall k | 0 <= k <= |e| :: Cuts(e, k) == Cuts(f, k)
  {
    forall x: Index, k: nat ensures Where(x, e, k) == Where(x, f, k) {
      forall p ensures Marks(x, e, p) <==> Marks(x, f, p) {
      }
      WhereIs(x, e, k);
      WhereIs(x, f, k);
      AscendingUnique(Where(x, e, k), Where(x, f, k));
    }
    forall k | 0 <= k <= |e| ensures Cuts(e, k) == Cuts(f, k) {
      CutsSameSigns(e, f, k);
    }
  }

  /** Swapping neighbours of opposite sign changes one prefix count only. */
  lemma {:induction false} CutsSwapped(e: seq<int>, pos: nat, k: nat)
    requires pos + 1 < |e| && (e[pos] < 0 <==> e[pos+1] >= 0) && k <= |e|
    ensures Cuts(Swapped(e, pos, pos + 1), k) ==
            Cuts(e, k) + if k != pos + 1 then 0 else if e[pos] >= 0 then 1 else -1
  {
    if k > 0 { CutsSwapped(e, pos, k - 1); }
  }

  /** Units and cuts in a prefix add up. */
  lemma {:induction false} UnitsAndCuts(e: seq<int>, k: nat)
    requires k <= |e|
    ensures |Where(Units, e, k)| + Cuts(e, k) == k
  {
    if k > 0 { UnitsAndCuts(e, k - 1); }
  }

  /** No equal adjacent cuts among the first k elements. */
  predicate NoEqualCutsBelow(e: seq<int>, k: nat)
    requires k <= |e|
  {
    k <= 1 || (NoEqualCutsBelow(e, k - 1) && (e[k-2] < 0 ==> e[k-2] != e[k-1]))
  }

  lemma {:induction false} NoEqualCutsBelowIs(e: seq<int>, k: nat)
    requires k <= |e|
    ensures NoEqualCutsBelow(e, k) <==> NoEqualAdjacentCuts(e[..k])
    ensures NoEqualAdjacentCuts(e) ==> NoEqualCutsBelow(e, k)
    ensures !NoEqualCutsBelow(e, k) ==> !NoEqualAdjacentCuts(e)
  {
    if k > 1 {
      NoEqualCutsBelowIs(e, k - 1);
      assert e[..k][..k-1] == e[..k-1];
      assert forall i | 0 <= i < k - 1 :: e[..k][i] == e[..k-1][i];
    }
  }

  lemma {:induction false} ChainsAtMostCuts(e: seq<int>, k: nat)
    requires k <= |e|
    ensures |Where(Chains, e, k)| <= Cuts(e, k)
  {
    if k > 0 { ChainsAtMostCuts(e, k - 1); }
  }

  /** A boundary never sits at either end, so M3 never sees an invalid position. */
  lemma {:induction false} FlipInRange(e: seq<int>, n: nat, pos: nat)
    requires Normalized(e, n) && Marks(Flips, e, pos)
    ensures 0 < pos < |e| - 1
  {
    assert Cuts(e, 1) == 0 && Cuts(e, 2) == 0 by {
      assert 2 * Cuts(e, 1) < 1;
      assert 2 * Cuts(e, 2) < 2;
      assert Cuts(e, 2) == Cuts(e, 1) + if e[1] < 0 then 1 else 0;
      assert Cuts(e, 1) == Cuts(e, 0) + if e[0] < 0 then 1 else 0;
    }
  }

  /** What the allocated array sizes rest on. */
  lemma {:induction false} Capacities(e: seq<int>, n: nat)
    requires Normalized(e, n)
    ensures |Where(Units, e, |e|)| == n
    ensures |Where(Chains, e, |e|)| <= n - 1
    ensures NoEqualAdjacentCuts(e)
  {
    UnitsAndCuts(e, |e|);
    ChainsAtMostCuts(e, |e|);
  }
}
