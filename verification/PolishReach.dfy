/** From every normalized expression the legal moves lead to the annealer's first
    expression, and so from any expression to any other over the same units. */
module PolishReach {
  import opened PolishExpression
  import opened PolishMoves

  // ---- stage 1: push every cut as far left as balloting allows ----

  function CutPositions(e: seq<int>, k: nat): nat
    requires k <= |e|
  {
    if k == 0 then 0 else CutPositions(e, k - 1) + if e[k-1] < 0 then k - 1 else 0
  }

  lemma {:induction false} CutPositionsSwapped(e: seq<int>, p: nat, k: nat)
    requires p + 1 < |e| && e[p] >= 0 && e[p+1] < 0 && k <= |e|
    ensures CutPositions(Swapped(e, p, p + 1), k) ==
            CutPositions(e, k) + if k <= p then 0 else if k == p + 1 then p else -1
  {
    if k > 0 { CutPositionsSwapped(e, p, k - 1); }
  }

  lemma {:induction false} CutPositionsSameSigns(e: seq<int>, f: seq<int>, k: nat)
    requires SameSigns(e, f) && k <= |e|
    ensures CutPositions(e, k) == CutPositions(f, k)
  {
    if k > 0 { CutPositionsSameSigns(e, f, k - 1); }
  }

  /** A unit directly followed by a cut that balloting lets come forward. */
  ghost predicate Movable(e: seq<int>, p: int) {
    0 <= p < |e| - 1 && e[p] >= 0 && e[p+1] < 0 && 2 * Cuts(e, p + 2) < p + 1
  }

  /** Units and cuts alternate after the first unit: 0 1 c 2 c ... */
  ghost predicate Alternating(e: seq<int>) {
    forall i | 0 <= i < |e| :: e[i] < 0 <==> (i >= 2 && i % 2 == 0)
  }

  lemma {:induction false} StuckPrefix(e: seq<int>, n: nat, h: nat)
    requires Normalized(e, n) && n >= 1
    requires forall p :: !Movable(e, p)
    requires 2 * h < |e|
    ensures Cuts(e, 2 * h + 1) == h
    ensures forall i | 0 <= i <= 2 * h :: e[i] < 0 <==> (i >= 2 && i % 2 == 0)
  {
    if h == 0 {
      assert 2 * Cuts(e, 1) < 1;
    } else {
      StuckPrefix(e, n, h - 1);
      assert 2 * Cuts(e, 2 * h) < 2 * h;
      assert Cuts(e, 2 * h) == Cuts(e, 2 * h - 1) + if e[2*h-1] < 0 then 1 else 0;
      if e[2*h] >= 0 {
        assert Cuts(e, 2 * h + 1) == h - 1;
        var q := FirstCut(e, n, 2 * h + 1, h - 1);
        assert Movable(e, q - 1);
        assert false;
      }
    }
  }

  /** The next cut after a stretch that has too few of them. */
  lemma {:induction false} FirstCut(e: seq<int>, n: nat, k: nat, c: nat) returns (q: nat)
    requires Normalized(e, n) && 0 < k <= |e| && Cuts(e, k) == c < n - 1
    requires e[k-1] >= 0
    ensures k <= q < |e| && e[q] < 0 && e[q-1] >= 0 && Cuts(e, q + 1) == c + 1
    decreases |e| - k
  {
    if e[k] < 0 {
      q := k;
    } else {
      q := FirstCut(e, n, k + 1, c);
    }
  }

  lemma {:induction false} RunOne(e: seq<int>, m: Move)
    requires Legal(e, m)
    ensures Run(e, [m], Apply(e, m))
  {
    assert [m][1..] == [];
  }

  /** Inverting the chain that starts at the moving cut makes room for it. */
  lemma {:induction false} MakeRoom(e: seq<int>, n: nat, p: nat) returns (ms: seq<Move>, d: seq<int>)
    requires Normalized(e, n) && Movable(e, p) && p > 0
    ensures Run(e, ms, d) && Normalized(d, n)
    ensures SameSigns(e, d) && d[p-1] != d[p+1]
  {
    hide Normalized, Apply, SameSigns, Cuts;
    if e[p-1] == e[p+1] {
      InvertedRoom(e, n, p);
      ms, d := [M2(p + 1)], Apply(e, M2(p + 1));
      RunOne(e, M2(p + 1));
    } else {
      ms, d := [], e;
      SignsOfItself(e);
    }
  }

  lemma {:induction false} SignsOfItself(e: seq<int>)
    ensures SameSigns(e, e)
  {
  }

  lemma {:induction false} InvertedRoom(e: seq<int>, n: nat, p: nat)
    requires Normalized(e, n) && Movable(e, p) && p > 0 && e[p-1] == e[p+1]
    ensures Legal(e, M2(p + 1))
    ensures var d := Apply(e, M2(p + 1)); Normalized(d, n) && SameSigns(e, d) && d[p-1] != d[p+1]
  {
    assert IsCut(e[p+1]);
    assert NextUnit(e, p + 1) > p + 1;
    hide Normalized;
    InvertChainKeeps(e, n, p + 1);
    var d := Apply(e, M2(p + 1));
    assert d[p-1] == e[p-1] && d[p+1] == Invert(e[p+1]);
  }

  /** One cut comes forward, lowering the sum of the cut positions. */
  lemma {:induction false} PushOne(e: seq<int>, n: nat, p: nat) returns (ms: seq<Move>, f: seq<int>)
    requires Normalized(e, n) && Movable(e, p)
    ensures Run(e, ms, f) && Normalized(f, n)
    ensures CutPositions(f, |f|) < CutPositions(e, |e|)
  {
    hide Run, Normalized;
    FlipInRange(e, n, p);
    var room, d := MakeRoom(e, n, p);
    f := PushForward(e, n, p, d);
    RunOne(d, M3(p));
    RunAppend(e, room, d, [M3(p)], f);
    ms := room + [M3(p)];
  }

  lemma {:induction false} PushForward(e: seq<int>, n: nat, p: nat, d: seq<int>) returns (f: seq<int>)
    requires Normalized(e, n) && Movable(e, p) && p > 0 && Normalized(d, n) && SameSigns(e, d) && d[p-1] != d[p+1]
    ensures Legal(d, M3(p)) && f == Apply(d, M3(p)) && Normalized(f, n)
    ensures CutPositions(f, |f|) < CutPositions(e, |e|)
  {
    hide Normalized;
    CutsSameSigns(e, d, p + 2);
    CutPositionsSameSigns(e, d, |e|);
    assert Legal(d, M3(p));
    f := Apply(d, M3(p));
    SwapCutUnitKeeps(d, n, p);
    CutPositionsSwapped(d, p, |e|);
  }

  lemma {:induction false} PushCuts(e: seq<int>, n: nat) returns (ms: seq<Move>, f: seq<int>)
    requires Normalized(e, n) && n >= 1
    ensures Run(e, ms, f) && Normalized(f, n) && Alternating(f)
    decreases CutPositions(e, |e|)
  {
    if p :| Movable(e, p) {
      var first, d := PushOne(e, n, p);
      var rest;
      rest, f := PushCuts(d, n);
      RunAppend(e, first, d, rest, f);
      ms := first + rest;
    } else {
      ms, f := [], e;
      StuckPrefix(e, n, n - 1);
    }
  }

  // ---- stage 2: make every cut vertical ----

  function Horizontals(e: seq<int>, k: nat): nat
    requires k <= |e|
  {
    if k == 0 then 0 else Horizontals(e, k - 1) + if e[k-1] == CUT_HORIZONTAL then 1 else 0
  }

  lemma {:induction false} HorizontalsUpdated(e: seq<int>, p: nat, k: nat)
    requires p < |e| && e[p] == CUT_HORIZONTAL && k <= |e|
    ensures Horizontals(e[p := CUT_VERTICAL], k) == Horizontals(e, k) - if k <= p then 0 else 1
  {
    if k > 0 { HorizontalsUpdated(e, p, k - 1); }
  }

  ghost predicate AllVertical(e: seq<int>) {
    forall i | 0 <= i < |e| && e[i] < 0 :: e[i] == CUT_VERTICAL
  }

  lemma {:induction false} TurnCuts(e: seq<int>, n: nat) returns (ms: seq<Move>, f: seq<int>)
    requires Normalized(e, n) && Alternating(e)
    ensures Run(e, ms, f) && Normalized(f, n) && Alternating(f) && AllVertical(f)
    decreases Horizontals(e, |e|)
  {
    hide Legal, Apply;
    if p: nat :| p < |e| && e[p] == CUT_HORIZONTAL {
      hide Normalized, Alternating;
      var d := TurnOne(e, n, p);
      var rest;
      rest, f := TurnCuts(d, n);
      ms := [M2(p)] + rest;
      assert ms[1..] == rest;
    } else {
      ms, f := [], e;
    }
  }

  lemma {:induction false} TurnOne(e: seq<int>, n: nat, p: nat) returns (d: seq<int>)
    requires Normalized(e, n) && Alternating(e) && p < |e| && e[p] == CUT_HORIZONTAL
    ensures Legal(e, M2(p)) && d == Apply(e, M2(p)) && Normalized(d, n) && Alternating(d)
    ensures Horizontals(d, |d|) < Horizontals(e, |e|)
  {
    d := Apply(e, M2(p));
    InvertChainKeeps(e, n, p);
    assert p + 1 < |e| ==> e[p+1] >= 0;
    assert NextUnit(e, p) == p + 1;
    assert d == e[p := CUT_VERTICAL];
    HorizontalsUpdated(e, p, |e|);
  }

  // ---- stage 3: sort the units ----

  function Scaled(d: nat, u: int): int {
    d * u
  }

  lemma {:induction false} ScaledLaws(d: nat, u: int, v: int)
    ensures Scaled(d, u) - Scaled(d, v) == Scaled(d, u - v) == -Scaled(d, v - u)
    ensures u >= 0 ==> Scaled(d, u) >= 0
    ensures Scaled(d, 0) == 0
  {
  }

  /** Units weighted by their distance from the end. */
  function Weight(e: seq<int>, k: nat): nat
    requires k <= |e|
  {
    if k == 0 then 0
    else
      var w := Scaled(|e| - (k - 1), e[k-1]);
      Weight(e, k - 1) + if e[k-1] > 0 && w > 0 then w else 0
  }

  lemma {:induction false} WeightNext(e: seq<int>, k: nat)
    requires 0 < k <= |e|
    ensures Weight(e, k) == Weight(e, k - 1) + if e[k-1] >= 0 then Scaled(|e| - (k - 1), e[k-1]) else 0
  {
    hide Scaled;
    ScaledLaws(|e| - (k - 1), e[k-1], 0);
  }

  lemma {:induction false} WeightSwapped(e: seq<int>, p: nat, q: nat, k: nat)
    requires p < q < |e| && 0 <= e[q] < e[p] && k <= |e|
    ensures Weight(Swapped(e, p, q), k) == Weight(e, k)
            - (if p < k then Scaled(|e| - p, e[p] - e[q]) else 0)
            + (if q < k then Scaled(|e| - q, e[p] - e[q]) else 0)
  {
    hide Scaled, Weight;
    if k == 0 {
      NoWeight(e);
      NoWeight(Swapped(e, p, q));
    } else {
      WeightSwapped(e, p, q, k - 1);
      WeightNext(e, k);
      WeightNext(Swapped(e, p, q), k);
      ScaledLaws(|e| - p, e[p], e[q]);
      ScaledLaws(|e| - q, e[p], e[q]);
    }
  }

  lemma {:induction false} NoWeight(e: seq<int>)
    ensures Weight(e, 0) == 0
  {
  }

  /** Putting a larger unit behind a smaller one lowers the weight. */
  lemma {:induction false} WeightFalls(e: seq<int>, p: nat, q: nat)
    requires p < q < |e| && 0 <= e[q] < e[p]
    ensures Weight(Swapped(e, p, q), |e|) < Weight(e, |e|)
  {
    hide Scaled, Weight;
    WeightSwapped(e, p, q, |e|);
    ScaledRises(|e| - q, |e| - p, e[p] - e[q]);
  }

  lemma {:induction false} ScaledRises(a: nat, b: nat, d: int)
    requires a < b && d > 0
    ensures Scaled(a, d) < Scaled(b, d)
  {
    assert b * d - a * d == (b - a) * d;
    assert (b - a) * d > 0;
  }

  /** Position of the h-th unit of an alternating expression. */
  function UnitAt(h: nat): nat {
    if h == 0 then 0 else 2 * h - 1
  }

  lemma {:induction false} UnitAtIsUnit(e: seq<int>, n: nat, h: nat)
    requires Normalized(e, n) && Alternating(e) && h < n
    ensures UnitAt(h) < |e| && 0 <= e[UnitAt(h)] < n
    ensures h + 1 < n ==> NextUnit(e, UnitAt(h) + 1) == UnitAt(h + 1)
  {
    if 0 < h < n - 1 { assert e[2*h] < 0; }
  }

  ghost predicate UnitsAscend(e: seq<int>, n: nat)
    requires |e| == 2 * n - 1
  {
    forall h | 0 <= h < n - 1 :: e[UnitAt(h)] < e[UnitAt(h+1)]
  }

  lemma {:induction false} AscendingUnitsFrom(e: seq<int>, n: nat, h: nat)
    requires Normalized(e, n) && Alternating(e) && UnitsAscend(e, n) && h < n
    ensures e[UnitAt(h)] >= h
  {
    UnitAtIsUnit(e, n, h);
    if h > 0 {
      AscendingUnitsFrom(e, n, h - 1);
      assert e[UnitAt(h-1)] < e[UnitAt(h-1+1)];
    }
  }

  lemma {:induction false} AscendingUnitsTo(e: seq<int>, n: nat, h: nat)
    requires Normalized(e, n) && Alternating(e) && UnitsAscend(e, n) && h < n
    ensures e[UnitAt(h)] <= h
    decreases n - h
  {
    UnitAtIsUnit(e, n, h);
    if h < n - 1 {
      AscendingUnitsTo(e, n, h + 1);
    }
  }

  lemma {:induction false} InitialAt(n: nat, i: nat)
    requires n >= 1 && i < 2 * n - 1
    ensures Initial(n)[i] == if i == 0 then 0 else if i % 2 == 1 then (i + 1) / 2 else CUT_VERTICAL
  {
    if n > 1 && i < 2 * n - 3 { InitialAt(n - 1, i); }
  }

  /** Exchanging a unit with a smaller next one keeps the shape, lowering the weight. */
  lemma {:induction false} SortOne(e: seq<int>, n: nat, h: nat) returns (m: Move, d: seq<int>)
    requires Normalized(e, n) && Alternating(e) && AllVertical(e)
    requires h + 1 < n && UnitAt(h + 1) < |e| && e[UnitAt(h)] >= e[UnitAt(h + 1)]
    ensures Legal(e, m) && d == Apply(e, m)
    ensures Normalized(d, n) && Alternating(d) && AllVertical(d)
    ensures Weight(d, |d|) < Weight(e, |e|)
  {
    UnitAtIsUnit(e, n, h);
    UnitAtIsUnit(e, n, h + 1);
    var p, q := UnitAt(h), UnitAt(h + 1);
    m, d := M1(p), Swapped(e, p, q);
    SwapUnitsKeeps(e, n, p);
    hide Normalized;
    WeightFalls(e, p, q);
  }

  /** The only sorted shape is the first expression. */
  lemma {:induction false} SortedIsInitial(e: seq<int>, n: nat)
    requires Normalized(e, n) && Alternating(e) && AllVertical(e) && UnitsAscend(e, n) && n >= 1
    ensures e == Initial(n)
  {
    forall i | 0 <= i < |e| ensures e[i] == Initial(n)[i] {
      InitialAt(n, i);
      if i == 0 || i % 2 == 1 {
        var h := (i + 1) / 2;
        assert UnitAt(h) == i;
        AscendingUnitsFrom(e, n, h);
        AscendingUnitsTo(e, n, h);
      }
    }
  }

  lemma {:induction false} SortUnits(e: seq<int>, n: nat) returns (ms: seq<Move>)
    requires Normalized(e, n) && Alternating(e) && AllVertical(e) && n >= 1
    ensures Run(e, ms, Initial(n))
    decreases Weight(e, |e|)
  {
    if h: nat :| h < n - 1 && e[UnitAt(h)] >= e[UnitAt(h + 1)] {
      var m, d := SortOne(e, n, h);
      var rest := SortUnits(d, n);
      RunOne(e, m);
      RunAppend(e, [m], d, rest, Initial(n));
      ms := [m] + rest;
    } else {
      SortedIsInitial(e, n);
      ms := [];
    }
  }

  // ---- the theorems ----

  lemma {:induction false} InitialNormalized(n: nat)
    requires n >= 1
    ensures Normalized(Initial(n), n)
  {
    var e := Initial(n);
    forall i | 0 <= i < |e|
      ensures e[i] == if i == 0 then 0 else if i % 2 == 1 then (i + 1) / 2 else CUT_VERTICAL
    {
      InitialAt(n, i);
    }
    forall k | 0 <= k <= |e| ensures Cuts(e, k) == if k == 0 then 0 else (k - 1) / 2 {
      InitialCuts(e, k);
    }
  }

  lemma {:induction false} InitialCuts(e: seq<int>, k: nat)
    requires k <= |e| && Alternating(e)
    ensures Cuts(e, k) == if k == 0 then 0 else (k - 1) / 2
  {
    if k > 0 { InitialCuts(e, k - 1); }
  }

  /** Every normalized expression reaches the annealer's first one. */
  lemma {:induction false} ReachInitial(e: seq<int>, n: nat) returns (ms: seq<Move>)
    requires Normalized(e, n) && n >= 1
    ensures Run(e, ms, Initial(n))
  {
    var ms1, f := PushCuts(e, n);
    var ms2, g := TurnCuts(f, n);
    var ms3 := SortUnits(g, n);
    RunAppend(e, ms1, f, ms2, g);
    RunAppend(e, ms1 + ms2, g, ms3, Initial(n));
    ms := ms1 + ms2 + ms3;
  }

  ghost predicate Reaches(e: seq<int>, f: seq<int>) {
    exists ms: seq<Move> :: Run(e, ms, f)
  }

  /** The expressions the annealer can reach from its first one are exactly the
      normalized expressions. */
  lemma {:induction false} ReachableIffNormalized(n: nat, e: seq<int>)
    requires n >= 1
    ensures Reaches(Initial(n), e) <==> Normalized(e, n)
  {
    InitialNormalized(n);
    if Reaches(Initial(n), e) {
      var ms :| Run(Initial(n), ms, e);
      RunKeeps(Initial(n), n, ms, e);
    }
    if Normalized(e, n) {
      var ms := ReachInitial(e, n);
      RunUndone(e, n, ms, Initial(n));
      var back := Reversed(ms);
      assert Run(Initial(n), back, e);
    }
  }
}
