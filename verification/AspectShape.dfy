/** The shape curve of a block: the orientations its area and aspect ratios allow. */
module AspectShape {
  import opened Sums
  import opened Numbers
  import opened ShapeCurve

  /** r multiplied i times. */
  function Power(r: real, i: nat): real {
    if i == 0 then 1.0 else Times(Power(r, i - 1), r)
  }

  /** The law of the k-th root of positive numbers. */
  ghost predicate Root(root: (real, nat) -> real) {
    forall v: real, k: nat | v > 0.0 && k >= 1 :: root(v, k) > 0.0 && Power(root(v, k), k) == v
  }

  lemma {:induction false} PowerPositive(r: real, i: nat)
    requires r > 0.0
    ensures Power(r, i) > 0.0
  {
    hide Times;
    if i > 0 {
      PowerPositive(r, i - 1);
      ProductPositive(Power(r, i - 1), r);
    }
  }

  lemma {:induction false} PowerRises(r: real, i: nat, j: nat)
    requires r >= 1.0 && i <= j
    ensures 0.0 < Power(r, i) <= Power(r, j)
  {
    PowerPositive(r, i);
    hide Times;
    if i < j {
      PowerRises(r, i, j - 1);
      TimesRises(Power(r, j - 1), 1.0, r);
      TimesLaws(Power(r, j - 1), 1.0, 0.0);
    }
  }

  lemma {:induction false} PowerBelowOne(r: real, i: nat)
    requires 0.0 < r < 1.0
    ensures 0.0 < Power(r, i) <= 1.0 && (i >= 1 ==> Power(r, i) < 1.0)
  {
    PowerPositive(r, i);
    hide Times;
    if i > 0 {
      PowerBelowOne(r, i - 1);
      TimesRises(r, Power(r, i - 1), 1.0);
      TimesLaws(r, Power(r, i - 1), 1.0);
    }
  }

  lemma {:induction false} TimesRises(a: real, b: real, c: real)
    requires a >= 0.0 && b <= c
    ensures Times(a, b) <= Times(a, c)
  {
    if a > 0.0 && b < c { ProductPositive(a, c - b); }
  }

  lemma {:induction false} TimesCompares(c: real, a: real, b: real)
    requires c > 0.0
    ensures Times(c, a) <= Times(c, b) <==> a <= b
  {
    if a > b { ProductPositive(c, a - b); }
    if a < b { ProductPositive(c, b - a); }
  }

  lemma {:induction false} SquareRises(a: real, b: real)
    requires a >= 0.0 && b >= 0.0
    ensures a <= b <==> Times(a, a) <= Times(b, b)
  {
    if a <= b {
      TimesRises(a, a, b);
      TimesRises(b, a, b);
    } else {
      assert a * a - b * b == (a - b) * (a + b);
      ProductPositive(a - b, a + b);
    }
  }

  // ---- one range of aspect ratios ----

  /** Step between the widths of n orientations from lo to hi. */
  function Step(lo: real, hi: real, n: nat, root: (real, nat) -> real): real
    requires lo != 0.0
  {
    if n > 1 then root(Quotient(hi, lo), n - 1) else 1.0
  }

  lemma {:induction false} StepUp(lo: real, hi: real, n: nat, root: (real, nat) -> real)
    requires 0.0 < lo <= hi && Root(root)
    ensures Step(lo, hi, n, root) >= 1.0
    ensures n > 1 ==> Times(lo, Power(Step(lo, hi, n, root), n - 1)) == hi
  {
    if n > 1 {
      var q, r := Quotient(hi, lo), Step(lo, hi, n, root);
      QuotientTimes(hi, lo);
      hide Quotient, Times;
      assert q >= 1.0 by { QuotientAtLeastOne(hi, lo); }
      if r < 1.0 { PowerBelowOne(r, n - 1); }
    }
  }

  lemma {:induction false} QuotientAtLeastOne(a: real, b: real)
    requires a >= b > 0.0
    ensures Quotient(a, b) >= 1.0
  {
    QuotientTimes(a, b);
    hide Quotient, Times;
    TimesLaws(b, 1.0, 0.0);
    TimesCompares(b, 1.0, Quotient(a, b));
  }

  /** The widths rise from the first bound to the second. */
  lemma {:induction false} WidthsRise(lo: real, hi: real, n: nat, root: (real, nat) -> real, i: nat, j: nat)
    requires 0.0 < lo <= hi && Root(root) && i <= j < n
    ensures lo <= Times(lo, Power(Step(lo, hi, n, root), i)) <= Times(lo, Power(Step(lo, hi, n, root), j)) <= hi
  {
    var r := Step(lo, hi, n, root);
    StepUp(lo, hi, n, root);
    hide Times, Step, Root;
    PowerRises(r, 0, i);
    PowerRises(r, i, j);
    PowerRises(r, j, n - 1);
    assert Power(r, 0) == 1.0;
    TimesLaws(lo, 1.0, 0.0);
    TimesRises(lo, 1.0, Power(r, i));
    TimesRises(lo, Power(r, i), Power(r, j));
    TimesRises(lo, Power(r, j), Power(r, n - 1));
    if n == 1 { assert Power(r, j) == 1.0; }
  }

  /** Every width is the mean proportional of its neighbours. */
  ghost predicate Proportional(x: seq<real>, from: nat, n: nat)
    requires from + n <= |x|
  {
    forall i | from < i < from + n - 1 :: Times(x[i], x[i]) == Times(x[i-1], x[i+1])
  }

  /** The entries from..from+n have the area, and aspect ratios rising from the lower to the
      upper bound, each by the same factor. */
  ghost predicate RangeFilled(x: seq<real>, y: seq<real>, from: nat, n: nat, area: real, lower: real, upper: real)
    requires from + n <= |x| == |y|
  {
    && (forall i | from <= i < from + n :: x[i] > 0.0 && y[i] > 0.0 && Times(x[i], y[i]) == area)
    && (forall i, j | from <= i <= j < from + n :: x[i] <= x[j])
    && (forall i | from <= i < from + n :: Times(area, lower) <= Times(x[i], x[i]) <= Times(area, upper))
    && Proportional(x, from, n)
    && (n >= 1 ==> Times(x[from], x[from]) == Times(area, lower))
    && (n >= 2 ==> Times(x[from + n - 1], x[from + n - 1]) == Times(area, upper))
  }

  /** Entry k of a range: its width, and the height that makes up the area. */
  ghost predicate IsEntry(w: real, h: real, area: real, minx: real, r: real, k: nat) {
    w == Times(minx, Power(r, k)) && w > 0.0 && h > 0.0 && Times(w, h) == area
  }

  ghost predicate Entries(x: seq<real>, y: seq<real>, from: nat, n: nat, area: real, minx: real, r: real)
    requires from + n <= |x| == |y|
  {
    forall i | from <= i < from + n :: IsEntry(x[i], y[i], area, minx, r, i - from)
  }

  /** Writes the orientations of one range. */
  method FillRange(x: array<real>, y: array<real>, from: nat, n: nat, area: real, lower: real, upper: real,
                   sqrt: real -> real, root: (real, nat) -> real)
    requires x != y && from + n <= x.Length == y.Length && area > 0.0 && 0.0 < lower <= upper
    requires SquareRoot(sqrt) && Root(root)
    modifies x, y
    ensures RangeFilled(x[..], y[..], from, n, area, lower, upper)
    ensures x[..from] == old(x[..from]) && y[..from] == old(y[..from])
  {
    var minx, maxx := sqrt(Times(area, lower)), sqrt(Times(area, upper));
    RootsOfBounds(area, lower, upper, sqrt);
    var r := if n > 1 then root(Quotient(maxx, minx), n - 1) else 1.0;
    hide SquareRoot, Root, Times, Quotient, Power, RangeFilled;
    for i := from to from + n
      invariant x[..from] == old(x[..from]) && y[..from] == old(y[..from])
      invariant Entries(x[..], y[..], from, i - from, area, minx, r)
    {
      WidthsRise(minx, maxx, n, root, i - from, i - from);
      HeightOf(area, Times(minx, Power(r, i - from)));
      x[i] := Times(minx, Power(r, i - from));
      y[i] := Quotient(area, x[i]);
    }
    RangeIs(x[..], y[..], from, n, area, lower, upper, minx, maxx, r, root);
  }

  lemma {:induction false} RootsOfBounds(area: real, lower: real, upper: real, sqrt: real -> real)
    requires area > 0.0 && 0.0 < lower <= upper && SquareRoot(sqrt)
    ensures var minx, maxx := sqrt(Times(area, lower)), sqrt(Times(area, upper));
      0.0 < minx <= maxx && Times(minx, minx) == Times(area, lower) && Times(maxx, maxx) == Times(area, upper)
  {
    ProductPositive(area, lower);
    ProductPositive(area, upper);
    TimesRises(area, lower, upper);
    var minx, maxx := sqrt(Times(area, lower)), sqrt(Times(area, upper));
    assert Times(minx, minx) == Times(area, lower) && Times(maxx, maxx) == Times(area, upper);
    SquareRises(minx, maxx);
  }

  lemma {:induction false} RangeIs(x: seq<real>, y: seq<real>, from: nat, n: nat, area: real, lower: real, upper: real,
                                   minx: real, maxx: real, r: real, root: (real, nat) -> real)
    requires from + n <= |x| == |y| && area > 0.0 && 0.0 < minx <= maxx && Root(root) && r == Step(minx, maxx, n, root)
    requires Times(minx, minx) == Times(area, lower) && Times(maxx, maxx) == Times(area, upper)
    requires Entries(x, y, from, n, area, minx, r)
    ensures RangeFilled(x, y, from, n, area, lower, upper)
  {
    StepUp(minx, maxx, n, root);
    assert Power(r, 0) == 1.0;
    TimesLaws(minx, 1.0, 0.0);
    hide Root, Times, Quotient, Power, Step;
    forall i, j | from <= i <= j < from + n ensures x[i] <= x[j] {
      WidthsRise(minx, maxx, n, root, i - from, j - from);
    }
    forall i | from <= i < from + n
      ensures Times(area, lower) <= Times(x[i], x[i]) <= Times(area, upper)
    {
      WidthsRise(minx, maxx, n, root, i - from, i - from);
      SquareRises(minx, x[i]);
      SquareRises(x[i], maxx);
    }
    assert Proportional(x, from, n) by { EntriesProportional(x, y, from, n, area, minx, r); }
    if n >= 1 { assert IsEntry(x[from], y[from], area, minx, r, 0); }
    if n >= 2 { assert IsEntry(x[from + n - 1], y[from + n - 1], area, minx, r, n - 1); }
  }

  lemma {:induction false} EntriesProportional(x: seq<real>, y: seq<real>, from: nat, n: nat, area: real, minx: real, r: real)
    requires from + n <= |x| == |y| && Entries(x, y, from, n, area, minx, r)
    ensures Proportional(x, from, n)
  {
    hide Times, Power;
    forall i | from < i < from + n - 1 ensures Times(x[i], x[i]) == Times(x[i-1], x[i+1]) {
      assert IsEntry(x[i-1], y[i-1], area, minx, r, i - 1 - from) && IsEntry(x[i], y[i], area, minx, r, i - from);
      assert IsEntry(x[i+1], y[i+1], area, minx, r, i + 1 - from);
      SameFactor(minx, r, i - from);
    }
  }

  lemma {:induction false} SameFactor(a: real, r: real, k: nat)
    requires k > 0
    ensures Times(Times(a, Power(r, k)), Times(a, Power(r, k))) == Times(Times(a, Power(r, k - 1)), Times(a, Power(r, k + 1)))
  {
    var p := Power(r, k - 1);
    assert Power(r, k) == p * r && Power(r, k + 1) == (p * r) * r;
    assert (a * (p * r)) * (a * (p * r)) == (a * p) * (a * ((p * r) * r));
  }

  lemma {:induction false} HeightOf(area: real, x: real)
    requires area > 0.0 && x > 0.0
    ensures Quotient(area, x) > 0.0 && Times(x, Quotient(area, x)) == area
  {
    QuotientTimes(area, x);
    var q := Quotient(area, x);
    hide Quotient;
    if q <= 0.0 { TimesRises(x, q, 0.0); }
  }

  // ---- all ranges ----

  function Min4(a: real, b: real, c: real, d: real): real {
    Min(Min(Min(a, b), c), d)
  }

  function Max4(a: real, b: real, c: real, d: real): real {
    Max(Max(Max(a, b), c), d)
  }

  /** The block may have this aspect ratio, upright or turned. */
  predicate Permitted(area: real, min: real, max: real, rotable: bool, w: real, h: real) {
    && w > 0.0 && h > 0.0 && Times(w, h) == area
    && (Between(area, min, max, w) || (rotable && Between(area, min, max, h)))
  }

  /** The square of the side lies between the bounds times the area: for a block of that
      area, so does its aspect ratio between the bounds. */
  predicate Between(area: real, lower: real, upper: real, side: real) {
    Times(area, lower) <= Times(side, side) <= Times(area, upper)
  }

  /** Turning a block inverts its aspect ratio. */
  lemma {:induction false} Turned(area: real, lower: real, upper: real, w: real, h: real)
    requires area > 0.0 && w > 0.0 && h > 0.0 && Times(w, h) == area && lower > 0.0 && upper > 0.0
    ensures Between(area, lower, upper, h) <==> Between(area, Quotient(1.0, upper), Quotient(1.0, lower), w)
  {
    TurnedBound(area, lower, w, h);
    TurnedBound(area, upper, w, h);
    hide Times, Quotient;
  }

  lemma {:induction false} TurnedBound(area: real, q: real, w: real, h: real)
    requires area > 0.0 && w > 0.0 && h > 0.0 && Times(w, h) == area && q > 0.0
    ensures Times(area, q) <= Times(h, h) <==> Times(w, w) <= Times(area, Quotient(1.0, q))
    ensures Times(area, q) >= Times(h, h) <==> Times(w, w) >= Times(area, Quotient(1.0, q))
  {
    var p := Quotient(1.0, q);
    assert p * q == 1.0 && p > 0.0;
    assert area * q == h * (w * q);
    TimesCompares(h, w * q, h);
    assert area * p == w * (h * p);
    TimesCompares(w, w, h * p);
    assert q * (h * p) == h;
    TimesCompares(q, w, h * p);
  }

  lemma {:induction false} InverseOf(q: real)
    requires q > 0.0
    ensures Quotient(1.0, q) > 0.0 && (q <= 1.0 <==> Quotient(1.0, q) >= 1.0) && (q >= 1.0 <==> Quotient(1.0, q) <= 1.0)
  {
    var p := Quotient(1.0, q);
    InversePositive(q);
    QuotientTimes(1.0, q);
    hide Quotient, Times;
    TimesLaws(q, 1.0, 0.0);
    TimesCompares(q, p, 1.0);
    TimesCompares(q, 1.0, p);
  }

  lemma {:induction false} InverseOrder(p: real, q: real)
    requires 0.0 < p <= q
    ensures Quotient(1.0, q) <= Quotient(1.0, p)
  {
    InversePositive(p);
    QuotientTimes(1.0, p);
    QuotientTimes(1.0, q);
    var a, b := Quotient(1.0, p), Quotient(1.0, q);
    hide Quotient, Times;
    TimesLaws(p, a, 0.0);
    TimesLaws(q, a, 0.0);
    TimesRises(a, p, q);
    TimesCompares(q, b, a);
  }

  lemma {:induction false} InverseInjective(p: real, q: real)
    requires p > 0.0 && q > 0.0 && Quotient(1.0, p) == Quotient(1.0, q)
    ensures p == q
  {
    QuotientTimes(1.0, p);
    QuotientTimes(1.0, q);
    InversePositive(p);
    var a := Quotient(1.0, p);
    hide Quotient, Times;
    TimesLaws(p, a, 0.0);
    TimesLaws(q, a, 0.0);
    TimesCompares(a, p, q);
    TimesCompares(a, q, p);
  }

  /** The least and the greatest aspect ratio of an orientation. */
  function Least(min: real, max: real, rotable: bool): real
    requires min > 0.0 && max > 0.0
  {
    if rotable then Min4(min, max, Quotient(1.0, min), Quotient(1.0, max)) else min
  }

  function Greatest(min: real, max: real, rotable: bool): real
    requires min > 0.0 && max > 0.0
  {
    if rotable then Max4(min, max, Quotient(1.0, min), Quotient(1.0, max)) else max
  }

  /** The aspect ratio of the last orientation: the greatest, but for two orientations of a
      block that can be turned and has no ratios on both sides of one; then the second range
      stops where it starts. */
  function Last(min: real, max: real, rotable: bool, size: nat): real
    requires min > 0.0 && max > 0.0
  {
    if rotable && !(min <= 1.0 <= max) && size == 2 then Beyond(min, max).0 else Greatest(min, max, rotable)
  }

  lemma {:induction false} ReachesGreatestIff(min: real, max: real, rotable: bool, size: nat)
    requires 0.0 < min <= max
    ensures Last(min, max, rotable, size) == Greatest(min, max, rotable)
      <==> !(rotable && !(min <= 1.0 <= max) && size == 2) || min == max
  {
    InverseOf(min);
    InverseOf(max);
    InverseOrder(min, max);
    if Quotient(1.0, min) == Quotient(1.0, max) { InverseInjective(min, max); }
    hide Quotient;
  }

  /** A concrete case: ratios from 2 to 3, two orientations, and none of ratio 3. */
  lemma {:induction false} NarrowExample()
    ensures Last(2.0, 3.0, true, 2) == 2.0 < Greatest(2.0, 3.0, true) == 3.0
  {
    InverseOf(2.0);
    InverseOf(3.0);
  }

  /** The orientations of a block: a staircase of its area, each a permitted one, from the
      least aspect ratio on. */
  ghost predicate Orientations(x: seq<real>, y: seq<real>, area: real, min: real, max: real, rotable: bool)
    requires min > 0.0 && max > 0.0
  {
    && Staircase(Curve(x, y, [], [], []))
    && (forall i | 0 <= i < |x| :: Permitted(area, min, max, rotable, x[i], y[i]))
    && Times(x[0], x[0]) == Times(area, Least(min, max, rotable))
    && Times(x[|x|-1], x[|x|-1]) == Times(area, Last(min, max, rotable, |x|))
  }

  lemma {:induction false} OrientationsClimb(x: seq<real>, y: seq<real>, area: real, min: real, max: real, rotable: bool)
    requires min > 0.0 && max > 0.0 && Orientations(x, y, area, min, max, rotable)
    ensures Staircase(Curve(x, y, [], [], []))
  {
  }

  /** At equal area the wider orientation is the lower one. */
  lemma {:induction false} HeightsFall(area: real, w1: real, h1: real, w2: real, h2: real)
    requires 0.0 < w1 <= w2 && h1 > 0.0 && h2 > 0.0 && Times(w1, h1) == area && Times(w2, h2) == area
    ensures h2 <= h1
  {
    if h2 > h1 {
      ProductPositive(w1, h2 - h1);
      TimesRises(h2, w1, w2);
    }
  }

  lemma {:induction false} FillsStaircase(x: seq<real>, y: seq<real>, area: real)
    requires |x| == |y| >= 1 && forall i | 0 <= i < |x| :: x[i] > 0.0 && y[i] > 0.0 && Times(x[i], y[i]) == area
    requires forall i, j | 0 <= i <= j < |x| :: x[i] <= x[j]
    ensures Staircase(Curve(x, y, [], [], []))
  {
    hide Times;
    forall i, j | 0 <= i <= j < |x| ensures y[i] >= y[j] { HeightsFall(area, x[i], y[i], x[j], y[j]); }
  }

  /** One range: not rotable, or the upright and the turned ratios overlap. */
  lemma {:induction false} OneRange(x: seq<real>, y: seq<real>, n: nat, area: real, min: real, max: real, rotable: bool)
    requires n == |x| == |y| >= 1 && area > 0.0 && 0.0 < min <= max && (rotable ==> min <= 1.0 <= max) && (n == 1 ==> min == max && !rotable)
    requires RangeFilled(x, y, 0, n, area, Least(min, max, rotable), Greatest(min, max, rotable))
    ensures Orientations(x, y, area, min, max, rotable)
  {
    InverseOf(min);
    InverseOf(max);
    hide Quotient, Times;
    FillsStaircase(x, y, area);
    forall i | 0 <= i < n ensures Permitted(area, min, max, rotable, x[i], y[i]) {
      if rotable { EitherWay(area, min, max, x[i], y[i]); }
    }
  }

  lemma {:induction false} EitherWay(area: real, min: real, max: real, w: real, h: real)
    requires area > 0.0 && 0.0 < min <= 1.0 <= max && w > 0.0 && h > 0.0 && Times(w, h) == area
    requires Between(area, Least(min, max, true), Greatest(min, max, true), w)
    ensures Between(area, min, max, w) || Between(area, min, max, h)
  {
    InverseOf(min);
    InverseOf(max);
    Turned(area, min, max, w, h);
    hide Quotient, Times;
    TimesRises(area, min, Quotient(1.0, min));
    TimesRises(area, Quotient(1.0, max), max);
  }

  /** Two ranges: the ratios below one, then those above, one of them upright. */
  lemma {:induction false} TwoRanges(x: seq<real>, y: seq<real>, n: nat, area: real, min: real, max: real)
    requires 2 * n == |x| == |y| && n >= 1 && area > 0.0 && 0.0 < min <= max && !(min <= 1.0 <= max)
    requires RangeFilled(x, y, 0, n, area, Below(min, max).0, Below(min, max).1)
    requires RangeFilled(x, y, n, n, area, Beyond(min, max).0, Beyond(min, max).1)
    ensures Orientations(x, y, area, min, max, true)
  {
    InverseOf(min);
    InverseOf(max);
    InverseOrder(min, max);
    hide Quotient, Times;
    TimesRises(area, Below(min, max).1, Beyond(min, max).0);
    forall i, j | 0 <= i <= j < 2 * n ensures x[i] <= x[j] {
      if i < n <= j { SquareRises(x[i], x[j]); }
    }
    FillsStaircase(x, y, area);
    forall i | 0 <= i < 2 * n ensures Permitted(area, min, max, true, x[i], y[i]) {
      Turned(area, min, max, x[i], y[i]);
    }
  }

  /** The bounds of the ratios below one, and of those above. */
  function Below(min: real, max: real): (real, real)
    requires min > 0.0 && max > 0.0
  {
    var tmin, tmax := Min(min, Quotient(1.0, min)), Min(max, Quotient(1.0, max));
    (Min(tmin, tmax), Max(tmin, tmax))
  }

  function Beyond(min: real, max: real): (real, real)
    requires min > 0.0 && max > 0.0
  {
    var tmin, tmax := Max(min, Quotient(1.0, min)), Max(max, Quotient(1.0, max));
    (Min(tmin, tmax), Max(tmin, tmax))
  }

  /** One evenly rising range of orientations, or two of half the size for a block that can be
      turned and has no ratios on both sides of one. */
  ghost predicate Spread(x: seq<real>, y: seq<real>, area: real, min: real, max: real, rotable: bool)
    requires |x| == |y| && min > 0.0 && max > 0.0
  {
    if !rotable || min <= 1.0 <= max then RangeFilled(x, y, 0, |x|, area, Least(min, max, rotable), Greatest(min, max, rotable))
    else
      var n := |x| / 2;
      |x| == 2 * n && RangeFilled(x, y, 0, n, area, Below(min, max).0, Below(min, max).1)
      && RangeFilled(x, y, n, n, area, Beyond(min, max).0, Beyond(min, max).1)
  }

  /** The shape curve of a block. It stops the program exactly if the number of
      orientations is odd or less than two. */
  method ShapeFromAspect(area: real, min: real, max: real, rotable: bool, nOrients: int,
                         sqrt: real -> real, root: (real, nat) -> real) returns (shape: Shape?)
    requires area > 0.0 && 0.0 < min <= max && SquareRoot(sqrt) && Root(root)
    ensures shape == null <==> nOrients <= 1 || nOrients % 2 == 1
    ensures shape != null ==> fresh(shape) && fresh(shape.x) && fresh(shape.y) && shape.x != shape.y
    ensures shape != null ==> shape.leftPos == [] && shape.rightPos == [] && shape.median == []
    ensures shape != null ==> shape.x.Length == shape.y.Length == if min != max then nOrients else if rotable then 2 else 1
    ensures shape != null ==> Orientations(shape.x[..], shape.y[..], area, min, max, rotable)
    ensures shape != null ==> Spread(shape.x[..], shape.y[..], area, min, max, rotable)
  {
    hide SquareRoot, Root, Orientations, Quotient, RangeFilled;
    if nOrients <= 1 || nOrients % 2 == 1 {
      return null;
    }
    var size := if min == max then (if rotable then 2 else 1) else nOrients;
    var x, y := new real[size], new real[size];
    InverseOf(min);
    InverseOf(max);
    if !rotable || (min <= 1.0 && max >= 1.0) {
      var lower, upper := min, max;
      if rotable {
        lower := Min4(min, max, Quotient(1.0, min), Quotient(1.0, max));
        upper := Max4(min, max, Quotient(1.0, min), Quotient(1.0, max));
      }
      FillRange(x, y, 0, size, area, lower, upper, sqrt, root);
      OneRange(x[..], y[..], size, area, min, max, rotable);
    } else {
      var n := size / 2;
      assert size == 2 * n;
      FillTwo(x, y, n, area, min, max, sqrt, root);
      TwoRanges(x[..], y[..], n, area, min, max);
    }
    shape := new Shape(x, y, [], [], []);
  }

  /** Both sets of orientations of a rotable block. */
  method FillTwo(x: array<real>, y: array<real>, n: nat, area: real, min: real, max: real, sqrt: real -> real, root: (real, nat) -> real)
    requires x != y && 2 * n == x.Length == y.Length && area > 0.0 && 0.0 < min <= max && SquareRoot(sqrt) && Root(root)
    modifies x, y
    ensures RangeFilled(x[..], y[..], 0, n, area, Below(min, max).0, Below(min, max).1)
    ensures RangeFilled(x[..], y[..], n, n, area, Beyond(min, max).0, Beyond(min, max).1)
  {
    InverseOf(min);
    InverseOf(max);
    hide SquareRoot, Root, Quotient, RangeFilled;
    var tmin, tmax := Min(min, Quotient(1.0, min)), Min(max, Quotient(1.0, max));
    FillRange(x, y, 0, n, area, Min(tmin, tmax), Max(tmin, tmax), sqrt, root);
    ghost var x0, y0 := x[..], y[..];
    tmin, tmax := Max(min, Quotient(1.0, min)), Max(max, Quotient(1.0, max));
    FillRange(x, y, n, n, area, Min(tmin, tmax), Max(tmin, tmax), sqrt, root);
    FirstRangeKept(x0, y0, x[..], y[..], n, area, Below(min, max).0, Below(min, max).1);
  }

  lemma {:induction false} FirstRangeKept(x0: seq<real>, y0: seq<real>, x: seq<real>, y: seq<real>, n: nat, area: real, lower: real, upper: real)
    requires n <= |x| == |y| == |x0| == |y0| && x[..n] == x0[..n] && y[..n] == y0[..n]
    requires RangeFilled(x0, y0, 0, n, area, lower, upper)
    ensures RangeFilled(x, y, 0, n, area, lower, upper)
  {
    hide Times;
    assert forall i | 0 <= i < n :: x[i] == x[..n][i] == x0[i] && y[i] == y[..n][i] == y0[i];
  }
}
