/** How much of each grid cell a block occupies, in cell units along one axis and then
    along both, and what the occupancies add up to. */
module GridOccupancy {
  import opened Sums
  import opened Numbers
  import opened Rectangles

  // ---- rounding with tolerance ----

  function Nearest(v: real): int {
    (v + 0.5).Floor
  }

  function Ceil(v: real): int {
    -((-v).Floor)
  }

  function TolerantCeil(v: real): int {
    if Eq(v, Nearest(v) as real) then Nearest(v) else Ceil(v)
  }

  function TolerantFloor(v: real): int {
    if Eq(v, Nearest(v) as real) then Nearest(v) else v.Floor
  }

  /** The value itself, or the integer it is within the tolerance of. */
  function Snap(v: real): real {
    if Eq(v, Nearest(v) as real) then Nearest(v) as real else v
  }

  /** No integer is nearer than the nearest. */
  lemma {:induction false} NearestIs(v: real, k: int)
    ensures -0.5 <= v - Nearest(v) as real <= 0.5
    ensures Eq(v, k as real) ==> k == Nearest(v)
    ensures v.Floor as real <= v < v.Floor as real + 1.0 && Ceil(v) as real - 1.0 < v <= Ceil(v) as real
  {
  }

  lemma {:induction false} TolerantBounds(v: real)
    ensures TolerantFloor(v) as real <= Snap(v) < TolerantFloor(v) as real + 1.0
    ensures TolerantCeil(v) as real - 1.0 < Snap(v) <= TolerantCeil(v) as real
    ensures TolerantFloor(v) <= TolerantCeil(v) <= TolerantFloor(v) + 1
    ensures -DELTA < Snap(v) - v < DELTA
  {
    NearestIs(v, 0);
  }

  // ---- one axis ----

  /** Length of [a, b) inside cell [k, k + 1). */
  function Overlap(a: real, b: real, k: int): real {
    Min(b, k as real + 1.0) - Max(a, k as real)
  }

  /** Overlaps within the tolerance of nothing or of the whole cell become that. */
  function Rounded(v: real): real {
    if Eq(v, 0.0) then 0.0 else if Eq(v, 1.0) then 1.0 else v
  }

  function Fraction(a: real, b: real, k: int): real {
    Rounded(Overlap(a, b, k))
  }

  /** What the fractions of a block add up to over its cells. */
  function Extent(a: real, b: real): real {
    var j1, j2 := TolerantFloor(a), TolerantCeil(b);
    if j2 - j1 == 1 then Fraction(a, b, j1) else Snap(b) - Snap(a)
  }

  /** Away from the block's last cell a cell counts up to its right edge, and the last
      one from its left edge to the block's end. */
  lemma {:induction false} FractionAt(a: real, b: real, k: int)
    requires a <= b && TolerantFloor(a) <= k < TolerantCeil(b) && TolerantCeil(b) - TolerantFloor(a) >= 2
    ensures Fraction(a, b, k) == (if k == TolerantCeil(b) - 1 then Snap(b) else k as real + 1.0)
                               - (if k == TolerantFloor(a) then Snap(a) else k as real)
  {
    NearestIs(a, k);
    NearestIs(a, k + 1);
    NearestIs(b, k);
    NearestIs(b, k + 1);
    TolerantBounds(a);
    TolerantBounds(b);
  }

  /** Inside a block's range no overlap is negative. */
  lemma {:induction false} FractionNonnegative(a: real, b: real, k: int)
    requires a <= b && TolerantFloor(a) <= k < TolerantCeil(b)
    ensures Fraction(a, b, k) >= 0.0
  {
    NearestIs(a, k);
    NearestIs(a, k + 1);
    NearestIs(b, k);
    NearestIs(b, k + 1);
  }

  /** The fraction a cell contributes; zero outside the block's range. */
  ghost function Part(a: real, b: real): int -> real {
    k => if TolerantFloor(a) <= k < TolerantCeil(b) then Fraction(a, b, k) else 0.0
  }

  lemma {:induction false} PartsTo(a: real, b: real, n: nat)
    requires a <= b && 0 <= TolerantFloor(a) && TolerantCeil(b) - TolerantFloor(a) >= 2
    ensures Sum(Part(a, b), n) == if n <= TolerantFloor(a) then 0.0
      else if n >= TolerantCeil(b) then Snap(b) - Snap(a) else n as real - Snap(a)
  {
    if n > 0 {
      PartsTo(a, b, n - 1);
      if TolerantFloor(a) <= n - 1 < TolerantCeil(b) {
        FractionAt(a, b, n - 1);
        hide Fraction;
      }
      hide TolerantFloor, TolerantCeil, Snap;
    }
  }

  /** Over all cells of the axis the fractions add up to the block's extent. */
  lemma {:induction false} PartsSum(a: real, b: real, n: nat)
    requires a <= b && 0 <= TolerantFloor(a) < TolerantCeil(b) <= n
    ensures Sum(Part(a, b), n) == Extent(a, b)
  {
    if TolerantCeil(b) - TolerantFloor(a) == 1 {
      SumOne(Part(a, b), n, TolerantFloor(a));
    } else {
      PartsTo(a, b, n);
    }
  }

  /** The edge lies on a line of the grid or further than the tolerance from all. */
  predicate Clear(v: real) {
    Eq(v, Nearest(v) as real) ==> v == Nearest(v) as real
  }

  /** Edges clear of the lines, and not closer to each other than the tolerance. */
  predicate Aligned(a: real, b: real) {
    Clear(a) && Clear(b) && a + DELTA <= b
  }

  /** An aligned block occupies exactly what it overlaps: in range the overlap is not
      rounded, out of range there is none. */
  lemma {:induction false} AlignedFraction(a: real, b: real, k: int)
    requires Aligned(a, b)
    ensures TolerantFloor(a) < TolerantCeil(b)
    ensures TolerantFloor(a) <= k < TolerantCeil(b) ==> Fraction(a, b, k) == Overlap(a, b, k) >= 0.0
    ensures !(TolerantFloor(a) <= k < TolerantCeil(b)) ==> Overlap(a, b, k) <= 0.0
  {
    NearestIs(a, k);
    NearestIs(a, k + 1);
    NearestIs(b, k);
    NearestIs(b, k + 1);
    NearestIs(a, Nearest(a));
    NearestIs(b, Nearest(b));
  }

  lemma {:induction false} AlignedExtent(a: real, b: real)
    requires Aligned(a, b)
    ensures Extent(a, b) == b - a
  {
    AlignedFraction(a, b, TolerantFloor(a));
    TolerantBounds(a);
    TolerantBounds(b);
  }

  function Positive(v: real): real {
    if v > 0.0 then v else 0.0
  }

  lemma {:induction false} OverlapSplits(a: real, b: real, c: real, k: int)
    requires a <= b <= c
    ensures Positive(Overlap(a, c, k)) == Positive(Overlap(a, b, k)) + Positive(Overlap(b, c, k))
  {
  }

  lemma {:induction false} SnapOrder(a: real, b: real)
    requires a <= b
    ensures Snap(a) <= Snap(b)
  {
    NearestIs(a, Nearest(b));
    NearestIs(b, Nearest(a));
  }

  /** Length inside cell k between the edges as they are moved, without rounding. */
  function MovedOverlap(a: real, b: real, k: int): real {
    Positive(Overlap(Snap(a), Snap(b), k))
  }

  lemma {:induction false} MovedSplits(a: real, b: real, c: real, k: int)
    requires a <= b <= c
    ensures MovedOverlap(a, c, k) == MovedOverlap(a, b, k) + MovedOverlap(b, c, k)
  {
    SnapOrder(a, b);
    SnapOrder(b, c);
    hide Snap;
    OverlapSplits(Snap(a), Snap(b), Snap(c), k);
  }

  /** Where the edges of a block within one cell fall: with both at the cell's lines the
      block is nearly a cell long; otherwise no edge is inside the cell and nearly on a line,
      and a block with both edges inside is not nearly empty. */
  predicate Fills(a: real, b: real) {
    var k := TolerantFloor(a);
    var lo, hi := k as real, k as real + 1.0;
    TolerantCeil(b) == k + 1 && a != b ==>
      if a < lo + DELTA && b > hi - DELTA
      then Min(b, hi) - Max(a, lo) > 1.0 - DELTA
      else !(lo < a < lo + DELTA) && !(hi - DELTA < b < hi) && (lo < a && b < hi ==> b - a >= DELTA)
  }

  /** Within one cell the moved edges are the old ones or on the cell's lines. */
  lemma {:induction false} OneCellMoved(a: real, b: real)
    requires a <= b && TolerantCeil(b) == TolerantFloor(a) + 1
    ensures var k := TolerantFloor(a);
      && Snap(a) == (if a < k as real + DELTA then k as real else a)
      && Snap(b) == (if b > k as real + 1.0 - DELTA then k as real + 1.0 else b)
      && k as real - DELTA < a && b < k as real + 1.0 + DELTA && b >= k as real + DELTA && a <= k as real + 1.0 - DELTA
  {
    var k := TolerantFloor(a);
    NearestIs(a, k);
    NearestIs(a, k + 1);
    NearestIs(b, k);
    NearestIs(b, k + 1);
  }

  lemma {:induction false} OneCellFills(a: real, b: real)
    requires a <= b && TolerantCeil(b) == TolerantFloor(a) + 1
    ensures var k := TolerantFloor(a);
      && 0.0 <= Fraction(a, b, k) <= MovedOverlap(a, b, k)
      && (Fraction(a, b, k) == MovedOverlap(a, b, k) <==> Fills(a, b))
      && (MovedOverlap(a, b, k) == 0.0 <==> a == b)
  {
    OneCellMoved(a, b);
    hide TolerantFloor, TolerantCeil, Snap;
  }

  /** In its range a block never gets more of a cell than lies between its moved edges, and
      as much exactly when it fills it. */
  lemma {:induction false} FractionFills(a: real, b: real, k: int)
    requires a <= b && TolerantFloor(a) <= k < TolerantCeil(b)
    ensures 0.0 <= Fraction(a, b, k) <= MovedOverlap(a, b, k)
    ensures Fraction(a, b, k) == MovedOverlap(a, b, k) <==> Fills(a, b)
    ensures MovedOverlap(a, b, k) == 0.0 <==> a == b
  {
    if TolerantCeil(b) == TolerantFloor(a) + 1 {
      OneCellFills(a, b);
    } else {
      FractionAt(a, b, k);
      TolerantBounds(a);
      TolerantBounds(b);
      hide TolerantFloor, TolerantCeil, Snap, Fraction;
    }
  }

  /** What a block loses of a cell is less than two tolerances. */
  lemma {:induction false} FractionNearly(a: real, b: real, k: int)
    requires a <= b && TolerantFloor(a) <= k < TolerantCeil(b)
    ensures 0.0 <= MovedOverlap(a, b, k) <= 1.0 && Fraction(a, b, k) > MovedOverlap(a, b, k) - 2.0 * DELTA
  {
    if TolerantCeil(b) == TolerantFloor(a) + 1 {
      OneCellMoved(a, b);
      hide TolerantFloor, TolerantCeil, Snap;
    } else {
      hide TolerantFloor, TolerantCeil, Snap, Fraction, Fills;
      FractionFills(a, b, k);
    }
  }

  lemma {:induction false} OutOfRange(a: real, b: real, k: int)
    requires a <= b && !(TolerantFloor(a) <= k < TolerantCeil(b))
    ensures MovedOverlap(a, b, k) == 0.0
  {
    TolerantBounds(a);
    TolerantBounds(b);
    hide TolerantFloor, TolerantCeil, Snap;
  }

  /** Edges clear of the lines fill their cells. */
  lemma {:induction false} AlignedFills(a: real, b: real)
    requires Aligned(a, b)
    ensures Fills(a, b)
  {
    if TolerantCeil(b) == TolerantFloor(a) + 1 {
      OneCellMoved(a, b);
    }
  }

  /** Length between the edges as they are moved: within one cell the overlap, rounded
      to nothing or to the whole cell. */
  function OccupiedLength(a: real, b: real): real {
    var k := TolerantFloor(a);
    var o := Min(b, k as real + 1.0) - Max(a, k as real);
    if TolerantCeil(b) != k + 1 then Snap(b) - Snap(a) else if o < DELTA then 0.0 else if o > 1.0 - DELTA then 1.0 else o
  }

  lemma {:induction false} ExtentIs(a: real, b: real)
    requires a <= b && TolerantFloor(a) < TolerantCeil(b)
    ensures Extent(a, b) == OccupiedLength(a, b)
  {
    if TolerantCeil(b) == TolerantFloor(a) + 1 {
      NearestIs(a, TolerantFloor(a));
      NearestIs(b, TolerantFloor(a) + 1);
      FractionNonnegative(a, b, TolerantFloor(a));
    }
  }

  /** Where both edges fall, told before mapping: over several cells both are moved by the
      same amount; within one cell the block is empty, exactly a cell long, or inside the
      cell and neither nearly empty nor nearly a cell long. */
  predicate LengthKept(a: real, b: real) {
    var k := TolerantFloor(a);
    if TolerantCeil(b) == k + 1
    then b == a || b - a == 1.0 || (k as real <= a && b <= k as real + 1.0 && DELTA <= b - a <= 1.0 - DELTA)
    else Snap(a) - a == Snap(b) - b
  }

  lemma {:induction false} ExtentIff(a: real, b: real)
    requires a <= b && TolerantFloor(a) < TolerantCeil(b)
    ensures Extent(a, b) == b - a <==> LengthKept(a, b)
  {
    if TolerantCeil(b) == TolerantFloor(a) + 1 { OneCellIff(a, b); }
  }

  lemma {:induction false} OneCellIff(a: real, b: real)
    requires a <= b && TolerantCeil(b) == TolerantFloor(a) + 1
    ensures Fraction(a, b, TolerantFloor(a)) == b - a <==> LengthKept(a, b)
  {
    NearestIs(a, TolerantFloor(a));
    NearestIs(b, TolerantFloor(a) + 1);
    TolerantBounds(a);
    TolerantBounds(b);
    hide TolerantFloor, TolerantCeil, Nearest, Snap;
  }

  /** A block occupies its exact length along an axis exactly under that condition. */
  lemma {:induction false} ExactIff(a: real, b: real, n: nat)
    requires a <= b && 0 <= TolerantFloor(a) < TolerantCeil(b) <= n
    ensures Sum(Part(a, b), n) == b - a <==> LengthKept(a, b)
  {
    hide TolerantFloor, TolerantCeil, Snap, Fraction, LengthKept, Extent;
    PartsSum(a, b, n);
    ExtentIff(a, b);
  }

  /** Whatever the edges, a block occupies its length up to three tolerances. */
  lemma {:induction false} NearlyExact(a: real, b: real, n: nat)
    requires a <= b && 0 <= TolerantFloor(a) < TolerantCeil(b) <= n
    ensures -3.0 * DELTA < Sum(Part(a, b), n) - (b - a) < 3.0 * DELTA
  {
    PartsSum(a, b, n);
    TolerantBounds(a);
    TolerantBounds(b);
    if TolerantCeil(b) - TolerantFloor(a) == 1 {
      NearestIs(a, TolerantFloor(a));
      NearestIs(b, TolerantFloor(a) + 1);
    }
  }
}
