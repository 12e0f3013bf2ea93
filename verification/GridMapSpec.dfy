/** Which blocks share a grid cell and with what weight; what the weights keep. */
module GridMapSpec {
  import opened Sums
  import opened Numbers
  import opened Rectangles
  import opened RimStrips
  import opened GridOccupancy
  import opened TilingMeasures

  /** The chip and the number of grid rows (from the top) and columns. */
  datatype Plate = Plate(width: real, height: real, rows: nat, cols: nat) {
    predicate Valid() {
      width > 0.0 && height > 0.0 && rows > 0 && cols > 0
    }

    function CellWidth(): (w: real)
      requires Valid()
      ensures w > 0.0
    {
      Quotient(width, cols as real)
    }

    function CellHeight(): (h: real)
      requires Valid()
      ensures h > 0.0
    {
      Quotient(height, rows as real)
    }

    predicate Cell(i: int, j: int) {
      0 <= i < rows && 0 <= j < cols
    }
  }

  /** Edges in units of cells. */
  function LeftOf(u: Unit, g: Plate): real requires g.Valid() { Quotient(u.leftx, g.CellWidth()) }
  function RightOf(u: Unit, g: Plate): real requires g.Valid() { Quotient(Right(u), g.CellWidth()) }
  function BottomOf(u: Unit, g: Plate): real requires g.Valid() { Quotient(u.bottomy, g.CellHeight()) }
  function TopOf(u: Unit, g: Plate): real requires g.Valid() { Quotient(Top(u), g.CellHeight()) }

  /** The cells a block touches: rows i1 .. i2-1, columns j1 .. j2-1. */
  datatype Span = Span(i1: int, i2: int, j1: int, j2: int)

  function SpanOf(u: Unit, g: Plate): Span
    requires g.Valid()
  {
    Span(g.rows - TolerantCeil(TopOf(u, g)), g.rows - TolerantFloor(BottomOf(u, g)),
         TolerantFloor(LeftOf(u, g)), TolerantCeil(RightOf(u, g)))
  }

  predicate InSpan(s: Span, i: int, j: int) {
    s.i1 <= i < s.i2 && s.j1 <= j < s.j2
  }

  /** The block's cells are on the grid and there is at least one. */
  predicate Mappable(u: Unit, g: Plate)
    requires g.Valid()
  {
    var s := SpanOf(u, g);
    0 <= s.i1 < s.i2 <= g.rows && 0 <= s.j1 < s.j2 <= g.cols
  }

  function Occupancy(u: Unit, g: Plate, i: int, j: int): real
    requires g.Valid()
  {
    Times(Fraction(BottomOf(u, g), TopOf(u, g), g.rows - 1 - i), Fraction(LeftOf(u, g), RightOf(u, g), j))
  }

  ghost function Share(u: Unit, g: Plate): (int, int) -> real
    requires g.Valid()
  {
    (i, j) => if InSpan(SpanOf(u, g), i, j) then Occupancy(u, g, i, j) else 0.0
  }

  // ---- the occupancies of one block ----

  lemma {:induction false} QuotientOrder(a: real, b: real, c: real)
    requires c > 0.0
    ensures a <= b <==> Quotient(a, c) <= Quotient(b, c)
    ensures Quotient(b, c) - Quotient(a, c) == Quotient(b - a, c)
  {
    QuotientTimes(a, c);
    QuotientTimes(b, c);
    QuotientTimes(b - a, c);
    var x, y, z := Quotient(a, c), Quotient(b, c), Quotient(b - a, c);
    hide Quotient;
    assert c * (y - x) == c * z;
    if x < y { assert c * (y - x) > 0.0; }
    if y < x { assert c * (x - y) > 0.0; }
    assert y - x == z by { CancelTimes(c, y - x, z); }
  }

  lemma {:induction false} CancelTimes(c: real, x: real, y: real)
    requires c != 0.0 && c * x == c * y
    ensures x == y
  {
    assert c * (x - y) == 0.0;
  }

  ghost function Reversed(f: int -> real, n: int): int -> real {
    i => f(n - 1 - i)
  }

  lemma {:induction false} SumReversed(f: int -> real, n: nat, k: nat)
    requires k <= n
    ensures Sum(Reversed(f, n), k) == Sum(f, n) - Sum(f, n - k)
  {
    if k > 0 {
      SumReversed(f, n, k - 1);
      assert Sum(f, n - (k - 1)) == Sum(f, n - k) + f(n - k);
    }
  }

  /** Sum over all cells of a product of a row and a column factor. */
  lemma {:induction false} ProductSum(h: (int, int) -> real, y: int -> real, x: int -> real, rows: nat, cols: nat)
    requires forall i, j | 0 <= i < rows && 0 <= j < cols :: h(i, j) == Times(y(i), x(j))
    ensures Sum(RowSum(h, cols), rows) == Times(Sum(x, cols), Sum(y, rows))
  {
    hide Times;
    forall i | 0 <= i < rows ensures RowSum(h, cols)(i) == Times(Sum(x, cols), y(i)) {
      var row: int -> real := j => h(i, j);
      SumScale(x, y(i), row, cols);
      RowSumIs(h, i, row, cols);
      TimesLaws(y(i), Sum(x, cols), 0.0);
    }
    SumScale(y, Sum(x, cols), RowSum(h, cols), rows);
  }

  lemma {:induction false} ShareIsProduct(u: Unit, g: Plate, i: int, j: int)
    requires g.Valid()
    ensures Share(u, g)(i, j) == Times(Reversed(Part(BottomOf(u, g), TopOf(u, g)), g.rows)(i), Part(LeftOf(u, g), RightOf(u, g))(j))
  {
    hide Fraction, Quotient, TolerantCeil, TolerantFloor, Times;
    TimesLaws(Fraction(LeftOf(u, g), RightOf(u, g), j), 0.0, 0.0);
    TimesLaws(Fraction(BottomOf(u, g), TopOf(u, g), g.rows - 1 - i), 0.0, 0.0);
    TimesLaws(0.0, 0.0, 0.0);
  }

  /** A block's occupancies add up to its extent in cells along both axes, edges within
      the tolerance of a line moved onto it. */
  lemma {:induction false} ShareTotal(u: Unit, g: Plate)
    requires g.Valid() && Mappable(u, g) && u.width >= 0.0 && u.height >= 0.0
    ensures Sum(RowSum(Share(u, g), g.cols), g.rows)
         == Times(Extent(LeftOf(u, g), RightOf(u, g)), Extent(BottomOf(u, g), TopOf(u, g)))
  {
    QuotientOrder(u.leftx, Right(u), g.CellWidth());
    QuotientOrder(u.bottomy, Top(u), g.CellHeight());
    var l, r, b, t := LeftOf(u, g), RightOf(u, g), BottomOf(u, g), TopOf(u, g);
    PartsSum(l, r, g.cols);
    PartsSum(b, t, g.rows);
    SumReversed(Part(b, t), g.rows, g.rows);
    hide Quotient, Fraction, TolerantCeil, TolerantFloor, Times, Extent, Share, Part, Reversed;
    forall i, j | 0 <= i < g.rows && 0 <= j < g.cols
      ensures Share(u, g)(i, j) == Times(Reversed(Part(b, t), g.rows)(i), Part(l, r)(j))
    {
      ShareIsProduct(u, g, i, j);
    }
    ProductSum(Share(u, g), Reversed(Part(b, t), g.rows), Part(l, r), g.rows, g.cols);
  }

  predicate OnGrid(u: Unit, g: Plate)
    requires g.Valid()
  {
    Aligned(LeftOf(u, g), RightOf(u, g)) && Aligned(BottomOf(u, g), TopOf(u, g))
  }

  /** Length of [a, b] inside [lo, hi]. */
  function Common(a: real, b: real, lo: real, hi: real): real {
    Max(0.0, Min(b, hi) - Max(a, lo))
  }

  lemma {:induction false} PartIsOverlap(x: real, y: real, k: int)
    requires Aligned(x, y)
    ensures Part(x, y)(k) == Max(0.0, Overlap(x, y, k))
  {
    AlignedFraction(x, y, k);
    hide Fraction, Aligned, TolerantFloor, TolerantCeil, Overlap;
  }

  lemma {:induction false} PlainTimes(a: real, b: real)
    ensures Times(a, b) == b * a
  {
  }

  lemma {:induction false} PartIsCommon(a: real, b: real, c: real, k: int, lo: real, hi: real)
    requires c > 0.0 && Aligned(Quotient(a, c), Quotient(b, c)) && lo == k as real * c && hi == (k as real + 1.0) * c
    ensures Times(c, Part(Quotient(a, c), Quotient(b, c))(k)) == Common(a, b, lo, hi)
  {
    hide Aligned, Part, Common, Overlap, Quotient;
    var x, y := Quotient(a, c), Quotient(b, c);
    PartIsOverlap(x, y, k);
    QuotientTimes(a, c);
    QuotientTimes(b, c);
    PlainTimes(c, k as real);
    PlainTimes(c, k as real + 1.0);
    assert lo == Times(c, k as real) && hi == Times(c, k as real + 1.0);
    OverlapScaled(x, y, c, k);
  }

  lemma {:induction false} OverlapScaled(x: real, y: real, c: real, k: int)
    requires c > 0.0
    ensures Common(Times(c, x), Times(c, y), Times(c, k as real), Times(c, k as real + 1.0)) == Times(c, Max(0.0, Overlap(x, y, k)))
  {
    var lo, hi := k as real, k as real + 1.0;
    OrderScaled(hi, y, c);
    OrderScaled(x, lo, c);
    OrderScaled(Max(x, lo), Min(y, hi), c);
    assert Times(c, 0.0) == 0.0;
    hide Times;
  }

  lemma {:induction false} OrderScaled(x: real, y: real, c: real)
    requires c > 0.0
    ensures x < y <==> Times(c, x) < Times(c, y)
    ensures Times(c, y) - Times(c, x) == Times(c, y - x)
  {
    assert c * y - c * x == c * (y - x);
    if x < y { assert c * (y - x) > 0.0; }
    if x >= y { assert c * (x - y) >= 0.0; }
  }

  /** The rectangle of a cell; the rows are counted from the top. */
  function CellRectangle(g: Plate, i: int, j: int): Unit
    requires g.Valid()
  {
    Unit(g.CellWidth(), g.CellHeight(), Times(j as real, g.CellWidth()), g.height - Times(i as real + 1.0, g.CellHeight()))
  }

  function CommonArea(u: Unit, v: Unit): real {
    Times(Common(u.leftx, Right(u), v.leftx, Right(v)), Common(u.bottomy, Top(u), v.bottomy, Top(v)))
  }

  /** Edges clear of the lines: what a block occupies of a cell is the area they have in common. */
  lemma {:induction false} ShareIsIntersection(u: Unit, g: Plate, i: int, j: int)
    requires g.Valid() && OnGrid(u, g) && g.Cell(i, j)
    ensures Times(AreaOf(CellRectangle(g, i, j)), Share(u, g)(i, j)) == CommonArea(u, CellRectangle(g, i, j))
  {
    hide Common, Aligned, Share, Part, Quotient, CellRectangle, Times, AreaOf;
    var c, k := CellRectangle(g, i, j), g.rows - 1 - i;
    CellRectangleIs(g, i, j);
    ShareIsProduct(u, g, i, j);
    PartIsCommon(u.leftx, Right(u), c.width, j, c.leftx, Right(c));
    PartIsCommon(u.bottomy, Top(u), c.height, k, c.bottomy, Top(c));
    TimesTwice(c.width, c.height, Part(LeftOf(u, g), RightOf(u, g))(j), Part(BottomOf(u, g), TopOf(u, g))(k));
  }

  lemma {:induction false} CellRectangleIs(g: Plate, i: int, j: int)
    requires g.Valid()
    ensures var c, k := CellRectangle(g, i, j), g.rows - 1 - i;
      && c.width == g.CellWidth() && c.height == g.CellHeight() && AreaOf(c) == Times(c.width, c.height)
      && c.leftx == j as real * c.width && Right(c) == (j as real + 1.0) * c.width
      && c.bottomy == k as real * c.height && Top(c) == (k as real + 1.0) * c.height
  {
    RowFromTop(g, i);
  }

  lemma {:induction false} TimesTwice(w: real, h: real, x: real, y: real)
    ensures Times(Times(w, h), Times(y, x)) == Times(Times(w, x), Times(h, y))
  {
    assert (w * h) * (y * x) == (w * x) * (h * y);
  }

  lemma {:induction false} RowFromTop(g: Plate, i: int)
    requires g.Valid()
    ensures var h, k := g.CellHeight(), g.rows - 1 - i;
      g.height - Times(i as real + 1.0, h) == k as real * h && g.height - Times(i as real + 1.0, h) + h == (k as real + 1.0) * h
  {
    QuotientTimes(g.height, g.rows as real);
    var h := g.CellHeight();
    assert h * g.rows as real == g.height;
  }

  /** Area of the cells a block occupies, by its occupancies. */
  ghost function MappedArea(u: Unit, g: Plate): real
    requires g.Valid()
  {
    Times(Times(g.CellWidth(), Extent(LeftOf(u, g), RightOf(u, g))), Times(g.CellHeight(), Extent(BottomOf(u, g), TopOf(u, g))))
  }

  /** Block edges clear of the grid lines: the occupied area is the block's area. */
  lemma {:induction false} MappedAreaIs(u: Unit, g: Plate)
    requires g.Valid() && OnGrid(u, g)
    ensures MappedArea(u, g) == AreaOf(u)
  {
    hide Quotient, Extent, Aligned;
    AlignedExtent(LeftOf(u, g), RightOf(u, g));
    AlignedExtent(BottomOf(u, g), TopOf(u, g));
    QuotientOrder(u.leftx, Right(u), g.CellWidth());
    QuotientOrder(u.bottomy, Top(u), g.CellHeight());
    assert Right(u) - u.leftx == u.width && Top(u) - u.bottomy == u.height;
    QuotientTimes(u.width, g.CellWidth());
    QuotientTimes(u.height, g.CellHeight());
  }

  /** Sides of the block in cells, and its area from them. */
  lemma {:induction false} SidesInCells(u: Unit, g: Plate)
    requires g.Valid() && u.width >= 0.0 && u.height >= 0.0
    ensures LeftOf(u, g) <= RightOf(u, g) && BottomOf(u, g) <= TopOf(u, g)
    ensures u.width > 0.0 ==> LeftOf(u, g) < RightOf(u, g)
    ensures u.height > 0.0 ==> BottomOf(u, g) < TopOf(u, g)
    ensures AreaOf(u)
         == Times(Times(g.CellWidth(), g.CellHeight()), Times(RightOf(u, g) - LeftOf(u, g), TopOf(u, g) - BottomOf(u, g)))
  {
    var w, h := g.CellWidth(), g.CellHeight();
    QuotientOrder(u.leftx, Right(u), w);
    QuotientOrder(u.bottomy, Top(u), h);
    QuotientOrder(Right(u), u.leftx, w);
    QuotientOrder(Top(u), u.bottomy, h);
    assert Right(u) - u.leftx == u.width && Top(u) - u.bottomy == u.height;
    QuotientTimes(u.width, w);
    QuotientTimes(u.height, h);
    hide Quotient;
    FourTimes(w, h, Quotient(u.width, w), Quotient(u.height, h), 1.0);
    OneTimes(Times(Quotient(u.width, w), Quotient(u.height, h)));
    OneTimes(Times(u.width, u.height));
  }

  lemma {:induction false} OneTimes(a: real)
    ensures Times(1.0, a) == a
  {
  }

  /** Whatever the edges: the occupied area is the block's area exactly when the lengths
      occupied along the two axes multiply to the block's sides in cells. */
  lemma {:induction false} AreaKeptIff(u: Unit, g: Plate)
    requires g.Valid() && Mappable(u, g) && u.width >= 0.0 && u.height >= 0.0
    ensures MappedArea(u, g) == AreaOf(u)
      <==> Times(OccupiedLength(LeftOf(u, g), RightOf(u, g)), OccupiedLength(BottomOf(u, g), TopOf(u, g)))
           == Times(RightOf(u, g) - LeftOf(u, g), TopOf(u, g) - BottomOf(u, g))
  {
    var l, r, b, t := LeftOf(u, g), RightOf(u, g), BottomOf(u, g), TopOf(u, g);
    SidesInCells(u, g);
    hide Times, Quotient, Extent, OccupiedLength, TolerantFloor, TolerantCeil, AreaOf, LeftOf, RightOf, BottomOf, TopOf;
    ExtentIs(l, r);
    ExtentIs(b, t);
    var w, h, ex, ey := g.CellWidth(), g.CellHeight(), Extent(l, r), Extent(b, t);
    FourTimes(w, h, ex, ey, 1.0);
    OneTimes(Times(ex, ey));
    OneTimes(Times(Times(w, ex), Times(h, ey)));
    ProductPositive(w, h);
    CancelLeft(Times(w, h), Times(ex, ey), Times(r - l, t - b));
  }

  lemma {:induction false} CancelLeft(c: real, x: real, y: real)
    requires c > 0.0
    ensures Times(c, x) == Times(c, y) <==> x == y
  {
    if c * x == c * y { assert c * (x - y) == 0.0; }
  }

  /** If one side keeps its length, the area is kept exactly when the other side does. */
  lemma {:induction false} AreaKeptIffOtherSide(u: Unit, g: Plate)
    requires g.Valid() && Mappable(u, g) && u.width > 0.0 && u.height > 0.0
    ensures LengthKept(BottomOf(u, g), TopOf(u, g)) ==> (MappedArea(u, g) == AreaOf(u) <==> LengthKept(LeftOf(u, g), RightOf(u, g)))
    ensures LengthKept(LeftOf(u, g), RightOf(u, g)) ==> (MappedArea(u, g) == AreaOf(u) <==> LengthKept(BottomOf(u, g), TopOf(u, g)))
  {
    var l, r, b, t := LeftOf(u, g), RightOf(u, g), BottomOf(u, g), TopOf(u, g);
    AreaKeptIff(u, g);
    SidesInCells(u, g);
    hide Times, Quotient, Extent, OccupiedLength, TolerantFloor, TolerantCeil, AreaOf, LengthKept, MappedArea, LeftOf, RightOf, BottomOf, TopOf;
    ExtentIs(l, r);
    ExtentIs(b, t);
    ExtentIff(l, r);
    ExtentIff(b, t);
    CancelLeft(t - b, Extent(l, r), r - l);
    CancelLeft(r - l, Extent(b, t), t - b);
    TimesLaws(t - b, Extent(l, r), 0.0);
    TimesLaws(t - b, r - l, 0.0);
  }

  /** A concrete case: an edge a little past a grid line is moved back to it, and the
      occupied area falls short of the block's. */
  lemma {:induction false} SnappedExample()
    ensures var g, u := Plate(2.0, 1.0, 1, 2), Unit(1.0000005, 1.0, 0.0, 0.0);
      g.Valid() && Mappable(u, g) && MappedArea(u, g) == 1.0 < AreaOf(u)
  {
    var g, u := Plate(2.0, 1.0, 1, 2), Unit(1.0000005, 1.0, 0.0, 0.0);
    assert g.CellWidth() == 1.0 && g.CellHeight() == 1.0;
    assert LeftOf(u, g) == 0.0 && RightOf(u, g) == 1.0000005 && BottomOf(u, g) == 0.0 && TopOf(u, g) == 1.0;
    hide Quotient;
    assert GridOccupancy.Nearest(1.0000005) == 1 && GridOccupancy.Nearest(0.0) == 0 && GridOccupancy.Nearest(1.0) == 1;
    assert Fraction(0.0, 1.0000005, 0) == 1.0 && Fraction(0.0, 1.0, 0) == 1.0;
  }

  // ---- cells of a tiled chip ----

  /** The part of a cell between a block's edges as they are moved, of the whole cell. */
  ghost function MovedShare(g: Plate, i: int, j: int): Unit -> real
    requires g.Valid()
  {
    u => Times(MovedOverlap(BottomOf(u, g), TopOf(u, g), g.rows - 1 - i), MovedOverlap(LeftOf(u, g), RightOf(u, g), j))
  }

  lemma {:induction false} MovedSplitsX(g: Plate, i: int, j: int, x: real, y: real, w1: real, w2: real, h: real)
    requires g.Valid() && w1 >= 0.0 && w2 >= 0.0 && h >= 0.0
    ensures SplitsX(MovedShare(g, i, j), x, y, w1, w2, h)
  {
    var a, b, c := Unit(w1 + w2, h, x, y), Unit(w1, h, x, y), Unit(w2, h, x + w1, y);
    hide Quotient, Times, MovedOverlap;
    QuotientOrder(x, x + w1, g.CellWidth());
    QuotientOrder(x + w1, x + w1 + w2, g.CellWidth());
    assert Right(a) == Right(c) == x + w1 + w2 && Right(b) == x + w1;
    MovedSplits(LeftOf(a, g), RightOf(b, g), RightOf(a, g), j);
    TimesLaws(MovedOverlap(BottomOf(a, g), TopOf(a, g), g.rows - 1 - i), MovedOverlap(LeftOf(b, g), RightOf(b, g), j),
              MovedOverlap(LeftOf(c, g), RightOf(c, g), j));
  }

  lemma {:induction false} MovedSplitsY(g: Plate, i: int, j: int, x: real, y: real, w: real, h1: real, h2: real)
    requires g.Valid() && w >= 0.0 && h1 >= 0.0 && h2 >= 0.0
    ensures SplitsY(MovedShare(g, i, j), x, y, w, h1, h2)
  {
    var a, b, c, k := Unit(w, h1 + h2, x, y), Unit(w, h1, x, y), Unit(w, h2, x, y + h1), g.rows - 1 - i;
    hide Quotient, Times, MovedOverlap;
    QuotientOrder(y, y + h1, g.CellHeight());
    QuotientOrder(y + h1, y + h1 + h2, g.CellHeight());
    assert Top(a) == Top(c) == y + h1 + h2 && Top(b) == y + h1;
    MovedSplits(BottomOf(a, g), TopOf(b, g), TopOf(a, g), k);
    var across := MovedOverlap(LeftOf(a, g), RightOf(a, g), j);
    TimesLaws(across, MovedOverlap(BottomOf(b, g), TopOf(b, g), k), MovedOverlap(BottomOf(c, g), TopOf(c, g), k));
    TimesLaws(MovedOverlap(BottomOf(a, g), TopOf(a, g), k), across, 0.0);
    TimesLaws(MovedOverlap(BottomOf(b, g), TopOf(b, g), k), across, 0.0);
    TimesLaws(MovedOverlap(BottomOf(c, g), TopOf(c, g), k), across, 0.0);
  }

  lemma {:induction false} MovedAdditive(g: Plate, i: int, j: int)
    requires g.Valid()
    ensures Additive(MovedShare(g, i, j))
  {
    var f := MovedShare(g, i, j);
    hide SplitsX, SplitsY, MovedShare;
    forall x, y, w1, w2, h | w1 >= 0.0 && w2 >= 0.0 && h >= 0.0 ensures SplitsX(f, x, y, w1, w2, h) {
      MovedSplitsX(g, i, j, x, y, w1, w2, h);
    }
    forall x, y, w, h1, h2 | w >= 0.0 && h1 >= 0.0 && h2 >= 0.0 ensures SplitsY(f, x, y, w, h1, h2) {
      MovedSplitsY(g, i, j, x, y, w, h1, h2);
    }
  }

  ghost function ShareOf(g: Plate, i: int, j: int): Unit -> real
    requires g.Valid()
  {
    u => Share(u, g)(i, j)
  }

  lemma {:induction false} WholeChipShare(g: Plate, i: int, j: int)
    requires g.Valid() && g.Cell(i, j)
    ensures MovedShare(g, i, j)(Unit(g.width, g.height, 0.0, 0.0)) == 1.0
  {
    var chip := Unit(g.width, g.height, 0.0, 0.0);
    assert LeftOf(chip, g) == 0.0 && BottomOf(chip, g) == 0.0;
    WholeQuotient(g.width, g.cols as real);
    WholeQuotient(g.height, g.rows as real);
    assert RightOf(chip, g) == g.cols as real && TopOf(chip, g) == g.rows as real;
    hide Quotient;
    NearestIs(0.0, 0);
    NearestIs(g.cols as real, g.cols);
    NearestIs(g.rows as real, g.rows);
    hide GridOccupancy.Nearest;
  }

  lemma {:induction false} WholeQuotient(w: real, n: real)
    requires w > 0.0 && n > 0.0
    ensures Quotient(w, n) > 0.0 && Quotient(w, Quotient(w, n)) == n
  {
    var c := w / n;
    assert c * n == w;
    assert w / c == n;
  }

  lemma {:induction false} MovedSumToOne(us: seq<Unit>, n: nat, g: Plate, i: int, j: int)
    requires g.Valid() && g.Cell(i, j) && n <= |us| && Tiles(us, n, Unit(g.width, g.height, 0.0, 0.0))
    requires forall k | 0 <= k < n :: Inside(us[k], Unit(g.width, g.height, 0.0, 0.0))
    ensures SumRange(us, 0, n, MovedShare(g, i, j)) == 1.0
  {
    MovedAdditive(g, i, j);
    hide Tiles, Additive, Inside, MovedShare;
    TilingMeasure(us, n, Unit(g.width, g.height, 0.0, 0.0), MovedShare(g, i, j));
    WholeChipShare(g, i, j);
  }

  /** Told from a block's edges: it is without area, or gets all of its cells that lies
      between its moved edges. */
  predicate Fits(u: Unit, g: Plate)
    requires g.Valid()
  {
    u.width == 0.0 || u.height == 0.0 || (Fills(LeftOf(u, g), RightOf(u, g)) && Fills(BottomOf(u, g), TopOf(u, g)))
  }

  /** So do all blocks that touch the cell. */
  predicate CellFits(us: seq<Unit>, n: nat, g: Plate, i: int, j: int)
    requires g.Valid() && n <= |us|
  {
    forall k | 0 <= k < n && InSpan(SpanOf(us[k], g), i, j) :: Fits(us[k], g)
  }

  lemma {:induction false} OnGridFits(u: Unit, g: Plate)
    requires g.Valid() && OnGrid(u, g)
    ensures Fits(u, g)
  {
    hide Quotient, Aligned, Fills;
    AlignedFills(LeftOf(u, g), RightOf(u, g));
    AlignedFills(BottomOf(u, g), TopOf(u, g));
  }

  lemma {:induction false} TimesNonnegative(a: real, b: real)
    requires a >= 0.0 && b >= 0.0
    ensures Times(a, b) >= 0.0
  {
    if a > 0.0 && b > 0.0 { ProductPositive(a, b); }
  }

  /** Smaller factors make as large a product only where the larger ones make nothing. */
  lemma {:induction false} ProductUpTo(p: real, q: real, x: real, y: real)
    requires 0.0 <= p <= x && 0.0 <= q <= y
    ensures 0.0 <= Times(p, q) <= Times(x, y)
    ensures Times(p, q) == Times(x, y) <==> x == 0.0 || y == 0.0 || (p == x && q == y)
  {
    TimesNonnegative(p, q);
    TimesNonnegative(p, y - q);
    TimesNonnegative(x - p, y);
    TimesLaws(p, y, q);
    TimesLaws(y, x, p);
    TimesLaws(x, y, 0.0);
    TimesLaws(p, y, 0.0);
    TimesLaws(x - p, y, 0.0);
    TimesLaws(y, 0.0, 0.0);
    TimesLaws(q, 0.0, 0.0);
    if x > p && y > 0.0 { ProductPositive(x - p, y); }
    if x == p && p > 0.0 && y > q { ProductPositive(p, y - q); }
    hide Times;
    if p == 0.0 { TimesLaws(q, p, 0.0); }
  }

  /** A block's weight in a cell is never more than the part between its moved edges, and
      as much exactly if the block does not touch the cell or fits. */
  lemma {:induction false} ShareFits(u: Unit, g: Plate, i: int, j: int)
    requires g.Valid() && u.width >= 0.0 && u.height >= 0.0
    ensures 0.0 <= Share(u, g)(i, j) <= MovedShare(g, i, j)(u)
    ensures Share(u, g)(i, j) == MovedShare(g, i, j)(u) <==> !InSpan(SpanOf(u, g), i, j) || Fits(u, g)
  {
    var l, r, b, t, k := LeftOf(u, g), RightOf(u, g), BottomOf(u, g), TopOf(u, g), g.rows - 1 - i;
    SidesInCells(u, g);
    assert InSpan(SpanOf(u, g), i, j) <==> (TolerantFloor(b) <= k < TolerantCeil(t)) && (TolerantFloor(l) <= j < TolerantCeil(r));
    assert u.width == 0.0 ==> l == r;
    assert u.height == 0.0 ==> b == t;
    hide Quotient, Times, Fraction, TolerantFloor, TolerantCeil, Fills, MovedOverlap, SpanOf, LeftOf, RightOf, BottomOf, TopOf, AreaOf;
    if InSpan(SpanOf(u, g), i, j) {
      FractionFills(l, r, j);
      FractionFills(b, t, k);
      ProductUpTo(Fraction(b, t, k), Fraction(l, r, j), MovedOverlap(b, t, k), MovedOverlap(l, r, j));
    } else {
      if TolerantFloor(b) <= k < TolerantCeil(t) { OutOfRange(l, r, j); } else { OutOfRange(b, t, k); }
      TimesLaws(MovedOverlap(b, t, k), 0.0, 0.0);
      TimesLaws(MovedOverlap(l, r, j), 0.0, 0.0);
    }
  }

  lemma {:induction false} SharesUpTo(us: seq<Unit>, n: nat, g: Plate, i: int, j: int)
    requires g.Valid() && n <= |us| && forall k | 0 <= k < n :: us[k].width >= 0.0 && us[k].height >= 0.0
    ensures SumRange(us, 0, n, ShareOf(g, i, j)) <= SumRange(us, 0, n, MovedShare(g, i, j))
    ensures SumRange(us, 0, n, ShareOf(g, i, j)) == SumRange(us, 0, n, MovedShare(g, i, j)) <==> CellFits(us, n, g, i, j)
  {
    hide Share, MovedShare, SpanOf, Fits;
    if n > 0 {
      SharesUpTo(us, n - 1, g, i, j);
      ShareFits(us[n-1], g, i, j);
    }
  }

  /** On a tiled chip the weights in a cell never add up to more than one, and to one
      exactly if every block that touches the cell fits. */
  lemma {:induction false} SharesSumToOneIff(us: seq<Unit>, n: nat, g: Plate, i: int, j: int)
    requires g.Valid() && g.Cell(i, j) && n <= |us| && Tiles(us, n, Unit(g.width, g.height, 0.0, 0.0))
    requires forall k | 0 <= k < n :: Inside(us[k], Unit(g.width, g.height, 0.0, 0.0))
    ensures SumRange(us, 0, n, ShareOf(g, i, j)) <= 1.0
    ensures SumRange(us, 0, n, ShareOf(g, i, j)) == 1.0 <==> CellFits(us, n, g, i, j)
  {
    MovedSumToOne(us, n, g, i, j);
    assert forall k | 0 <= k < n :: us[k].width >= 0.0 && us[k].height >= 0.0;
    hide Tiles, Inside, Share, MovedShare, CellFits;
    SharesUpTo(us, n, g, i, j);
  }

  /** A concrete case: three blocks side by side over two cells, the middle one starting a
      little past the line between them. */
  const SLIVER := [Unit(1.0000005, 1.0, 0.0, 0.0), Unit(0.2999995, 1.0, 1.0000005, 0.0), Unit(0.7, 1.0, 1.3, 0.0)]

  const TWO_CELLS := Plate(2.0, 1.0, 1, 2)

  lemma {:induction false} SumOfThree(us: seq<Unit>, f: Unit -> real)
    requires |us| == 3
    ensures SumRange(us, 0, 3, f) == f(us[0]) + f(us[1]) + f(us[2])
  {
    assert SumRange(us, 0, 1, f) == f(us[0]);
    assert SumRange(us, 0, 2, f) == SumRange(us, 0, 1, f) + f(us[1]);
  }

  lemma {:induction false} SliverTiles()
    ensures Tiles(SLIVER, 3, Unit(2.0, 1.0, 0.0, 0.0))
    ensures forall k | 0 <= k < 3 :: Inside(SLIVER[k], Unit(2.0, 1.0, 0.0, 0.0))
  {
    forall px: real, py: real ensures SumRange(SLIVER, 0, 3, At(px, py)) == At(px, py)(Unit(2.0, 1.0, 0.0, 0.0)) {
      SumOfThree(SLIVER, At(px, py));
    }
  }

  lemma {:induction false} OnUnitCells(u: Unit)
    requires u.bottomy == 0.0 && u.height == 1.0
    ensures TWO_CELLS.Valid()
    ensures LeftOf(u, TWO_CELLS) == u.leftx && RightOf(u, TWO_CELLS) == Right(u)
    ensures BottomOf(u, TWO_CELLS) == 0.0 && TopOf(u, TWO_CELLS) == 1.0
  {
    assert TWO_CELLS.CellWidth() == 1.0 && TWO_CELLS.CellHeight() == 1.0;
  }

  lemma {:induction false} ShareOnUnitCells(u: Unit, j: int)
    requires u.bottomy == 0.0 && u.height == 1.0
    ensures TWO_CELLS.Valid() && SpanOf(u, TWO_CELLS) == Span(0, 1, TolerantFloor(u.leftx), TolerantCeil(Right(u)))
    ensures Share(u, TWO_CELLS)(0, j)
         == if TolerantFloor(u.leftx) <= j < TolerantCeil(Right(u)) then Fraction(u.leftx, Right(u), j) else 0.0
    ensures Fits(u, TWO_CELLS) ==> u.width == 0.0 || Fills(u.leftx, Right(u))
  {
    OnUnitCells(u);
    assert GridOccupancy.Nearest(0.0) == 0 && GridOccupancy.Nearest(1.0) == 1;
    assert TolerantFloor(0.0) == 0 && TolerantCeil(1.0) == 1 && Fraction(0.0, 1.0, 0) == 1.0;
    hide Quotient, LeftOf, RightOf, BottomOf, TopOf, TolerantFloor, TolerantCeil, Fraction, Fills, Times;
    OneTimes(Fraction(u.leftx, Right(u), j));
  }

  lemma {:induction false} SliverFractions()
    ensures TolerantFloor(0.0) == 0 && TolerantCeil(1.0000005) == 1 && TolerantFloor(1.0000005) == 1
    ensures TolerantCeil(1.3) == 2 && TolerantFloor(1.3) == 1 && TolerantCeil(2.0) == 2
    ensures Fraction(1.0000005, 1.3, 1) == 0.2999995 && Fraction(1.3, 2.0, 1) == 0.7 && !Fills(1.0000005, 1.3)
  {
    assert GridOccupancy.Nearest(0.0) == 0 && GridOccupancy.Nearest(1.0000005) == 1;
    assert GridOccupancy.Nearest(1.3) == 1 && GridOccupancy.Nearest(2.0) == 2;
  }

  lemma {:induction false} SliverShares()
    ensures TWO_CELLS.Valid() && forall k | 0 <= k < 3 :: Mappable(SLIVER[k], TWO_CELLS)
    ensures Share(SLIVER[0], TWO_CELLS)(0, 1) == 0.0 && Share(SLIVER[1], TWO_CELLS)(0, 1) == 0.2999995
    ensures Share(SLIVER[2], TWO_CELLS)(0, 1) == 0.7
    ensures InSpan(SpanOf(SLIVER[1], TWO_CELLS), 0, 1) && !Fits(SLIVER[1], TWO_CELLS)
  {
    hide TolerantFloor, TolerantCeil, Fraction, Fills, Fits, Share, SpanOf;
    SliverFractions();
    ShareOnUnitCells(SLIVER[0], 1);
    ShareOnUnitCells(SLIVER[1], 1);
    ShareOnUnitCells(SLIVER[2], 1);
    assert Right(SLIVER[0]) == 1.0000005 && Right(SLIVER[1]) == 1.3 && Right(SLIVER[2]) == 2.0;
  }

  /** The end of the first block is moved back to the line, the start of the second is not,
      and what lies between is nobody's. */
  lemma {:induction false} LostSliverExample()
    ensures TWO_CELLS.Valid() && Tiles(SLIVER, 3, Unit(2.0, 1.0, 0.0, 0.0))
    ensures forall k | 0 <= k < 3 :: Inside(SLIVER[k], Unit(2.0, 1.0, 0.0, 0.0)) && Mappable(SLIVER[k], TWO_CELLS)
    ensures !CellFits(SLIVER, 3, TWO_CELLS, 0, 1) && SumRange(SLIVER, 0, 3, ShareOf(TWO_CELLS, 0, 1)) == 0.9999995
  {
    hide Tiles, Inside, Mappable, Share, Fits, SpanOf;
    SliverTiles();
    SliverShares();
    SumOfThree(SLIVER, ShareOf(TWO_CELLS, 0, 1));
  }

  // ---- the lists kept per cell ----

  datatype Entry = Entry(idx: nat, occupancy: real)

  /** The blocks in a cell in their order, with their occupancies. */
  function CellList(us: seq<Unit>, n: nat, g: Plate, i: int, j: int): seq<Entry>
    requires g.Valid() && n <= |us|
  {
    if n == 0 then []
    else CellList(us, n - 1, g, i, j)
         + if InSpan(SpanOf(us[n-1], g), i, j) then [Entry(n - 1, Occupancy(us[n-1], g, i, j))] else []
  }

  /** Average of the values of the listed blocks, or of their values per area. */
  ghost function ListAverage(list: seq<Entry>, us: seq<Unit>, v: seq<real>, perArea: bool): real {
    if list == [] then 0.0
    else ListAverage(list[..|list|-1], us, v, perArea) + Times(list[|list|-1].occupancy, ValueOf(list[|list|-1].idx, us, v, perArea))
  }

  ghost function ValueOf(idx: nat, us: seq<Unit>, v: seq<real>, perArea: bool): real {
    if idx >= |us| || idx >= |v| then 0.0
    else if perArea then (if AreaOf(us[idx]) == 0.0 then 0.0 else Quotient(v[idx], AreaOf(us[idx]))) else v[idx]
  }

  /** The same average over all blocks, each weighted by its share of the cell. */
  ghost function ShareAverage(us: seq<Unit>, n: nat, g: Plate, v: seq<real>, perArea: bool, i: int, j: int): real
    requires g.Valid() && n <= |us|
  {
    if n == 0 then 0.0
    else ShareAverage(us, n - 1, g, v, perArea, i, j) + Times(Share(us[n-1], g)(i, j), ValueOf(n - 1, us, v, perArea))
  }

  lemma {:induction false} ListIsShares(us: seq<Unit>, n: nat, g: Plate, v: seq<real>, perArea: bool, i: int, j: int)
    requires g.Valid() && n <= |us|
    ensures ListAverage(CellList(us, n, g, i, j), us, v, perArea) == ShareAverage(us, n, g, v, perArea, i, j)
  {
    hide Times, ValueOf;
    if n > 0 {
      ListIsShares(us, n - 1, g, v, perArea, i, j);
      var before, u := CellList(us, n - 1, g, i, j), us[n-1];
      TimesLaws(ValueOf(n - 1, us, v, perArea), 0.0, 0.0);
      ShareAt(u, g, i, j);
      hide Share, Occupancy, SpanOf;
      if InSpan(SpanOf(u, g), i, j) {
        var e := Entry(n - 1, Occupancy(u, g, i, j));
        assert (before + [e])[..|before + [e]| - 1] == before;
        assert CellList(us, n, g, i, j) == before + [e];
      } else {
        assert CellList(us, n, g, i, j) == before;
      }
    }
  }

  lemma {:induction false} ShareAt(u: Unit, g: Plate, i: int, j: int)
    requires g.Valid()
    ensures Share(u, g)(i, j) == if InSpan(SpanOf(u, g), i, j) then Occupancy(u, g, i, j) else 0.0
  {
  }

  /** Smaller factors, none more than d short of factors up to one. */
  lemma {:induction false} ProductNearly(p: real, q: real, x: real, y: real, d: real)
    requires 0.0 <= p <= x <= 1.0 && 0.0 <= q <= y <= 1.0 && p >= x - d && q >= y - d && d >= 0.0
    ensures Times(p, q) >= Times(x, y) - 2.0 * d
  {
    TimesLaws(y, x, p);
    TimesLaws(p, y, q);
    TimesLaws(y, p, 0.0);
    TimesLaws(x, y, 0.0);
    TimesBetween(y, x - p, x - p, d);
    TimesBetween(d, 0.0, y, 1.0);
    TimesBetween(p, y - q, y - q, d);
    TimesBetween(d, 0.0, p, 1.0);
    TimesLaws(y, d, 0.0);
    TimesLaws(p, d, 0.0);
    TimesLaws(d, 1.0, 0.0);
    hide Times;
  }

  lemma {:induction false} ShareNearly(u: Unit, g: Plate, i: int, j: int)
    requires g.Valid() && u.width >= 0.0 && u.height >= 0.0
    ensures Share(u, g)(i, j) >= MovedShare(g, i, j)(u) - if InSpan(SpanOf(u, g), i, j) then 4.0 * DELTA else 0.0
  {
    var l, r, b, t, k := LeftOf(u, g), RightOf(u, g), BottomOf(u, g), TopOf(u, g), g.rows - 1 - i;
    ShareFits(u, g, i, j);
    SidesInCells(u, g);
    assert InSpan(SpanOf(u, g), i, j) <==> (TolerantFloor(b) <= k < TolerantCeil(t)) && (TolerantFloor(l) <= j < TolerantCeil(r));
    hide Quotient, Times, Fraction, TolerantFloor, TolerantCeil, Fills, Fits, MovedOverlap, SpanOf, LeftOf, RightOf, BottomOf, TopOf, AreaOf;
    if InSpan(SpanOf(u, g), i, j) {
      FractionFills(l, r, j);
      FractionFills(b, t, k);
      FractionNearly(l, r, j);
      FractionNearly(b, t, k);
      ProductNearly(Fraction(b, t, k), Fraction(l, r, j), MovedOverlap(b, t, k), MovedOverlap(l, r, j), 2.0 * DELTA);
    }
  }

  lemma {:induction false} SharesNearly(us: seq<Unit>, n: nat, g: Plate, i: int, j: int)
    requires g.Valid() && n <= |us| && forall k | 0 <= k < n :: us[k].width >= 0.0 && us[k].height >= 0.0
    ensures SumRange(us, 0, n, ShareOf(g, i, j))
         >= SumRange(us, 0, n, MovedShare(g, i, j)) - 4.0 * DELTA * |CellList(us, n, g, i, j)| as real
  {
    hide Share, MovedShare, SpanOf, Occupancy;
    if n > 0 {
      SharesNearly(us, n - 1, g, i, j);
      ShareNearly(us[n-1], g, i, j);
    }
  }

  /** Whether they fit or not, the blocks in a cell of a tiled chip lose at most four
      tolerances each. */
  lemma {:induction false} SharesNearlyOne(us: seq<Unit>, n: nat, g: Plate, i: int, j: int)
    requires g.Valid() && g.Cell(i, j) && n <= |us| && Tiles(us, n, Unit(g.width, g.height, 0.0, 0.0))
    requires forall k | 0 <= k < n :: Inside(us[k], Unit(g.width, g.height, 0.0, 0.0))
    ensures SumRange(us, 0, n, ShareOf(g, i, j)) >= 1.0 - 4.0 * DELTA * |CellList(us, n, g, i, j)| as real
  {
    MovedSumToOne(us, n, g, i, j);
    assert forall k | 0 <= k < n :: us[k].width >= 0.0 && us[k].height >= 0.0;
    hide Tiles, Inside, Share, MovedShare, CellList;
    SharesNearly(us, n, g, i, j);
  }

  /** An average lies between the bounds of the values times the sum of the weights. */
  lemma {:induction false} AverageWithin(us: seq<Unit>, n: nat, g: Plate, v: seq<real>, i: int, j: int, lo: real, hi: real)
    requires g.Valid() && n <= |us| && n <= |v|
    requires forall k | 0 <= k < n :: lo <= v[k] <= hi && us[k].width >= 0.0 && us[k].height >= 0.0
    ensures var s := SumRange(us, 0, n, ShareOf(g, i, j));
      Times(s, lo) <= ShareAverage(us, n, g, v, false, i, j) <= Times(s, hi) && s >= 0.0
  {
    hide Times, Share, Fits, SpanOf, MovedShare;
    if n == 0 {
      TimesLaws(lo, 0.0, 0.0);
      TimesLaws(hi, 0.0, 0.0);
    } else {
      AverageWithin(us, n - 1, g, v, i, j, lo, hi);
      ShareFits(us[n-1], g, i, j);
      var w, s := Share(us[n-1], g)(i, j), SumRange(us, 0, n - 1, ShareOf(g, i, j));
      TimesBetween(w, lo, v[n-1], hi);
      TimesLaws(lo, s, w);
      TimesLaws(hi, s, w);
      TimesLaws(s, lo, 0.0);
      TimesLaws(s, hi, 0.0);
      TimesLaws(w, lo, 0.0);
      TimesLaws(w, hi, 0.0);
      TimesLaws(s + w, lo, 0.0);
      TimesLaws(s + w, hi, 0.0);
    }
  }

  lemma {:induction false} TimesBetween(w: real, a: real, v: real, b: real)
    requires w >= 0.0 && a <= v <= b
    ensures Times(w, a) <= Times(w, v) <= Times(w, b)
  {
    TimesNonnegative(w, v - a);
    TimesNonnegative(w, b - v);
  }

  predicate Bounded(v: seq<real>, n: nat, lo: real, hi: real) {
    n <= |v| && forall k | 0 <= k < n :: lo <= v[k] <= hi
  }

  /** On a tiled chip a cell is never above the hottest block, as long as that is not below
      zero; if every block that touches it fits, it lies between the bounds of the blocks. */
  lemma {:induction false} TemperatureIsAverage(us: seq<Unit>, n: nat, g: Plate, v: seq<real>, i: int, j: int, lo: real, hi: real)
    requires g.Valid() && g.Cell(i, j) && n <= |us| && Bounded(v, n, lo, hi) && Tiles(us, n, Unit(g.width, g.height, 0.0, 0.0))
    requires forall k | 0 <= k < n :: Inside(us[k], Unit(g.width, g.height, 0.0, 0.0))
    ensures hi >= 0.0 ==> ListAverage(CellList(us, n, g, i, j), us, v, false) <= hi
    ensures CellFits(us, n, g, i, j) ==> lo <= ListAverage(CellList(us, n, g, i, j), us, v, false) <= hi
  {
    assert forall k | 0 <= k < n :: us[k].width >= 0.0 && us[k].height >= 0.0;
    hide Tiles, Inside, CellFits, Times;
    SharesSumToOneIff(us, n, g, i, j);
    AverageWithin(us, n, g, v, i, j, lo, hi);
    ListIsShares(us, n, g, v, false, i, j);
    var s := SumRange(us, 0, n, ShareOf(g, i, j));
    if hi >= 0.0 { TimesNonnegative(1.0 - s, hi); }
    TimesLaws(hi, 1.0, s);
    TimesLaws(hi, s, 0.0);
    TimesLaws(hi, 1.0 - s, 0.0);
    TimesLaws(1.0, lo, 0.0);
    TimesLaws(lo, 1.0, 0.0);
  }

  /** It does so for all temperatures exactly if those blocks fit. */
  lemma {:induction false} TemperatureIsAverageIff(us: seq<Unit>, n: nat, g: Plate, i: int, j: int)
    requires g.Valid() && g.Cell(i, j) && n <= |us| && Tiles(us, n, Unit(g.width, g.height, 0.0, 0.0))
    requires forall k | 0 <= k < n :: Inside(us[k], Unit(g.width, g.height, 0.0, 0.0))
    ensures (forall v, lo, hi | Bounded(v, n, lo, hi) :: lo <= ListAverage(CellList(us, n, g, i, j), us, v, false) <= hi)
      <==> CellFits(us, n, g, i, j)
  {
    assert forall k | 0 <= k < n :: us[k].width >= 0.0 && us[k].height >= 0.0;
    hide Tiles, Inside, CellFits, Times, ListAverage, CellList;
    if CellFits(us, n, g, i, j) {
      forall v, lo, hi | Bounded(v, n, lo, hi) ensures lo <= ListAverage(CellList(us, n, g, i, j), us, v, false) <= hi {
        TemperatureIsAverage(us, n, g, v, i, j, lo, hi);
      }
    }
    var ones := seq(n, _ => 1.0);
    assert Bounded(ones, n, 1.0, 1.0);
    SharesSumToOneIff(us, n, g, i, j);
    AverageWithin(us, n, g, ones, i, j, 1.0, 1.0);
    ListIsShares(us, n, g, ones, false, i, j);
    TimesLaws(SumRange(us, 0, n, ShareOf(g, i, j)), 1.0, 0.0);
  }

  // ---- power ----

  ghost function AverageField(us: seq<Unit>, n: nat, g: Plate, v: seq<real>, perArea: bool): (int, int) -> real
    requires g.Valid() && n <= |us|
  {
    (i, j) => ShareAverage(us, n, g, v, perArea, i, j)
  }

  /** What the blocks hand over: value per area times the area their occupancies make. */
  ghost function Delivered(us: seq<Unit>, n: nat, g: Plate, v: seq<real>): real
    requires g.Valid() && n <= |us|
  {
    if n == 0 then 0.0
    else Delivered(us, n - 1, g, v) + Times(ValueOf(n - 1, us, v, true), MappedArea(us[n-1], g))
  }

  lemma {:induction false} FieldSum(f: (int, int) -> real, h: (int, int) -> real, s: (int, int) -> real, w: real, rows: nat, cols: nat)
    requires forall i, j | 0 <= i < rows && 0 <= j < cols :: f(i, j) == h(i, j) + Times(s(i, j), w)
    ensures Sum(RowSum(f, cols), rows) == Sum(RowSum(h, cols), rows) + Times(w, Sum(RowSum(s, cols), rows))
  {
    hide Times;
    var sw: (int, int) -> real := (i, j) => Times(s(i, j), w);
    forall i | 0 <= i < rows ensures RowSum(f, cols)(i) == RowSum(h, cols)(i) + RowSum(sw, cols)(i)
                                  && RowSum(sw, cols)(i) == Times(w, RowSum(s, cols)(i)) {
      var a: int -> real := j => f(i, j);
      var b: int -> real := j => h(i, j);
      var c: int -> real := j => sw(i, j);
      var d: int -> real := j => s(i, j);
      SumAdd(b, c, a, cols);
      forall j | 0 <= j < cols ensures c(j) == Times(w, d(j)) { TimesLaws(s(i, j), w, 0.0); }
      SumScale(d, w, c, cols);
      RowSumIs(f, i, a, cols);
      RowSumIs(h, i, b, cols);
      RowSumIs(sw, i, c, cols);
      RowSumIs(s, i, d, cols);
    }
    SumAdd(RowSum(h, cols), RowSum(sw, cols), RowSum(f, cols), rows);
    SumScale(RowSum(s, cols), w, RowSum(sw, cols), rows);
  }

  /** Area of one cell as the source computes it, and as width times height. */
  lemma {:induction false} CellArea(g: Plate)
    requires g.Valid()
    ensures (g.cols * g.rows) as real > 0.0
    ensures Quotient(g.width * g.height, (g.cols * g.rows) as real) == Times(g.CellWidth(), g.CellHeight())
  {
    var c, r := g.cols as real, g.rows as real;
    assert (g.cols * g.rows) as real == c * r;
    assert c * r > 0.0;
    assert ((g.width / c) * c) * ((g.height / r) * r) == g.width * g.height;
    assert ((g.width / c) * (g.height / r)) * (c * r) == g.width * g.height;
  }

  lemma {:induction false} FourTimes(a: real, b: real, c: real, d: real, v: real)
    ensures Times(Times(a, b), Times(v, Times(c, d))) == Times(v, Times(Times(a, c), Times(b, d)))
  {
    assert (a * b) * (v * (c * d)) == v * ((a * c) * (b * d));
  }

  /** The layer's total: cell area times the averages, over all cells. */
  lemma {:induction false} LayerPower(us: seq<Unit>, n: nat, g: Plate, v: seq<real>)
    requires g.Valid() && n <= |us|
    requires forall k | 0 <= k < n :: Mappable(us[k], g) && us[k].width >= 0.0 && us[k].height >= 0.0
    ensures Times(Times(g.CellWidth(), g.CellHeight()), Sum(RowSum(AverageField(us, n, g, v, true), g.cols), g.rows))
         == Delivered(us, n, g, v)
  {
    hide Times, Share, Mappable, Extent, ValueOf, ShareAverage, Sum, RowSum, MappedArea, AverageField;
    var area := Times(g.CellWidth(), g.CellHeight());
    if n == 0 {
      NoAverage(us, g, v);
      TimesLaws(area, 0.0, 0.0);
    } else {
      LayerPower(us, n - 1, g, v);
      OneMoreBlock(us, n, g, v);
      var h, w, m := AverageField(us, n - 1, g, v, true), ValueOf(n - 1, us, v, true), Sum(RowSum(Share(us[n-1], g), g.cols), g.rows);
      TimesLaws(area, Sum(RowSum(h, g.cols), g.rows), Times(w, m));
      DeliveredByBlock(us[n-1], g, w);
    }
  }

  lemma {:induction false} NoAverage(us: seq<Unit>, g: Plate, v: seq<real>)
    requires g.Valid()
    ensures Sum(RowSum(AverageField(us, 0, g, v, true), g.cols), g.rows) == 0.0
  {
    ZeroField(AverageField(us, 0, g, v, true), g.rows, g.cols);
  }

  lemma {:induction false} OneMoreBlock(us: seq<Unit>, n: nat, g: Plate, v: seq<real>)
    requires g.Valid() && 0 < n <= |us|
    ensures Sum(RowSum(AverageField(us, n, g, v, true), g.cols), g.rows)
         == Sum(RowSum(AverageField(us, n - 1, g, v, true), g.cols), g.rows)
          + Times(ValueOf(n - 1, us, v, true), Sum(RowSum(Share(us[n-1], g), g.cols), g.rows))
  {
    hide Times, Share, ValueOf, Sum, RowSum;
    FieldSum(AverageField(us, n, g, v, true), AverageField(us, n - 1, g, v, true), Share(us[n-1], g), ValueOf(n - 1, us, v, true), g.rows, g.cols);
  }

  lemma {:induction false} DeliveredByBlock(u: Unit, g: Plate, w: real)
    requires g.Valid() && Mappable(u, g) && u.width >= 0.0 && u.height >= 0.0
    ensures Times(Times(g.CellWidth(), g.CellHeight()), Times(w, Sum(RowSum(Share(u, g), g.cols), g.rows))) == Times(w, MappedArea(u, g))
  {
    hide Times, Share, Mappable, Extent, Sum, RowSum;
    ShareTotal(u, g);
    FourTimes(g.CellWidth(), g.CellHeight(), Extent(LeftOf(u, g), RightOf(u, g)), Extent(BottomOf(u, g), TopOf(u, g)), w);
  }

  lemma {:induction false} ZeroField(f: (int, int) -> real, rows: nat, cols: nat)
    requires forall i, j | 0 <= i < rows && 0 <= j < cols :: f(i, j) == 0.0
    ensures Sum(RowSum(f, cols), rows) == 0.0
  {
    forall i | 0 <= i < rows ensures RowSum(f, cols)(i) == 0.0 {
      var a: int -> real := j => f(i, j);
      SumZero(a, cols);
      RowSumIs(f, i, a, cols);
    }
    SumZero(RowSum(f, cols), rows);
  }

  ghost function TotalOf(v: seq<real>, n: nat): real
    requires n <= |v|
  {
    if n == 0 then 0.0 else TotalOf(v, n - 1) + v[n-1]
  }

  /** What the layer gets beyond the blocks' power: density times the area gained. */
  ghost function Surplus(us: seq<Unit>, n: nat, g: Plate, v: seq<real>): real
    requires g.Valid() && n <= |us|
  {
    if n == 0 then 0.0
    else Surplus(us, n - 1, g, v) + Times(ValueOf(n - 1, us, v, true), MappedArea(us[n-1], g) - AreaOf(us[n-1]))
  }

  /** For given powers the layer gets their total exactly when the surpluses cancel. */
  lemma {:induction false} TotalKeptIff(us: seq<Unit>, n: nat, g: Plate, v: seq<real>)
    requires g.Valid() && n <= |us| && n <= |v| && forall k | 0 <= k < n :: AreaOf(us[k]) != 0.0
    ensures Delivered(us, n, g, v) == TotalOf(v, n) + Surplus(us, n, g, v)
    ensures Delivered(us, n, g, v) == TotalOf(v, n) <==> Surplus(us, n, g, v) == 0.0
  {
    hide Times, AreaOf, Quotient, MappedArea;
    if n > 0 {
      TotalKeptIff(us, n - 1, g, v);
      var d := ValueOf(n - 1, us, v, true);
      QuotientTimes(v[n-1], AreaOf(us[n-1]));
      TimesLaws(AreaOf(us[n-1]), d, 0.0);
      TimesLaws(d, MappedArea(us[n-1], g), AreaOf(us[n-1]));
    }
  }

  lemma {:induction false} NoSurplus(us: seq<Unit>, n: nat, g: Plate, v: seq<real>)
    requires g.Valid() && n <= |us| && forall k | 0 <= k < n :: MappedArea(us[k], g) == AreaOf(us[k])
    ensures Surplus(us, n, g, v) == 0.0
  {
    hide Times, AreaOf, MappedArea, ValueOf;
    if n > 0 {
      NoSurplus(us, n - 1, g, v);
      TimesLaws(ValueOf(n - 1, us, v, true), 0.0, 0.0);
    }
  }

  /** One unit of power in block k, none elsewhere. */
  function OnlyIn(k: nat, n: nat): (v: seq<real>)
    ensures |v| == n && forall i | 0 <= i < n :: v[i] == if i == k then 1.0 else 0.0
  {
    seq(n, i => if i == k then 1.0 else 0.0)
  }

  lemma {:induction false} SurplusOfOne(us: seq<Unit>, n: nat, g: Plate, k: nat, m: nat)
    requires g.Valid() && m <= n <= |us| && k < n && forall i | 0 <= i < n :: AreaOf(us[i]) != 0.0
    ensures Surplus(us, m, g, OnlyIn(k, n))
         == if k < m then Times(Quotient(1.0, AreaOf(us[k])), MappedArea(us[k], g) - AreaOf(us[k])) else 0.0
  {
    hide Times, AreaOf, MappedArea, Quotient;
    if m > 0 {
      SurplusOfOne(us, n, g, k, m - 1);
      ZeroQuotient(AreaOf(us[m-1]));
      var d := MappedArea(us[m-1], g) - AreaOf(us[m-1]);
      TimesLaws(d, 0.0, 0.0);
      TimesLaws(0.0, d, 0.0);
    }
  }

  lemma {:induction false} ZeroQuotient(a: real)
    requires a != 0.0
    ensures Quotient(0.0, a) == 0.0 && Quotient(1.0, a) != 0.0
  {
    assert Quotient(1.0, a) * a == 1.0;
  }

  /** A layer keeps the total of all powers exactly when every block keeps its area. */
  lemma {:induction false} AllPowersKeptIff(us: seq<Unit>, n: nat, g: Plate)
    requires g.Valid() && n <= |us| && forall k | 0 <= k < n :: AreaOf(us[k]) != 0.0
    ensures (forall v: seq<real> | |v| == n :: Delivered(us, n, g, v) == TotalOf(v, n))
      <==> forall k | 0 <= k < n :: MappedArea(us[k], g) == AreaOf(us[k])
  {
    hide Times, AreaOf, MappedArea, Quotient, Delivered, TotalOf, Surplus;
    if forall k | 0 <= k < n :: MappedArea(us[k], g) == AreaOf(us[k]) {
      forall v: seq<real> | |v| == n ensures Delivered(us, n, g, v) == TotalOf(v, n) {
        TotalKeptIff(us, n, g, v);
        NoSurplus(us, n, g, v);
      }
    }
    if forall v: seq<real> | |v| == n :: Delivered(us, n, g, v) == TotalOf(v, n) {
      forall k: nat | k < n ensures MappedArea(us[k], g) == AreaOf(us[k]) {
        TotalKeptIff(us, n, g, OnlyIn(k, n));
        SurplusOfOne(us, n, g, k, n);
        ZeroQuotient(AreaOf(us[k]));
        ProductZero(Quotient(1.0, AreaOf(us[k])), MappedArea(us[k], g) - AreaOf(us[k]));
      }
    }
  }

  /** Blocks with area and edges clear of the grid lines hand over exactly their power. */
  lemma {:induction false} DeliveredIsTotal(us: seq<Unit>, n: nat, g: Plate, v: seq<real>)
    requires g.Valid() && n <= |us| && n <= |v| && forall k | 0 <= k < n :: OnGrid(us[k], g) && AreaOf(us[k]) != 0.0
    ensures Delivered(us, n, g, v) == TotalOf(v, n)
  {
    hide Times, OnGrid, AreaOf, MappedArea, Delivered, TotalOf, Surplus;
    forall k | 0 <= k < n ensures MappedArea(us[k], g) == AreaOf(us[k]) { MappedAreaIs(us[k], g); }
    NoSurplus(us, n, g, v);
    TotalKeptIff(us, n, g, v);
  }
}
