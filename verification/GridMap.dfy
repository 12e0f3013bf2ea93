/** Building the block to grid map of a layer, and carrying block values over to its cells. */
module GridMap {
  import opened Sums
  import opened Numbers
  import opened Lup
  import opened Rectangles
  import opened RimStrips
  import opened GridOccupancy
  import opened GridMapSpec

  /** How setting up the map ends; all but the first are fatal. */
  datatype MapResult = Mapped | NegativeStart | EndOutside | EmptyRange | NegativeOverlap

  /** Overlap of a block and a cell along one axis, in units of cells. */
  lemma {:induction false} OverlapScaled(a: real, b: real, lo: real, hi: real, c: real, k: int)
    requires c > 0.0 && lo == Times(k as real, c) && hi == Times((k + 1) as real, c)
    ensures Quotient(Min(b, hi) - Max(a, lo), c) == Overlap(Quotient(a, c), Quotient(b, c), k)
  {
    hide Quotient, Times;
    QuotientOfTimes(k as real, c);
    QuotientOfTimes((k + 1) as real, c);
    QuotientOrder(b, hi, c);
    QuotientOrder(a, lo, c);
    QuotientOrder(hi, b, c);
    QuotientOrder(lo, a, c);
    QuotientOrder(Max(a, lo), Min(b, hi), c);
  }

  lemma {:induction false} QuotientOfTimes(k: real, c: real)
    requires c > 0.0
    ensures Quotient(Times(k, c), c) == k
  {
  }

  /** The overlap after rounding, in absolute units. */
  function RoundedLength(o: real, c: real): real
    requires c != 0.0
  {
    if Eq(Quotient(o, c), 0.0) then 0.0 else if Eq(Quotient(o, c), 1.0) then c else o
  }

  lemma {:induction false} RoundedLengthIs(o: real, c: real)
    requires c > 0.0
    ensures RoundedLength(o, c) == Times(c, Rounded(Quotient(o, c)))
    ensures Rounded(Quotient(o, c)) >= 0.0 ==> RoundedLength(o, c) >= 0.0
  {
    QuotientTimes(o, c);
    TimesLaws(c, 0.0, 0.0);
    if Rounded(Quotient(o, c)) >= 0.0 { TimesNonnegative(c, Rounded(Quotient(o, c))); }
    hide Quotient, Times;
  }

  lemma {:induction false} AreaRatio(c: real, h: real, x: real, y: real)
    requires c > 0.0 && h > 0.0
    ensures Times(h, c) > 0.0 && Quotient(Times(Times(h, y), Times(c, x)), Times(h, c)) == Times(y, x)
  {
    ProductPositive(h, c);
    assert (h * y) * (c * x) == (h * c) * (y * x);
    assert ((h * c) * (y * x)) / (h * c) == y * x;
  }

  /** Rows are counted from the top: row i is cell rows - 1 - i from the bottom. */
  lemma {:induction false} RowLines(g: Plate, i: int)
    requires g.Valid()
    ensures var ch := g.CellHeight();
      g.height - Times(i as real, ch) == Times((g.rows - i) as real, ch)
      && g.height - Times((i + 1) as real, ch) == Times((g.rows - 1 - i) as real, ch)
  {
    var ch := g.CellHeight();
    QuotientTimes(g.height, g.rows as real);
    assert Times(g.rows as real, ch) == g.height;
    hide Quotient;
    assert (g.rows - i) as real == g.rows as real - i as real;
    assert (g.rows - 1 - i) as real == g.rows as real - (i + 1) as real;
    assert (g.rows as real - i as real) * ch == g.rows as real * ch - i as real * ch;
    assert (g.rows as real - (i + 1) as real) * ch == g.rows as real * ch - (i + 1) as real * ch;
  }

  lemma {:induction false} InnerOccupancy(u: Unit, g: Plate, i: int, j: int)
    requires g.Valid() && u.width >= 0.0 && u.height >= 0.0
    requires var s := SpanOf(u, g); s.i1 < i < s.i2 - 1 && s.j1 < j < s.j2 - 1
    ensures Occupancy(u, g, i, j) == 1.0
  {
    QuotientOrder(u.leftx, Right(u), g.CellWidth());
    QuotientOrder(u.bottomy, Top(u), g.CellHeight());
    FractionAt(LeftOf(u, g), RightOf(u, g), j);
    FractionAt(BottomOf(u, g), TopOf(u, g), g.rows - 1 - i);
    hide Quotient, Fraction, TolerantCeil, TolerantFloor, Snap;
    assert Times(1.0, 1.0) == 1.0;
    hide Times;
  }

  /** What the block occupies of one of its cells: all of an inner cell, else the rounded
      overlap over the cell's area. */
  method CellOccupancy(u: Unit, g: Plate, i: int, j: int) returns (occupancy: real, negative: bool)
    requires g.Valid() && u.width >= 0.0 && u.height >= 0.0 && Mappable(u, g) && InSpan(SpanOf(u, g), i, j)
    ensures !negative && occupancy == Occupancy(u, g, i, j)
  {
    var s := SpanOf(u, g);
    if i > s.i1 && i < s.i2 - 1 && j > s.j1 && j < s.j2 - 1 {
      InnerOccupancy(u, g, i, j);
      return 1.0, false;
    }
    var cw, ch := g.CellWidth(), g.CellHeight();
    QuotientOrder(u.leftx, Right(u), cw);
    QuotientOrder(u.bottomy, Top(u), ch);
    FractionNonnegative(LeftOf(u, g), RightOf(u, g), j);
    FractionNonnegative(BottomOf(u, g), TopOf(u, g), g.rows - 1 - i);
    RowLines(g, i);
    hide Quotient, Times, Overlap, Rounded, SpanOf, RoundedLength;
    var lc, rc := Times(j as real, cw), Times((j + 1) as real, cw);
    var tc, bc := g.height - Times(i as real, ch), g.height - Times((i + 1) as real, ch);
    var oh := Min(u.bottomy + u.height, tc) - Max(u.bottomy, bc);
    var ow := Min(u.leftx + u.width, rc) - Max(u.leftx, lc);
    OverlapScaled(u.bottomy, Top(u), bc, tc, ch, g.rows - 1 - i);
    OverlapScaled(u.leftx, Right(u), lc, rc, cw, j);
    RoundedLengthIs(oh, ch);
    RoundedLengthIs(ow, cw);
    oh, ow := RoundedLength(oh, ch), RoundedLength(ow, cw);
    AreaRatio(cw, ch, Rounded(Overlap(LeftOf(u, g), RightOf(u, g), j)), Rounded(Overlap(BottomOf(u, g), TopOf(u, g), g.rows - 1 - i)));
    occupancy := Quotient(Times(oh, ow), Times(ch, cw));
    negative := oh < 0.0 || ow < 0.0;
  }

  ghost predicate Sized(g: Plate, b2g: array2<seq<Entry>>) {
    b2g.Length0 == g.rows && b2g.Length1 == g.cols
  }

  /** Every cell lists the first k blocks that touch it. */
  ghost predicate ListsBlocks(g: Plate, b2g: array2<seq<Entry>>, us: seq<Unit>, k: nat)
    requires g.Valid() && k <= |us| && Sized(g, b2g)
    reads b2g
  {
    forall i, j | 0 <= i < g.rows && 0 <= j < g.cols :: b2g[i, j] == CellList(us, k, g, i, j)
  }

  /** Adds one row of a block's cells. */
  method AddRow(g: Plate, b2g: array2<seq<Entry>>, u: Unit, idx: nat, i: int, j1: int, j2: int) returns (negative: bool)
    requires g.Valid() && Sized(g, b2g) && u.width >= 0.0 && u.height >= 0.0 && Mappable(u, g)
    requires 0 <= i < g.rows && 0 <= j1 <= j2 <= g.cols && forall j | j1 <= j < j2 :: InSpan(SpanOf(u, g), i, j)
    modifies b2g
    ensures !negative
    ensures forall r, c | 0 <= r < g.rows && 0 <= c < g.cols ::
        b2g[r, c] == old(b2g[r, c]) + if r == i && j1 <= c < j2 then [Entry(idx, Occupancy(u, g, r, c))] else []
  {
    negative := false;
    hide SpanOf, Occupancy;
    for j := j1 to j2
      invariant !negative
      invariant forall r, c | 0 <= r < g.rows && 0 <= c < g.cols ::
          b2g[r, c] == old(b2g[r, c]) + if r == i && j1 <= c < j then [Entry(idx, Occupancy(u, g, r, c))] else []
    {
      var occupancy, below := CellOccupancy(u, g, i, j);
      negative := below;
      b2g[i, j] := b2g[i, j] + [Entry(idx, occupancy)];
    }
  }

  /** Adds a block to the lists of all cells it touches. */
  method AddBlock(g: Plate, b2g: array2<seq<Entry>>, us: seq<Unit>, k: nat) returns (negative: bool)
    requires g.Valid() && Sized(g, b2g) && k < |us| && us[k].width >= 0.0 && us[k].height >= 0.0 && Mappable(us[k], g)
    requires ListsBlocks(g, b2g, us, k)
    modifies b2g
    ensures !negative && ListsBlocks(g, b2g, us, k + 1)
  {
    negative := false;
    var u := us[k];
    var s := SpanOf(u, g);
    assert forall i, j | s.i1 <= i < s.i2 && s.j1 <= j < s.j2 :: InSpan(s, i, j);
    hide SpanOf, Occupancy;
    for i := s.i1 to s.i2
      invariant !negative
      invariant forall r, c | 0 <= r < g.rows && 0 <= c < g.cols ::
          b2g[r, c] == old(b2g[r, c]) + if s.i1 <= r < i && s.j1 <= c < s.j2 then [Entry(k, Occupancy(u, g, r, c))] else []
    {
      var below := AddRow(g, b2g, u, k, i, s.j1, s.j2);
      negative := below;
    }
    forall i, j | 0 <= i < g.rows && 0 <= j < g.cols ensures b2g[i, j] == CellList(us, k + 1, g, i, j) {
      assert old(b2g[i, j]) == CellList(us, k, g, i, j);
    }
  }

  /** Sets up the maps of a layer. It succeeds exactly when every block's cells are on the
      grid; "negative overlap" never happens. */
  method SetBgmap(g: Plate, us: seq<Unit>, b2g: array2<seq<Entry>>, g2b: array<Span>) returns (result: MapResult)
    requires g.Valid() && Sized(g, b2g) && g2b.Length == |us|
    requires forall k | 0 <= k < |us| :: us[k].width >= 0.0 && us[k].height >= 0.0
    modifies b2g, g2b
    ensures result == Mapped <==> forall k | 0 <= k < |us| :: Mappable(us[k], g)
    ensures result == Mapped ==> ListsBlocks(g, b2g, us, |us|) && forall k | 0 <= k < |us| :: g2b[k] == SpanOf(us[k], g)
    ensures result != NegativeOverlap
  {
    ResetMap(g, b2g, us);
    hide SpanOf, ListsBlocks;
    for u := 0 to |us|
      invariant ListsBlocks(g, b2g, us, u)
      invariant forall k | 0 <= k < u :: Mappable(us[k], g) && g2b[k] == SpanOf(us[k], g)
    {
      var s := SpanOf(us[u], g);
      if s.i1 < 0 || s.j1 < 0 {
        return NegativeStart;
      }
      if s.i2 > g.rows || s.j2 > g.cols {
        return EndOutside;
      }
      if s.i1 >= s.i2 || s.j1 >= s.j2 {
        return EmptyRange;
      }
      g2b[u] := s;
      var negative := AddBlock(g, b2g, us, u);
      if negative {
        return NegativeOverlap;
      }
    }
    result := Mapped;
  }

  method ResetMap(g: Plate, b2g: array2<seq<Entry>>, us: seq<Unit>)
    requires g.Valid() && Sized(g, b2g)
    modifies b2g
    ensures ListsBlocks(g, b2g, us, 0)
  {
    for i := 0 to g.rows
      invariant forall r, c | 0 <= r < i && 0 <= c < g.cols :: b2g[r, c] == []
    {
      for j := 0 to g.cols
        invariant forall r, c | 0 <= r < i && 0 <= c < g.cols :: b2g[r, c] == []
        invariant forall c | 0 <= c < j :: b2g[i, c] == []
      {
        b2g[i, j] := [];
      }
    }
  }

  // ---- testing the map ----

  function OccupancySum(list: seq<Entry>): real {
    if list == [] then 0.0 else OccupancySum(list[..|list|-1]) + list[|list|-1].occupancy
  }

  lemma {:induction false} OccupancySumIs(us: seq<Unit>, n: nat, g: Plate, i: int, j: int)
    requires g.Valid() && n <= |us|
    ensures OccupancySum(CellList(us, n, g, i, j)) == SumRange(us, 0, n, ShareOf(g, i, j))
  {
    hide Occupancy, SpanOf, Share;
    if n > 0 {
      OccupancySumIs(us, n - 1, g, i, j);
      ShareAt(us[n-1], g, i, j);
      var before := CellList(us, n - 1, g, i, j);
      if InSpan(SpanOf(us[n-1], g), i, j) {
        var e := Entry(n - 1, Occupancy(us[n-1], g, i, j));
        assert (before + [e])[..|before + [e]| - 1] == before;
        assert CellList(us, n, g, i, j) == before + [e];
      } else {
        assert CellList(us, n, g, i, j) == before;
      }
    }
  }

  /** One after rounding to five decimals. */
  predicate RoundsToOne(sum: real) {
    Eq((sum * 100000.0 + 0.5).Floor as real / 100000.0, 1.0)
  }

  lemma {:induction false} RoundsToOneIff(sum: real)
    ensures RoundsToOne(sum) <==> 0.999995 <= sum < 1.000005
  {
    var k := (sum * 100000.0 + 0.5).Floor;
    if k < 100000 { assert k as real / 100000.0 <= 99999.0 / 100000.0; }
    if k > 100000 { assert k as real / 100000.0 >= 100001.0 / 100000.0; }
  }

  /** Tests a layer's map: false where the program stops because the weights of some cell do
      not add up to one. */
  method TestB2gmap(g: Plate, us: seq<Unit>, b2g: array2<seq<Entry>>) returns (ok: bool)
    requires g.Valid() && Sized(g, b2g) && ListsBlocks(g, b2g, us, |us|)
    ensures ok <==> forall i, j | 0 <= i < g.rows && 0 <= j < g.cols :: 0.999995 <= SumRange(us, 0, |us|, ShareOf(g, i, j)) < 1.000005
  {
    hide CellList, ShareOf, RoundsToOne;
    for i := 0 to g.rows
      invariant forall r, c | 0 <= r < i && 0 <= c < g.cols :: 0.999995 <= SumRange(us, 0, |us|, ShareOf(g, r, c)) < 1.000005
    {
      for j := 0 to g.cols
        invariant forall r, c | 0 <= r < i && 0 <= c < g.cols :: 0.999995 <= SumRange(us, 0, |us|, ShareOf(g, r, c)) < 1.000005
        invariant forall c | 0 <= c < j :: 0.999995 <= SumRange(us, 0, |us|, ShareOf(g, i, c)) < 1.000005
      {
        var sum := SumOccupancies(b2g[i, j]);
        OccupancySumIs(us, |us|, g, i, j);
        RoundsToOneIff(sum);
        if !RoundsToOne(sum) {
          return false;
        }
      }
    }
    ok := true;
  }

  method SumOccupancies(list: seq<Entry>) returns (sum: real)
    ensures sum == OccupancySum(list)
  {
    sum := 0.0;
    for k := 0 to |list|
      invariant sum == OccupancySum(list[..k])
    {
      assert list[..k+1][..k] == list[..k];
      sum := sum + list[k].occupancy;
    }
    assert list[..|list|] == list;
  }

  /** The occupancy-weighted average over a list; power is averaged per area. */
  method BlistAvg(list: seq<Entry>, us: seq<Unit>, v: seq<real>, perArea: bool) returns (val: real)
    requires forall k | 0 <= k < |list| :: list[k].idx < |us| && list[k].idx < |v| && (perArea ==> AreaOf(us[list[k].idx]) != 0.0)
    ensures val == ListAverage(list, us, v, perArea)
  {
    val := 0.0;
    assert list[..0] == [];
    for k := 0 to |list|
      invariant val == ListAverage(list[..k], us, v, perArea)
    {
      var u := us[list[k].idx];
      assert list[..k+1][..k] == list[..k];
      if perArea {
        ScaledQuotient(list[k].occupancy, v[list[k].idx], AreaOf(u));
        val := val + Quotient(Times(list[k].occupancy, v[list[k].idx]), u.width * u.height);
      } else {
        val := val + Times(list[k].occupancy, v[list[k].idx]);
      }
    }
    assert list[..|list|] == list;
  }

  lemma {:induction false} ScaledQuotient(w: real, v: real, a: real)
    requires a != 0.0
    ensures Quotient(Times(w, v), a) == Times(w, Quotient(v, a))
  {
  }

  lemma {:induction false} ListedBlocks(us: seq<Unit>, n: nat, g: Plate, i: int, j: int)
    requires g.Valid() && n <= |us|
    ensures forall k | 0 <= k < |CellList(us, n, g, i, j)| :: CellList(us, n, g, i, j)[k].idx < n
  {
    hide SpanOf, Occupancy;
    if n > 0 { ListedBlocks(us, n - 1, g, i, j); }
  }

  /** What every cell gets: the average of its blocks' temperatures weighted by their shares
      of the cell, or its area times the average of their power densities. */
  ghost predicate Carried(g: Plate, us: seq<Unit>, v: seq<real>, power: bool, out: array2<real>)
    requires g.Valid() && out.Length0 == g.rows && out.Length1 == g.cols
    reads out
  {
    forall i, j | 0 <= i < g.rows && 0 <= j < g.cols ::
      out[i, j] == var w := ListAverage(CellList(us, |us|, g, i, j), us, v, power); if power then Times(Times(g.CellWidth(), g.CellHeight()), w) else w
  }

  /** Carries power or temperature over to the cells of a layer. Of power the cells
      together get what the blocks hand over. */
  method XlateVectorB2G(g: Plate, us: seq<Unit>, b2g: array2<seq<Entry>>, v: seq<real>, power: bool, out: array2<real>)
    requires g.Valid() && Sized(g, b2g) && ListsBlocks(g, b2g, us, |us|) && |v| == |us|
    requires out.Length0 == g.rows && out.Length1 == g.cols
    requires forall k | 0 <= k < |us| :: Mappable(us[k], g) && us[k].width >= 0.0 && us[k].height >= 0.0
    requires power ==> forall k | 0 <= k < |us| :: AreaOf(us[k]) != 0.0
    modifies out
    ensures Carried(g, us, v, power, out)
    ensures power ==> Sum(RowSum(Entries(out), g.cols), g.rows) == Delivered(us, |us|, g, v)
  {
    CellArea(g);
    var area := Quotient(g.width * g.height, (g.cols * g.rows) as real);
    hide SpanOf, Quotient, Mappable, Times;
    ghost var scale := if power then area else 1.0;
    for i := 0 to g.rows
      invariant forall r, c | 0 <= r < i && 0 <= c < g.cols :: out[r, c] == Times(scale, ListAverage(b2g[r, c], us, v, power))
    {
      XlateRow(g, us, b2g, v, power, out, i, area);
    }
    if power {
      ScaledField(g, us, v, scale, Entries(out), b2g);
    }
    CarriedOver(g, us, b2g, v, power, out, scale);
  }

  lemma {:induction false} CarriedOver(g: Plate, us: seq<Unit>, b2g: array2<seq<Entry>>, v: seq<real>, power: bool, out: array2<real>, scale: real)
    requires g.Valid() && Sized(g, b2g) && ListsBlocks(g, b2g, us, |us|) && out.Length0 == g.rows && out.Length1 == g.cols
    requires scale == if power then Times(g.CellWidth(), g.CellHeight()) else 1.0
    requires forall r, c | 0 <= r < g.rows && 0 <= c < g.cols :: out[r, c] == Times(scale, ListAverage(b2g[r, c], us, v, power))
    ensures Carried(g, us, v, power, out)
  {
    hide SpanOf, Quotient, Times, ListAverage, CellList;
    forall i, j | 0 <= i < g.rows && 0 <= j < g.cols
      ensures out[i, j] == var w := ListAverage(CellList(us, |us|, g, i, j), us, v, power); if power then Times(Times(g.CellWidth(), g.CellHeight()), w) else w
    {
      OneTimes(ListAverage(CellList(us, |us|, g, i, j), us, v, power));
      assert b2g[i, j] == CellList(us, |us|, g, i, j);
    }
  }

  method XlateRow(g: Plate, us: seq<Unit>, b2g: array2<seq<Entry>>, v: seq<real>, power: bool, out: array2<real>, i: int, area: real)
    requires g.Valid() && Sized(g, b2g) && ListsBlocks(g, b2g, us, |us|) && |v| == |us| && 0 <= i < g.rows
    requires out.Length0 == g.rows && out.Length1 == g.cols
    requires power ==> forall k | 0 <= k < |us| :: AreaOf(us[k]) != 0.0
    modifies out
    ensures forall c | 0 <= c < g.cols :: out[i, c] == Times(if power then area else 1.0, ListAverage(b2g[i, c], us, v, power))
    ensures forall r, c | 0 <= r < g.rows && 0 <= c < g.cols && r != i :: out[r, c] == old(out[r, c])
  {
    hide SpanOf, Times, AreaOf, ListAverage;
    for j := 0 to g.cols
      invariant forall c | 0 <= c < j :: out[i, c] == Times(if power then area else 1.0, ListAverage(b2g[i, c], us, v, power))
      invariant forall r, c | 0 <= r < g.rows && 0 <= c < g.cols && r != i :: out[r, c] == old(out[r, c])
    {
      ListedBlocks(us, |us|, g, i, j);
      assert b2g[i, j] == CellList(us, |us|, g, i, j);
      var val := BlistAvg(b2g[i, j], us, v, power);
      TimesLaws(val, area, 0.0);
      TimesLaws(val, 1.0, 0.0);
      out[i, j] := if power then Times(val, area) else val;
    }
  }

  lemma {:induction false} ScaledField(g: Plate, us: seq<Unit>, v: seq<real>, area: real, out: Matrix, b2g: array2<seq<Entry>>)
    requires g.Valid() && Sized(g, b2g) && ListsBlocks(g, b2g, us, |us|)
    requires area == Times(g.CellWidth(), g.CellHeight())
    requires forall k | 0 <= k < |us| :: Mappable(us[k], g) && us[k].width >= 0.0 && us[k].height >= 0.0
    requires forall i, j | 0 <= i < g.rows && 0 <= j < g.cols :: out(i, j) == Times(area, ListAverage(b2g[i, j], us, v, true))
    ensures Sum(RowSum(out, g.cols), g.rows) == Delivered(us, |us|, g, v)
  {
    hide Times, ListAverage, CellList, Mappable;
    var f := AverageField(us, |us|, g, v, true);
    forall i | 0 <= i < g.rows ensures RowSum(out, g.cols)(i) == Times(area, RowSum(f, g.cols)(i)) {
      var a: int -> real := j => f(i, j);
      var b: int -> real := j => out(i, j);
      forall j | 0 <= j < g.cols ensures b(j) == Times(area, a(j)) {
        ListIsShares(us, |us|, g, v, true, i, j);
        assert b2g[i, j] == CellList(us, |us|, g, i, j);
      }
      SumScale(a, area, b, g.cols);
      RowSumIs(f, i, a, g.cols);
      RowSumIs(out, i, b, g.cols);
    }
    SumScale(RowSum(f, g.cols), area, RowSum(out, g.cols), g.rows);
    LayerPower(us, |us|, g, v);
  }

  // ---- all layers ----

  /** A layer's blocks and its map. */
  datatype LayerMap = LayerMap(us: seq<Unit>, b2g: array2<seq<Entry>>)

  /** Where a layer's values start in the vector of all layers. */
  function Base(layers: seq<LayerMap>, n: nat): nat
    requires n <= |layers|
  {
    if n == 0 then 0 else Base(layers, n - 1) + |layers[n-1].us|
  }

  lemma {:induction false} BaseGrows(layers: seq<LayerMap>, n: nat, m: nat)
    requires n <= m <= |layers|
    ensures Base(layers, n) <= Base(layers, m)
  {
    if n < m { BaseGrows(layers, n, m - 1); }
  }

  ghost predicate LayerReady(g: Plate, l: LayerMap, power: bool)
    requires g.Valid()
    reads l.b2g
  {
    && Sized(g, l.b2g) && ListsBlocks(g, l.b2g, l.us, |l.us|)
    && (forall k | 0 <= k < |l.us| :: Mappable(l.us[k], g) && l.us[k].width >= 0.0 && l.us[k].height >= 0.0)
    && (power ==> forall k | 0 <= k < |l.us| :: AreaOf(l.us[k]) != 0.0)
  }

  ghost predicate LayerCarried(g: Plate, layers: seq<LayerMap>, n: nat, b: seq<real>, power: bool, out: array2<real>)
    requires g.Valid() && n < |layers| && Base(layers, n) + |layers[n].us| <= |b| && out.Length0 == g.rows && out.Length1 == g.cols
    reads out
  {
    Carried(g, layers[n].us, b[Base(layers, n)..][..|layers[n].us|], power, out)
  }

  lemma {:induction false} BaseWithin(layers: seq<LayerMap>, n: nat)
    requires n < |layers|
    ensures Base(layers, n + 1) == Base(layers, n) + |layers[n].us| <= Base(layers, |layers|)
  {
    BaseGrows(layers, n + 1, |layers|);
  }

  /** The layers before n have what they should. */
  ghost predicate LayersCarried(g: Plate, layers: seq<LayerMap>, n: nat, b: seq<real>, power: bool, out: seq<array2<real>>)
    requires g.Valid() && n <= |layers| == |out| && Base(layers, |layers|) <= |b|
    requires forall k | 0 <= k < |out| :: out[k].Length0 == g.rows && out[k].Length1 == g.cols
    reads set k | 0 <= k < n :: out[k]
  {
    forall k | 0 <= k < n :: (BaseWithin(layers, k); LayerCarried(g, layers, k, b, power, out[k]))
  }

  ghost predicate AllReady(g: Plate, layers: seq<LayerMap>, power: bool)
    requires g.Valid()
    reads set n | 0 <= n < |layers| :: layers[n].b2g
  {
    forall n | 0 <= n < |layers| :: LayerReady(g, layers[n], power)
  }

  /** Carries a vector over the blocks of all layers and the extra nodes over to the grid:
      every layer from its own stretch of the vector, the extra nodes from the rest. */
  method XlateAll(g: Plate, layers: seq<LayerMap>, b: seq<real>, power: bool, out: seq<array2<real>>, extra: array<real>)
    requires g.Valid() && |out| == |layers| && |b| == Base(layers, |layers|) + extra.Length && AllReady(g, layers, power)
    requires forall n | 0 <= n < |out| :: out[n].Length0 == g.rows && out[n].Length1 == g.cols
    requires forall n, m | 0 <= n < m < |out| :: out[n] != out[m]
    modifies set n | 0 <= n < |out| :: out[n], extra
    ensures LayersCarried(g, layers, |layers|, b, power, out)
    ensures extra[..] == b[Base(layers, |layers|)..]
  {
    var base := 0;
    assert Base(layers, 0) == 0;
    hide AllReady, LayersCarried, Base;
    for n := 0 to |layers|
      invariant base == Base(layers, n) <= |b|
      invariant LayersCarried(g, layers, n, b, power, out) && AllReady(g, layers, power)
    {
      BaseWithin(layers, n);
      XlateNext(g, layers, n, b, power, out);
      base := base + |layers[n].us|;
    }
    XlateExtra(b, base, extra);
  }

  method XlateNext(g: Plate, layers: seq<LayerMap>, n: nat, b: seq<real>, power: bool, out: seq<array2<real>>)
    requires g.Valid() && n < |layers| == |out| && AllReady(g, layers, power) && Base(layers, |layers|) <= |b|
    requires forall k | 0 <= k < |out| :: out[k].Length0 == g.rows && out[k].Length1 == g.cols
    requires forall k, m | 0 <= k < m < |out| :: out[k] != out[m]
    requires LayersCarried(g, layers, n, b, power, out)
    modifies out[n]
    ensures LayersCarried(g, layers, n + 1, b, power, out) && AllReady(g, layers, power)
  {
    hide AllReady, LayerCarried, Base;
    BaseWithin(layers, n);
    XlateLayer(g, layers, n, b, power, out[n]);
  }

  method XlateExtra(b: seq<real>, base: nat, extra: array<real>)
    requires base + extra.Length == |b|
    modifies extra
    ensures extra[..] == b[base..]
  {
    for i := 0 to extra.Length
      invariant extra[..i] == b[base..][..i]
    {
      extra[i] := b[base + i];
    }
  }

  method XlateLayer(g: Plate, layers: seq<LayerMap>, n: nat, b: seq<real>, power: bool, out: array2<real>)
    requires g.Valid() && n < |layers| && AllReady(g, layers, power) && Base(layers, n) + |layers[n].us| <= |b|
    requires out.Length0 == g.rows && out.Length1 == g.cols
    modifies out
    ensures LayerCarried(g, layers, n, b, power, out) && AllReady(g, layers, power)
  {
    hide Mappable, ListsBlocks, Carried, AreaOf;
    assert LayerReady(g, layers[n], power);
    XlateVectorB2G(g, layers[n].us, layers[n].b2g, b[Base(layers, n)..][..|layers[n].us|], power, out);
  }
}
