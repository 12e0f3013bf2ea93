/** Wrapping the second-level cache and the rim around a floorplan in place. */
module FlpWrap {
  import opened Numbers
  import opened Rectangles
  import opened RimStrips
  import opened TilingMeasures
  import opened TreeToFlp

  const L2_ARMS := 2
  const WRAP_L2_RATIO := 5.0

  // ---- room ----

  /** Units allocated for a description of n units, one of them the cache if it wraps. */
  function PlaceholderUnits(n: nat, wrapL2: bool, modelRim: bool): int {
    var dead := n - (if wrapL2 then 1 else 0) - 1;
    var units := n + dead + if wrapL2 then L2_ARMS else 0;
    if modelRim then units + (2 * units + 2) else units
  }

  /** What floorplanning starts with, the rim and the cache left out again, is one block
      and one dead block per unit, less one; and the allocation has room for everything
      that wrapping adds. */
  lemma {:induction false} PlaceholderRoom(n: nat, wrapL2: bool, modelRim: bool, k: nat, compacted: nat, strips: nat)
    requires k == n - (if wrapL2 then 1 else 0) && k > 0 && compacted <= k - 1
    requires var m := 2 * k - 1 - compacted + (if wrapL2 then L2_ARMS + 1 else 0); strips <= if modelRim then 2 * m + 2 else 0
    ensures var all := PlaceholderUnits(n, wrapL2, modelRim);
      (if modelRim then (all - 2) / 3 else all) - (if wrapL2 then L2_ARMS + 1 else 0) == 2 * k - 1
    ensures 2 * k - 1 - compacted + (if wrapL2 then L2_ARMS + 1 else 0) + strips <= PlaceholderUnits(n, wrapL2, modelRim)
  {
  }

  // ---- extents and translation ----

  predicate Leftmost(us: seq<Unit>, n: nat, i: nat)
    requires n <= |us|
  {
    i < n && forall k | 0 <= k < n :: us[i].leftx <= us[k].leftx
  }

  predicate Rightmost(us: seq<Unit>, n: nat, i: nat)
    requires n <= |us|
  {
    i < n && forall k | 0 <= k < n :: Right(us[k]) <= Right(us[i])
  }

  predicate Lowest(us: seq<Unit>, n: nat, i: nat)
    requires n <= |us|
  {
    i < n && forall k | 0 <= k < n :: us[i].bottomy <= us[k].bottomy
  }

  predicate Highest(us: seq<Unit>, n: nat, i: nat)
    requires n <= |us|
  {
    i < n && forall k | 0 <= k < n :: Top(us[k]) <= Top(us[i])
  }

  /** In a tiling the extreme blocks lie on the edges of the chip. */
  lemma {:induction false} ExtentOfTiling(us: seq<Unit>, n: nat, chip: Unit, l: nat, r: nat, b: nat, t: nat)
    requires n <= |us| && Tiles(us, n, chip) && Placement(us, n, chip)
    requires Leftmost(us, n, l) && Rightmost(us, n, r) && Lowest(us, n, b) && Highest(us, n, t)
    ensures us[l].leftx == chip.leftx && Right(us[r]) == Right(chip)
    ensures us[b].bottomy == chip.bottomy && Top(us[t]) == Top(chip)
  {
    var x := FindLastColumn(us, n, chip);
    var y := FindLastRow(us, n, chip);
    assert SumRange(us, 0, n, At(chip.leftx, chip.bottomy)) == At(chip.leftx, chip.bottomy)(chip);
    assert SumRange(us, 0, n, At(x, y)) == At(x, y)(chip);
    var i := SomeCovers(us, n, chip.leftx, chip.bottomy);
    var k := SomeCovers(us, n, x, y);
    assert Inside(us[i], chip) && Inside(us[l], chip) && Inside(us[r], chip) && Inside(us[b], chip) && Inside(us[t], chip);
    assert ReachesEast(us[k], chip, x) && ReachesNorth(us[k], chip, y);
  }

  method GetTotalWidth(flp: Floorplan) returns (w: real, ghost l: nat, ghost r: nat)
    requires 0 < flp.nUnits <= flp.units.Length
    ensures Leftmost(flp.units[..], flp.nUnits, l) && Rightmost(flp.units[..], flp.nUnits, r)
    ensures w == Right(flp.units[r]) - flp.units[l].leftx
  {
    var minX, maxX := flp.units[0].leftx, flp.units[0].leftx + flp.units[0].width;
    l, r := 0, 0;
    for i := 1 to flp.nUnits
      invariant l < i && r < i && minX == flp.units[l].leftx && maxX == Right(flp.units[r])
      invariant forall k | 0 <= k < i :: minX <= flp.units[k].leftx && Right(flp.units[k]) <= maxX
    {
      if flp.units[i].leftx < minX {
        minX, l := flp.units[i].leftx, i;
      }
      if flp.units[i].leftx + flp.units[i].width > maxX {
        maxX, r := flp.units[i].leftx + flp.units[i].width, i;
      }
    }
    w := maxX - minX;
  }

  method GetTotalHeight(flp: Floorplan) returns (h: real, ghost b: nat, ghost t: nat)
    requires 0 < flp.nUnits <= flp.units.Length
    ensures Lowest(flp.units[..], flp.nUnits, b) && Highest(flp.units[..], flp.nUnits, t)
    ensures h == Top(flp.units[t]) - flp.units[b].bottomy
  {
    var minY, maxY := flp.units[0].bottomy, flp.units[0].bottomy + flp.units[0].height;
    b, t := 0, 0;
    for i := 1 to flp.nUnits
      invariant b < i && t < i && minY == flp.units[b].bottomy && maxY == Top(flp.units[t])
      invariant forall k | 0 <= k < i :: minY <= flp.units[k].bottomy && Top(flp.units[k]) <= maxY
    {
      if flp.units[i].bottomy < minY {
        minY, b := flp.units[i].bottomy, i;
      }
      if flp.units[i].bottomy + flp.units[i].height > maxY {
        maxY, t := flp.units[i].bottomy + flp.units[i].height, i;
      }
    }
    h := maxY - minY;
  }

  function Shift(u: Unit, dx: real, dy: real): Unit {
    u.(leftx := u.leftx + dx, bottomy := u.bottomy + dy)
  }

  ghost predicate Shifted(us: seq<Unit>, vs: seq<Unit>, n: nat, dx: real, dy: real) {
    && n <= |us| == |vs|
    && forall i | 0 <= i < |us| :: vs[i] == if i < n then Shift(us[i], dx, dy) else us[i]
  }

  lemma {:induction false} ShiftedSum(us: seq<Unit>, vs: seq<Unit>, n: nat, k: nat, dx: real, dy: real, px: real, py: real)
    requires Shifted(us, vs, n, dx, dy) && k <= n
    ensures SumRange(vs, 0, k, At(px, py)) == SumRange(us, 0, k, At(px - dx, py - dy))
  {
    if k > 0 {
      ShiftedSum(us, vs, n, k - 1, dx, dy, px, py);
      assert vs[k-1] == Shift(us[k-1], dx, dy);
      assert Covers(vs[k-1], px, py) <==> Covers(us[k-1], px - dx, py - dy);
    }
  }

  /** A translated tiling tiles the translated rectangle. */
  lemma {:induction false} ShiftedTiles(us: seq<Unit>, vs: seq<Unit>, n: nat, dx: real, dy: real, chip: Unit)
    requires Shifted(us, vs, n, dx, dy) && Tiles(us, n, chip) && Placement(us, n, chip)
    ensures Tiles(vs, n, Shift(chip, dx, dy)) && Placement(vs, n, Shift(chip, dx, dy))
  {
    forall px: real, py: real ensures SumRange(vs, 0, n, At(px, py)) == At(px, py)(Shift(chip, dx, dy)) {
      ShiftedSum(us, vs, n, n, dx, dy, px, py);
      assert SumRange(us, 0, n, At(px - dx, py - dy)) == At(px - dx, py - dy)(chip);
    }
    forall i | 0 <= i < n ensures Inside(vs[i], Shift(chip, dx, dy)) {
      assert Inside(us[i], chip);
    }
  }

  lemma {:induction false} ShiftedCrisp(us: seq<Unit>, vs: seq<Unit>, n: nat, dx: real, dy: real, chip: Unit)
    requires Shifted(us, vs, n, dx, dy)
    ensures Crisp(us, n, chip) <==> Crisp(vs, n, Shift(chip, dx, dy))
    ensures TopCrisp(us, n, chip) <==> TopCrisp(vs, n, Shift(chip, dx, dy))
  {
    forall i | 0 <= i < n
      ensures (Solid(us[i]) <==> Solid(vs[i])) && (CrispBlock(us[i], chip) <==> CrispBlock(vs[i], Shift(chip, dx, dy)))
      ensures CrispNorth(us[i], chip) <==> CrispNorth(vs[i], Shift(chip, dx, dy))
    {
      assert vs[i] == Shift(us[i], dx, dy);
    }
    hide CrispBlock, CrispNorth, Solid;
  }

  predicate CrispNorth(u: Unit, chip: Unit) {
    OnNorth(u, chip) ==> Top(u) == Top(chip)
  }

  /** No block with area ends nearly on the northern edge. */
  ghost predicate TopCrisp(us: seq<Unit>, n: nat, chip: Unit)
    requires n <= |us|
  {
    forall i | 0 <= i < n && Solid(us[i]) :: CrispNorth(us[i], chip)
  }

  /** Moves the lower left corner of the floorplan to (x, y). */
  method FlpTranslate(flp: Floorplan, x: real, y: real) returns (ghost l: nat, ghost b: nat)
    requires 0 < flp.nUnits <= flp.units.Length
    modifies flp.units
    ensures Leftmost(old(flp.units[..]), flp.nUnits, l) && Lowest(old(flp.units[..]), flp.nUnits, b)
    ensures Shifted(old(flp.units[..]), flp.units[..], flp.nUnits, x - old(flp.units[l].leftx), y - old(flp.units[b].bottomy))
  {
    ghost var us := flp.units[..];
    var minX, minY := flp.units[0].leftx, flp.units[0].bottomy;
    l, b := 0, 0;
    for i := 1 to flp.nUnits
      invariant l < i && b < i && minX == us[l].leftx && minY == us[b].bottomy
      invariant forall k | 0 <= k < i :: minX <= us[k].leftx && minY <= us[k].bottomy
    {
      if minX > flp.units[i].leftx {
        minX, l := flp.units[i].leftx, i;
      }
      if minY > flp.units[i].bottomy {
        minY, b := flp.units[i].bottomy, i;
      }
    }
    for i := 0 to flp.nUnits
      invariant forall k | 0 <= k < i :: flp.units[k] == Shift(us[k], x - minX, y - minY)
      invariant forall k | i <= k < flp.units.Length :: flp.units[k] == us[k]
    {
      var u := flp.units[i];
      flp.units[i] := u.(leftx := u.leftx + (x - minX), bottomy := u.bottomy + (y - minY));
    }
  }

  // ---- the cache ----

  function Discriminant(sum: real, l2: real): real {
    sum * sum + 8.0 * WRAP_L2_RATIO * l2
  }

  /** The arm width when the bottom is to be five times as high. */
  function WideArm(sqrt: real -> real, w: real, h: real, l2: real): real {
    var sum := WRAP_L2_RATIO * w + 2.0 * h;
    (sqrt(Discriminant(sum, l2)) - sum) / (4.0 * WRAP_L2_RATIO)
  }

  /** The bottom height when the arms are to be five times as wide. */
  function TallBottom(sqrt: real -> real, w: real, h: real, l2: real): real {
    var sum := w + 2.0 * WRAP_L2_RATIO * h;
    (sqrt(Discriminant(sum, l2)) - sum) / (4.0 * WRAP_L2_RATIO)
  }

  /** Arm width and bottom height: a square chip if both come out positive. */
  function L2Extent(sqrt: real -> real, width: real, height: real, area: real, l2: real): (real, real) {
    var side := sqrt(area + l2);
    var x, y := (side - width) / 2.0, side - height;
    if x <= 0.0 || y <= 0.0 then
      if width >= height then
        (WideArm(sqrt, width, height, l2), WRAP_L2_RATIO * WideArm(sqrt, width, height, l2))
      else
        (WRAP_L2_RATIO * TallBottom(sqrt, width, height, l2), TallBottom(sqrt, width, height, l2))
    else (x, y)
  }

  /** The proportions of the wrapped chip: a square if that side is longer than both sides of
      the core; otherwise the cache is five times as thick along the core's longer side. */
  predicate Proportioned(side: real, width: real, height: real, x: real, y: real) {
    if side > width && side > height then 2.0 * x + width == y + height == side
    else if width >= height then y == 5.0 * x else x == 5.0 * y
  }

  lemma {:induction false} L2Proportions(sqrt: real -> real, width: real, height: real, area: real, l2: real)
    ensures var (x, y) := L2Extent(sqrt, width, height, area, l2); Proportioned(sqrt(area + l2), width, height, x, y)
  {
  }

  lemma {:induction false} SquareLess(a: real, b: real)
    requires a >= 0.0 && b >= 0.0 && b * b < a * a
    ensures b < a
  {
    if a <= b {
      ProductNonnegative(b - a, b + a);
      assert false;
    }
  }

  lemma {:induction false} ProductNonnegative(x: real, y: real)
    requires x >= 0.0 && y >= 0.0
    ensures x * y >= 0.0
  {
  }

  lemma {:induction false} RootAbove(sqrt: real -> real, sum: real, l2: real, d: real)
    requires SquareRoot(sqrt) && sum > 0.0 && l2 > 0.0 && d == sum * sum + 40.0 * l2
    ensures sqrt(d) > sum && sqrt(d) * sqrt(d) == d
  {
    ProductNonnegative(sum, sum);
    SquareLess(sqrt(d), sum);
  }

  lemma {:induction false} Quadratic(b: real, c: real, r: real, x: real)
    requires x == (r - b) / 20.0 && r * r == b * b + 40.0 * c
    ensures 10.0 * x * x + b * x == c
  {
    assert r == 20.0 * x + b;
    assert (20.0 * x + b) * (20.0 * x + b) == 400.0 * (x * x) + 40.0 * (b * x) + b * b;
  }

  lemma {:induction false} WideArea(w: real, h: real, x: real)
    ensures (2.0 * x + w) * (5.0 * x + h) == w * h + 10.0 * x * x + (5.0 * w + 2.0 * h) * x
  {
    assert (2.0 * x + w) * (5.0 * x + h) == (2.0 * x) * (5.0 * x) + (2.0 * x) * h + w * (5.0 * x) + w * h;
  }

  lemma {:induction false} TallArea(w: real, h: real, y: real)
    ensures (2.0 * (5.0 * y) + w) * (y + h) == w * h + 10.0 * y * y + (w + 10.0 * h) * y
  {
    assert (10.0 * y + w) * (y + h) == (10.0 * y) * y + (10.0 * y) * h + w * y + w * h;
  }

  lemma {:induction false} DivideSame(a: real, b: real, c: real)
    requires b == c && c != 0.0
    ensures a / b == a / c
  {
  }

  lemma {:induction false} WideCore(sqrt: real -> real, w: real, h: real, l2: real)
    requires SquareRoot(sqrt) && w > 0.0 && h > 0.0 && l2 > 0.0
    ensures var x := WideArm(sqrt, w, h, l2); x > 0.0 && (2.0 * x + w) * (WRAP_L2_RATIO * x + h) == w * h + l2
  {
    var sum := WRAP_L2_RATIO * w + 2.0 * h;
    var d := Discriminant(sum, l2);
    assert 8.0 * WRAP_L2_RATIO * l2 == 40.0 * l2;
    RootAbove(sqrt, sum, l2, d);
    var r := sqrt(d);
    var x := WideArm(sqrt, w, h, l2);
    DivideSame(r - sum, 4.0 * WRAP_L2_RATIO, 20.0);
    assert x == (r - sum) / 20.0;
    Quadratic(sum, l2, r, x);
    WideArea(w, h, x);
  }

  lemma {:induction false} TallCore(sqrt: real -> real, w: real, h: real, l2: real)
    requires SquareRoot(sqrt) && w > 0.0 && h > 0.0 && l2 > 0.0
    ensures var y := TallBottom(sqrt, w, h, l2); y > 0.0 && (2.0 * (WRAP_L2_RATIO * y) + w) * (y + h) == w * h + l2
  {
    var sum := w + 2.0 * WRAP_L2_RATIO * h;
    assert sum == w + 10.0 * h by { assert 2.0 * WRAP_L2_RATIO == 10.0; }
    var d := Discriminant(sum, l2);
    assert 8.0 * WRAP_L2_RATIO * l2 == 40.0 * l2;
    RootAbove(sqrt, sum, l2, d);
    var r := sqrt(d);
    var y := TallBottom(sqrt, w, h, l2);
    DivideSame(r - sum, 4.0 * WRAP_L2_RATIO, 20.0);
    assert y == (r - sum) / 20.0;
    Quadratic(sum, l2, r, y);
    TallArea(w, h, y);
  }

  lemma {:induction false} SquareChip(sqrt: real -> real, w: real, h: real, total: real)
    requires SquareRoot(sqrt) && total >= 0.0
    ensures var side := sqrt(total); (2.0 * ((side - w) / 2.0) + w) * ((side - h) + h) == total
  {
    var side := sqrt(total);
    assert 2.0 * ((side - w) / 2.0) + w == side && (side - h) + h == side;
  }

  /** The arms and the bottom have positive size and the wrapped chip has the area of the
      core plus that of the cache. */
  lemma {:induction false} L2Area(sqrt: real -> real, width: real, height: real, area: real, l2: real)
    requires SquareRoot(sqrt) && width > 0.0 && height > 0.0 && l2 > 0.0 && area == width * height
    ensures var (x, y) := L2Extent(sqrt, width, height, area, l2);
      x > 0.0 && y > 0.0 && (2.0 * x + width) * (y + height) == area + l2
  {
    hide SquareRoot, WideArm, TallBottom;
    ProductNonnegative(width, height);
    var side := sqrt(area + l2);
    if (side - width) / 2.0 <= 0.0 || side - height <= 0.0 {
      if width >= height {
        WideCore(sqrt, width, height, l2);
      } else {
        TallCore(sqrt, width, height, l2);
      }
    } else {
      SquareChip(sqrt, width, height, area + l2);
    }
  }

  method GetTotalArea(flp: Floorplan) returns (area: real)
    requires flp.nUnits <= flp.units.Length
    ensures area == SumRange(flp.units[..], 0, flp.nUnits, AreaOf)
  {
    area := 0.0;
    for i := 0 to flp.nUnits
      invariant area == SumRange(flp.units[..], 0, i, AreaOf)
    {
      area := area + AreaOf(flp.units[i]);
    }
  }

  function L2Bottom(core: Unit, x: real, y: real): Unit { Unit(2.0 * x + core.width, y, 0.0, 0.0) }
  function L2Left(core: Unit, x: real, y: real): Unit { Unit(x, core.height, 0.0, y) }
  function L2Right(core: Unit, x: real, y: real): Unit { Unit(x, core.height, x + core.width, y) }
  function L2Chip(core: Unit, x: real, y: real): Unit { Unit(2.0 * x + core.width, y + core.height, 0.0, 0.0) }

  lemma {:induction false} L2ChipArea(sqrt: real -> real, chip: Unit, l2: real)
    requires SquareRoot(sqrt) && chip.width > 0.0 && chip.height > 0.0 && l2 > 0.0
    ensures var (x, y) := L2Extent(sqrt, chip.width, chip.height, AreaOf(chip), l2);
      x > 0.0 && y > 0.0 && AreaOf(L2Chip(chip, x, y)) == AreaOf(chip) + l2
  {
    hide L2Extent, SquareRoot;
    L2Area(sqrt, chip.width, chip.height, AreaOf(chip), l2);
  }

  /** Bottom, arms and core make up the wrapped chip. */
  lemma {:induction false} L2Cover(core: Unit, x: real, y: real, px: real, py: real)
    requires core.leftx == x && core.bottomy == y && core.width > 0.0 && core.height > 0.0 && x >= 0.0 && y >= 0.0
    ensures At(px, py)(L2Bottom(core, x, y)) + At(px, py)(L2Left(core, x, y)) + At(px, py)(L2Right(core, x, y)) + At(px, py)(core)
         == At(px, py)(L2Chip(core, x, y))
  {
  }

  /** The list holds n blocks of the core and then bottom, left and right of the cache. */
  ghost predicate L2Wrapped(us: seq<Unit>, vs: seq<Unit>, n: nat, core: Unit, x: real, y: real) {
    && n + L2_ARMS + 1 <= |vs| && n <= |us| && (forall i | 0 <= i < n :: vs[i] == us[i])
    && vs[n] == L2Bottom(core, x, y) && vs[n+1] == L2Left(core, x, y) && vs[n+2] == L2Right(core, x, y)
  }

  lemma {:induction false} L2Tiles(us: seq<Unit>, vs: seq<Unit>, n: nat, core: Unit, x: real, y: real)
    requires L2Wrapped(us, vs, n, core, x, y) && Tiles(us, n, core) && Placement(us, n, core)
    requires core.leftx == x && core.bottomy == y && x > 0.0 && y > 0.0
    ensures Tiles(vs, n + L2_ARMS + 1, L2Chip(core, x, y))
  {
    forall px: real, py: real ensures SumRange(vs, 0, n + 3, At(px, py)) == At(px, py)(L2Chip(core, x, y)) {
      var f := At(px, py);
      assert SumRange(us, 0, n, f) == f(core);
      SumRangeSame(vs, us, 0, n, f);
      L2Cover(core, x, y, px, py);
      hide At, L2Bottom, L2Left, L2Right, L2Chip;
      assert SumRange(vs, 0, n + 1, f) == SumRange(vs, 0, n, f) + f(vs[n]);
      assert SumRange(vs, 0, n + 2, f) == SumRange(vs, 0, n + 1, f) + f(vs[n+1]);
      assert SumRange(vs, 0, n + 3, f) == SumRange(vs, 0, n + 2, f) + f(vs[n+2]);
    }
  }

  /** The wrapped blocks lie on the larger chip. Their edges are clear of its edges exactly if
      no part of the cache is thinner than the tolerance, nor the core lower, and no block of
      the core ends nearly on its northern edge, the only one that stays an edge. */
  lemma {:induction false} L2Placement(us: seq<Unit>, vs: seq<Unit>, n: nat, core: Unit, x: real, y: real)
    requires L2Wrapped(us, vs, n, core, x, y) && Tiles(us, n, core) && Placement(us, n, core)
    requires core.leftx == x > 0.0 && core.bottomy == y > 0.0
    ensures Placement(vs, n + L2_ARMS + 1, L2Chip(core, x, y))
    ensures Crisp(vs, n + L2_ARMS + 1, L2Chip(core, x, y)) <==> x >= DELTA && y >= DELTA && core.height >= DELTA && TopCrisp(us, n, core)
  {
    var chip := L2Chip(core, x, y);
    var first := CoveredBy(us, n, core, core.leftx, core.bottomy);
    assert us[first].leftx == core.leftx && vs[first] == us[first];
    hide Tiles;
    forall i | 0 <= i < n ensures Inside(vs[i], chip) && (Solid(us[i]) && CrispBlock(vs[i], chip) ==> CrispNorth(us[i], core))
        && (x >= DELTA && y >= DELTA && Solid(us[i]) && CrispNorth(us[i], core) ==> CrispBlock(vs[i], chip)) {
      assert Inside(us[i], core) && vs[i] == us[i];
    }
    assert CrispBlock(vs[first], chip) ==> x >= DELTA;
    assert Solid(vs[n]) && Solid(vs[n+1]) && Solid(vs[n+2]) && Inside(vs[n], chip) && Inside(vs[n+1], chip) && Inside(vs[n+2], chip);
    assert CrispBlock(vs[n], chip) <==> core.height >= DELTA;
    assert CrispBlock(vs[n+1], chip) ==> y >= DELTA;
    assert x >= DELTA && y >= DELTA ==> CrispBlock(vs[n+1], chip) && CrispBlock(vs[n+2], chip);
    hide Solid, CrispBlock, CrispNorth, Inside, L2Chip, L2Bottom, L2Left, L2Right;
    if Crisp(vs, n + 3, chip) {
      assert Solid(us[first]) && CrispBlock(vs[first], chip) && CrispBlock(vs[n], chip) && CrispBlock(vs[n+1], chip);
      forall i | 0 <= i < n && Solid(us[i]) ensures CrispNorth(us[i], core) { assert Solid(vs[i]) && CrispBlock(vs[i], chip); }
    }
  }

  /** The n blocks of the core moved by the thickness of the cache, then the cache: the bottom
      under all, one arm on either side of the core. */
  ghost predicate CacheAround(us: seq<Unit>, vs: seq<Unit>, n: nat, chip: Unit, x: real, y: real) {
    && n + 3 <= |vs| && n <= |us|
    && (forall i | 0 <= i < n :: vs[i] == Unit(us[i].width, us[i].height, us[i].leftx - chip.leftx + x, us[i].bottomy - chip.bottomy + y))
    && vs[n] == Unit(2.0 * x + chip.width, y, 0.0, 0.0)
    && vs[n+1] == Unit(x, chip.height, 0.0, y) && vs[n+2] == Unit(x, chip.height, x + chip.width, y)
  }

  /** Wraps the cache around the core: bottom and two arms. */
  method FlpWrapL2(flp: Floorplan, sqrt: real -> real, l2Area: real, ghost chip: Unit) returns (x: real, y: real)
    requires SquareRoot(sqrt) && l2Area > 0.0 && flp.nUnits + L2_ARMS + 1 <= flp.units.Length
    requires Tiles(flp.units[..], flp.nUnits, chip) && Placement(flp.units[..], flp.nUnits, chip)
    modifies flp, flp.units
    ensures flp.nUnits == old(flp.nUnits) + L2_ARMS + 1
    ensures (x, y) == L2Extent(sqrt, chip.width, chip.height, AreaOf(chip), l2Area)
    ensures Proportioned(sqrt(AreaOf(chip) + l2Area), chip.width, chip.height, x, y)
    ensures x > 0.0 && y > 0.0 && AreaOf(L2Chip(chip, x, y)) == AreaOf(chip) + l2Area
    ensures CacheAround(old(flp.units[..]), flp.units[..], old(flp.nUnits), chip, x, y)
    ensures Tiles(flp.units[..], flp.nUnits, L2Chip(chip, x, y))
    ensures Placement(flp.units[..], flp.nUnits, L2Chip(chip, x, y))
    ensures Crisp(flp.units[..], flp.nUnits, L2Chip(chip, x, y))
      <==> x >= DELTA && y >= DELTA && chip.height >= DELTA && old(TopCrisp(flp.units[..], flp.nUnits, chip))
    ensures forall i | 0 <= i < flp.nUnits ::
              Solid(flp.units[i]) || (i < old(flp.nUnits) && !Solid(old(flp.units[..])[i]))
  {
    assert flp.nUnits <= flp.units.Length;
    hide *;
    var width, height;
    x, y, width, height := L2Size(flp, sqrt, l2Area, chip);
    L2Proportions(sqrt, chip.width, chip.height, AreaOf(chip), l2Area);
    PlaceL2(flp, x, y, width, height, chip);
  }

  lemma {:induction false} AreaAdds(us: seq<Unit>, n: nat, chip: Unit)
    requires n <= |us| && Tiles(us, n, chip) && Placement(us, n, chip)
    ensures SumRange(us, 0, n, AreaOf) == AreaOf(chip)
  {
    AreaIsAdditive();
    hide Tiles, Additive;
    TilingMeasure(us, n, chip, AreaOf);
  }

  method L2Size(flp: Floorplan, sqrt: real -> real, l2Area: real, ghost chip: Unit) returns (x: real, y: real, width: real, height: real)
    requires SquareRoot(sqrt) && l2Area > 0.0 && flp.nUnits <= flp.units.Length
    requires Tiles(flp.units[..], flp.nUnits, chip) && Placement(flp.units[..], flp.nUnits, chip)
    ensures width == chip.width && height == chip.height
    ensures (x, y) == L2Extent(sqrt, chip.width, chip.height, AreaOf(chip), l2Area)
    ensures x > 0.0 && y > 0.0 && AreaOf(L2Chip(chip, x, y)) == AreaOf(chip) + l2Area
  {
    var area := GetTotalArea(flp);
    width, height := ChipSize(flp, chip);
    AreaAdds(flp.units[..], flp.nUnits, chip);
    PlacementPositive(flp.units[..], flp.nUnits, chip);
    hide *;
    L2ChipArea(sqrt, chip, l2Area);
    var extent := L2Extent(sqrt, width, height, area, l2Area);
    x, y := extent.0, extent.1;
  }

  method ChipSize(flp: Floorplan, ghost chip: Unit) returns (width: real, height: real)
    requires flp.nUnits <= flp.units.Length
    requires Tiles(flp.units[..], flp.nUnits, chip) && Placement(flp.units[..], flp.nUnits, chip)
    ensures width == chip.width && height == chip.height && flp.nUnits > 0
  {
    SomeBlock(flp.units[..], flp.nUnits, chip);
    hide Tiles, Placement;
    ghost var l, r, b, t;
    width, l, r := GetTotalWidth(flp);
    height, b, t := GetTotalHeight(flp);
    ExtentOfTiling(flp.units[..], flp.nUnits, chip, l, r, b, t);
  }

  /** Translation of a tiling moves the whole chip. */
  method MoveTo(flp: Floorplan, x: real, y: real, ghost chip: Unit)
    requires flp.nUnits <= flp.units.Length
    requires Tiles(flp.units[..], flp.nUnits, chip) && Placement(flp.units[..], flp.nUnits, chip)
    modifies flp.units
    ensures Shifted(old(flp.units[..]), flp.units[..], flp.nUnits, x - chip.leftx, y - chip.bottomy)
    ensures var core := Shift(chip, x - chip.leftx, y - chip.bottomy);
      Tiles(flp.units[..], flp.nUnits, core) && Placement(flp.units[..], flp.nUnits, core)
  {
    hide Tiles, Placement, Shifted;
    ghost var us, n := flp.units[..], flp.nUnits;
    SomeBlock(us, n, chip);
    var w, l0, r := GetTotalWidth(flp);
    var h, b0, t := GetTotalHeight(flp);
    ghost var l, b := FlpTranslate(flp, x, y);
    ExtentOfTiling(us, n, chip, l, r, b, t);
    ShiftedTiles(us, flp.units[..], n, x - chip.leftx, y - chip.bottomy, chip);
  }

  method PlaceL2(flp: Floorplan, x: real, y: real, width: real, height: real, ghost chip: Unit)
    requires x > 0.0 && y > 0.0 && flp.nUnits + L2_ARMS + 1 <= flp.units.Length
    requires width == chip.width && height == chip.height
    requires Tiles(flp.units[..], flp.nUnits, chip) && Placement(flp.units[..], flp.nUnits, chip)
    modifies flp, flp.units
    ensures flp.nUnits == old(flp.nUnits) + L2_ARMS + 1
    ensures CacheAround(old(flp.units[..]), flp.units[..], old(flp.nUnits), chip, x, y)
    ensures Tiles(flp.units[..], flp.nUnits, L2Chip(chip, x, y))
    ensures Placement(flp.units[..], flp.nUnits, L2Chip(chip, x, y))
    ensures Crisp(flp.units[..], flp.nUnits, L2Chip(chip, x, y))
      <==> x >= DELTA && y >= DELTA && chip.height >= DELTA && old(TopCrisp(flp.units[..], flp.nUnits, chip))
    ensures forall i | 0 <= i < flp.nUnits ::
              Solid(flp.units[i]) || (i < old(flp.nUnits) && !Solid(old(flp.units[..])[i]))
  {
    PlacementPositive(flp.units[..], flp.nUnits, chip);
    hide Tiles, Placement, Crisp, TopCrisp;
    ghost var us0, n := flp.units[..], flp.nUnits;
    MoveTo(flp, x, y, chip);
    ghost var us := flp.units[..];
    ghost var core := Shift(chip, x - chip.leftx, y - chip.bottomy);
    PutL2(flp, width, height, x, y);
    CacheIsAround(us0, us, flp.units[..], n, chip, core, x, y);
    L2Done(us0, us, flp.units[..], n, chip, core, x, y);
  }

  lemma {:induction false} CacheIsAround(us0: seq<Unit>, us: seq<Unit>, vs: seq<Unit>, n: nat, chip: Unit, core: Unit, x: real, y: real)
    requires core == Shift(chip, x - chip.leftx, y - chip.bottomy)
    requires Shifted(us0, us, n, x - chip.leftx, y - chip.bottomy) && L2Wrapped(us, vs, n, core, x, y)
    ensures CacheAround(us0, vs, n, chip, x, y)
  {
  }

  lemma {:induction false} L2Done(us0: seq<Unit>, us: seq<Unit>, vs: seq<Unit>, n: nat, chip: Unit, core: Unit, x: real, y: real)
    requires x > 0.0 && y > 0.0 && core == Shift(chip, x - chip.leftx, y - chip.bottomy)
    requires Shifted(us0, us, n, x - chip.leftx, y - chip.bottomy) && L2Wrapped(us, vs, n, core, x, y)
    requires Tiles(us, n, core) && Placement(us, n, core)
    ensures Tiles(vs, n + L2_ARMS + 1, L2Chip(chip, x, y)) && Placement(vs, n + L2_ARMS + 1, L2Chip(chip, x, y))
    ensures Crisp(vs, n + L2_ARMS + 1, L2Chip(chip, x, y))
      <==> x >= DELTA && y >= DELTA && chip.height >= DELTA && TopCrisp(us0, n, chip)
    ensures forall i | 0 <= i < n + L2_ARMS + 1 :: Solid(vs[i]) || (i < n && !Solid(us0[i]))
  {
    hide Tiles, Placement, Crisp, TopCrisp;
    PlacementPositive(us, n, core);
    L2Tiles(us, vs, n, core, x, y);
    assert L2Chip(core, x, y) == L2Chip(chip, x, y);
    L2Placement(us, vs, n, core, x, y);
    ShiftedCrisp(us0, us, n, x - chip.leftx, y - chip.bottomy, chip);
    forall i | 0 <= i < n + 3 ensures Solid(vs[i]) || (i < n && !Solid(us0[i])) {
      if i < n { assert vs[i] == us[i] == Shift(us0[i], x - chip.leftx, y - chip.bottomy); }
    }
  }

  lemma {:induction false} SomeBlock(us: seq<Unit>, n: nat, chip: Unit)
    requires n <= |us| && Tiles(us, n, chip) && Placement(us, n, chip)
    ensures n > 0
  {
    assert SumRange(us, 0, n, At(chip.leftx, chip.bottomy)) == At(chip.leftx, chip.bottomy)(chip);
  }

  method PutL2(flp: Floorplan, width: real, height: real, x: real, y: real)
    requires flp.nUnits + L2_ARMS + 1 <= flp.units.Length
    modifies flp, flp.units
    ensures flp.nUnits == old(flp.nUnits) + L2_ARMS + 1
    ensures forall core: Unit | core.width == width && core.height == height ::
              L2Wrapped(old(flp.units[..]), flp.units[..], old(flp.nUnits), core, x, y)
  {
    flp.nUnits := flp.nUnits + (L2_ARMS + 1);
    var l2, left, right := flp.nUnits - 1 - L2_ARMS, flp.nUnits - L2_ARMS, flp.nUnits - L2_ARMS + 1;
    flp.units[l2] := Unit(2.0 * x + width, y, 0.0, 0.0);
    flp.units[left] := Unit(x, height, 0.0, y);
    flp.units[right] := Unit(x, height, x + width, y);
  }

  // ---- the rim ----

  /** Stores a strip if its side is on the rim. */
  method PutStrip(flp: Floorplan, pos: nat, on: bool, strip: Unit) returns (pos': nat)
    requires pos + (if on then 1 else 0) <= flp.units.Length
    modifies flp.units
    ensures pos' == pos + (if on then 1 else 0)
    ensures flp.units[..pos'] == old(flp.units[..pos]) + if on then [strip] else []
  {
    pos' := pos;
    if on {
      flp.units[pos] := strip;
      pos' := pos + 1;
    }
  }

  method WrapBlock(flp: Floorplan, i: nat, pos: nat, chip: Unit) returns (pos': nat)
    requires i < pos <= flp.units.Length && pos + |StripsOf(flp.units[..][i], chip)| <= flp.units.Length
    modifies flp.units
    ensures pos <= pos' <= flp.units.Length
    ensures flp.units[..pos'] == old(flp.units[..pos] + StripsOf(flp.units[i], chip))
  {
    var unit := flp.units[i];
    ghost var us := flp.units[..pos];
    assert |StripsOf(unit, chip)| == (if OnWest(unit, chip) then 1 else 0) + (if OnEast(unit, chip) then 1 else 0)
                                   + (if OnNorth(unit, chip) then 1 else 0) + (if OnSouth(unit, chip) then 1 else 0);
    hide OnWest, OnEast, OnNorth, OnSouth, LeftStrip, RightStrip, TopStrip, BottomStrip;
    pos' := PutStrip(flp, pos, OnWest(unit, chip), LeftStrip(unit, chip));
    pos' := PutStrip(flp, pos', OnEast(unit, chip), RightStrip(unit, chip));
    pos' := PutStrip(flp, pos', OnNorth(unit, chip), TopStrip(unit, chip));
    pos' := PutStrip(flp, pos', OnSouth(unit, chip), BottomStrip(unit, chip));
    assert flp.units[..pos'] == us + StripsOf(unit, chip);
  }

  lemma {:induction false} AllStripsRise(us: seq<Unit>, i: nat, n: nat, chip: Unit)
    requires i <= n <= |us|
    ensures |AllStrips(us, i, chip)| <= |AllStrips(us, n, chip)|
  {
    if i < n { AllStripsRise(us, i, n - 1, chip); }
  }

  /** Wraps strips around all blocks on the edges. The result tiles the rectangle that is
      larger by the rim on every side exactly if no block with area has an edge nearly on
      the chip's and no block without area gets a strip with area. */
  method FlpWrapRim(flp: Floorplan, rim: real, ghost chip: Unit) returns (j: nat, ghost placed: seq<Unit>, ghost inner: Unit)
    requires rim > 0.0 && flp.nUnits <= flp.units.Length
    requires Tiles(flp.units[..], flp.nUnits, chip) && Placement(flp.units[..], flp.nUnits, chip)
    requires flp.nUnits + |AllStrips(flp.units[..], flp.nUnits, chip)| <= flp.units.Length
    modifies flp, flp.units
    ensures inner == Unit(chip.width, chip.height, rim, rim)
    ensures Shifted(old(flp.units[..]), placed, old(flp.nUnits), rim - chip.leftx, rim - chip.bottomy)
    ensures flp.nUnits == old(flp.nUnits) + j && j == |AllStrips(placed, old(flp.nUnits), inner)|
    ensures flp.nUnits <= flp.units.Length && Wrapped(placed, old(flp.nUnits), inner, flp.units[..])
    ensures Tiles(flp.units[..], flp.nUnits, Outer(inner))
      <==> old(Crisp(flp.units[..], flp.nUnits, chip)) && forall i | 0 <= i < old(flp.nUnits) :: !Stray(placed[i], inner)
    ensures old(Crisp(flp.units[..], flp.nUnits, chip)) && (forall i | 0 <= i < old(flp.nUnits) :: Solid(placed[i])) ==> j <= 2 * old(flp.nUnits) + 2
  {
    hide Tiles, AllStrips, Placement, Crisp, StripsOf, Stray, Outer, Wrapped, Solid;
    var n := flp.nUnits;
    var width, height := MoveInside(flp, rim, chip);
    placed := flp.units[..];
    inner := Unit(width, height, rim, rim);
    j := AddStrips(flp, n, Unit(width, height, rim, rim));
    flp.nUnits := flp.nUnits + j;
  }

  method AddStrips(flp: Floorplan, n: nat, inner: Unit) returns (j: nat)
    requires n <= flp.units.Length && n + |AllStrips(flp.units[..], n, inner)| <= flp.units.Length
    requires Tiles(flp.units[..], n, inner) && Placement(flp.units[..], n, inner) && Rimmed(inner)
    modifies flp.units
    ensures Wrapped(old(flp.units[..]), n, inner, flp.units[..]) && n + j <= flp.units.Length
    ensures j == old(|AllStrips(flp.units[..], n, inner)|)
    ensures Tiles(flp.units[..], n + j, Outer(inner))
      <==> old(Crisp(flp.units[..], n, inner)) && forall i | 0 <= i < n :: !Stray(old(flp.units[..])[i], inner)
    ensures old(Crisp(flp.units[..], n, inner)) && (forall i | 0 <= i < n :: Solid(old(flp.units[..])[i])) ==> j <= 2 * n + 2
  {
    ghost var placed := flp.units[..];
    hide Tiles, AllStrips, Placement, Crisp, Stray, Outer;
    var pos := WrapAll(flp, n, inner);
    j := pos - n;
    RimDone(placed, n, inner, flp.units[..], pos);
  }

  /** Makes room for the rim: the floorplan starts where its thickness ends. */
  method MoveInside(flp: Floorplan, rim: real, ghost chip: Unit) returns (width: real, height: real)
    requires rim > 0.0 && flp.nUnits <= flp.units.Length
    requires Tiles(flp.units[..], flp.nUnits, chip) && Placement(flp.units[..], flp.nUnits, chip)
    modifies flp.units
    ensures width == chip.width > 0.0 && height == chip.height > 0.0
    ensures Shifted(old(flp.units[..]), flp.units[..], flp.nUnits, rim - chip.leftx, rim - chip.bottomy)
    ensures var inner := Unit(width, height, rim, rim);
      && Tiles(flp.units[..], flp.nUnits, inner) && Placement(flp.units[..], flp.nUnits, inner)
      && |AllStrips(flp.units[..], flp.nUnits, inner)| == old(|AllStrips(flp.units[..], flp.nUnits, chip)|)
      && (Crisp(flp.units[..], flp.nUnits, inner) <==> old(Crisp(flp.units[..], flp.nUnits, chip)))
  {
    ghost var us0, n := flp.units[..], flp.nUnits;
    hide Tiles, AllStrips, Placement, Crisp, TopCrisp, Shifted;
    PlacementPositive(us0, n, chip);
    width, height := ChipSize(flp, chip);
    MoveTo(flp, rim, rim, chip);
    assert Shift(chip, rim - chip.leftx, rim - chip.bottomy) == Unit(width, height, rim, rim);
    ShiftedStrips(us0, flp.units[..], n, rim - chip.leftx, rim - chip.bottomy, chip, n);
    ShiftedCrisp(us0, flp.units[..], n, rim - chip.leftx, rim - chip.bottomy, chip);
  }

  lemma {:induction false} RimDone(us: seq<Unit>, n: nat, chip: Unit, vs: seq<Unit>, pos: nat)
    requires n <= |us| && pos <= |vs| && vs[..pos] == us[..n] + AllStrips(us, n, chip)
    requires Tiles(us, n, chip) && Placement(us, n, chip) && Rimmed(chip)
    ensures Wrapped(us, n, chip, vs) && pos == n + |AllStrips(us, n, chip)|
    ensures Tiles(vs, pos, Outer(chip)) <==> Crisp(us, n, chip) && forall i | 0 <= i < n :: !Stray(us[i], chip)
    ensures Crisp(us, n, chip) && (forall i | 0 <= i < n :: Solid(us[i])) ==> |AllStrips(us, n, chip)| <= 2 * n + 2
  {
    assert |vs[..pos]| == pos;
    hide Tiles, AllStrips, Placement, Crisp, Stray, Outer, Solid;
    PrefixWrapped(us, n, chip, vs, pos);
    RimClosesIff(us, n, chip, vs);
    if Crisp(us, n, chip) && forall i | 0 <= i < n :: Solid(us[i]) {
      StripBound(us, n, chip);
    }
  }

  lemma {:induction false} PlacementPositive(us: seq<Unit>, n: nat, chip: Unit)
    requires n <= |us| && Placement(us, n, chip)
    ensures chip.width > 0.0 && chip.height > 0.0
  {
  }

  lemma {:induction false} PrefixWrapped(us: seq<Unit>, n: nat, chip: Unit, vs: seq<Unit>, pos: nat)
    requires n <= |us| && pos <= |vs| && vs[..pos] == us[..n] + AllStrips(us, n, chip)
    ensures Wrapped(us, n, chip, vs)
  {
    hide AllStrips;
    forall i | 0 <= i < n ensures vs[i] == us[i] {
      assert vs[..pos][i] == vs[i];
    }
    forall i | 0 <= i < |AllStrips(us, n, chip)| ensures vs[n + i] == AllStrips(us, n, chip)[i] {
      assert vs[..pos][n + i] == vs[n + i];
    }
  }

  /** Translation does not change how many strips there are. */
  lemma {:induction false} ShiftedStrips(us: seq<Unit>, vs: seq<Unit>, n: nat, dx: real, dy: real, chip: Unit, k: nat)
    requires Shifted(us, vs, n, dx, dy) && k <= n
    ensures |AllStrips(vs, k, Shift(chip, dx, dy))| == |AllStrips(us, k, chip)|
  {
    if k > 0 {
      ShiftedStrips(us, vs, n, dx, dy, chip, k - 1);
      assert vs[k-1] == Shift(us[k-1], dx, dy);
      assert OnWest(vs[k-1], Shift(chip, dx, dy)) <==> OnWest(us[k-1], chip);
      assert OnEast(vs[k-1], Shift(chip, dx, dy)) <==> OnEast(us[k-1], chip);
      assert OnNorth(vs[k-1], Shift(chip, dx, dy)) <==> OnNorth(us[k-1], chip);
      assert OnSouth(vs[k-1], Shift(chip, dx, dy)) <==> OnSouth(us[k-1], chip);
      hide OnWest, OnEast, OnNorth, OnSouth;
    }
  }

  method WrapAll(flp: Floorplan, n: nat, chip: Unit) returns (pos: nat)
    requires n <= flp.units.Length && n + |AllStrips(flp.units[..], n, chip)| <= flp.units.Length
    modifies flp.units
    ensures n <= pos <= flp.units.Length
    ensures flp.units[..pos] == old(flp.units[..n] + AllStrips(flp.units[..], n, chip))
  {
    hide StripsOf;
    ghost var us := flp.units[..];
    pos := n;
    for i := 0 to n
      invariant n <= pos <= flp.units.Length && flp.units[..pos] == us[..n] + AllStrips(us, i, chip)
    {
      AllStripsRise(us, i + 1, n, chip);
      assert flp.units[..pos][i] == us[i];
      assert AllStrips(us, i + 1, chip) == AllStrips(us, i, chip) + StripsOf(us[i], chip);
      hide AllStrips;
      pos := WrapBlock(flp, i, pos, chip);
    }
  }

  // ---- undoing it ----

  /** Takes the rim and the cache off again and puts the compacted blocks back. */
  method RestoreDeadBlocks(flp: Floorplan, n: nat, compacted: nat, wrapL2: bool, modelRim: bool, rimBlocks: nat)
    requires 2 * n - 1 <= flp.units.Length && n > 0
    requires (if modelRim then rimBlocks else 0) + (if wrapL2 then L2_ARMS + 1 else 0) <= flp.nUnits
    modifies flp, flp.units
    ensures flp.nUnits == old(flp.nUnits) - (if modelRim then rimBlocks else 0) - (if wrapL2 then L2_ARMS + 1 else 0) + compacted
    ensures forall i | 0 <= i < flp.units.Length ::
              flp.units[i] == if n <= i < 2 * n - 1 then Unit(0.0, 0.0, 0.0, 0.0) else old(flp.units[i])
  {
    if modelRim {
      flp.nUnits := flp.nUnits - rimBlocks;
    }
    if wrapL2 {
      flp.nUnits := flp.nUnits - (L2_ARMS + 1);
    }
    flp.nUnits := flp.nUnits + compacted;
    for i := 0 to n - 1
      modifies flp.units
      invariant forall k | 0 <= k < flp.units.Length ::
          flp.units[k] == if n <= k < n + i then Unit(0.0, 0.0, 0.0, 0.0) else old(flp.units[k])
    {
      flp.units[n + i] := Unit(0.0, 0.0, 0.0, 0.0);
    }
  }

  // ---- one annealing step ----

  /** With compaction on, as in annealing, every block has area, so no strip strays whether
      or not edges are nearly on the chip's. */
  lemma {:induction false} CompactedPlacement(us: seq<Unit>, n: nat, chip: Unit, ratio: real)
    requires Floorplanned(us, n, chip, true, ratio) && ratio >= 0.0 && n > 0
    ensures Placement(us, n, chip) && forall i | 0 <= i < n :: Solid(us[i]) && !Stray(us[i], chip)
  {
    hide Tiles, SumRange, AreaOf;
    assert PlacedBlocks.Good(us[0], chip, true);
    forall i | 0 <= i < n ensures Inside(us[i], chip) && Solid(us[i]) {
      assert PlacedBlocks.Good(us[i], chip, true);
    }
  }

  function ShiftAll(us: seq<Unit>, dx: real, dy: real): (vs: seq<Unit>)
    ensures Shifted(us, vs, |us|, dx, dy)
  {
    seq(|us|, i requires 0 <= i < |us| => Shift(us[i], dx, dy))
  }

  lemma {:induction false} StripBoundAnywhere(us: seq<Unit>, n: nat, chip: Unit)
    requires n <= |us| && Tiles(us, n, chip) && Placement(us, n, chip) && Crisp(us, n, chip) && forall i | 0 <= i < n :: Solid(us[i])
    ensures |AllStrips(us, n, chip)| <= 2 * n + 2
  {
    var ws := us[..n];
    assert forall i | 0 <= i < n :: ws[i] == us[i];
    forall px: real, py: real ensures SumRange(ws, 0, n, At(px, py)) == At(px, py)(chip) {
      SumRangeSame(ws, us, 0, n, At(px, py));
      assert SumRange(us, 0, n, At(px, py)) == At(px, py)(chip);
    }
    StripsSame(us, ws, n, chip);
    hide Tiles, AllStrips;
    var dx, dy := 1.0 - chip.leftx, 1.0 - chip.bottomy;
    var vs := ShiftAll(ws, dx, dy);
    ShiftedTiles(ws, vs, n, dx, dy, chip);
    ShiftedStrips(ws, vs, n, dx, dy, chip, n);
    ShiftedCrisp(ws, vs, n, dx, dy, chip);
    assert forall i | 0 <= i < n :: vs[i] == Shift(ws[i], dx, dy);
    StripBound(vs, n, Shift(chip, dx, dy));
  }

  lemma {:induction false} StripsSame(us: seq<Unit>, vs: seq<Unit>, n: nat, chip: Unit)
    requires n <= |us| && n <= |vs| && forall i | 0 <= i < n :: us[i] == vs[i]
    ensures AllStrips(us, n, chip) == AllStrips(vs, n, chip)
  {
    if n > 0 { StripsSame(us, vs, n - 1, chip); }
  }

  /** What wrapping asks of the floorplan of k units, of which `compacted` dead blocks
      were absorbed, and of the room allocated for it. Only for the rim must edges be clear
      of the chip's: otherwise there can be more strips than there is room for. */
  ghost predicate Wrappable(us: seq<Unit>, m: nat, chip: Unit, k: nat, compacted: nat, wrapL2: bool, modelRim: bool) {
    && k > 0 && compacted <= k - 1 && m == 2 * k - 1 - compacted
    && PlaceholderUnits(k + (if wrapL2 then 1 else 0), wrapL2, modelRim) <= |us|
    && m <= |us| && Tiles(us, m, chip) && Placement(us, m, chip)
    && (modelRim ==> if wrapL2 then TopCrisp(us, m, chip) else Crisp(us, m, chip))
    && forall i | 0 <= i < m :: Solid(us[i])
  }

  ghost predicate Thick(sqrt: real -> real, chip: Unit, l2Area: real) {
    var (x, y) := L2Extent(sqrt, chip.width, chip.height, AreaOf(chip), l2Area);
    x >= DELTA && y >= DELTA && chip.height >= DELTA
  }

  /** The floorplan is wrapped, measured and unwrapped again: what was measured tiles its
      rectangle exactly, and the count of units is what it was before sizing. */
  method WrapStep(flp: Floorplan, sqrt: real -> real, wrapL2: bool, l2Area: real, modelRim: bool, rim: real,
                  k: nat, compacted: nat, ghost chip: Unit)
    returns (ghost us: seq<Unit>, ghost m: nat, ghost whole: Unit)
    requires Wrappable(flp.units[..], flp.nUnits, chip, k, compacted, wrapL2, modelRim)
    requires SquareRoot(sqrt) && l2Area > 0.0 && rim > 0.0 && (wrapL2 && modelRim ==> Thick(sqrt, chip, l2Area))
    modifies flp, flp.units
    ensures flp.nUnits == 2 * k - 1
    ensures m <= |us| && Tiles(us, m, whole)
    ensures whole.height == chip.height + (if wrapL2 then L2Extent(sqrt, chip.width, chip.height, AreaOf(chip), l2Area).1 else 0.0)
                          + (if modelRim then 2.0 * rim else 0.0)
    ensures whole.width == chip.width + (if wrapL2 then 2.0 * L2Extent(sqrt, chip.width, chip.height, AreaOf(chip), l2Area).0 else 0.0)
                          + (if modelRim then 2.0 * rim else 0.0)
  {
    whole := chip;
    hide Tiles, Placement, Crisp, TopCrisp, L2Extent, AreaOf, SquareRoot, Solid, SumRange;
    if wrapL2 {
      var x, y := FlpWrapL2(flp, sqrt, l2Area, chip);
      whole := L2Chip(chip, x, y);
    }
    var rimBlocks := 0;
    if modelRim {
      StripBoundAnywhere(flp.units[..], flp.nUnits, whole);
      rimBlocks, whole := WrapSolid(flp, rim, whole);
    }
    us, m := flp.units[..], flp.nUnits;
    RestoreDeadBlocks(flp, k, compacted, wrapL2, modelRim, rimBlocks);
  }

  /** Blocks with area: the rim closes without a gap or an overlap. */
  method WrapSolid(flp: Floorplan, rim: real, ghost chip: Unit) returns (j: nat, ghost whole: Unit)
    requires rim > 0.0 && flp.nUnits <= flp.units.Length
    requires Tiles(flp.units[..], flp.nUnits, chip) && Placement(flp.units[..], flp.nUnits, chip) && Crisp(flp.units[..], flp.nUnits, chip)
    requires forall i | 0 <= i < flp.nUnits :: Solid(flp.units[..][i])
    requires flp.nUnits + |AllStrips(flp.units[..], flp.nUnits, chip)| <= flp.units.Length
    modifies flp, flp.units
    ensures flp.nUnits == old(flp.nUnits) + j <= flp.units.Length && Tiles(flp.units[..], flp.nUnits, whole)
    ensures whole == Unit(chip.width + 2.0 * rim, chip.height + 2.0 * rim, 0.0, 0.0)
  {
    ghost var us, n := flp.units[..], flp.nUnits;
    hide Tiles, Placement, Crisp, AllStrips, StripsOf;
    ghost var placed, inner;
    j, placed, inner := FlpWrapRim(flp, rim, chip);
    forall i | 0 <= i < n ensures !Stray(placed[i], inner) {
      assert Solid(us[i]) && placed[i] == Shift(us[i], rim - chip.leftx, rim - chip.bottomy);
    }
    whole := Outer(inner);
  }
}
