/** The rim strips around a floorplan: which blocks get strips, what the strips cover,
    and how many there are. */
module RimStrips {
  import opened Rectangles
  import opened Numbers

  function Right(u: Unit): real {
    u.leftx + u.width
  }

  function Top(u: Unit): real {
    u.bottomy + u.height
  }

  predicate Solid(u: Unit) {
    u.width > 0.0 && u.height > 0.0
  }

  predicate Inside(u: Unit, chip: Unit) {
    && u.width >= 0.0 && u.height >= 0.0
    && chip.leftx <= u.leftx && Right(u) <= Right(chip)
    && chip.bottomy <= u.bottomy && Top(u) <= Top(chip)
  }

  // ---- the strips of one block ----

  predicate OnWest(u: Unit, chip: Unit) { Eq(u.leftx, chip.leftx) }
  predicate OnEast(u: Unit, chip: Unit) { Eq(Right(u), Right(chip)) }
  predicate OnNorth(u: Unit, chip: Unit) { Eq(Top(u), Top(chip)) }
  predicate OnSouth(u: Unit, chip: Unit) { Eq(u.bottomy, chip.bottomy) }

  /** The strips on the four sides; at the corners they are extended clockwise by the rim
      thickness, which is also where the chip starts. */
  function LeftStrip(u: Unit, chip: Unit): Unit {
    Unit(chip.leftx, if OnNorth(u, chip) then u.height + chip.leftx else u.height, 0.0, u.bottomy)
  }

  function RightStrip(u: Unit, chip: Unit): Unit {
    if OnSouth(u, chip) then Unit(chip.leftx, u.height + chip.leftx, Right(u), 0.0)
    else Unit(chip.leftx, u.height, Right(u), u.bottomy)
  }

  function TopStrip(u: Unit, chip: Unit): Unit {
    Unit(if OnEast(u, chip) then u.width + chip.leftx else u.width, chip.leftx, u.leftx, Top(u))
  }

  function BottomStrip(u: Unit, chip: Unit): Unit {
    if OnWest(u, chip) then Unit(u.width + chip.leftx, chip.leftx, 0.0, 0.0)
    else Unit(u.width, chip.leftx, u.leftx, 0.0)
  }

  function StripsOf(u: Unit, chip: Unit): seq<Unit> {
    (if OnWest(u, chip) then [LeftStrip(u, chip)] else [])
    + (if OnEast(u, chip) then [RightStrip(u, chip)] else [])
    + (if OnNorth(u, chip) then [TopStrip(u, chip)] else [])
    + (if OnSouth(u, chip) then [BottomStrip(u, chip)] else [])
  }

  /** The strips of the first n blocks, block by block. */
  function AllStrips(us: seq<Unit>, n: nat, chip: Unit): seq<Unit>
    requires n <= |us|
  {
    if n == 0 then [] else AllStrips(us, n - 1, chip) + StripsOf(us[n-1], chip)
  }

  /** Block edges lie on the edges of the chip or further away than the tolerance. */
  predicate CrispBlock(u: Unit, chip: Unit) {
    && (OnWest(u, chip) ==> u.leftx == chip.leftx) && (OnEast(u, chip) ==> Right(u) == Right(chip))
    && (OnNorth(u, chip) ==> Top(u) == Top(chip)) && (OnSouth(u, chip) ==> u.bottomy == chip.bottomy)
  }

  /** The first n blocks lie on the chip. */
  ghost predicate Placement(us: seq<Unit>, n: nat, chip: Unit)
    requires n <= |us|
  {
    && chip.width > 0.0 && chip.height > 0.0
    && forall i | 0 <= i < n :: Inside(us[i], chip)
  }

  /** No block with area has an edge nearly on an edge of the chip. */
  ghost predicate Crisp(us: seq<Unit>, n: nat, chip: Unit)
    requires n <= |us|
  {
    forall i | 0 <= i < n && Solid(us[i]) :: CrispBlock(us[i], chip)
  }

  // ---- sums over blocks ----

  ghost function One(b: bool): real {
    if b then 1.0 else 0.0
  }

  ghost function StripCover(chip: Unit, f: Unit -> real): Unit -> real {
    u => SumRange(StripsOf(u, chip), 0, |StripsOf(u, chip)|, f)
  }

  lemma {:induction false} SumConcat(a: seq<Unit>, b: seq<Unit>, f: Unit -> real)
    ensures SumRange(a + b, 0, |a + b|, f) == SumRange(a, 0, |a|, f) + SumRange(b, 0, |b|, f)
  {
    if b == [] {
      assert a + b == a;
    } else {
      var c := b[..|b|-1];
      assert a + b == (a + c) + [b[|b|-1]];
      SumConcat(a, c, f);
      SumRangeSame(a + b, a + c, 0, |a + c|, f);
      SumRangeSame(b, c, 0, |c|, f);
    }
  }

  lemma {:induction false} SumAllStrips(us: seq<Unit>, n: nat, chip: Unit, f: Unit -> real)
    requires n <= |us|
    ensures SumRange(AllStrips(us, n, chip), 0, |AllStrips(us, n, chip)|, f) == SumRange(us, 0, n, StripCover(chip, f))
  {
    hide StripsOf;
    if n > 0 {
      SumAllStrips(us, n - 1, chip, f);
      SumConcat(AllStrips(us, n - 1, chip), StripsOf(us[n-1], chip), f);
    }
  }

  lemma {:induction false} SumEqual(us: seq<Unit>, a: nat, b: nat, f: Unit -> real, g: Unit -> real)
    requires a <= b <= |us| && forall i | a <= i < b :: f(us[i]) == g(us[i])
    ensures SumRange(us, a, b, f) == SumRange(us, a, b, g)
  {
    if a < b { SumEqual(us, a, b - 1, f, g); }
  }

  lemma {:induction false} SumAtLeastTwo(us: seq<Unit>, n: nat, f: Unit -> real, i: nat, k: nat)
    requires n <= |us| && forall j | 0 <= j < n :: f(us[j]) >= 0.0
    ensures SumRange(us, 0, n, f) >= 0.0
    ensures i < n ==> SumRange(us, 0, n, f) >= f(us[i])
    ensures i < k < n ==> SumRange(us, 0, n, f) >= f(us[i]) + f(us[k])
  {
    if n > 0 { SumAtLeastTwo(us, n - 1, f, i, k); }
  }

  lemma {:induction false} SomeCovers(us: seq<Unit>, n: nat, px: real, py: real) returns (i: nat)
    requires n <= |us| && SumRange(us, 0, n, At(px, py)) != 0.0
    ensures i < n && Covers(us[i], px, py)
  {
    if Covers(us[n-1], px, py) { i := n - 1; } else { i := SomeCovers(us, n - 1, px, py); }
  }

  /** In a tiling two different blocks never cover the same point. */
  lemma {:induction false} OneCovers(us: seq<Unit>, n: nat, whole: Unit, px: real, py: real, i: nat, k: nat)
    requires n <= |us| && Tiles(us, n, whole) && i < n && k < n
    requires Covers(us[i], px, py) && Covers(us[k], px, py)
    ensures i == k && Covers(whole, px, py)
  {
    assert SumRange(us, 0, n, At(px, py)) == At(px, py)(whole);
    SumAtLeastTwo(us, n, At(px, py), i, k);
    SumAtLeastTwo(us, n, At(px, py), k, i);
  }

  // ---- the last column and the last row ----

  /** A coordinate inside the chip that exactly the blocks on the far edge reach over. */
  ghost predicate LastColumn(us: seq<Unit>, n: nat, chip: Unit, x: real)
    requires n <= |us|
  {
    chip.leftx <= x < Right(chip) && forall i | 0 <= i < n && Solid(us[i]) :: ReachesEast(us[i], chip, x)
  }

  predicate ReachesEast(u: Unit, chip: Unit, x: real) {
    u.leftx <= x < Right(u) <==> Right(u) == Right(chip)
  }

  ghost predicate LastRow(us: seq<Unit>, n: nat, chip: Unit, y: real)
    requires n <= |us|
  {
    chip.bottomy <= y < Top(chip) && forall i | 0 <= i < n && Solid(us[i]) :: ReachesNorth(us[i], chip, y)
  }

  predicate ReachesNorth(u: Unit, chip: Unit, y: real) {
    u.bottomy <= y < Top(u) <==> Top(u) == Top(chip)
  }

  /** The largest left edge of the solid blocks. */
  lemma {:induction false} LargestLeft(us: seq<Unit>, n: nat) returns (m: nat)
    requires n <= |us| && exists i | 0 <= i < n :: Solid(us[i])
    ensures m < n && Solid(us[m]) && forall i | 0 <= i < n && Solid(us[i]) :: us[i].leftx <= us[m].leftx
  {
    if exists i | 0 <= i < n - 1 :: Solid(us[i]) {
      m := LargestLeft(us, n - 1);
      if Solid(us[n-1]) && us[n-1].leftx > us[m].leftx { m := n - 1; }
    } else {
      m := n - 1;
    }
  }

  lemma {:induction false} FindLastColumn(us: seq<Unit>, n: nat, chip: Unit) returns (x: real)
    requires n <= |us| && Tiles(us, n, chip) && Placement(us, n, chip)
    ensures LastColumn(us, n, chip, x)
  {
    assert Covers(chip, chip.leftx, chip.bottomy);
    assert SumRange(us, 0, n, At(chip.leftx, chip.bottomy)) == At(chip.leftx, chip.bottomy)(chip);
    var c := SomeCovers(us, n, chip.leftx, chip.bottomy);
    assert Solid(us[c]);
    var m := LargestLeft(us, n);
    x := us[m].leftx;
    forall i | 0 <= i < n && Solid(us[i]) ensures ReachesEast(us[i], chip, x) {
      LeftOfRight(us, n, chip, m, i);
    }
  }

  /** A solid block reaching over the largest left edge ends at the chip's edge: a block
      after it would start further right. */
  lemma {:induction false} LeftOfRight(us: seq<Unit>, n: nat, chip: Unit, m: nat, i: nat)
    requires n <= |us| && Tiles(us, n, chip) && Placement(us, n, chip) && i < n && Solid(us[i])
    requires m < n && Solid(us[m]) && forall k | 0 <= k < n && Solid(us[k]) :: us[k].leftx <= us[m].leftx
    ensures ReachesEast(us[i], chip, us[m].leftx)
  {
    var u, x := us[i], us[m].leftx;
    if u.leftx <= x < Right(u) && Right(u) < Right(chip) {
      var r := Right(u);
      assert Covers(chip, r, u.bottomy);
      assert SumRange(us, 0, n, At(r, u.bottomy)) == At(r, u.bottomy)(chip);
      var k := SomeCovers(us, n, r, u.bottomy);
      assert Solid(us[k]);
      OneCovers(us, n, chip, x, u.bottomy, i, k);
    }
  }

  // ---- the other axis by exchanging coordinates ----

  function Turned(u: Unit): Unit {
    Unit(u.height, u.width, u.bottomy, u.leftx)
  }

  function TurnedAll(us: seq<Unit>): (r: seq<Unit>)
    ensures |r| == |us| && forall i | 0 <= i < |us| :: r[i] == Turned(us[i])
  {
    seq(|us|, i requires 0 <= i < |us| => Turned(us[i]))
  }

  lemma {:induction false} SumTurned(us: seq<Unit>, vs: seq<Unit>, n: nat, px: real, py: real)
    requires n <= |us| == |vs| && forall i | 0 <= i < |us| :: vs[i] == Turned(us[i])
    ensures SumRange(vs, 0, n, At(py, px)) == SumRange(us, 0, n, At(px, py))
  {
    if n > 0 {
      SumTurned(us, vs, n - 1, px, py);
      assert Covers(vs[n-1], py, px) <==> Covers(us[n-1], px, py);
    }
  }

  lemma {:induction false} TurnedTiles(us: seq<Unit>, n: nat, chip: Unit)
    requires n <= |us| && Tiles(us, n, chip) && Placement(us, n, chip)
    ensures Tiles(TurnedAll(us), n, Turned(chip)) && Placement(TurnedAll(us), n, Turned(chip))
  {
    var vs := TurnedAll(us);
    forall px: real, py: real ensures SumRange(vs, 0, n, At(px, py)) == At(px, py)(Turned(chip)) {
      SumTurned(us, vs, n, py, px);
      assert SumRange(us, 0, n, At(py, px)) == At(py, px)(chip);
    }
    forall i | 0 <= i < n ensures Inside(vs[i], Turned(chip)) {
      assert Inside(us[i], chip);
    }
  }

  lemma {:induction false} FindLastRow(us: seq<Unit>, n: nat, chip: Unit) returns (y: real)
    requires n <= |us| && Tiles(us, n, chip) && Placement(us, n, chip)
    ensures LastRow(us, n, chip, y)
  {
    var vs := TurnedAll(us);
    TurnedTiles(us, n, chip);
    hide Tiles;
    y := FindLastColumn(vs, n, Turned(chip));
    forall i | 0 <= i < n && Solid(us[i]) ensures ReachesNorth(us[i], chip, y) {
      assert ReachesEast(vs[i], Turned(chip), y);
    }
  }

  // ---- what the strips cover ----

  function Outer(chip: Unit): Unit {
    Unit(chip.width + 2.0 * chip.leftx, chip.height + 2.0 * chip.bottomy, 0.0, 0.0)
  }

  predicate InRing(chip: Unit, px: real, py: real) {
    Covers(Outer(chip), px, py) && !Covers(chip, px, py)
  }

  /** The coordinate of the chip next to a point of the rim; x stands for the far edge. */
  function Nearest(lo: real, hi: real, x: real, p: real): real {
    if p < lo then lo else if p >= hi then x else p
  }

  lemma {:induction false} FourStrips(u: Unit, chip: Unit, f: Unit -> real)
    ensures StripCover(chip, f)(u)
         == (if OnWest(u, chip) then f(LeftStrip(u, chip)) else 0.0) + (if OnEast(u, chip) then f(RightStrip(u, chip)) else 0.0)
          + (if OnNorth(u, chip) then f(TopStrip(u, chip)) else 0.0) + (if OnSouth(u, chip) then f(BottomStrip(u, chip)) else 0.0)
  {
    hide OnWest, OnEast, OnNorth, OnSouth, LeftStrip, RightStrip, TopStrip, BottomStrip;
    var w := if OnWest(u, chip) then [LeftStrip(u, chip)] else [];
    var e := if OnEast(u, chip) then [RightStrip(u, chip)] else [];
    var n := if OnNorth(u, chip) then [TopStrip(u, chip)] else [];
    var s := if OnSouth(u, chip) then [BottomStrip(u, chip)] else [];
    SumConcat(w, e, f);
    SumConcat(w + e, n, f);
    SumConcat(w + e + n, s, f);
  }

  /** Where the chip starts is how thick the rim is. */
  predicate Rimmed(chip: Unit) {
    chip.leftx == chip.bottomy && chip.leftx > 0.0 && chip.width > 0.0 && chip.height > 0.0
  }

  lemma {:induction false} LeftCovers(u: Unit, chip: Unit, y: real, px: real, py: real)
    requires Rimmed(chip) && Solid(u) && Inside(u, chip) && CrispBlock(u, chip) && ReachesNorth(u, chip, y)
    requires chip.bottomy <= y < Top(chip)
    ensures OnWest(u, chip) && Covers(LeftStrip(u, chip), px, py) <==>
      LeftRegion(chip, px, py) && Covers(u, chip.leftx, Nearest(chip.bottomy, Top(chip), y, py))
  {
    assert Eq(u.leftx, u.leftx) && Eq(Top(u), Top(u));
  }

  lemma {:induction false} RightCovers(u: Unit, chip: Unit, x: real, px: real, py: real)
    requires Rimmed(chip) && Solid(u) && Inside(u, chip) && CrispBlock(u, chip) && ReachesEast(u, chip, x)
    requires chip.leftx <= x < Right(chip)
    ensures OnEast(u, chip) && Covers(RightStrip(u, chip), px, py) <==>
      RightRegion(chip, px, py) && Covers(u, x, Nearest(chip.bottomy, Top(chip), chip.bottomy, py))
  {
    assert Eq(u.bottomy, u.bottomy) && Eq(Right(u), Right(u));
  }

  lemma {:induction false} TopCovers(u: Unit, chip: Unit, x: real, y: real, px: real, py: real)
    requires Rimmed(chip) && Solid(u) && Inside(u, chip) && CrispBlock(u, chip)
    requires ReachesEast(u, chip, x) && ReachesNorth(u, chip, y)
    requires chip.leftx <= x < Right(chip) && chip.bottomy <= y < Top(chip)
    ensures OnNorth(u, chip) && Covers(TopStrip(u, chip), px, py) <==>
      TopRegion(chip, px, py) && Covers(u, Nearest(chip.leftx, Right(chip), x, px), y)
  {
    assert Eq(Top(u), Top(u)) && Eq(Right(u), Right(u));
  }

  lemma {:induction false} BottomCovers(u: Unit, chip: Unit, px: real, py: real)
    requires Rimmed(chip) && Solid(u) && Inside(u, chip) && CrispBlock(u, chip)
    ensures OnSouth(u, chip) && Covers(BottomStrip(u, chip), px, py) <==>
      BottomRegion(chip, px, py) && Covers(u, Nearest(chip.leftx, Right(chip), chip.leftx, px), chip.bottomy)
  {
    assert Eq(u.leftx, u.leftx) && Eq(u.bottomy, u.bottomy);
  }

  lemma {:induction false} FourCovers(u: Unit, chip: Unit, px: real, py: real)
    ensures StripCover(chip, At(px, py))(u)
         == One(OnWest(u, chip) && Covers(LeftStrip(u, chip), px, py)) + One(OnEast(u, chip) && Covers(RightStrip(u, chip), px, py))
          + One(OnNorth(u, chip) && Covers(TopStrip(u, chip), px, py)) + One(OnSouth(u, chip) && Covers(BottomStrip(u, chip), px, py))
  {
    hide OnWest, OnEast, OnNorth, OnSouth, LeftStrip, RightStrip, TopStrip, BottomStrip, StripCover, Covers;
    FourStrips(u, chip, At(px, py));
  }

  /** At most one of four disjoint events. */
  lemma {:induction false} OneOfFour(a: bool, b: bool, c: bool, d: bool)
    requires !(a && b) && !(a && c) && !(a && d) && !(b && c) && !(b && d) && !(c && d)
    ensures One(a) + One(b) + One(c) + One(d) == One(a || b || c || d)
  {
  }

  lemma {:induction false} NearestInRegion(chip: Unit, x: real, y: real, px: real, py: real)
    requires Rimmed(chip)
    ensures LeftRegion(chip, px, py) ==> Nearest(chip.leftx, Right(chip), x, px) == chip.leftx
    ensures RightRegion(chip, px, py) ==> Nearest(chip.leftx, Right(chip), x, px) == x
    ensures RightRegion(chip, px, py) ==>
      Nearest(chip.bottomy, Top(chip), y, py) == Nearest(chip.bottomy, Top(chip), chip.bottomy, py)
    ensures TopRegion(chip, px, py) ==> Nearest(chip.bottomy, Top(chip), y, py) == y
    ensures BottomRegion(chip, px, py) ==> Nearest(chip.bottomy, Top(chip), y, py) == chip.bottomy
    ensures BottomRegion(chip, px, py) ==>
      Nearest(chip.leftx, Right(chip), x, px) == Nearest(chip.leftx, Right(chip), chip.leftx, px)
  {
  }

  /** At a point of the rim the strips of a solid block count exactly when the block
      covers the nearest point of the chip; elsewhere they do not count. */
  lemma {:induction false} StripCoverIs(u: Unit, chip: Unit, x: real, y: real, px: real, py: real)
    requires Rimmed(chip) && Solid(u) && Inside(u, chip) && CrispBlock(u, chip)
    requires ReachesEast(u, chip, x) && ReachesNorth(u, chip, y)
    requires chip.leftx <= x < Right(chip) && chip.bottomy <= y < Top(chip)
    ensures StripCover(chip, At(px, py))(u) == if InRing(chip, px, py)
      then At(Nearest(chip.leftx, Right(chip), x, px), Nearest(chip.bottomy, Top(chip), y, py))(u) else 0.0
  {
    var qx, qy := Nearest(chip.leftx, Right(chip), x, px), Nearest(chip.bottomy, Top(chip), y, py);
    hide *;
    NearestInRegion(chip, x, y, px, py);
    RingRegions(chip, px, py);
    FourCovers(u, chip, px, py);
    LeftCovers(u, chip, y, px, py);
    RightCovers(u, chip, x, px, py);
    TopCovers(u, chip, x, y, px, py);
    BottomCovers(u, chip, px, py);
    OneOfFour(OnWest(u, chip) && Covers(LeftStrip(u, chip), px, py), OnEast(u, chip) && Covers(RightStrip(u, chip), px, py),
              OnNorth(u, chip) && Covers(TopStrip(u, chip), px, py), OnSouth(u, chip) && Covers(BottomStrip(u, chip), px, py));
    assert At(qx, qy)(u) == One(Covers(u, qx, qy)) by { AtIsOne(u, qx, qy); }
    assert One(false) == 0.0 by { OneFalse(); }
  }

  lemma {:induction false} AtIsOne(u: Unit, px: real, py: real)
    ensures At(px, py)(u) == One(Covers(u, px, py))
  {
  }

  lemma {:induction false} OneFalse()
    ensures One(false) == 0.0
  {
  }

  predicate LeftRegion(chip: Unit, px: real, py: real) {
    0.0 <= px < chip.leftx && chip.bottomy <= py < Top(chip) + chip.leftx
  }

  predicate RightRegion(chip: Unit, px: real, py: real) {
    Right(chip) <= px < Right(chip) + chip.leftx && 0.0 <= py < Top(chip)
  }

  predicate TopRegion(chip: Unit, px: real, py: real) {
    chip.leftx <= px < Right(chip) + chip.leftx && Top(chip) <= py < Top(chip) + chip.leftx
  }

  predicate BottomRegion(chip: Unit, px: real, py: real) {
    0.0 <= px < Right(chip) && 0.0 <= py < chip.leftx
  }

  /** The four sides divide the ring, each with one corner. */
  lemma {:induction false} RingRegions(chip: Unit, px: real, py: real)
    requires Rimmed(chip)
    ensures InRing(chip, px, py) <==> LeftRegion(chip, px, py) || RightRegion(chip, px, py)
                                      || TopRegion(chip, px, py) || BottomRegion(chip, px, py)
    ensures LeftRegion(chip, px, py) ==> !RightRegion(chip, px, py) && !TopRegion(chip, px, py) && !BottomRegion(chip, px, py)
    ensures RightRegion(chip, px, py) ==> !TopRegion(chip, px, py) && !BottomRegion(chip, px, py)
    ensures TopRegion(chip, px, py) ==> !BottomRegion(chip, px, py)
  {
  }

  // ---- exact cover ----

  /** A block without area that gets a strip with area. */
  predicate Stray(u: Unit, chip: Unit) {
    !Solid(u) && exists s | s in StripsOf(u, chip) :: Solid(s)
  }

  ghost function StrayCover(chip: Unit, f: Unit -> real): Unit -> real {
    u => if Solid(u) then 0.0 else SumRange(StripsOf(u, chip), 0, |StripsOf(u, chip)|, f)
  }

  ghost function Scaled(b: bool, f: Unit -> real): Unit -> real {
    u => if b then f(u) else 0.0
  }

  lemma {:induction false} SumPlus(us: seq<Unit>, n: nat, f: Unit -> real, g: Unit -> real, h: Unit -> real)
    requires n <= |us| && forall i | 0 <= i < n :: h(us[i]) == f(us[i]) + g(us[i])
    ensures SumRange(us, 0, n, h) == SumRange(us, 0, n, f) + SumRange(us, 0, n, g)
  {
    if n > 0 { SumPlus(us, n - 1, f, g, h); }
  }

  lemma {:induction false} SumScaled(us: seq<Unit>, n: nat, b: bool, f: Unit -> real)
    requires n <= |us|
    ensures SumRange(us, 0, n, Scaled(b, f)) == if b then SumRange(us, 0, n, f) else 0.0
  {
    if n > 0 { SumScaled(us, n - 1, b, f); }
  }

  lemma {:induction false} HollowCoversNothing(u: Unit, px: real, py: real)
    requires !Solid(u)
    ensures At(px, py)(u) == 0.0
  {
  }

  lemma {:induction false} StrayCoverIs(u: Unit, chip: Unit, f: Unit -> real)
    ensures StrayCover(chip, f)(u) == if Solid(u) then 0.0 else SumRange(StripsOf(u, chip), 0, |StripsOf(u, chip)|, f)
  {
  }

  lemma {:induction false} StripCoverSum(u: Unit, chip: Unit, f: Unit -> real)
    ensures StripCover(chip, f)(u) == SumRange(StripsOf(u, chip), 0, |StripsOf(u, chip)|, f)
  {
  }

  lemma {:induction false} CoverParts(u: Unit, chip: Unit, x: real, y: real, px: real, py: real, qx: real, qy: real)
    requires Rimmed(chip) && Inside(u, chip)
    requires Solid(u) ==> CrispBlock(u, chip) && ReachesEast(u, chip, x) && ReachesNorth(u, chip, y)
    requires chip.leftx <= x < Right(chip) && chip.bottomy <= y < Top(chip)
    requires qx == Nearest(chip.leftx, Right(chip), x, px) && qy == Nearest(chip.bottomy, Top(chip), y, py)
    ensures StripCover(chip, At(px, py))(u)
         == Scaled(InRing(chip, px, py), At(qx, qy))(u) + StrayCover(chip, At(px, py))(u)
  {
    hide StripCover, StrayCover, InRing, CrispBlock, Inside, Nearest, ReachesEast, ReachesNorth, At, Rimmed, Right, Top, SumRange;
    if Solid(u) {
      StripCoverIs(u, chip, x, y, px, py);
    } else {
      HollowCoversNothing(u, qx, qy);
    }
    StrayCoverIs(u, chip, At(px, py));
    StripCoverSum(u, chip, At(px, py));
  }

  lemma {:induction false} NearestCovers(chip: Unit, x: real, y: real, px: real, py: real)
    requires Rimmed(chip) && chip.leftx <= x < Right(chip) && chip.bottomy <= y < Top(chip)
    ensures At(Nearest(chip.leftx, Right(chip), x, px), Nearest(chip.bottomy, Top(chip), y, py))(chip) == 1.0
  {
  }

  /** The strips of solid blocks cover the ring once; those of the others come on top. */
  lemma {:induction false} StripsSum(us: seq<Unit>, n: nat, chip: Unit, x: real, y: real, px: real, py: real)
    requires n <= |us| && Tiles(us, n, chip) && Placement(us, n, chip) && Crisp(us, n, chip) && Rimmed(chip)
    requires LastColumn(us, n, chip, x) && LastRow(us, n, chip, y)
    ensures SumRange(us, 0, n, StripCover(chip, At(px, py)))
         == One(InRing(chip, px, py)) + SumRange(us, 0, n, StrayCover(chip, At(px, py)))
  {
    var qx, qy := Nearest(chip.leftx, Right(chip), x, px), Nearest(chip.bottomy, Top(chip), y, py);
    assert SumRange(us, 0, n, At(qx, qy)) == At(qx, qy)(chip);
    assert chip.leftx <= x < Right(chip) && chip.bottomy <= y < Top(chip);
    hide StripCover, InRing, CrispBlock, Inside, Nearest, ReachesEast, ReachesNorth, At, Rimmed, Right, Top, Tiles, StrayCover, Scaled;
    var f, base, extra := StripCover(chip, At(px, py)), Scaled(InRing(chip, px, py), At(qx, qy)), StrayCover(chip, At(px, py));
    forall i | 0 <= i < n ensures f(us[i]) == base(us[i]) + extra(us[i]) {
      CoverParts(us[i], chip, x, y, px, py, qx, qy);
    }
    SumPlus(us, n, base, extra, f);
    SumScaled(us, n, InRing(chip, px, py), At(qx, qy));
    NearestCovers(chip, x, y, px, py);
  }

  lemma {:induction false} SumShift(us: seq<Unit>, a: nat, vs: seq<Unit>, k: nat, f: Unit -> real)
    requires k <= |vs| && a + k <= |us| && forall i | 0 <= i < k :: us[a + i] == vs[i]
    ensures SumRange(us, a, a + k, f) == SumRange(vs, 0, k, f)
  {
    if k > 0 { SumShift(us, a, vs, k - 1, f); }
  }

  lemma {:induction false} WrappedSum(us: seq<Unit>, n: nat, chip: Unit, vs: seq<Unit>, f: Unit -> real)
    requires n <= |us| && Wrapped(us, n, chip, vs)
    ensures SumRange(vs, 0, n + |AllStrips(us, n, chip)|, f)
         == SumRange(us, 0, n, f) + SumRange(us, 0, n, StripCover(chip, f))
  {
    hide AllStrips, StripCover;
    var strips := AllStrips(us, n, chip);
    SumRangeSplit(vs, 0, n, n + |strips|, f);
    SumRangeSame(vs, us, 0, n, f);
    SumShift(vs, n, strips, |strips|, f);
    SumAllStrips(us, n, chip, f);
  }

  lemma {:induction false} RingSum(us: seq<Unit>, n: nat, chip: Unit, px: real, py: real)
    requires n <= |us| && Tiles(us, n, chip) && Placement(us, n, chip) && Crisp(us, n, chip) && Rimmed(chip)
    ensures SumRange(us, 0, n, StripCover(chip, At(px, py)))
         == One(InRing(chip, px, py)) + SumRange(us, 0, n, StrayCover(chip, At(px, py)))
  {
    hide *;
    var x := FindLastColumn(us, n, chip);
    var y := FindLastRow(us, n, chip);
    StripsSum(us, n, chip, x, y, px, py);
  }

  /** How often a point is covered by the blocks and their strips together. */
  lemma {:induction false} RimSum(us: seq<Unit>, n: nat, chip: Unit, vs: seq<Unit>, px: real, py: real)
    requires n <= |us| && Tiles(us, n, chip) && Placement(us, n, chip) && Crisp(us, n, chip) && Rimmed(chip)
    requires Wrapped(us, n, chip, vs)
    ensures SumRange(vs, 0, n + |AllStrips(us, n, chip)|, At(px, py))
         == At(px, py)(Outer(chip)) + SumRange(us, 0, n, StrayCover(chip, At(px, py)))
  {
    hide SumRange, At, InRing, StripCover, StrayCover, AllStrips, Placement, Crisp, Wrapped, Rimmed, Outer;
    assert SumRange(us, 0, n, At(px, py)) == At(px, py)(chip);
    WrappedSum(us, n, chip, vs, At(px, py));
    RingSum(us, n, chip, px, py);
    OuterCovers(chip, px, py);
  }

  lemma {:induction false} OuterCovers(chip: Unit, px: real, py: real)
    requires Rimmed(chip)
    ensures At(px, py)(Outer(chip)) == At(px, py)(chip) + One(InRing(chip, px, py))
  {
    assert Covers(chip, px, py) ==> Covers(Outer(chip), px, py);
  }

  /** The list holds the first n blocks and then all their strips. */
  ghost predicate Wrapped(us: seq<Unit>, n: nat, chip: Unit, vs: seq<Unit>)
    requires n <= |us|
  {
    && n + |AllStrips(us, n, chip)| <= |vs|
    && (forall i | 0 <= i < n :: vs[i] == us[i])
    && (forall i | 0 <= i < |AllStrips(us, n, chip)| :: vs[n + i] == AllStrips(us, n, chip)[i])
  }

  lemma {:induction false} StraySum(us: seq<Unit>, n: nat, chip: Unit, f: Unit -> real)
    requires n <= |us| && forall i, s | 0 <= i < n && !Solid(us[i]) && s in StripsOf(us[i], chip) :: f(s) == 0.0
    ensures SumRange(us, 0, n, StrayCover(chip, f)) == 0.0
  {
    if n > 0 {
      StraySum(us, n - 1, chip, f);
      if !Solid(us[n-1]) {
        hide StripsOf;
        var ss := StripsOf(us[n-1], chip);
        assert forall s | s in ss :: f(s) == 0.0;
        SumNone(ss, |ss|, f);
        StrayCoverIs(us[n-1], chip, f);
      }
    }
  }

  lemma {:induction false} SumNone(us: seq<Unit>, n: nat, f: Unit -> real)
    requires n <= |us| && forall s | s in us :: f(s) == 0.0
    ensures SumRange(us, 0, n, f) == 0.0
  {
    if n > 0 { SumNone(us, n - 1, f); }
  }

  lemma {:induction false} CoverNonnegative(ss: seq<Unit>, px: real, py: real)
    ensures SumRange(ss, 0, |ss|, At(px, py)) >= 0.0
    ensures forall s | s in ss && Covers(s, px, py) :: SumRange(ss, 0, |ss|, At(px, py)) >= 1.0
  {
    SumAtLeastTwo(ss, |ss|, At(px, py), 0, 0);
    forall s | s in ss && Covers(s, px, py) ensures SumRange(ss, 0, |ss|, At(px, py)) >= 1.0 {
      var k :| 0 <= k < |ss| && ss[k] == s;
      SumAtLeastTwo(ss, |ss|, At(px, py), k, k);
    }
  }

  /** A strip with area of a block without shows up in the sum. */
  lemma {:induction false} StrayCounts(us: seq<Unit>, n: nat, chip: Unit, i: nat, s: Unit, px: real, py: real)
    requires i < n <= |us| && !Solid(us[i]) && s in StripsOf(us[i], chip) && Covers(s, px, py)
    ensures SumRange(us, 0, n, StrayCover(chip, At(px, py))) >= 1.0
  {
    var f := StrayCover(chip, At(px, py));
    hide StripsOf;
    forall k | 0 <= k < n ensures f(us[k]) >= 0.0 {
      CoverNonnegative(StripsOf(us[k], chip), px, py);
      StrayCoverIs(us[k], chip, At(px, py));
    }
    SumAtLeastTwo(us, n, f, i, i);
    CoverNonnegative(StripsOf(us[i], chip), px, py);
    StrayCoverIs(us[i], chip, At(px, py));
  }

  /** The wrapped floorplan tiles the larger rectangle exactly when no block without area
      gets a strip with area. */
  lemma {:induction false} RimTilesIff(us: seq<Unit>, n: nat, chip: Unit, vs: seq<Unit>)
    requires n <= |us| && Tiles(us, n, chip) && Placement(us, n, chip) && Crisp(us, n, chip) && Rimmed(chip)
    requires Wrapped(us, n, chip, vs)
    ensures Tiles(vs, n + |AllStrips(us, n, chip)|, Outer(chip)) <==> forall i | 0 <= i < n :: !Stray(us[i], chip)
  {
    var m := n + |AllStrips(us, n, chip)|;
    if forall i | 0 <= i < n :: !Stray(us[i], chip) {
      forall px: real, py: real ensures SumRange(vs, 0, m, At(px, py)) == At(px, py)(Outer(chip)) {
        RimSum(us, n, chip, vs, px, py);
        forall i, s | 0 <= i < n && !Solid(us[i]) && s in StripsOf(us[i], chip) ensures At(px, py)(s) == 0.0 {
          assert !Stray(us[i], chip);
          HollowCoversNothing(s, px, py);
        }
        StraySum(us, n, chip, At(px, py));
      }
    } else {
      var i :| 0 <= i < n && Stray(us[i], chip);
      var s :| s in StripsOf(us[i], chip) && Solid(s);
      RimSum(us, n, chip, vs, s.leftx, s.bottomy);
      StrayCounts(us, n, chip, i, s, s.leftx, s.bottomy);
      assert SumRange(vs, 0, m, At(s.leftx, s.bottomy)) != At(s.leftx, s.bottomy)(Outer(chip));
    }
  }

  // ---- blocks with an edge nearly on the chip's ----

  /** A point that a block's strips cover counts for the block. */
  lemma {:induction false} StripCoverCounts(us: seq<Unit>, n: nat, chip: Unit, px: real, py: real)
    requires n <= |us|
    ensures forall i | 0 <= i < n :: StripCover(chip, At(px, py))(us[i]) >= 0.0
    ensures forall i, s | 0 <= i < n && s in StripsOf(us[i], chip) && Covers(s, px, py) :: StripCover(chip, At(px, py))(us[i]) >= 1.0
  {
    hide StripsOf, Covers;
    forall i | 0 <= i < n ensures StripCover(chip, At(px, py))(us[i]) >= 0.0
        && forall s | s in StripsOf(us[i], chip) && Covers(s, px, py) :: StripCover(chip, At(px, py))(us[i]) >= 1.0 {
      CoverNonnegative(StripsOf(us[i], chip), px, py);
      StripCoverSum(us[i], chip, At(px, py));
    }
  }

  lemma {:induction false} NotTwice(us: seq<Unit>, n: nat, chip: Unit, vs: seq<Unit>, px: real, py: real)
    requires n <= |us| && Wrapped(us, n, chip, vs)
    requires SumRange(us, 0, n, At(px, py)) + SumRange(us, 0, n, StripCover(chip, At(px, py))) >= 2.0
    ensures !Tiles(vs, n + |AllStrips(us, n, chip)|, Outer(chip))
  {
    hide AllStrips, StripCover;
    WrappedSum(us, n, chip, vs, At(px, py));
    AtMostOne(Outer(chip), px, py);
    assert SumRange(vs, 0, n + |AllStrips(us, n, chip)|, At(px, py)) != At(px, py)(Outer(chip));
  }

  /** A strip over a block. */
  lemma {:induction false} StripOverBlock(us: seq<Unit>, n: nat, chip: Unit, vs: seq<Unit>, px: real, py: real, a: nat, b: nat, s: Unit)
    requires n <= |us| && Wrapped(us, n, chip, vs) && a < n && b < n
    requires Covers(us[a], px, py) && s in StripsOf(us[b], chip) && Covers(s, px, py)
    ensures !Tiles(vs, n + |AllStrips(us, n, chip)|, Outer(chip))
  {
    hide StripsOf, AllStrips, StripCover, Wrapped, Tiles, Outer;
    StripCoverCounts(us, n, chip, px, py);
    SumAtLeastTwo(us, n, At(px, py), a, a);
    SumAtLeastTwo(us, n, StripCover(chip, At(px, py)), b, b);
    NotTwice(us, n, chip, vs, px, py);
  }

  /** Strips of two blocks over each other. */
  lemma {:induction false} StripOverStrip(us: seq<Unit>, n: nat, chip: Unit, vs: seq<Unit>, px: real, py: real, a: nat, b: nat, s: Unit, t: Unit)
    requires n <= |us| && Wrapped(us, n, chip, vs) && a < n && b < n && a != b
    requires s in StripsOf(us[b], chip) && Covers(s, px, py) && t in StripsOf(us[a], chip) && Covers(t, px, py)
    ensures !Tiles(vs, n + |AllStrips(us, n, chip)|, Outer(chip))
  {
    hide StripsOf, AllStrips, StripCover, Wrapped, Tiles, Outer, Covers;
    StripCoverCounts(us, n, chip, px, py);
    SumAtLeastTwo(us, n, At(px, py), a, a);
    SumAtLeastTwo(us, n, StripCover(chip, At(px, py)), a, b);
    SumAtLeastTwo(us, n, StripCover(chip, At(px, py)), b, a);
    NotTwice(us, n, chip, vs, px, py);
  }

  predicate CrispWest(u: Unit, chip: Unit) {
    OnWest(u, chip) ==> u.leftx == chip.leftx
  }

  /** A block nearly on the western edge gets a strip there as well as the one on it. */
  lemma {:induction false} WestOverlaps(us: seq<Unit>, n: nat, chip: Unit, vs: seq<Unit>, b: nat)
    requires n <= |us| && Tiles(us, n, chip) && Placement(us, n, chip) && Rimmed(chip) && Wrapped(us, n, chip, vs)
    requires b < n && Solid(us[b]) && !CrispWest(us[b], chip)
    ensures !Tiles(vs, n + |AllStrips(us, n, chip)|, Outer(chip))
  {
    hide Wrapped, AllStrips;
    var u := us[b];
    assert Inside(u, chip);
    var a := CoveredBy(us, n, chip, chip.leftx, u.bottomy);
    OnWestCovers(us[a], chip, u.bottomy);
    StripIn(u, chip);
    StripOverStrip(us, n, chip, vs, 0.0, u.bottomy, a, b, LeftStrip(u, chip), LeftStrip(us[a], chip));
  }

  /** The strips of a block nearly on the eastern or northern edge lie over its neighbour,
      and one nearly on the southern edge gets a second strip there. */
  lemma {:induction false} NearlyOnOverlaps(us: seq<Unit>, n: nat, chip: Unit, vs: seq<Unit>, b: nat)
    requires n <= |us| && Tiles(us, n, chip) && Placement(us, n, chip) && Rimmed(chip) && Wrapped(us, n, chip, vs)
    requires b < n && Solid(us[b]) && !CrispBlock(us[b], chip)
    requires forall i | 0 <= i < n && Solid(us[i]) :: CrispWest(us[i], chip)
    ensures !Tiles(vs, n + |AllStrips(us, n, chip)|, Outer(chip))
  {
    var u := us[b];
    hide Wrapped, AllStrips;
    assert Inside(u, chip) && CrispWest(u, chip);
    StripIn(u, chip);
    if OnEast(u, chip) && Right(u) != Right(chip) {
      var y := if OnSouth(u, chip) then chip.bottomy else u.bottomy;
      var a := CoveredBy(us, n, chip, Right(u), y);
      StripOverBlock(us, n, chip, vs, Right(u), y, a, b, RightStrip(u, chip));
    } else if OnNorth(u, chip) && Top(u) != Top(chip) {
      var a := CoveredBy(us, n, chip, u.leftx, Top(u));
      StripOverBlock(us, n, chip, vs, u.leftx, Top(u), a, b, TopStrip(u, chip));
    } else {
      var a := CoveredBy(us, n, chip, u.leftx, chip.bottomy);
      OnSouthCovers(us[a], chip, u.leftx);
      StripOverStrip(us, n, chip, vs, u.leftx, 0.0, a, b, BottomStrip(u, chip), BottomStrip(us[a], chip));
    }
  }

  lemma {:induction false} CoveredBy(us: seq<Unit>, n: nat, chip: Unit, px: real, py: real) returns (a: nat)
    requires n <= |us| && Tiles(us, n, chip) && Placement(us, n, chip) && Covers(chip, px, py)
    ensures a < n && Covers(us[a], px, py) && Inside(us[a], chip) && Solid(us[a])
  {
    assert SumRange(us, 0, n, At(px, py)) == At(px, py)(chip);
    a := SomeCovers(us, n, px, py);
  }

  lemma {:induction false} StripIn(u: Unit, chip: Unit)
    ensures OnWest(u, chip) ==> LeftStrip(u, chip) in StripsOf(u, chip)
    ensures OnEast(u, chip) ==> RightStrip(u, chip) in StripsOf(u, chip)
    ensures OnNorth(u, chip) ==> TopStrip(u, chip) in StripsOf(u, chip)
    ensures OnSouth(u, chip) ==> BottomStrip(u, chip) in StripsOf(u, chip)
  {
    hide OnWest, OnEast, OnNorth, OnSouth, LeftStrip, RightStrip, TopStrip, BottomStrip;
    var w := if OnWest(u, chip) then [LeftStrip(u, chip)] else [];
    var e := if OnEast(u, chip) then [RightStrip(u, chip)] else [];
    var n := if OnNorth(u, chip) then [TopStrip(u, chip)] else [];
    var s := if OnSouth(u, chip) then [BottomStrip(u, chip)] else [];
    assert StripsOf(u, chip) == w + e + n + s;
    if OnWest(u, chip) { assert w[0] in w; }
    if OnEast(u, chip) { assert e[0] in e; }
    if OnNorth(u, chip) { assert n[0] in n; }
    if OnSouth(u, chip) { assert s[0] in s; }
  }

  /** A block that reaches over the chip's first column starts there. */
  lemma {:induction false} OnWestCovers(u: Unit, chip: Unit, py: real)
    requires Rimmed(chip) && Inside(u, chip) && Covers(u, chip.leftx, py)
    ensures u.leftx == chip.leftx && LeftStrip(u, chip) in StripsOf(u, chip) && Covers(LeftStrip(u, chip), 0.0, py)
  {
    StripIn(u, chip);
  }

  lemma {:induction false} OnSouthCovers(u: Unit, chip: Unit, px: real)
    requires Rimmed(chip) && Inside(u, chip) && Covers(u, px, chip.bottomy) && CrispWest(u, chip)
    ensures u.bottomy == chip.bottomy && BottomStrip(u, chip) in StripsOf(u, chip) && Covers(BottomStrip(u, chip), px, 0.0)
  {
    StripIn(u, chip);
  }

  /** For every tiling: the rim closes exactly if no block with area has an edge nearly on an
      edge of the chip and no block without area gets a strip with area. */
  lemma {:induction false} RimClosesIff(us: seq<Unit>, n: nat, chip: Unit, vs: seq<Unit>)
    requires n <= |us| && Tiles(us, n, chip) && Placement(us, n, chip) && Rimmed(chip) && Wrapped(us, n, chip, vs)
    ensures Tiles(vs, n + |AllStrips(us, n, chip)|, Outer(chip))
      <==> Crisp(us, n, chip) && forall i | 0 <= i < n :: !Stray(us[i], chip)
  {
    hide Tiles, Placement, Rimmed, Wrapped, AllStrips, Stray, Outer, CrispBlock;
    if Crisp(us, n, chip) {
      RimTilesIff(us, n, chip, vs);
    } else {
      hide CrispWest;
      if b :| 0 <= b < n && Solid(us[b]) && !CrispWest(us[b], chip) {
        WestOverlaps(us, n, chip, vs, b);
        return;
      }
      var b :| 0 <= b < n && Solid(us[b]) && !CrispBlock(us[b], chip);
      NearlyOnOverlaps(us, n, chip, vs, b);
    }
  }

  /** A concrete case: a dead block of width zero beside the only block gets a second
      left strip over the first one. */
  lemma {:induction false} StrayExample()
    ensures var us := [Unit(4.0, 4.0, 1.0, 1.0), Unit(0.0, 4.0, 1.0, 1.0)];
      Tiles(us, 2, us[0]) && Placement(us, 2, us[0]) && Crisp(us, 2, us[0]) && Rimmed(us[0]) && Stray(us[1], us[0])
  {
    var us := [Unit(4.0, 4.0, 1.0, 1.0), Unit(0.0, 4.0, 1.0, 1.0)];
    forall px: real, py: real ensures SumRange(us, 0, 2, At(px, py)) == At(px, py)(us[0]) {
      HollowCoversNothing(us[1], px, py);
      hide At;
      assert SumRange(us, 0, 0, At(px, py)) == 0.0;
      assert SumRange(us, 0, 1, At(px, py)) == At(px, py)(us[0]);
    }
    assert Eq(1.0, 1.0);
    var s := LeftStrip(us[1], us[0]);
    assert StripsOf(us[1], us[0])[0] == s && Solid(s);
    hide Tiles, SumRange, StripsOf, LeftStrip;
    assert Placement(us, 2, us[0]);
  }

  /** At a corner of the chip the strip that reaches it clockwise takes the corner. */
  lemma {:induction false} CornersClockwise(u: Unit, chip: Unit)
    requires CrispBlock(u, chip)
    ensures OnWest(u, chip) && OnNorth(u, chip) ==> Unit(chip.leftx, u.height + chip.leftx, 0.0, u.bottomy) in StripsOf(u, chip)
    ensures OnNorth(u, chip) && OnEast(u, chip) ==> Unit(u.width + chip.leftx, chip.leftx, u.leftx, Top(chip)) in StripsOf(u, chip)
    ensures OnEast(u, chip) && OnSouth(u, chip) ==> Unit(chip.leftx, u.height + chip.leftx, Right(chip), 0.0) in StripsOf(u, chip)
    ensures OnSouth(u, chip) && OnWest(u, chip) ==> Unit(u.width + chip.leftx, chip.leftx, 0.0, 0.0) in StripsOf(u, chip)
  {
    StripIn(u, chip);
    hide StripsOf;
  }

  // ---- how many strips there are ----

  ghost function Sides(chip: Unit): Unit -> real {
    u => |StripsOf(u, chip)| as real
  }

  lemma {:induction false} CountStrips(us: seq<Unit>, n: nat, chip: Unit)
    requires n <= |us|
    ensures |AllStrips(us, n, chip)| as real == SumRange(us, 0, n, Sides(chip))
  {
    if n > 0 {
      CountStrips(us, n - 1, chip);
      assert Sides(chip)(us[n-1]) == |StripsOf(us[n-1], chip)| as real;
      hide StripsOf, Sides;
    }
  }

  lemma {:induction false} SumBound(us: seq<Unit>, n: nat, f: Unit -> real, a: Unit -> real, b: Unit -> real)
    requires n <= |us| && forall i | 0 <= i < n :: f(us[i]) <= 2.0 + a(us[i]) + b(us[i])
    ensures SumRange(us, 0, n, f) <= 2.0 * (n as real) + SumRange(us, 0, n, a) + SumRange(us, 0, n, b)
  {
    if n > 0 { SumBound(us, n - 1, f, a, b); }
  }

  predicate Wide(u: Unit, chip: Unit) { OnWest(u, chip) && OnEast(u, chip) }
  predicate Tall(u: Unit, chip: Unit) { OnNorth(u, chip) && OnSouth(u, chip) }

  /** Only a wide block on the north or south edge has a third strip. */
  lemma {:induction false} SidesOfNotTall(u: Unit, chip: Unit, y: real)
    requires Rimmed(chip) && Solid(u) && Inside(u, chip) && CrispBlock(u, chip) && !Tall(u, chip)
    requires ReachesNorth(u, chip, y)
    ensures Sides(chip)(u) <= 2.0 + At(chip.leftx, y)(u) + At(chip.leftx, chip.bottomy)(u)
  {
  }

  lemma {:induction false} SidesOfNotWide(u: Unit, chip: Unit, x: real)
    requires Rimmed(chip) && Solid(u) && Inside(u, chip) && CrispBlock(u, chip) && !Wide(u, chip)
    requires ReachesEast(u, chip, x)
    ensures Sides(chip)(u) <= 2.0 + At(x, chip.bottomy)(u) + At(chip.leftx, chip.bottomy)(u)
  {
  }

  /** A wide and a tall block meet, so they are the same, and the only one. */
  lemma {:induction false} WideAndTall(us: seq<Unit>, n: nat, chip: Unit, i: nat, k: nat)
    requires n <= |us| && Tiles(us, n, chip) && Placement(us, n, chip) && Crisp(us, n, chip)
    requires forall j | 0 <= j < n :: Solid(us[j])
    requires i < n && k < n && Wide(us[i], chip) && Tall(us[k], chip)
    ensures n == 1
  {
    hide Tiles;
    assert CrispBlock(us[i], chip) && CrispBlock(us[k], chip) && Inside(us[i], chip) && Inside(us[k], chip);
    OneCovers(us, n, chip, us[k].leftx, us[i].bottomy, i, k);
    if n > 1 {
      var j := if i == 0 then 1 else 0;
      assert Inside(us[j], chip) && Solid(us[j]);
      OneCovers(us, n, chip, us[j].leftx, us[j].bottomy, i, j);
    }
  }

  lemma {:induction false} FourSides(u: Unit, chip: Unit)
    ensures |StripsOf(u, chip)| <= 4
  {
  }

  lemma {:induction false} CountWhenNoneTall(us: seq<Unit>, n: nat, chip: Unit)
    requires n <= |us| && Tiles(us, n, chip) && Placement(us, n, chip) && Crisp(us, n, chip) && Rimmed(chip)
    requires forall i | 0 <= i < n :: Solid(us[i]) && !Tall(us[i], chip)
    ensures SumRange(us, 0, n, Sides(chip)) <= 2.0 * (n as real) + 2.0
  {
    var y := FindLastRow(us, n, chip);
    var a, b := At(chip.leftx, y), At(chip.leftx, chip.bottomy);
    assert SumRange(us, 0, n, a) == a(chip) && SumRange(us, 0, n, b) == b(chip);
    hide Tiles, Sides, Tall, Inside, CrispBlock, At, Rimmed, ReachesNorth, Solid;
    forall i | 0 <= i < n ensures Sides(chip)(us[i]) <= 2.0 + a(us[i]) + b(us[i]) {
      SidesOfNotTall(us[i], chip, y);
    }
    SumBound(us, n, Sides(chip), a, b);
    AtMostOne(chip, chip.leftx, y);
    AtMostOne(chip, chip.leftx, chip.bottomy);
  }

  lemma {:induction false} AtMostOne(u: Unit, px: real, py: real)
    ensures At(px, py)(u) <= 1.0
  {
  }

  lemma {:induction false} CountWhenNoneWide(us: seq<Unit>, n: nat, chip: Unit)
    requires n <= |us| && Tiles(us, n, chip) && Placement(us, n, chip) && Crisp(us, n, chip) && Rimmed(chip)
    requires forall i | 0 <= i < n :: Solid(us[i]) && !Wide(us[i], chip)
    ensures SumRange(us, 0, n, Sides(chip)) <= 2.0 * (n as real) + 2.0
  {
    var x := FindLastColumn(us, n, chip);
    var a, b := At(x, chip.bottomy), At(chip.leftx, chip.bottomy);
    assert SumRange(us, 0, n, a) == a(chip) && SumRange(us, 0, n, b) == b(chip);
    hide Tiles, Sides, Wide, Inside, CrispBlock, At, Rimmed, ReachesEast, Solid;
    forall i | 0 <= i < n ensures Sides(chip)(us[i]) <= 2.0 + a(us[i]) + b(us[i]) {
      SidesOfNotWide(us[i], chip, x);
    }
    SumBound(us, n, Sides(chip), a, b);
    AtMostOne(chip, x, chip.bottomy);
    AtMostOne(chip, chip.leftx, chip.bottomy);
  }

  /** A floorplan of n solid blocks gets at most the 2n + 2 strips there is room for. */
  lemma {:induction false} StripBound(us: seq<Unit>, n: nat, chip: Unit)
    requires n <= |us| && Tiles(us, n, chip) && Placement(us, n, chip) && Crisp(us, n, chip) && Rimmed(chip)
    requires forall i | 0 <= i < n :: Solid(us[i])
    ensures |AllStrips(us, n, chip)| <= 2 * n + 2
  {
    hide Tiles, Placement, Crisp, Wide, Tall, Rimmed, Solid, Sides, StripsOf;
    CountStrips(us, n, chip);
    if exists i :: 0 <= i < n && Wide(us[i], chip) {
      var i :| 0 <= i < n && Wide(us[i], chip);
      if exists k :: 0 <= k < n && Tall(us[k], chip) {
        var k :| 0 <= k < n && Tall(us[k], chip);
        WideAndTall(us, n, chip, i, k);
        assert AllStrips(us, 1, chip) == AllStrips(us, 0, chip) + StripsOf(us[0], chip);
        FourSides(us[0], chip);
      } else {
        CountWhenNoneTall(us, n, chip);
      }
    } else {
      CountWhenNoneWide(us, n, chip);
    }
  }

  /** A concrete case: a block thinner than the tolerance. It and the block beside it both
      count as on the western edge; there is one strip more than there is room for. */
  lemma {:induction false} ThinExample()
    ensures var us, chip := [Unit(0.0000005, 4.0, 1.0, 1.0), Unit(3.9999995, 4.0, 1.0000005, 1.0)], Unit(4.0, 4.0, 1.0, 1.0);
      && Tiles(us, 2, chip) && Placement(us, 2, chip) && Rimmed(chip) && (forall i | 0 <= i < 2 :: Solid(us[i]))
      && !Crisp(us, 2, chip) && |AllStrips(us, 2, chip)| == 7 > 2 * 2 + 2
  {
    var us, chip := [Unit(0.0000005, 4.0, 1.0, 1.0), Unit(3.9999995, 4.0, 1.0000005, 1.0)], Unit(4.0, 4.0, 1.0, 1.0);
    forall px: real, py: real ensures SumRange(us, 0, 2, At(px, py)) == At(px, py)(chip) {
      assert SumRange(us, 0, 1, At(px, py)) == At(px, py)(us[0]);
    }
    assert |StripsOf(us[0], chip)| == 3 && |StripsOf(us[1], chip)| == 4;
    assert !CrispBlock(us[1], chip);
    hide Tiles, StripsOf, SumRange;
    assert |AllStrips(us, 1, chip)| == 3;
  }
}
