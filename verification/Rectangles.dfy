/** Placed blocks and measures of them: a list of blocks tiles a rectangle when every
    point is covered as often as by the rectangle, each block being half open. */
module Rectangles {

  datatype Unit = Unit(width: real, height: real, leftx: real, bottomy: real)

  predicate Covers(u: Unit, px: real, py: real) {
    u.leftx <= px < u.leftx + u.width && u.bottomy <= py < u.bottomy + u.height
  }

  /** 1 at the blocks that cover the point, 0 elsewhere. */
  function At(px: real, py: real): Unit -> real {
    (u: Unit) => if Covers(u, px, py) then 1.0 else 0.0
  }

  function AreaOf(u: Unit): real {
    u.width * u.height
  }

  ghost predicate SplitsX(f: Unit -> real, x: real, y: real, w1: real, w2: real, h: real) {
    f(Unit(w1 + w2, h, x, y)) == f(Unit(w1, h, x, y)) + f(Unit(w2, h, x + w1, y))
  }

  ghost predicate SplitsY(f: Unit -> real, x: real, y: real, w: real, h1: real, h2: real) {
    f(Unit(w, h1 + h2, x, y)) == f(Unit(w, h1, x, y)) + f(Unit(w, h2, x, y + h1))
  }

  /** A measure of rectangles that adds up when a rectangle is split in two. */
  ghost predicate Additive(f: Unit -> real) {
    && (forall x, y, w1, w2, h | w1 >= 0.0 && w2 >= 0.0 && h >= 0.0 :: SplitsX(f, x, y, w1, w2, h))
    && (forall x, y, w, h1, h2 | w >= 0.0 && h1 >= 0.0 && h2 >= 0.0 :: SplitsY(f, x, y, w, h1, h2))
  }

  lemma {:induction false} AtIsAdditive(px: real, py: real)
    ensures Additive(At(px, py))
  {
    var f := At(px, py);
    forall x, y, w1, w2, h | w1 >= 0.0 && w2 >= 0.0 && h >= 0.0 ensures SplitsX(f, x, y, w1, w2, h) {
      assert Covers(Unit(w1 + w2, h, x, y), px, py)
        <==> Covers(Unit(w1, h, x, y), px, py) || Covers(Unit(w2, h, x + w1, y), px, py);
    }
    forall x, y, w, h1, h2 | w >= 0.0 && h1 >= 0.0 && h2 >= 0.0 ensures SplitsY(f, x, y, w, h1, h2) {
      assert Covers(Unit(w, h1 + h2, x, y), px, py)
        <==> Covers(Unit(w, h1, x, y), px, py) || Covers(Unit(w, h2, x, y + h1), px, py);
    }
  }

  lemma {:induction false} AreaIsAdditive()
    ensures Additive(AreaOf)
  {
    forall x, y, w1, w2, h | w1 >= 0.0 && w2 >= 0.0 && h >= 0.0 ensures SplitsX(AreaOf, x, y, w1, w2, h) {
      assert (w1 + w2) * h == w1 * h + w2 * h;
    }
    forall x, y, w, h1, h2 | w >= 0.0 && h1 >= 0.0 && h2 >= 0.0 ensures SplitsY(AreaOf, x, y, w, h1, h2) {
      assert w * (h1 + h2) == w * h1 + w * h2;
    }
  }

  ghost function SumRange(us: seq<Unit>, a: nat, b: nat, f: Unit -> real): real
    requires a <= b <= |us|
  {
    if a == b then 0.0 else SumRange(us, a, b - 1, f) + f(us[b-1])
  }

  lemma {:induction false} SumRangeSame(us: seq<Unit>, vs: seq<Unit>, a: nat, b: nat, f: Unit -> real)
    requires a <= b <= |us| && b <= |vs| && forall i | a <= i < b :: us[i] == vs[i]
    ensures SumRange(us, a, b, f) == SumRange(vs, a, b, f)
  {
    if a < b { SumRangeSame(us, vs, a, b - 1, f); }
  }

  lemma {:induction false} SumRangeSplit(us: seq<Unit>, a: nat, b: nat, c: nat, f: Unit -> real)
    requires a <= b <= c <= |us|
    ensures SumRange(us, a, c, f) == SumRange(us, a, b, f) + SumRange(us, b, c, f)
  {
    if b < c { SumRangeSplit(us, a, b, c - 1, f); }
  }

  /** The first n blocks cover every point exactly as often as the rectangle does. */
  ghost predicate Tiles(us: seq<Unit>, n: nat, whole: Unit)
    requires n <= |us|
  {
    forall px: real, py: real :: SumRange(us, 0, n, At(px, py)) == At(px, py)(whole)
  }
}
