/** Restriction, prolongation and the recursive solver over halved grids. */
module NestedIteration {
  import opened Sums
  import opened Numbers
  import opened GridStencil
  import opened GridMultigrid
  import opened MobileGrid

  ghost predicate Stored(v: Field, v': Field, n: int, i: int, j: int, x: real) {
    && v'(n, i, j) == x
    && forall m, r, c | !(m == n && r == i && c == j) :: v'(m, r, c) == v(m, r, c)
  }

  method Store(a: array3<real>, n: int, i: int, j: int, x: real)
    requires 0 <= n < a.Length0 && 0 <= i < a.Length1 && 0 <= j < a.Length2
    modifies a
    ensures Stored(old(FieldOf(a)), FieldOf(a), n, i, j, x)
  {
    a[n, i, j] := x;
  }

  // ---- restriction ----

  ghost predicate RestrictedTo(h: Grid, s: Field, d: Field, n0: int, i0: int, j0: int) {
    forall n, i, j | h.Cell(n, i, j) && Before(n, i, j, n0, i0, j0) :: RestrictedCell(s, d, n, i, j)
  }

  lemma {:induction false} RestrictStep(h: Grid, s: Field, d: Field, d': Field, n: int, i: int, j: int)
    requires h.Cell(n, i, j) && RestrictedTo(h, s, d, n, i, j) && RestrictedCell(s, d', n, i, j)
    requires Stored(d, d', n, i, j, d'(n, i, j))
    ensures RestrictedTo(h, s, d', n, i, j + 1)
  {
    forall m, r, c | h.Cell(m, r, c) && Before(m, r, c, n, i, j + 1) ensures RestrictedCell(s, d', m, r, c) {
      if Before(m, r, c, n, i, j) {
        assert RestrictedCell(s, d, m, r, c);
      }
    }
  }

  lemma {:induction false} RestrictWrap(h: Grid, s: Field, d: Field, n: int, i: int)
    ensures RestrictedTo(h, s, d, n, i, h.cols) ==> RestrictedTo(h, s, d, n, i + 1, 0)
    ensures RestrictedTo(h, s, d, n, h.rows, 0) ==> RestrictedTo(h, s, d, n + 1, 0, 0)
  {
    hide RestrictedCell;
  }

  /** Adds up the four fine cells under every coarse cell; h is the coarse grid. */
  method MultigridRestrictPower(h: Grid, dst: array3<real>, src: array3<real>)
    requires Doubled(h, src, dst)
    modifies dst
    ensures IsRestriction(h, FieldOf(src), FieldOf(dst))
  {
    ghost var s := FieldOf(src);
    hide RestrictedCell, Stored, RestrictedTo;
    RestrictNone(h, s, FieldOf(dst));
    for n := 0 to |h.layers|
      invariant FieldOf(src) == s && RestrictedTo(h, s, FieldOf(dst), n, 0, 0)
    {
      for i := 0 to h.rows
        invariant FieldOf(src) == s && RestrictedTo(h, s, FieldOf(dst), n, i, 0)
      {
        for j := 0 to h.cols
          invariant FieldOf(src) == s && RestrictedTo(h, s, FieldOf(dst), n, i, j)
        {
          ghost var d := FieldOf(dst);
          RestrictCell(h, dst, src, n, i, j);
          RestrictStep(h, s, d, FieldOf(dst), n, i, j);
        }
        RestrictWrap(h, s, FieldOf(dst), n, i);
      }
      RestrictWrap(h, s, FieldOf(dst), n, 0);
    }
    RestrictAll(h, s, FieldOf(dst));
  }

  lemma {:induction false} RestrictNone(h: Grid, s: Field, d: Field)
    ensures RestrictedTo(h, s, d, 0, 0, 0)
  {
  }

  lemma {:induction false} RestrictAll(h: Grid, s: Field, d: Field)
    requires RestrictedTo(h, s, d, |h.layers|, 0, 0)
    ensures IsRestriction(h, s, d)
  {
    hide RestrictedCell;
  }

  method RestrictCell(h: Grid, dst: array3<real>, src: array3<real>, n: int, i: int, j: int)
    requires Doubled(h, src, dst) && h.Cell(n, i, j)
    modifies dst
    ensures RestrictedCell(FieldOf(src), FieldOf(dst), n, i, j)
    ensures Stored(old(FieldOf(dst)), FieldOf(dst), n, i, j, FieldOf(dst)(n, i, j))
  {
    var four := src[n, 2 * i, 2 * j] + src[n, 2 * i + 1, 2 * j] + src[n, 2 * i, 2 * j + 1] + src[n, 2 * i + 1, 2 * j + 1];
    Store(dst, n, i, j, four);
  }

  // ---- prolongation ----

  ghost predicate Right(h: Grid, s: Field, d: Field, n: int, a: int, b: int) {
    d(n, a, b) == Interpolated(h, s, n, a, b)
  }

  /** Cells only change to their interpolated values. */
  ghost predicate OnlyRight(h: Grid, s: Field, d: Field, d': Field) {
    forall n, a, b :: d'(n, a, b) == d(n, a, b) || Right(h, s, d', n, a, b)
  }

  lemma {:induction false} StoredRight(h: Grid, s: Field, d: Field, d': Field, n: int, a: int, b: int, x: real)
    requires Stored(d, d', n, a, b, x) && x == Interpolated(h, s, n, a, b)
    ensures OnlyRight(h, s, d, d') && Right(h, s, d', n, a, b)
  {
    hide Interpolated;
    assert Right(h, s, d', n, a, b);
  }

  /** Stores one interpolated value. */
  method StoreRight(h: Grid, dst: array3<real>, n: int, a: int, b: int, x: real, ghost s: Field)
    requires dst.Length0 == |h.layers| && dst.Length1 == 2 * h.rows && dst.Length2 == 2 * h.cols
    requires 0 <= n < |h.layers| && 0 <= a < 2 * h.rows && 0 <= b < 2 * h.cols && x == Interpolated(h, s, n, a, b)
    modifies dst
    ensures OnlyRight(h, s, old(FieldOf(dst)), FieldOf(dst)) && Right(h, s, FieldOf(dst), n, a, b)
  {
    ghost var d := FieldOf(dst);
    hide Interpolated, OnlyRight, FieldOf;
    Store(dst, n, a, b, x);
    StoredRight(h, s, d, FieldOf(dst), n, a, b, x);
  }

  /** Two stores, as the source writes most cells in pairs. */
  method StoreTwo(h: Grid, dst: array3<real>, n: int, a: int, b: int, x: real, a': int, b': int, x': real, ghost s: Field)
    requires dst.Length0 == |h.layers| && dst.Length1 == 2 * h.rows && dst.Length2 == 2 * h.cols
    requires 0 <= n < |h.layers| && 0 <= a < 2 * h.rows && 0 <= b < 2 * h.cols && x == Interpolated(h, s, n, a, b)
    requires 0 <= a' < 2 * h.rows && 0 <= b' < 2 * h.cols && x' == Interpolated(h, s, n, a', b')
    modifies dst
    ensures OnlyRight(h, s, old(FieldOf(dst)), FieldOf(dst))
    ensures Right(h, s, FieldOf(dst), n, a, b) && Right(h, s, FieldOf(dst), n, a', b')
  {
    ghost var d0 := FieldOf(dst);
    hide Interpolated, OnlyRight, FieldOf, Right;
    StoreRight(h, dst, n, a, b, x, s);
    ghost var d1 := FieldOf(dst);
    StoreRight(h, dst, n, a', b', x', s);
    ghost var d2 := FieldOf(dst);
    RightKept(h, s, d1, d2, n, a, b);
    OnlyRightTwice(h, s, d0, d1, d2);
  }

  /** The cells in two rows and two columns. */
  ghost predicate FourRight(h: Grid, s: Field, d: Field, n: int, a: int, a': int, b: int, b': int) {
    Right(h, s, d, n, a, b) && Right(h, s, d, n, a', b) && Right(h, s, d, n, a, b') && Right(h, s, d, n, a', b')
  }

  method StoreFour(h: Grid, dst: array3<real>, n: int, a: int, a': int, b: int, b': int,
                   x00: real, x10: real, x01: real, x11: real, ghost s: Field)
    requires dst.Length0 == |h.layers| && dst.Length1 == 2 * h.rows && dst.Length2 == 2 * h.cols && 0 <= n < |h.layers|
    requires 0 <= a < 2 * h.rows && 0 <= a' < 2 * h.rows && 0 <= b < 2 * h.cols && 0 <= b' < 2 * h.cols
    requires x00 == Interpolated(h, s, n, a, b) && x10 == Interpolated(h, s, n, a', b)
    requires x01 == Interpolated(h, s, n, a, b') && x11 == Interpolated(h, s, n, a', b')
    modifies dst
    ensures OnlyRight(h, s, old(FieldOf(dst)), FieldOf(dst)) && FourRight(h, s, FieldOf(dst), n, a, a', b, b')
  {
    ghost var d0 := FieldOf(dst);
    hide Interpolated, OnlyRight, FieldOf, Right;
    StoreTwo(h, dst, n, a, b, x00, a', b, x10, s);
    ghost var d1 := FieldOf(dst);
    StoreTwo(h, dst, n, a, b', x01, a', b', x11, s);
    ghost var d2 := FieldOf(dst);
    RightKept(h, s, d1, d2, n, a, b);
    RightKept(h, s, d1, d2, n, a', b);
    OnlyRightTwice(h, s, d0, d1, d2);
  }

  ghost predicate Doubled(h: Grid, dst: array3<real>, src: array3<real>) {
    && Fits(h, src) && dst != src
    && dst.Length0 == |h.layers| && dst.Length1 == 2 * h.rows && dst.Length2 == 2 * h.cols
  }

  /** The four fine cells between coarse cells (i, j) and (i + 1, j + 1). */
  method ProlongRegion(h: Grid, dst: array3<real>, src: array3<real>, n: int, i: int, j: int)
    requires Doubled(h, dst, src) && 0 <= n < |h.layers| && 0 <= i < h.rows - 1 && 0 <= j < h.cols - 1
    modifies dst
    ensures OnlyRight(h, FieldOf(src), old(FieldOf(dst)), FieldOf(dst))
    ensures FourRight(h, FieldOf(src), FieldOf(dst), n, 2 * i + 1, 2 * i + 2, 2 * j + 1, 2 * j + 2)
  {
    ghost var s := FieldOf(src);
    var s00, s10, s01, s11 := src[n, i, j], src[n, i + 1, j], src[n, i, j + 1], src[n, i + 1, j + 1];
    RegionValues(h, s, n, i, j);
    hide Interpolated, OnlyRight, FieldOf, Right;
    StoreFour(h, dst, n, 2 * i + 1, 2 * i + 2, 2 * j + 1, 2 * j + 2,
              9.0 / 16.0 * s00 + 3.0 / 16.0 * s10 + 1.0 / 16.0 * s11 + 3.0 / 16.0 * s01,
              3.0 / 16.0 * s00 + 9.0 / 16.0 * s10 + 3.0 / 16.0 * s11 + 1.0 / 16.0 * s01,
              3.0 / 16.0 * s00 + 1.0 / 16.0 * s10 + 3.0 / 16.0 * s11 + 9.0 / 16.0 * s01,
              1.0 / 16.0 * s00 + 3.0 / 16.0 * s10 + 9.0 / 16.0 * s11 + 3.0 / 16.0 * s01, s);
  }

  /** The interpolated values between four neighbouring coarse cells. */
  lemma {:induction false} RegionValues(h: Grid, s: Field, n: int, i: int, j: int)
    requires 0 <= i < h.rows - 1 && 0 <= j < h.cols - 1
    ensures Interpolated(h, s, n, 2 * i + 1, 2 * j + 1) == 9.0 / 16.0 * s(n, i, j) + 3.0 / 16.0 * s(n, i + 1, j)
               + 1.0 / 16.0 * s(n, i + 1, j + 1) + 3.0 / 16.0 * s(n, i, j + 1)
    ensures Interpolated(h, s, n, 2 * i + 2, 2 * j + 1) == 3.0 / 16.0 * s(n, i, j) + 9.0 / 16.0 * s(n, i + 1, j)
               + 3.0 / 16.0 * s(n, i + 1, j + 1) + 1.0 / 16.0 * s(n, i, j + 1)
    ensures Interpolated(h, s, n, 2 * i + 2, 2 * j + 2) == 1.0 / 16.0 * s(n, i, j) + 3.0 / 16.0 * s(n, i + 1, j)
               + 9.0 / 16.0 * s(n, i + 1, j + 1) + 3.0 / 16.0 * s(n, i, j + 1)
    ensures Interpolated(h, s, n, 2 * i + 1, 2 * j + 2) == 3.0 / 16.0 * s(n, i, j) + 1.0 / 16.0 * s(n, i + 1, j)
               + 3.0 / 16.0 * s(n, i + 1, j + 1) + 9.0 / 16.0 * s(n, i, j + 1)
  {
    assert Far(2 * i + 1) == i + 1 && Far(2 * i + 2) == i && (2 * i + 1) / 2 == i && (2 * i + 2) / 2 == i + 1;
    assert Far(2 * j + 1) == j + 1 && Far(2 * j + 2) == j && (2 * j + 1) / 2 == j && (2 * j + 2) / 2 == j + 1;
    hide Far;
  }

  ghost predicate InteriorTo(h: Grid, s: Field, d: Field, n0: int, i0: int, j0: int) {
    forall n, a, b | 0 <= n < |h.layers| && 0 < a < 2 * h.rows - 1 && 0 < b < 2 * h.cols - 1
      && Before(n, (a - 1) / 2, (b - 1) / 2, n0, i0, j0) :: Right(h, s, d, n, a, b)
  }

  lemma {:induction false} InteriorStep(h: Grid, s: Field, d: Field, d': Field, n: int, i: int, j: int)
    requires InteriorTo(h, s, d, n, i, j) && OnlyRight(h, s, d, d')
    requires FourRight(h, s, d', n, 2 * i + 1, 2 * i + 2, 2 * j + 1, 2 * j + 2)
    ensures InteriorTo(h, s, d', n, i, j + 1)
  {
    hide Interpolated;
    forall m, a, b | 0 <= m < |h.layers| && 0 < a < 2 * h.rows - 1 && 0 < b < 2 * h.cols - 1
      && Before(m, (a - 1) / 2, (b - 1) / 2, n, i, j + 1)
      ensures Right(h, s, d', m, a, b)
    {
      if Before(m, (a - 1) / 2, (b - 1) / 2, n, i, j) {
        assert Right(h, s, d, m, a, b);
      }
    }
  }

  lemma {:induction false} InteriorWrap(h: Grid, s: Field, d: Field, n: int, i: int)
    ensures InteriorTo(h, s, d, n, i, h.cols - 1) ==> InteriorTo(h, s, d, n, i + 1, 0)
    ensures InteriorTo(h, s, d, n, h.rows - 1, 0) ==> InteriorTo(h, s, d, n + 1, 0, 0)
  {
    hide Right;
  }

  /** Rim cells done: sides for rows before i0, top and bottom for columns before j0. */
  ghost predicate RimTo(h: Grid, s: Field, d: Field, n: int, i0: int, j0: int) {
    && (forall a, b | 0 <= a < 2 * i0 && (b == 0 || b == 2 * h.cols - 1) :: Right(h, s, d, n, a, b))
    && (forall a, b | 0 <= b < 2 * j0 && (a == 0 || a == 2 * h.rows - 1) :: Right(h, s, d, n, a, b))
  }

  method ProlongSides(h: Grid, dst: array3<real>, src: array3<real>, n: int, i: int)
    requires Doubled(h, dst, src) && 0 <= n < |h.layers| && 0 <= i < h.rows && h.cols > 0
    modifies dst
    ensures OnlyRight(h, FieldOf(src), old(FieldOf(dst)), FieldOf(dst))
    ensures FourRight(h, FieldOf(src), FieldOf(dst), n, 2 * i, 2 * i + 1, 0, 2 * h.cols - 1)
  {
    var nc := h.cols;
    ghost var s := FieldOf(src);
    var first, last := src[n, i, 0], src[n, i, nc - 1];
    assert first == s(n, i, 0) && last == s(n, i, nc - 1);
    assert Interpolated(h, s, n, 2 * i, 0) == first && Interpolated(h, s, n, 2 * i + 1, 0) == first;
    assert Interpolated(h, s, n, 2 * i, 2 * nc - 1) == last && Interpolated(h, s, n, 2 * i + 1, 2 * nc - 1) == last;
    hide Interpolated, OnlyRight, FieldOf, Right;
    StoreFour(h, dst, n, 2 * i, 2 * i + 1, 0, 2 * nc - 1, first, first, last, last, s);
  }

  method ProlongEnds(h: Grid, dst: array3<real>, src: array3<real>, n: int, j: int)
    requires Doubled(h, dst, src) && 0 <= n < |h.layers| && 0 <= j < h.cols && h.rows > 0
    modifies dst
    ensures OnlyRight(h, FieldOf(src), old(FieldOf(dst)), FieldOf(dst))
    ensures FourRight(h, FieldOf(src), FieldOf(dst), n, 0, 2 * h.rows - 1, 2 * j, 2 * j + 1)
  {
    var nr := h.rows;
    ghost var s := FieldOf(src);
    var first, last := src[n, 0, j], src[n, nr - 1, j];
    assert first == s(n, 0, j) && last == s(n, nr - 1, j);
    assert Interpolated(h, s, n, 0, 2 * j) == first && Interpolated(h, s, n, 0, 2 * j + 1) == first;
    assert Interpolated(h, s, n, 2 * nr - 1, 2 * j) == last && Interpolated(h, s, n, 2 * nr - 1, 2 * j + 1) == last;
    hide Interpolated, OnlyRight, FieldOf, Right;
    StoreFour(h, dst, n, 0, 2 * nr - 1, 2 * j, 2 * j + 1, first, last, first, last, s);
  }

  lemma {:induction false} RightKept(h: Grid, s: Field, d: Field, d': Field, n: int, a: int, b: int)
    requires OnlyRight(h, s, d, d') && Right(h, s, d, n, a, b)
    ensures Right(h, s, d', n, a, b)
  {
    hide Interpolated;
  }

  lemma {:induction false} OnlyRightTwice(h: Grid, s: Field, d: Field, d': Field, d'': Field)
    requires OnlyRight(h, s, d, d') && OnlyRight(h, s, d', d'')
    ensures OnlyRight(h, s, d, d'')
  {
    hide Interpolated;
    forall n, a, b ensures d''(n, a, b) == d(n, a, b) || Right(h, s, d'', n, a, b) {
      if d''(n, a, b) != d'(n, a, b) {
        assert Right(h, s, d'', n, a, b);
      } else if d'(n, a, b) != d(n, a, b) {
        assert Right(h, s, d', n, a, b);
      }
    }
  }

  method ProlongRim(h: Grid, dst: array3<real>, src: array3<real>, n: int)
    requires Doubled(h, dst, src) && 0 <= n < |h.layers| && h.rows > 0 && h.cols > 0
    modifies dst
    ensures OnlyRight(h, FieldOf(src), old(FieldOf(dst)), FieldOf(dst))
    ensures RimTo(h, FieldOf(src), FieldOf(dst), n, h.rows, h.cols)
  {
    hide Right, FieldOf;
    ghost var d0, s := FieldOf(dst), FieldOf(src);
    assert OnlyRight(h, s, d0, d0);
    for i := 0 to h.rows
      invariant FieldOf(src) == s && OnlyRight(h, s, d0, FieldOf(dst)) && RimTo(h, s, FieldOf(dst), n, i, 0)
    {
      ghost var d := FieldOf(dst);
      ProlongSides(h, dst, src, n, i);
      RimStep(h, s, d0, d, FieldOf(dst), n, i, 0, true);
    }
    for j := 0 to h.cols
      invariant FieldOf(src) == s && OnlyRight(h, s, d0, FieldOf(dst)) && RimTo(h, s, FieldOf(dst), n, h.rows, j)
    {
      ghost var d := FieldOf(dst);
      ProlongEnds(h, dst, src, n, j);
      RimStep(h, s, d0, d, FieldOf(dst), n, h.rows, j, false);
    }
  }

  lemma {:induction false} RimStep(h: Grid, s: Field, d0: Field, d: Field, d': Field, n: int, i: int, j: int, sides: bool)
    requires OnlyRight(h, s, d0, d) && OnlyRight(h, s, d, d') && RimTo(h, s, d, n, i, j)
    requires sides ==> FourRight(h, s, d', n, 2 * i, 2 * i + 1, 0, 2 * h.cols - 1)
    requires !sides ==> FourRight(h, s, d', n, 0, 2 * h.rows - 1, 2 * j, 2 * j + 1)
    ensures OnlyRight(h, s, d0, d')
    ensures if sides then RimTo(h, s, d', n, i + 1, j) else RimTo(h, s, d', n, i, j + 1)
  {
    OnlyRightTwice(h, s, d0, d, d');
    forall a, b | Right(h, s, d, n, a, b) ensures Right(h, s, d', n, a, b) {
      RightKept(h, s, d, d', n, a, b);
    }
    hide Right;
  }

  /** Interpolates a coarse field to the grid with twice the rows and columns: every
      fine cell gets its value, interior cells from four coarse cells. */
  method MultigridProlongTemp(h: Grid, dst: array3<real>, src: array3<real>)
    requires Doubled(h, dst, src) && h.rows > 0 && h.cols > 0
    modifies dst
    ensures IsProlongation(h, FieldOf(src), FieldOf(dst))
  {
    hide Right, FieldOf;
    ghost var s := FieldOf(src);
    for n := 0 to |h.layers|
      invariant FieldOf(src) == s && InteriorTo(h, s, FieldOf(dst), n, 0, 0)
    {
      for i := 0 to h.rows - 1
        invariant FieldOf(src) == s && InteriorTo(h, s, FieldOf(dst), n, i, 0)
      {
        for j := 0 to h.cols - 1
          invariant FieldOf(src) == s && InteriorTo(h, s, FieldOf(dst), n, i, j)
        {
          ghost var d := FieldOf(dst);
          ProlongRegion(h, dst, src, n, i, j);
          InteriorStep(h, s, d, FieldOf(dst), n, i, j);
        }
        InteriorWrap(h, s, FieldOf(dst), n, i);
      }
      InteriorWrap(h, s, FieldOf(dst), n, 0);
    }
    ghost var inner := FieldOf(dst);
    for n := 0 to |h.layers|
      invariant FieldOf(src) == s && OnlyRight(h, s, inner, FieldOf(dst))
      invariant forall m | 0 <= m < n :: RimTo(h, s, FieldOf(dst), m, h.rows, h.cols)
    {
      ghost var d := FieldOf(dst);
      ProlongRim(h, dst, src, n);
      RimsKept(h, s, inner, d, FieldOf(dst), n);
    }
    AllRight(h, s, inner, FieldOf(dst));
  }

  lemma {:induction false} RimsKept(h: Grid, s: Field, d0: Field, d: Field, d': Field, n: int)
    requires OnlyRight(h, s, d0, d) && OnlyRight(h, s, d, d')
    requires forall m | 0 <= m < n :: RimTo(h, s, d, m, h.rows, h.cols)
    ensures OnlyRight(h, s, d0, d')
    ensures forall m | 0 <= m < n :: RimTo(h, s, d', m, h.rows, h.cols)
  {
    OnlyRightTwice(h, s, d0, d, d');
    forall m, a, b | Right(h, s, d, m, a, b) ensures Right(h, s, d', m, a, b) {
      RightKept(h, s, d, d', m, a, b);
    }
    forall m | 0 <= m < n ensures RimTo(h, s, d', m, h.rows, h.cols) {
      assert RimTo(h, s, d, m, h.rows, h.cols);
      hide Right;
    }
  }

  lemma {:induction false} AllRight(h: Grid, s: Field, inner: Field, d: Field)
    requires InteriorTo(h, s, inner, |h.layers|, 0, 0) && OnlyRight(h, s, inner, d)
    requires forall m | 0 <= m < |h.layers| :: RimTo(h, s, d, m, h.rows, h.cols)
    ensures IsProlongation(h, s, d)
  {
    hide Interpolated;
    forall n, a, b | 0 <= n < |h.layers| && 0 <= a < 2 * h.rows && 0 <= b < 2 * h.cols
      ensures d(n, a, b) == Interpolated(h, s, n, a, b)
    {
      if 0 < a < 2 * h.rows - 1 && 0 < b < 2 * h.cols - 1 {
        assert Before(n, (a - 1) / 2, (b - 1) / 2, |h.layers|, 0, 0);
        assert Right(h, s, inner, n, a, b);
      } else {
        assert RimTo(h, s, d, n, h.rows, h.cols);
        assert Right(h, s, d, n, a, b);
      }
    }
  }

  // ---- the recursive solver ----

  ghost predicate PowerOfTwo(n: nat) {
    n == 1 || (n > 0 && n % 2 == 0 && PowerOfTwo(n / 2))
  }

  lemma {:induction false} SteadySame(g: Grid, p: Field, u: Field, v: Field)
    requires g.Positive() && Steady(g, p, u) && forall n, i, j :: v(n, i, j) == u(n, i, j)
    ensures Steady(g, p, v)
  {
    hide Times, North, South, East, West, Above, Below, Sink;
    forall n, i, j | g.Cell(n, i, j) ensures Balanced(g, p, v, n, i, j) {
      assert Balanced(g, p, u, n, i, j);
    }
  }

  /** What one sweep means for the loop that repeats it. */
  lemma {:induction false} SweepDone(g: Grid, p: Field, v: Field, v': Field, delta: real)
    requires g.Positive() && IsSweep(g, p, v, v') && LargestChange(g, v, v', delta)
    ensures Eq(delta, 0.0) ==> ResidualAtMost(g, p, v', DELTA)
    ensures AtMost(g, Uniform(0.0), p) && AtMost(g, Uniform(g.ambient), v) ==> AtMost(g, Uniform(g.ambient), v')
    ensures Steady(g, p, v) ==> delta == 0.0 && SameCells(g, v, v')
  {
    hide IsSweep, Steady, ResidualAtMost;
    if Eq(delta, 0.0) {
      assert ChangedAtMost(g, v, v', DELTA);
      SweepResidual(g, p, v, v', DELTA);
    }
    if AtMost(g, Uniform(0.0), p) && AtMost(g, Uniform(g.ambient), v) {
      SweepAboveAmbient(g, p, v, v');
    }
    SweepUnchangedIffSteady(g, p, v, v');
    LargestZero(g, v, v', delta);
  }

  /** Sweeps until the largest change is within tolerance of zero, or the allowance of
      further sweeps is used up. */
  method SweepUntilStill(g: Grid, power: array3<real>, temp: array3<real>, allowance: nat) returns (converged: bool)
    requires g.Positive() && Fits(g, power) && Fits(g, temp) && power != temp
    modifies temp
    ensures converged ==> ResidualAtMost(g, FieldOf(power), FieldOf(temp), DELTA)
    ensures AtMost(g, Uniform(0.0), FieldOf(power)) && AtMost(g, Uniform(g.ambient), old(FieldOf(temp)))
            ==> AtMost(g, Uniform(g.ambient), FieldOf(temp))
    ensures Steady(g, FieldOf(power), old(FieldOf(temp))) ==> converged && Steady(g, FieldOf(power), FieldOf(temp))
  {
    hide FieldOf, IsSweep, LargestChange, ResidualAtMost, Steady, AtMost;
    ghost var p, v0 := FieldOf(power), FieldOf(temp);
    var delta := SingleIterationSteadyGrid(g, power, temp);
    SweepDone(g, p, v0, FieldOf(temp), delta);
    if Steady(g, p, v0) {
      SteadyKept(g, p, v0, temp);
    }
    var left := allowance;
    while left > 0 && !Eq(delta, 0.0)
      invariant FieldOf(power) == p
      invariant Eq(delta, 0.0) ==> ResidualAtMost(g, p, FieldOf(temp), DELTA)
      invariant AtMost(g, Uniform(0.0), p) && AtMost(g, Uniform(g.ambient), v0) ==> AtMost(g, Uniform(g.ambient), FieldOf(temp))
      invariant Steady(g, p, v0) ==> delta == 0.0 && Steady(g, p, FieldOf(temp))
    {
      ghost var v := FieldOf(temp);
      delta := SingleIterationSteadyGrid(g, power, temp);
      SweepDone(g, p, v, FieldOf(temp), delta);
      left := left - 1;
    }
    converged := Eq(delta, 0.0);
  }

  lemma {:induction false} SteadyKept(g: Grid, p: Field, v0: Field, temp: array3<real>)
    requires g.Positive() && Fits(g, temp) && Steady(g, p, v0) && SameCells(g, v0, FieldOf(temp))
    requires forall n, i, j | !g.Cell(n, i, j) :: v0(n, i, j) == 0.0
    ensures Steady(g, p, FieldOf(temp))
  {
    hide Steady;
    var v := FieldOf(temp);
    forall n, i, j ensures v(n, i, j) == v0(n, i, j) {
      if g.Cell(n, i, j) { assert v(n, i, j) == v0(n, i, j); }
    }
    SteadySame(g, p, v0, v);
  }

  class GridModel {
    var rows: nat
    var cols: nat
    const layers: array<Layer>
    const ambient: real
    const cReady: bool

    constructor (rows: nat, cols: nat, layers: array<Layer>, ambient: real, cReady: bool)
      ensures this.rows == rows && this.cols == cols && this.layers == layers
      ensures this.ambient == ambient && this.cReady == cReady
    {
      this.rows, this.cols, this.layers, this.ambient, this.cReady := rows, cols, layers, ambient, cReady;
    }

    /** The current size and layer constants. */
    function Shape(): Grid
      reads this, layers
    {
      Grid(rows, cols, layers[..], ambient)
    }

    method Coarsen()
      modifies this`rows, this`cols, layers
      ensures Shape() == Coarse(old(Shape()), cReady)
    {
      ghost var g := Shape();
      rows, cols := rows / 2, cols / 2;
      for n := 0 to layers.Length
        invariant rows == g.rows / 2 && cols == g.cols / 2
        invariant forall m | 0 <= m < n :: layers[m] == CoarseLayer(g.layers[m], cReady)
        invariant forall m | n <= m < layers.Length :: layers[m] == g.layers[m]
      {
        layers[n] := layers[n].(rz := layers[n].rz / 4.0);
        if cReady {
          layers[n] := layers[n].(c := layers[n].c * 4.0);
        }
      }
    }

    /** Undoes Coarsen on a grid of even size. */
    method Refine(ghost g: Grid)
      requires Shape() == Coarse(g, cReady) && g.rows % 2 == 0 && g.cols % 2 == 0
      modifies this`rows, this`cols, layers
      ensures Shape() == g
    {
      ghost var h := Shape();
      rows, cols := 2 * rows, 2 * cols;
      for n := 0 to layers.Length
        invariant rows == g.rows && cols == g.cols
        invariant forall m | 0 <= m < n :: layers[m] == g.layers[m]
        invariant forall m | n <= m < layers.Length :: layers[m] == h.layers[m]
      {
        assert h.layers[n] == CoarseLayer(g.layers[n], cReady);
        layers[n] := layers[n].(rz := layers[n].rz * 4.0);
        if cReady {
          layers[n] := layers[n].(c := layers[n].c / 4.0);
        }
      }
    }

    /** Solves on the grid of half the size first and starts from its interpolated
        solution. The model is as before when it returns, whatever was changed meanwhile. */
    method RecursiveMultigrid(power: array3<real>, temp: array3<real>, allowance: nat) returns (converged: bool)
      requires Shape().Positive() && layers.Length > 0 && PowerOfTwo(rows) && PowerOfTwo(cols)
      requires Fits(Shape(), power) && Fits(Shape(), temp) && power != temp
      modifies this`rows, this`cols, layers, temp
      ensures Shape() == old(Shape())
      ensures converged ==> ResidualAtMost(Shape(), FieldOf(power), FieldOf(temp), DELTA)
      ensures AtMost(Shape(), Uniform(0.0), FieldOf(power)) ==> AtMost(Shape(), Uniform(ambient), FieldOf(temp))
      ensures rows == 1 && cols == 1 ==> converged && Steady(Shape(), FieldOf(power), FieldOf(temp))
      decreases rows
    {
      var g := Shape();
      ghost var p := FieldOf(power);
      var coarse := true;
      if g.rows <= 1 || g.cols <= 1 {
        SetHeuristicTemp(g, power, temp);
        HeuristicStart(g, p, FieldOf(temp));
      } else {
        coarse := SolveCoarse(g, power, temp, allowance);
      }
      hide FieldOf, AtMost, Steady, ResidualAtMost, IsHeuristic;
      converged := SweepUntilStill(g, power, temp, allowance);
      converged := converged && coarse;
    }

    /** The branch for grids that can be halved. */
    method SolveCoarse(g: Grid, power: array3<real>, temp: array3<real>, allowance: nat) returns (converged: bool)
      requires Shape() == g && g.Positive() && layers.Length > 0
      requires g.rows > 1 && g.cols > 1 && PowerOfTwo(g.rows) && PowerOfTwo(g.cols)
      requires Fits(g, power) && Fits(g, temp) && power != temp
      modifies this`rows, this`cols, layers, temp
      ensures Shape() == g
      ensures AtMost(g, Uniform(0.0), FieldOf(power)) ==> AtMost(g, Uniform(g.ambient), FieldOf(temp))
      decreases g.rows, 0
    {
      hide FieldOf, AtMost, ResidualAtMost, IsRestriction, IsProlongation, Grid.Positive;
      ghost var p := FieldOf(power);
      Coarsen();
      var h := Shape();
      var coarsePower := new real[|h.layers|, h.rows, h.cols]((n, i, j) => 0.0);
      var coarseTemp := new real[|h.layers|, h.rows, h.cols]((n, i, j) => 0.0);
      MultigridRestrictPower(h, coarsePower, power);
      if AtMost(g, Uniform(0.0), p) {
        RestrictionNonnegative(g, h, p, FieldOf(coarsePower));
      }
      converged := RecursiveMultigrid(coarsePower, coarseTemp, allowance);
      MultigridProlongTemp(h, temp, coarseTemp);
      if AtMost(h, Uniform(h.ambient), FieldOf(coarseTemp)) {
        ProlongationAboveAmbient(g, h, FieldOf(coarseTemp), FieldOf(temp));
      }
      Refine(g);
    }
  }

  lemma {:induction false} HeuristicStart(g: Grid, p: Field, v: Field)
    requires g.Positive() && IsHeuristic(g, p, v)
    ensures AtMost(g, Uniform(0.0), p) ==> AtMost(g, Uniform(g.ambient), v)
    ensures g.rows == 1 && g.cols == 1 ==> Steady(g, p, v)
  {
    hide IsHeuristic, Steady;
    if AtMost(g, Uniform(0.0), p) {
      HeuristicAboveAmbient(g, p, v);
    }
    if g.rows == 1 && g.cols == 1 {
      HeuristicExact(g, p, v);
    }
  }
}
