/** Compressed columns: converting a list of coordinates and multiplying in place. */
module SparseMatrix {
  import opened Sums

  /** One nonzero: row x, column y. */
  datatype Element = Element(x: int, y: int, val: real)

  predicate Before(a: Element, b: Element) {
    a.y < b.y || (a.y == b.y && a.x <= b.x)
  }

  ghost predicate InOrder(s: seq<Element>) {
    forall i, j | 0 <= i < j < |s| :: Before(s[i], s[j])
  }

  /** What the library's sorting routine promises. */
  ghost predicate Sorts(sort: seq<Element> -> seq<Element>) {
    forall s: seq<Element> :: SortedCopy(s, sort(s))
  }

  ghost predicate SortedCopy(s: seq<Element>, t: seq<Element>) {
    InOrder(t) && multiset(t) == multiset(s)
  }

  // ---- what the formats stand for ----

  ghost function ValueAt(s: seq<Element>, r: int, c: int): int -> real {
    k => if 0 <= k < |s| && s[k].x == r && s[k].y == c then s[k].val else 0.0
  }

  /** The matrix entry a coordinate list stands for; duplicates add up. */
  ghost function CooEntry(s: seq<Element>, r: int, c: int): real {
    Sum(ValueAt(s, r, c), |s|)
  }

  ghost function RowValue(rows: seq<int>, vals: seq<real>, r: int): int -> real {
    k => if 0 <= k < |rows| && k < |vals| && rows[k] == r then vals[k] else 0.0
  }

  /** The matrix entry of compressed columns: the row's values between two pointers. */
  ghost function CscEntry(rows: seq<int>, cols: seq<int>, vals: seq<real>, r: int, c: int): real
    requires 0 <= c < |cols| - 1 && 0 <= cols[c] && 0 <= cols[c+1]
  {
    Sum(RowValue(rows, vals, r), cols[c+1]) - Sum(RowValue(rows, vals, r), cols[c])
  }

  /** Elements before position b are in columns before c, the others are not. */
  ghost predicate Starts(s: seq<Element>, c: int, b: int) {
    && 0 <= b <= |s|
    && (forall p | 0 <= p < b :: s[p].y < c)
    && (forall p | b <= p < |s| :: s[p].y >= c)
  }

  /** The last column with an element; -1 if there is none. */
  function LastColumn(s: seq<Element>): int {
    if s == [] then -1 else s[|s|-1].y
  }

  // ---- sums of permuted lists ----

  lemma {:induction false} RemoveOne(s: seq<Element>, i: nat, r: int, c: int)
    requires i < |s|
    ensures CooEntry(s, r, c) == CooEntry(s[..i] + s[i+1..], r, c) + ValueAt(s, r, c)(i)
  {
    var t := s[..i] + s[i+1..];
    PrefixShift(s, t, i, |t|, r, c);
  }

  lemma {:induction false} PrefixShift(s: seq<Element>, t: seq<Element>, i: nat, k: nat, r: int, c: int)
    requires i < |s| && t == s[..i] + s[i+1..] && k <= |t|
    ensures k <= i ==> Sum(ValueAt(t, r, c), k) == Sum(ValueAt(s, r, c), k)
    ensures k >= i ==> Sum(ValueAt(t, r, c), k) + ValueAt(s, r, c)(i) == Sum(ValueAt(s, r, c), k + 1)
  {
    if k > 0 {
      PrefixShift(s, t, i, k - 1, r, c);
    }
  }

  /** The order of a coordinate list does not matter. */
  lemma {:induction false} PermutedEntry(s: seq<Element>, t: seq<Element>, r: int, c: int)
    requires multiset(s) == multiset(t)
    ensures CooEntry(s, r, c) == CooEntry(t, r, c)
    decreases |s|
  {
    hide CooEntry, ValueAt;
    if s == [] {
      assert |multiset(s)| == |multiset(t)|;
      assert s == t;
    } else {
      var i := SameLast(s, t);
      var s', t' := s[..|s|-1], t[..i] + t[i+1..];
      PermutedEntry(s', t', r, c);
      RemoveOne(s, |s| - 1, r, c);
      assert s[..|s|-1] + s[|s|-1+1..] == s';
      RemoveOne(t, i, r, c);
      SameValue(s, t, |s| - 1, i, r, c);
    }
  }

  lemma {:induction false} SameValue(s: seq<Element>, t: seq<Element>, i: nat, j: nat, r: int, c: int)
    requires i < |s| && j < |t| && s[i] == t[j]
    ensures ValueAt(s, r, c)(i) == ValueAt(t, r, c)(j)
  {
  }

  /** Where a permutation has the last element, and that the rest is one again. */
  lemma {:induction false} SameLast(s: seq<Element>, t: seq<Element>) returns (i: nat)
    requires s != [] && multiset(s) == multiset(t)
    ensures i < |t| && t[i] == s[|s|-1] && multiset(s[..|s|-1]) == multiset(t[..i] + t[i+1..])
  {
    var e := s[|s|-1];
    assert e in multiset(t);
    i :| 0 <= i < |t| && t[i] == e;
    DropOne(s, |s| - 1);
    assert s[..|s|-1] + s[|s|-1+1..] == s[..|s|-1];
    DropOne(t, i);
  }

  lemma {:induction false} DropOne(s: seq<Element>, i: nat)
    requires i < |s|
    ensures multiset(s[..i] + s[i+1..]) == multiset(s) - multiset{s[i]}
  {
    assert s == s[..i] + [s[i]] + s[i+1..];
  }

  // ---- columns ----

  /** Between two column starts lie exactly the elements of the column. */
  lemma {:induction false} ColumnSum(s: seq<Element>, rows: seq<int>, vals: seq<real>, r: int, c: int, a: nat, b: nat, k: nat)
    requires Starts(s, c, a) && Starts(s, c + 1, b) && k <= |s| <= |rows| && |s| <= |vals|
    requires forall i | 0 <= i < |s| :: rows[i] == s[i].x && vals[i] == s[i].val
    ensures a <= b
    ensures Sum(ValueAt(s, r, c), k) == Sum(RowValue(rows, vals, r), if k < a then a else if k > b then b else k)
                                      - Sum(RowValue(rows, vals, r), a)
  {
    assert a > 0 ==> s[a-1].y < c;
    assert a > 0 ==> a - 1 < b;
    if k > 0 { ColumnSum(s, rows, vals, r, c, a, b, k - 1); }
  }

  /** The compressed columns that were written denote the coordinate list's columns. */
  lemma {:induction false} CscDenotesCoo(coo: seq<Element>, s: seq<Element>, rows: seq<int>, cols: seq<int>, vals: seq<real>, r: int, c: int)
    requires SortedCopy(coo, s) && 0 <= c < |cols| - 1 && Starts(s, c, cols[c]) && Starts(s, c + 1, cols[c+1])
    requires |s| <= |rows| && |s| <= |vals| && forall i | 0 <= i < |s| :: rows[i] == s[i].x && vals[i] == s[i].val
    ensures CscEntry(rows, cols, vals, r, c) == CooEntry(coo, r, c)
  {
    PermutedEntry(coo, s, r, c);
    ColumnSum(s, rows, vals, r, c, cols[c], cols[c+1], |s|);
  }

  /** Columns after the last one with an element are zero. */
  lemma {:induction false} LaterColumnsEmpty(coo: seq<Element>, s: seq<Element>, r: int, c: int)
    requires SortedCopy(coo, s) && c > LastColumn(s)
    ensures CooEntry(coo, r, c) == 0.0
  {
    PermutedEntry(coo, s, r, c);
    forall k | 0 <= k < |s| ensures ValueAt(s, r, c)(k) == 0.0 {
      if k < |s| - 1 { assert Before(s[k], s[|s|-1]); }
    }
    SumZero(ValueAt(s, r, c), |s|);
  }

  ghost predicate HasColumn(s: seq<Element>, c: int) {
    exists k :: 0 <= k < |s| && s[k].y == c
  }

  /** The last pointer written is the one after the last column exactly when that column
      has an element. */
  lemma {:induction false} AllPointersIff(coo: seq<Element>, s: seq<Element>, size: nat)
    requires SortedCopy(coo, s) && forall k | 0 <= k < |coo| :: 0 <= coo[k].y < size
    ensures -1 <= LastColumn(s) < size
    ensures LastColumn(s) + 1 == size <==> size == 0 || HasColumn(coo, size - 1)
  {
    assert |multiset(coo)| == |multiset(s)|;
    forall k | 0 <= k < |s| ensures s[k] in coo && 0 <= s[k].y < size {
      assert s[k] in multiset(s);
      assert s[k] in multiset(coo);
    }
    if HasColumn(coo, size - 1) {
      var k :| 0 <= k < |coo| && coo[k].y == size - 1;
      assert coo[k] in multiset(coo);
      assert coo[k] in multiset(s);
      var i :| 0 <= i < |s| && s[i] == coo[k];
      if i < |s| - 1 { assert Before(s[i], s[|s|-1]); }
    }
    if LastColumn(s) + 1 == size && size > 0 {
      var i :| 0 <= i < |coo| && coo[i] == s[|s|-1];
      assert HasColumn(coo, size - 1);
    }
  }

  /** The same position twice. */
  ghost predicate Repeats(s: seq<Element>) {
    exists i, j :: 0 <= i < j < |s| && s[i].x == s[j].x && s[i].y == s[j].y
  }

  lemma {:induction false} TwiceIn(s: seq<Element>, i: nat, j: nat)
    requires i < j < |s| && s[i] == s[j]
    ensures multiset(s)[s[i]] >= 2
  {
    var e, a, b := s[i], s[..j], s[j..];
    assert a[i] == e && b[0] == e;
    assert s == a + b;
    assert multiset(s) == multiset(a) + multiset(b);
    assert e in multiset(a) && e in multiset(b);
  }

  lemma {:induction false} TwoOf(s: seq<Element>, e: Element) returns (i: nat, j: nat)
    requires multiset(s)[e] >= 2
    ensures i < j < |s| && s[i] == s[j] == e
  {
    assert e in multiset(s);
    j :| 0 <= j < |s| && s[j] == e;
    var t := s[..j] + s[j+1..];
    WithoutOne(s, j, t);
    assert e in multiset(t);
    var q :| 0 <= q < |t| && t[q] == e;
    i := if q < j then q else q + 1;
    assert s[i] == t[q];
    if i > j { i, j := j, i; }
  }

  lemma {:induction false} WithoutOne(s: seq<Element>, j: nat, t: seq<Element>)
    requires j < |s| && t == s[..j] + s[j+1..]
    ensures multiset(t) == multiset(s) - multiset{s[j]}
  {
    assert s == s[..j] + [s[j]] + s[j+1..];
  }

  /** Reordering neither makes nor removes a repeated position. */
  lemma {:induction false} PermutedRepeats(coo: seq<Element>, s: seq<Element>)
    requires multiset(coo) == multiset(s) && Repeats(s)
    ensures Repeats(coo)
  {
    var i, j :| 0 <= i < j < |s| && s[i].x == s[j].x && s[i].y == s[j].y;
    if s[i] == s[j] {
      TwiceIn(s, i, j);
      var k, m := TwoOf(coo, s[i]);
      assert coo[k].x == coo[m].x && coo[k].y == coo[m].y;
    } else {
      assert s[i] in multiset(s) && s[j] in multiset(s);
      assert s[i] in multiset(coo) && s[j] in multiset(coo);
      var k :| 0 <= k < |coo| && coo[k] == s[i];
      var m :| 0 <= m < |coo| && coo[m] == s[j];
      if k < m { assert coo[k].x == coo[m].x && coo[k].y == coo[m].y; }
      else { assert coo[m].x == coo[k].x && coo[m].y == coo[k].y; }
    }
  }

  // ---- in place ----

  /** Copies the coordinate arrays into a list of elements. */
  method Elements(nnz: nat, cooX: array<int>, cooY: array<int>, cooV: array<real>) returns (s: seq<Element>)
    requires nnz <= cooX.Length && nnz <= cooY.Length && nnz <= cooV.Length
    ensures s == ElementsOf(cooX[..], cooY[..], cooV[..], nnz)
  {
    s := [];
    for i := 0 to nnz
      invariant |s| == i && forall k | 0 <= k < i :: s[k] == Element(cooX[k], cooY[k], cooV[k])
    {
      s := s + [Element(cooX[i], cooY[i], cooV[i])];
    }
  }

  function ElementsOf(xs: seq<int>, ys: seq<int>, vs: seq<real>, nnz: nat): (s: seq<Element>)
    requires nnz <= |xs| && nnz <= |ys| && nnz <= |vs|
    ensures |s| == nnz && forall k | 0 <= k < nnz :: s[k] == Element(xs[k], ys[k], vs[k])
  {
    seq(nnz, k requires 0 <= k < nnz => Element(xs[k], ys[k], vs[k]))
  }

  /** Sorted copies of the rows and values, and the start of every column up to the one
      after the last that has an element; pointers after that are left alone. */
  ghost predicate Compressed(s: seq<Element>, rows: seq<int>, cols0: seq<int>, cols: seq<int>, vals: seq<real>)
  {
    && |s| <= |rows| && |s| <= |vals| && |cols| == |cols0|
    && (forall i | 0 <= i < |s| :: rows[i] == s[i].x && vals[i] == s[i].val)
    && LastColumn(s) + 1 < |cols|
    && (forall c | 0 <= c <= LastColumn(s) + 1 :: Starts(s, c, cols[c]))
    && (forall c | 0 <= c < |cols| && LastColumn(s) + 1 < c :: cols[c] == cols0[c])
  }

  /** Starts columns up to y at position i. */
  method StartColumns(colPtr: array<int>, j: int, y: int, i: nat, ghost s: seq<Element>) returns (j': int)
    requires i < |s| && y == s[i].y && -1 <= j <= y < colPtr.Length && InOrder(s)
    requires forall p | 0 <= p < i :: s[p].y <= j
    modifies colPtr
    ensures j' == y
    ensures forall c | j < c <= y :: Starts(s, c, colPtr[c])
    ensures forall c | 0 <= c < colPtr.Length && !(j < c <= y) :: colPtr[c] == old(colPtr[c])
  {
    j' := j;
    while j' < y
      invariant j <= j' <= y
      invariant forall c | j < c <= j' :: Starts(s, c, colPtr[c])
      invariant forall c | 0 <= c < colPtr.Length && !(j < c <= j') :: colPtr[c] == old(colPtr[c])
    {
      j' := j' + 1;
      colPtr[j'] := i;
      forall p | i <= p < |s| ensures s[p].y >= j' {
        if p > i { assert Before(s[i], s[p]); }
      }
    }
  }

  lemma {:induction false} RepeatAdjacent(s: seq<Element>, i: nat, j: nat)
    requires InOrder(s) && i < j < |s| && s[i].x == s[j].x && s[i].y == s[j].y
    ensures s[j-1].x == s[j].x && s[j-1].y == s[j].y
  {
    if i < j - 1 {
      assert Before(s[i], s[j-1]) && Before(s[j-1], s[j]);
    }
  }

  /** Converts coordinates to compressed columns; tells whether a position occurred twice. */
  method Coo2Csc(size: nat, nnz: nat, cooX: array<int>, cooY: array<int>, cooV: array<real>,
                 cscRowInd: array<int>, cscColPtr: array<int>, cscV: array<real>, sort: seq<Element> -> seq<Element>)
    returns (repeats: bool, ghost s: seq<Element>)
    requires nnz <= cooX.Length && nnz <= cooY.Length && nnz <= cooV.Length
    requires nnz <= cscRowInd.Length && nnz <= cscV.Length && size + 1 == cscColPtr.Length && Sorts(sort)
    requires forall k | 0 <= k < nnz :: 0 <= cooX[k] && 0 <= cooY[k] < size
    requires {cscRowInd, cscColPtr} !! {cooX, cooY} && cscRowInd != cscColPtr && cscV != cooV
    modifies cscRowInd, cscColPtr, cscV
    ensures SortedCopy(ElementsOf(cooX[..], cooY[..], cooV[..], nnz), s)
    ensures Compressed(s, cscRowInd[..], old(cscColPtr[..]), cscColPtr[..], cscV[..])
    ensures repeats <==> Repeats(s)
  {
    var coo := Elements(nnz, cooX, cooY, cooV);
    var sorted := sort(coo);
    s := sorted;
    assert SortedCopy(coo, s);
    SortedRange(coo, s, size);
    assert |multiset(s)| == |multiset(coo)|;
    hide SortedCopy, Sorts, ElementsOf, Compressed, Repeats, InOrder;
    repeats := EmitColumns(size, sorted, cscRowInd, cscColPtr, cscV);
  }

  /** Copies sorted elements out column by column. */
  method EmitColumns(size: nat, s: seq<Element>, cscRowInd: array<int>, cscColPtr: array<int>, cscV: array<real>)
    returns (repeats: bool)
    requires |s| <= cscRowInd.Length && |s| <= cscV.Length && size + 1 == cscColPtr.Length && cscRowInd != cscColPtr
    requires InOrder(s) && forall k | 0 <= k < |s| :: 0 <= s[k].x && 0 <= s[k].y < size
    modifies cscRowInd, cscColPtr, cscV
    ensures Compressed(s, cscRowInd[..], old(cscColPtr[..]), cscColPtr[..], cscV[..])
    ensures repeats <==> Repeats(s)
  {
    ghost var cols0 := cscColPtr[..];
    var j, prevX, prevY := -1, -1, -1;
    repeats := false;
    assert !Repeats(s[..0]);
    hide Repeats;
    for i := 0 to |s|
      invariant -1 <= j < size && j == LastColumn(s[..i])
      invariant i > 0 ==> prevX == s[i-1].x && prevY == s[i-1].y
      invariant i == 0 ==> prevX == -1
      invariant repeats <==> Repeats(s[..i])
      invariant forall p | 0 <= p < i :: s[p].y <= j && cscRowInd[p] == s[p].x && cscV[p] == s[p].val
      invariant forall c | 0 <= c <= j :: Starts(s, c, cscColPtr[c])
      invariant forall c | j < c <= size :: cscColPtr[c] == cols0[c]
    {
      cscRowInd[i] := s[i].x;
      cscV[i] := s[i].val;
      if i > 0 { assert Before(s[i-1], s[i]); }
      j := StartColumns(cscColPtr, j, s[i].y, i, s);
      if s[i].x == prevX && s[i].y == prevY {
        repeats := true;
      }
      RepeatsNext(s, i);
      prevX, prevY := s[i].x, s[i].y;
    }
    assert s[..|s|] == s;
    assert Starts(s, j + 1, |s|);
    cscColPtr[j + 1] := |s|;
  }

  lemma {:induction false} RepeatsNext(s: seq<Element>, i: nat)
    requires InOrder(s) && i < |s|
    ensures Repeats(s[..i+1]) <==> Repeats(s[..i]) || (i > 0 && s[i].x == s[i-1].x && s[i].y == s[i-1].y)
  {
    var a, b := s[..i], s[..i+1];
    if Repeats(b) {
      var p, q :| 0 <= p < q < |b| && b[p].x == b[q].x && b[p].y == b[q].y;
      if q == i {
        RepeatAdjacent(s, p, q);
      } else {
        assert a[p].x == a[q].x && a[p].y == a[q].y;
      }
    }
    if Repeats(a) {
      var p, q :| 0 <= p < q < |a| && a[p].x == a[q].x && a[p].y == a[q].y;
      assert b[p].x == b[q].x && b[p].y == b[q].y;
    }
    if i > 0 && s[i].x == s[i-1].x && s[i].y == s[i-1].y {
      assert b[i-1].x == b[i].x && b[i-1].y == b[i].y;
    }
  }

  lemma {:induction false} SortedRange(coo: seq<Element>, s: seq<Element>, size: nat)
    requires SortedCopy(coo, s) && forall k | 0 <= k < |coo| :: 0 <= coo[k].x && 0 <= coo[k].y < size
    ensures InOrder(s) && forall k | 0 <= k < |s| :: 0 <= s[k].x && 0 <= s[k].y < size
  {
    forall k | 0 <= k < |s| ensures 0 <= s[k].x && 0 <= s[k].y < size {
      assert s[k] in multiset(s);
      assert s[k] in multiset(coo);
    }
  }

  /** What conversion gives: every column up to the last nonempty one denotes the same
      entries, and all later columns are zero. All pointers are there exactly when the
      last column has an element. */
  lemma {:induction false} ConversionDenotes(coo: seq<Element>, s: seq<Element>, rows: seq<int>, cols0: seq<int>, cols: seq<int>,
                                             vals: seq<real>, size: nat, r: int, c: nat)
    requires SortedCopy(coo, s) && Compressed(s, rows, cols0, cols, vals) && |cols| == size + 1 && c < size
    requires forall k | 0 <= k < |coo| :: 0 <= coo[k].y < size
    ensures c <= LastColumn(s) ==> 0 <= cols[c] && 0 <= cols[c+1] && CscEntry(rows, cols, vals, r, c) == CooEntry(coo, r, c)
    ensures c > LastColumn(s) ==> CooEntry(coo, r, c) == 0.0
    ensures LastColumn(s) == size - 1 <==> HasColumn(coo, size - 1)
  {
    AllPointersIff(coo, s, size);
    hide SortedCopy;
    if c <= LastColumn(s) {
      CscDenotesCoo(coo, s, rows, cols, vals, r, c);
    } else {
      LaterColumnsEmpty(coo, s, r, c);
    }
  }

  /** A concrete case: all elements in the first of two columns. Conversion of any arrays
      leaves the last pointer as it was. */
  lemma {:induction false} UnsetPointerExample(rows: seq<int>, cols0: seq<int>, cols: seq<int>, vals: seq<real>)
    requires Compressed([Element(0, 0, 1.0)], rows, cols0, cols, vals) && |cols| == 3
    ensures SortedCopy([Element(0, 0, 1.0)], [Element(0, 0, 1.0)])
    ensures cols == [0, 1, cols0[2]]
  {
    var s := [Element(0, 0, 1.0)];
    assert LastColumn(s) == 0 && s[0].y == 0;
    assert Starts(s, 0, cols[0]) && Starts(s, 1, cols[1]);
  }

  // ---- multiplication ----

  ghost function ValuesOf(x: seq<real>): int -> real {
    i => if 0 <= i < |x| then x[i] else 0.0
  }

  ghost predicate Columns(cols: seq<int>, n: nat, nnz: nat) {
    |cols| == n + 1 && forall c | 0 <= c < n :: ColumnAt(cols, c, nnz)
  }

  ghost predicate ColumnAt(cols: seq<int>, c: nat, nnz: nat)
    requires c < |cols| - 1
  {
    0 <= cols[c] <= cols[c+1] <= nnz
  }

  ghost function ProductTerm(rows: seq<int>, cols: seq<int>, vals: seq<real>, r: int, x: int -> real): int -> real {
    c => if 0 <= c < |cols| - 1 && 0 <= cols[c] && 0 <= cols[c+1] then Times(CscEntry(rows, cols, vals, r, c), x(c)) else 0.0
  }

  /** Adds one column times a factor to the result. */
  method AddColumn(result: array<real>, asub: array<int>, a: array<real>, lo: nat, hi: nat, factor: real)
    requires lo <= hi <= asub.Length && hi <= a.Length && result != a
    requires forall p | lo <= p < hi :: 0 <= asub[p] < result.Length
    modifies result
    ensures forall r | 0 <= r < result.Length ::
        result[r] == old(result[r]) + Times(Sum(RowValue(asub[..], a[..], r), hi) - Sum(RowValue(asub[..], a[..], r), lo), factor)
  {
    hide Times, Sum;
    ghost var rows, vals := asub[..], a[..];
    TimesLaws(factor, 0.0, 0.0);
    for j := lo to hi
      invariant a[..] == vals
      invariant forall r | 0 <= r < result.Length ::
          result[r] == old(result[r]) + Times(Sum(RowValue(rows, vals, r), j) - Sum(RowValue(rows, vals, r), lo), factor)
    {
      ghost var before := result[..];
      var row := asub[j];
      result[row] := result[row] + Times(a[j], factor);
      forall r | 0 <= r < result.Length
        ensures result[r] == old(result[r]) + Times(Sum(RowValue(rows, vals, r), j + 1) - Sum(RowValue(rows, vals, r), lo), factor)
      {
        ColumnStep(rows, vals, r, lo, j, factor);
        assert result[r] == before[r] + if r == row then Times(vals[j], factor) else 0.0;
      }
    }
  }

  lemma {:induction false} ColumnStep(rows: seq<int>, vals: seq<real>, r: int, lo: nat, j: nat, factor: real)
    requires j < |rows| && j < |vals|
    ensures Times(Sum(RowValue(rows, vals, r), j + 1) - Sum(RowValue(rows, vals, r), lo), factor)
         == Times(Sum(RowValue(rows, vals, r), j) - Sum(RowValue(rows, vals, r), lo), factor)
          + if rows[j] == r then Times(vals[j], factor) else 0.0
  {
    var f := RowValue(rows, vals, r);
    assert Sum(f, j + 1) == Sum(f, j) + if rows[j] == r then vals[j] else 0.0;
    hide Sum, RowValue;
    var d := Sum(f, j) - Sum(f, lo);
    assert Times(d + vals[j], factor) == Times(d, factor) + Times(vals[j], factor);
    hide Times;
  }

  ghost predicate Multiplied(rows: seq<int>, cols: seq<int>, vals: seq<real>, x: int -> real, result: seq<real>, n: nat) {
    forall r | 0 <= r < |result| :: result[r] == Sum(ProductTerm(rows, cols, vals, r, x), n)
  }

  lemma {:induction false} TermStep(rows: seq<int>, cols: seq<int>, vals: seq<real>, r: int, x: int -> real, i: nat)
    requires i < |cols| - 1 && 0 <= cols[i] && 0 <= cols[i+1]
    ensures Sum(ProductTerm(rows, cols, vals, r, x), i + 1) == Sum(ProductTerm(rows, cols, vals, r, x), i)
        + Times(Sum(RowValue(rows, vals, r), cols[i+1]) - Sum(RowValue(rows, vals, r), cols[i]), x(i))
  {
    hide Times, RowValue;
    var f := ProductTerm(rows, cols, vals, r, x);
    assert Sum(f, i + 1) == Sum(f, i) + f(i);
    hide Sum;
    assert f(i) == Times(CscEntry(rows, cols, vals, r, i), x(i));
  }

  /** One more column of the product. */
  method MultiplyColumn(result: array<real>, asub: array<int>, xa: array<int>, a: array<real>, vector: array<real>, i: nat)
    requires result != a && result != vector && asub.Length == a.Length
    requires i < xa.Length - 1 && ColumnAt(xa[..], i, asub.Length) && i < vector.Length
    requires forall p | 0 <= p < asub.Length :: 0 <= asub[p] < result.Length
    requires Multiplied(asub[..], xa[..], a[..], ValuesOf(vector[..]), result[..], i)
    modifies result
    ensures Multiplied(asub[..], xa[..], a[..], ValuesOf(vector[..]), result[..], i + 1)
  {
    ghost var rows, cols, vals, x, before := asub[..], xa[..], a[..], ValuesOf(vector[..]), result[..];
    var lo, hi, factor := xa[i], xa[i + 1], vector[i];
    assert x(i) == factor && lo == cols[i] && hi == cols[i+1];
    hide Sum, ProductTerm, Times, RowValue, ValuesOf;
    AddColumn(result, asub, a, lo, hi, factor);
    forall r | 0 <= r < result.Length ensures result[r] == Sum(ProductTerm(rows, cols, vals, r, x), i + 1) {
      TermStep(rows, cols, vals, r, x, i);
      assert before[r] == Sum(ProductTerm(rows, cols, vals, r, x), i);
    }
  }

  /** Replaces the vector by the matrix times the vector. */
  method SparseMatrixMulVector(m: nat, n: nat, asub: array<int>, xa: array<int>, a: array<real>, vector: array<real>)
    requires asub.Length == a.Length && Columns(xa[..], n, asub.Length) && n <= vector.Length && m <= vector.Length
    requires forall p | 0 <= p < asub.Length :: 0 <= asub[p] < m
    requires vector != a
    modifies vector
    ensures Multiplied(asub[..], xa[..], a[..], ValuesOf(old(vector[..])), vector[..m], n)
    ensures vector[m..] == old(vector[m..])
  {
    ghost var rows, cols, vals, v0 := asub[..], xa[..], a[..], vector[..];
    var result := new real[m](_ => 0.0);
    assert Multiplied(rows, cols, vals, ValuesOf(v0), result[..], 0);
    hide Multiplied;
    for i := 0 to n
      invariant asub[..] == rows && xa[..] == cols && a[..] == vals && vector[..] == v0
      invariant Multiplied(rows, cols, vals, ValuesOf(v0), result[..], i)
    {
      assert ColumnAt(cols, i, asub.Length);
      MultiplyColumn(result, asub, xa, a, vector, i);
    }
    ghost var product := result[..];
    for r := 0 to m
      invariant vector[..r] == product[..r] && vector[m..] == v0[m..]
      invariant asub[..] == rows && xa[..] == cols && a[..] == vals && result[..] == product
    {
      vector[r] := result[r];
    }
    assert vector[..m] == product;
  }

  ghost function CooTerm(coo: seq<Element>, r: int, x: int -> real): int -> real {
    c => Times(CooEntry(coo, r, c), x(c))
  }

  /** Multiplying by converted columns multiplies by the matrix of the coordinates. */
  lemma {:induction false} ProductIsCoo(coo: seq<Element>, s: seq<Element>, rows: seq<int>, cols0: seq<int>, cols: seq<int>,
                                        vals: seq<real>, n: nat, r: int, x: int -> real)
    requires SortedCopy(coo, s) && Compressed(s, rows, cols0, cols, vals) && |cols| == n + 1
    requires HasColumn(coo, n - 1) && forall k | 0 <= k < |coo| :: 0 <= coo[k].y < n
    ensures Sum(ProductTerm(rows, cols, vals, r, x), n) == Sum(CooTerm(coo, r, x), n)
  {
    hide SortedCopy, Compressed, Times, HasColumn, CooEntry, CscEntry, ProductTerm, CooTerm;
    forall c | 0 <= c < n ensures ProductTerm(rows, cols, vals, r, x)(c) == CooTerm(coo, r, x)(c) {
      TermIsCoo(coo, s, rows, cols0, cols, vals, n, r, x, c);
    }
    SumSame(ProductTerm(rows, cols, vals, r, x), CooTerm(coo, r, x), n);
  }

  lemma {:induction false} TermIsCoo(coo: seq<Element>, s: seq<Element>, rows: seq<int>, cols0: seq<int>, cols: seq<int>,
                                     vals: seq<real>, n: nat, r: int, x: int -> real, c: nat)
    requires SortedCopy(coo, s) && Compressed(s, rows, cols0, cols, vals) && |cols| == n + 1 && c < n
    requires HasColumn(coo, n - 1) && forall k | 0 <= k < |coo| :: 0 <= coo[k].y < n
    ensures ProductTerm(rows, cols, vals, r, x)(c) == CooTerm(coo, r, x)(c)
  {
    hide SortedCopy, Compressed, Times, HasColumn, CooEntry, CscEntry;
    ConversionDenotes(coo, s, rows, cols0, cols, vals, n, r, c);
  }
}
