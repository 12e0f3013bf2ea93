/** Binary search and insertion in a sorted list, equality up to a tolerance. */
module TolerantSearch {
  import opened Numbers

  ghost predicate Ascending(s: seq<real>) {
    forall i, j | 0 <= i < j < |s| :: s[i] <= s[j]
  }

  /** Neighbours are at least the tolerance apart. */
  ghost predicate Spaced(s: seq<real>) {
    forall i, j | 0 <= i < j < |s| :: s[i] + DELTA <= s[j]
  }

  /** Looks for an element among the n places from lo on: whether one within the
      tolerance is there and where, or where it would have to be. */
  function Search(s: seq<real>, lo: nat, n: nat, ele: real): (r: (bool, nat))
    requires lo + n <= |s|
    ensures lo <= r.1 <= lo + n
    ensures r.0 ==> r.1 < lo + n && Eq(s[r.1], ele)
    decreases n
  {
    if n == 0 then (false, lo)
    else
      var mid := lo + n / 2;
      if Eq(s[mid], ele) then (true, mid)
      else if s[mid] < ele then Search(s, mid + 1, (n - 1) / 2, ele)
      else Search(s, lo, n / 2, ele)
  }

  ghost predicate Present(s: seq<real>, lo: nat, hi: nat, ele: real)
    requires hi <= |s|
  {
    exists k :: lo <= k < hi && Eq(s[k], ele)
  }

  /** Everything before the location is smaller, everything from it on larger, by at
      least the tolerance. */
  ghost predicate Separates(s: seq<real>, lo: nat, hi: nat, loc: nat, ele: real)
    requires hi <= |s|
  {
    && (forall k | lo <= k < hi && k < loc :: s[k] + DELTA <= ele)
    && (forall k | lo <= k < hi && k >= loc :: ele + DELTA <= s[k])
  }

  /** In a sorted list the search succeeds exactly when an element within the tolerance
      exists; otherwise the location separates the smaller from the larger elements. */
  lemma {:induction false} SearchFinds(s: seq<real>, lo: nat, n: nat, ele: real)
    requires lo + n <= |s| && Ascending(s)
    ensures Search(s, lo, n, ele).0 <==> Present(s, lo, lo + n, ele)
    ensures !Search(s, lo, n, ele).0 ==> Separates(s, lo, lo + n, Search(s, lo, n, ele).1, ele)
    decreases n
  {
    if n > 0 {
      var mid := lo + n / 2;
      Halves(lo, n);
      if !Eq(s[mid], ele) {
        hide Present, Separates, Ascending;
        SearchStep(s, lo, n, ele);
        hide Search;
        if s[mid] < ele {
          SearchFinds(s, mid + 1, (n - 1) / 2, ele);
          GoRight(s, lo, lo + n, mid, Search(s, mid + 1, (n - 1) / 2, ele).1, ele);
        } else {
          SearchFinds(s, lo, n / 2, ele);
          GoLeft(s, lo, lo + n, mid, Search(s, lo, n / 2, ele).1, ele);
        }
      }
    }
  }

  lemma {:induction false} Halves(lo: nat, n: nat)
    requires n > 0
    ensures lo <= lo + n / 2 < lo + n && lo + n / 2 + 1 + (n - 1) / 2 == lo + n
  {
  }

  lemma {:induction false} SearchStep(s: seq<real>, lo: nat, n: nat, ele: real)
    requires 0 < n && lo + n <= |s| && !Eq(s[lo + n / 2], ele)
    ensures Search(s, lo, n, ele)
         == if s[lo + n / 2] < ele then Search(s, lo + n / 2 + 1, (n - 1) / 2, ele) else Search(s, lo, n / 2, ele)
  {
  }

  lemma {:induction false} GoRight(s: seq<real>, lo: nat, hi: nat, mid: nat, loc: nat, ele: real)
    requires Ascending(s) && lo <= mid < hi <= |s| && s[mid] + DELTA <= ele && loc > mid
    ensures Present(s, lo, hi, ele) <==> Present(s, mid + 1, hi, ele)
    ensures Separates(s, mid + 1, hi, loc, ele) ==> Separates(s, lo, hi, loc, ele)
  {
    assert forall k | lo <= k < mid :: s[k] <= s[mid];
    hide Ascending;
  }

  lemma {:induction false} GoLeft(s: seq<real>, lo: nat, hi: nat, mid: nat, loc: nat, ele: real)
    requires Ascending(s) && lo <= mid < hi <= |s| && ele + DELTA <= s[mid] && loc <= mid
    ensures Present(s, lo, hi, ele) <==> Present(s, lo, mid, ele)
    ensures Separates(s, lo, mid, loc, ele) ==> Separates(s, lo, hi, loc, ele)
  {
    assert forall k | mid < k < hi :: s[mid] <= s[k];
    hide Ascending;
  }

  /** The list after an insertion. */
  function Inserted(s: seq<real>, ele: real): (t: seq<real>)
  {
    var (found, loc) := Search(s, 0, |s|, ele);
    if found then s else s[..loc] + [ele] + s[loc..]
  }

  lemma {:induction false} PutBetween(s: seq<real>, loc: nat, ele: real)
    requires Spaced(s) && loc <= |s| && Separates(s, 0, |s|, loc, ele)
    ensures Spaced(s[..loc] + [ele] + s[loc..])
  {
    var t := s[..loc] + [ele] + s[loc..];
    forall i, j | 0 <= i < j < |t| ensures t[i] + DELTA <= t[j] {
      if i == loc {
        assert t[j] == s[j - 1];
      } else if j == loc {
        assert t[i] == s[i];
      } else {
        var p, q := if i < loc then i else i - 1, if j < loc then j else j - 1;
        assert t[i] == s[p] && t[j] == s[q];
      }
    }
  }

  lemma {:induction false} PutMembers(s: seq<real>, loc: nat, ele: real)
    requires loc <= |s|
    ensures forall v :: v in s[..loc] + [ele] + s[loc..] <==> v in s || v == ele
  {
    var t := s[..loc] + [ele] + s[loc..];
    assert s == s[..loc] + s[loc..];
  }

  /** Insertion keeps the gaps, keeps what was there, and puts in something within the
      tolerance of the element. */
  lemma {:induction false} InsertedSpaced(s: seq<real>, ele: real)
    requires Spaced(s)
    ensures var t := Inserted(s, ele);
      Spaced(t) && (forall v | v in s :: v in t) && Present(t, 0, |t|, ele) && forall v | v in t :: v in s || v == ele
  {
    assert Ascending(s);
    SearchFinds(s, 0, |s|, ele);
    var (found, loc) := Search(s, 0, |s|, ele);
    if !found {
      hide Search, Separates;
      PutBetween(s, loc, ele);
      PutMembers(s, loc, ele);
      hide Spaced;
      var t := s[..loc] + [ele] + s[loc..];
      assert t[loc] == ele && Eq(t[loc], ele);
    }
  }

  /** Inserts in place, shifting the larger elements up; false if already present. */
  method BsearchInsertDouble(arr: array<real>, n: nat, ele: real) returns (inserted: bool)
    requires n <= arr.Length && (n < arr.Length || Search(arr[..n], 0, n, ele).0)
    modifies arr
    ensures inserted ==> n < arr.Length
    ensures inserted <==> !Search(old(arr[..n]), 0, n, ele).0
    ensures arr[..if inserted then n + 1 else n] == Inserted(old(arr[..n]), ele)
  {
    hide Search;
    ghost var s := arr[..n];
    SearchSame(arr[..], s, 0, n, ele);
    var found, loc := BsearchDouble(arr, 0, n, ele);
    if found {
      return false;
    }
    PutAt(arr, n, loc, ele);
    inserted := true;
  }

  method PutAt(arr: array<real>, n: nat, loc: nat, ele: real)
    requires loc <= n < arr.Length
    modifies arr
    ensures arr[..n + 1] == old(arr[..n])[..loc] + [ele] + old(arr[..n])[loc..]
  {
    ShiftUp(arr, n, loc);
    arr[loc] := ele;
  }

  method ShiftUp(arr: array<real>, n: nat, loc: nat)
    requires loc <= n < arr.Length
    modifies arr
    ensures forall k | 0 <= k < loc :: arr[k] == old(arr[k])
    ensures forall k | loc < k <= n :: arr[k] == old(arr[k - 1])
  {
    ghost var s := arr[..n];
    var i := n - 1;
    while i >= loc
      invariant loc - 1 <= i < n
      invariant forall k | 0 <= k <= i :: arr[k] == s[k]
      invariant forall k | i + 1 < k <= n :: arr[k] == s[k - 1]
    {
      arr[i + 1] := arr[i];
      i := i - 1;
    }
  }

  /** The search on the array. */
  method BsearchDouble(arr: array<real>, lo: nat, n: nat, ele: real) returns (found: bool, loc: nat)
    requires lo + n <= arr.Length
    ensures (found, loc) == Search(arr[..], lo, n, ele)
    decreases n
  {
    if n == 0 {
      return false, lo;
    }
    var mid := lo + n / 2;
    if Eq(arr[mid], ele) {
      return true, mid;
    } else if arr[mid] < ele {
      found, loc := BsearchDouble(arr, mid + 1, (n - 1) / 2, ele);
    } else {
      found, loc := BsearchDouble(arr, lo, n / 2, ele);
    }
  }

  lemma {:induction false} SearchSame(s: seq<real>, t: seq<real>, lo: nat, n: nat, ele: real)
    requires lo + n <= |s| && lo + n <= |t| && forall k | lo <= k < lo + n :: s[k] == t[k]
    ensures Search(s, lo, n, ele) == Search(t, lo, n, ele)
    decreases n
  {
    if n > 0 {
      var mid := lo + n / 2;
      assert s[mid] == t[mid];
      if !Eq(s[mid], ele) {
        if s[mid] < ele {
          SearchSame(s, t, mid + 1, (n - 1) / 2, ele);
        } else {
          SearchSame(s, t, lo, n / 2, ele);
        }
      }
    }
  }
}
