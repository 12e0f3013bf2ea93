/** Counting facts about finite sets of naturals. */
module FiniteSets {

  lemma {:induction false} SmallBelow(s: set<nat>, n: nat)
    requires forall u | u in s :: u < n
    ensures |s| <= n
  {
    if n > 0 {
      SmallBelow(s - {n - 1}, n - 1);
    }
  }

  /** n naturals below n are all of them. */
  lemma {:induction false} FullBelow(s: set<nat>, n: nat)
    requires |s| == n && forall u | u in s :: u < n
    ensures forall u: nat :: u in s <==> u < n
  {
    if n > 0 {
      if n - 1 in s {
        FullBelow(s - {n - 1}, n - 1);
        assert forall u: nat :: u in s <==> u == n - 1 || u in s - {n - 1};
      } else {
        SmallBelow(s, n - 1);
      }
    }
  }

  ghost function Image(p: seq<int>, n: nat): set<nat>
    requires n <= |p| && forall i | 0 <= i < n :: p[i] >= 0
  {
    if n == 0 then {} else Image(p, n - 1) + {p[n-1]}
  }

  lemma {:induction false} ImageIs(p: seq<int>, n: nat)
    requires n <= |p| && forall i | 0 <= i < n :: p[i] >= 0
    requires forall i, j | 0 <= i < j < n :: p[i] != p[j]
    ensures |Image(p, n)| == n
    ensures forall u: nat :: u in Image(p, n) <==> exists i :: 0 <= i < n && p[i] == u
  {
    if n > 0 {
      ImageIs(p, n - 1);
      var s, x := Image(p, n - 1), p[n-1];
      assert x !in s;
      assert Image(p, n) == s + {x};
      hide Image;
      forall u: nat ensures u in s + {x} <==> exists i :: 0 <= i < n && p[i] == u {
        if u in s {
          var i :| 0 <= i < n - 1 && p[i] == u;
        }
        if i :| 0 <= i < n && p[i] == u {
          assert i < n - 1 || u == x;
        }
      }
    }
  }

  /** A list of n distinct numbers below n takes every value below n. */
  lemma {:induction false} Onto(p: seq<int>, n: nat, r: nat) returns (i: nat)
    requires |p| == n && r < n && forall i | 0 <= i < n :: 0 <= p[i] < n
    requires forall i, j | 0 <= i < j < n :: p[i] != p[j]
    ensures i < n && p[i] == r
  {
    ImageIs(p, n);
    FullBelow(Image(p, n), n);
    assert r in Image(p, n);
    i :| 0 <= i < n && p[i] == r;
  }
}
