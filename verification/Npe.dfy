/** The annealer's mutable state: one array of elements and four index arrays that
    the moves patch in place instead of recomputing. */
module Npe {
  import opened PolishExpression
  import opened PolishMoves
  import PolishReach

  const MAX_MOVES := 16

  /** How the cut/unit swap ends: a failed check stops the program. */
  datatype Outcome = Moved | Rejected | Fatal

  lemma {:induction false} WherePrefix(x: Index, e: seq<int>, i: nat, k: nat)
    requires i <= k
    ensures |Where(x, e, i)| <= |Where(x, e, k)|
    decreases k - i
  {
    if i < k { WherePrefix(x, e, i, k - 1); }
  }

  class NPE {
    const elements: array<int>
    const unitPos: array<int>
    const flipPos: array<int>
    const chainPos: array<int>
    const ballotCount: array<int>
    var nUnits: nat
    var nFlips: nat
    var nChains: nat

    /** The arrays have the sizes allocated for n units and do not overlap. */
    ghost predicate Sized(n: nat) {
      && n >= 1
      && elements.Length == flipPos.Length == ballotCount.Length == 2 * n - 1
      && unitPos.Length == n && chainPos.Length == n - 1
      && elements != unitPos && elements != flipPos && elements != chainPos && elements != ballotCount
      && unitPos != flipPos && unitPos != chainPos && unitPos != ballotCount
      && flipPos != chainPos && flipPos != ballotCount && chainPos != ballotCount
    }

    ghost function Expr(): seq<int>
      reads elements
    {
      elements[..]
    }

    /** The expression is normalized and every index array holds exactly what
        recomputing it from the elements would give. */
    ghost predicate Valid()
      reads this, elements, unitPos, flipPos, chainPos, ballotCount
    {
      && Sized(nUnits)
      && Normalized(Expr(), nUnits)
      && unitPos[..] == Where(Units, Expr(), |Expr()|)
      && nFlips <= flipPos.Length && flipPos[..nFlips] == Where(Flips, Expr(), |Expr()|)
      && nChains <= chainPos.Length && chainPos[..nChains] == Where(Chains, Expr(), |Expr()|)
      && ballotCount[..] == Ballot(Expr())
    }

    method FillUnitPos(ghost n: nat)
      requires Sized(n) && |Where(Units, Expr(), |Expr()|)| <= n
      modifies this`nUnits, unitPos
      ensures nUnits == |Where(Units, Expr(), |Expr()|)|
      ensures unitPos[..nUnits] == Where(Units, Expr(), |Expr()|)
    {
      var j, i := 0, 0;
      while i < elements.Length
        invariant i <= elements.Length && j <= unitPos.Length
        invariant unitPos[..j] == Where(Units, Expr(), i)
      {
        WherePrefix(Units, Expr(), i + 1, |Expr()|);
        if elements[i] >= 0 {
          unitPos[j] := i;
          j := j + 1;
        }
        i := i + 1;
      }
      nUnits := j;
    }

    method FillFlipPos(ghost n: nat)
      requires Sized(n)
      modifies this`nFlips, flipPos
      ensures nFlips <= flipPos.Length
      ensures flipPos[..nFlips] == Where(Flips, Expr(), |Expr()|)
    {
      var j, i := 0, 0;
      while i < elements.Length - 1
        invariant i <= elements.Length - 1 && j <= i
        invariant flipPos[..j] == Where(Flips, Expr(), i)
      {
        if (elements[i] < 0 && elements[i+1] >= 0) || (elements[i] >= 0 && elements[i+1] < 0) {
          flipPos[j] := i;
          j := j + 1;
        }
        i := i + 1;
      }
      nFlips := j;
    }

    /** Stops the program exactly when two equal cuts are neighbours. */
    method FillChainPos(ghost n: nat) returns (ok: bool)
      requires Sized(n) && |Where(Chains, Expr(), |Expr()|)| <= n - 1
      modifies this`nChains, chainPos
      ensures ok <==> NoEqualAdjacentCuts(Expr())
      ensures ok ==> nChains <= chainPos.Length
      ensures ok ==> chainPos[..nChains] == Where(Chains, Expr(), |Expr()|)
    {
      ghost var e := Expr();
      var j, i := 0, 0;
      while i < elements.Length
        invariant i <= elements.Length && j <= chainPos.Length && e == Expr()
        invariant chainPos[..j] == Where(Chains, e, i)
        invariant 0 < i < elements.Length && elements[i] < 0 ==> elements[i-1] >= 0
        invariant NoEqualCutsBelow(e, i)
      {
        if elements[i] < 0 {
          WherePrefix(Chains, e, i + 1, |e|);
          chainPos[j] := i;
          j := j + 1;
          var prev := elements[i];
          i := i + 1;
          while i < elements.Length && elements[i] < 0
            invariant 0 < i <= elements.Length && j <= chainPos.Length && e == Expr()
            invariant elements[i-1] < 0 && prev == elements[i-1]
            invariant chainPos[..j] == Where(Chains, e, i)
            invariant NoEqualCutsBelow(e, i)
          {
            if elements[i] == prev {
              NoEqualCutsBelowIs(e, i + 1);
              return false;
            }
            prev := elements[i];
            i := i + 1;
          }
        } else {
          i := i + 1;
        }
      }
      nChains := j;
      NoEqualCutsBelowIs(e, |e|);
      assert e[..|e|] == e;
      return true;
    }

    method FillBallotCount(ghost n: nat)
      requires Sized(n)
      modifies ballotCount
      ensures ballotCount[..] == Ballot(Expr())
    {
      var count, i := 0, 0;
      while i < elements.Length
        invariant i <= elements.Length && count == Cuts(Expr(), i)
        invariant forall k | 0 <= k < i :: ballotCount[k] == Cuts(Expr(), k + 1)
      {
        if elements[i] < 0 {
          count := count + 1;
        }
        ballotCount[i] := count;
        i := i + 1;
      }
    }

    method FillAll(n: nat) returns (ok: bool)
      requires Sized(n) && Normalized(Expr(), n)
      modifies this, unitPos, flipPos, chainPos, ballotCount
      ensures ok && Valid() && nUnits == n
    {
      Capacities(Expr(), n);
      FillUnitPos(n);
      FillFlipPos(n);
      ok := FillChainPos(n);
      FillBallotCount(n);
    }

    /** Zeroed arrays for an expression over n units. */
    constructor Allocate(n: nat)
      requires n >= 1
      ensures Sized(n)
      ensures fresh(elements) && fresh(unitPos) && fresh(flipPos) && fresh(chainPos) && fresh(ballotCount)
    {
      elements := new int[2 * n - 1](_ => 0);
      unitPos := new int[n](_ => 0);
      flipPos := new int[2 * n - 1](_ => 0);
      chainPos := new int[n - 1](_ => 0);
      ballotCount := new int[2 * n - 1](_ => 0);
      nUnits, nFlips, nChains := n, 0, 0;
    }

    /** The starting solution. */
    static method GetInitial(n: nat) returns (r: NPE, ok: bool)
      requires n >= 1
      ensures fresh(r) && fresh(r.Arrays()) && ok && r.Valid() && r.nUnits == n && r.Expr() == Initial(n)
    {
      r := new NPE.Allocate(n);
      r.elements[0] := 0;
      var i := 1;
      while i < r.elements.Length
        invariant 1 <= i <= r.elements.Length && i % 2 == 1
        invariant forall k | 0 <= k < i ::
            r.elements[k] == if k == 0 then 0 else if k % 2 == 1 then (k + 1) / 2 else CUT_VERTICAL
      {
        r.elements[i] := (i + 1) / 2;
        r.elements[i+1] := CUT_VERTICAL;
        i := i + 2;
      }
      ghost var e := r.Expr();
      forall k | 0 <= k < |e| ensures e[k] == Initial(n)[k] {
        PolishReach.InitialAt(n, k);
      }
      assert e == Initial(n);
      PolishReach.InitialNormalized(n);
      ok := r.FillAll(n);
    }

    /** Move M1. */
    method SwapUnits(pos: nat) returns (ok: bool)
      requires Valid() && Marks(Units, Expr(), pos)
      modifies elements
      ensures ok <==> old(NextUnit(Expr(), pos + 1) < |Expr()|)
      ensures Valid()
      ensures Expr() == if ok then old(Apply(Expr(), M1(pos))) else old(Expr())
    {
      ghost var e := Expr();
      var i := pos + 1;
      while i < elements.Length
        invariant pos < i <= elements.Length
        invariant forall k | pos < k < i :: e[k] < 0
      {
        if elements[i] >= 0 {
          break;
        }
        i := i + 1;
      }
      assert i == NextUnit(e, pos + 1);
      if i >= elements.Length {
        return false;
      }
      var t := elements[pos];
      elements[pos] := elements[i];
      elements[i] := t;
      SwapUnitsKeeps(e, nUnits, pos);
      assert Expr() == Swapped(e, pos, i);
      IndexesSameSigns(e, Expr());
      return true;
    }

    /** Move M2: both failure exits are unreachable from a valid state. */
    method InvertChainAt(pos: nat) returns (ok: bool)
      requires Valid() && Marks(Chains, Expr(), pos)
      modifies elements
      ensures ok && Valid() && Expr() == old(Apply(Expr(), M2(pos)))
    {
      ghost var e := Expr();
      ChainElements(e, nUnits, pos);
      ChainKeepsIndexes(e, nUnits, pos);
      hide Normalized, Where, Ballot, InvertChain, Apply, Marks;
      ok := InvertRun(elements, pos);
    }

    /** Binary search for a unit position, changed by delta when present. */
    method UpdateUnitPos(pos: int, delta: int, start: int, end: int) returns (found: bool)
      requires 0 <= start && end < unitPos.Length && start <= end + 1
      requires Ascending(unitPos[..])
      modifies unitPos
      ensures found <==> exists k :: start <= k <= end && old(unitPos[k]) == pos
      ensures forall k | 0 <= k < unitPos.Length ::
          unitPos[k] == old(unitPos[k]) + if start <= k <= end && old(unitPos[k]) == pos then delta else 0
      decreases end + 1 - start
    {
      if start > end {
        return false;
      }
      ghost var s := unitPos[..];
      assert forall k | 0 <= k < unitPos.Length :: unitPos[k] == s[k];
      var mid := (start + end) / 2;
      if unitPos[mid] == pos {
        unitPos[mid] := unitPos[mid] + delta;
        return true;
      } else if unitPos[mid] > pos {
        found := UpdateUnitPos(pos, delta, start, mid - 1);
      } else {
        found := UpdateUnitPos(pos, delta, mid + 1, end);
      }
    }

    /** Move M3: takes place exactly when its two tests pass, and never stops the
        program from a valid state. */
    method SwapCutUnit(pos: nat) returns (r: Outcome)
      requires Valid() && Marks(Flips, Expr(), pos)
      modifies this`nFlips, this`nChains, elements, unitPos, flipPos, chainPos, ballotCount
      ensures Valid() && r != Fatal
      ensures r == Moved <==> old(Legal(Expr(), M3(pos)))
      ensures Expr() == if r == Moved then old(Apply(Expr(), M3(pos))) else old(Expr())
    {
      ghost var e := Expr();
      FlipInRange(e, nUnits, pos);
      if pos <= 0 || pos >= elements.Length - 1 {
        return Fatal;
      }
      if elements[pos] >= 0 {
        if elements[pos-1] == elements[pos+1] {
          return Rejected;
        }
        if 2 * ballotCount[pos+1] >= pos + 1 {
          return Rejected;
        }
        var found := PatchIndexes(pos, pos, 1);
        if !found {
          return Fatal;
        }
      } else {
        if pos < elements.Length - 2 && elements[pos] == elements[pos+2] {
          return Rejected;
        }
        var found := PatchIndexes(pos, pos + 1, -1);
        if !found {
          return Fatal;
        }
      }
      SwapAndRefill(pos, nUnits);
      return Moved;
    }

    /** The patches M3 makes to the unit positions and the running cut counts. */
    method PatchIndexes(pos: nat, unit: nat, delta: int) returns (found: bool)
      requires Valid() && Marks(Flips, Expr(), pos)
      requires if Expr()[pos] >= 0 then unit == pos && delta == 1 else unit == pos + 1 && delta == -1
      modifies unitPos, ballotCount
      ensures found
      ensures unitPos[..] == Where(Units, Swapped(Expr(), pos, pos + 1), |Expr()|)
      ensures ballotCount[..] == Ballot(Swapped(Expr(), pos, pos + 1))
    {
      ghost var e := Expr();
      WhereIs(Units, e, |e|);
      assert unit in unitPos[..];
      found := UpdateUnitPos(unit, delta, 0, nUnits - 1);
      ballotCount[pos] := ballotCount[pos] + delta;
      UnitPositionsSwapped(e, pos, unitPos[..], unit, unit + delta);
      BallotSwapped(e, pos, ballotCount[..]);
    }

    /** The tail of M3: exchange the two elements, recompute the other two lists. */
    method SwapAndRefill(pos: nat, ghost n: nat)
      requires Sized(n) && n == nUnits && Normalized(Expr(), n) && Legal(Expr(), M3(pos))
      requires unitPos[..] == Where(Units, Apply(Expr(), M3(pos)), |Expr()|)
      requires ballotCount[..] == Ballot(Apply(Expr(), M3(pos)))
      modifies this`nFlips, this`nChains, elements, flipPos, chainPos
      ensures Valid() && Expr() == old(Apply(Expr(), M3(pos)))
    {
      SwapCutUnitKeeps(Expr(), n, pos);
      ghost var f := Apply(Expr(), M3(pos));
      var t := elements[pos];
      elements[pos] := elements[pos+1];
      elements[pos+1] := t;
      assert Expr() == f;
      Capacities(f, n);
      FillFlipPos(n);
      var ok := FillChainPos(n);
    }

    ghost function Arrays(): set<object> {
      {elements, unitPos, flipPos, chainPos, ballotCount}
    }

    /** A fresh copy of the whole state. */
    method Duplicate() returns (c: NPE)
      requires Valid()
      ensures fresh(c) && fresh(c.Arrays())
      ensures c.Valid() && c.nUnits == nUnits && c.Expr() == Expr()
    {
      hide Normalized;
      c := new NPE.Allocate(nUnits);
      CopyPrefix(c.elements, elements, elements.Length);
      CopyPrefix(c.unitPos, unitPos, nUnits);
      CopyPrefix(c.flipPos, flipPos, nFlips);
      CopyPrefix(c.chainPos, chainPos, nChains);
      CopyPrefix(c.ballotCount, ballotCount, elements.Length);
      c.nUnits, c.nFlips, c.nChains := nUnits, nFlips, nChains;
      assert c.Expr() == Expr();
    }

    /** One M3 attempt at a random boundary, made on a copy of this state. */
    method TrySwapOn(copy: NPE) returns (done: bool, ghost m: Move)
      requires Valid() && nUnits >= 2 && copy.Valid() && copy.nUnits == nUnits
      requires copy.Expr() == Expr() && this != copy && Arrays() !! copy.Arrays()
      modifies copy, copy.Arrays()
      ensures copy.Valid() && copy.nUnits == nUnits
      ensures done ==> Legal(Expr(), m) && copy.Expr() == Apply(Expr(), m)
      ensures !done ==> copy.Expr() == Expr()
    {
      hide Normalized;
      HasFlip(Expr(), nUnits);
      WhereIs(Flips, Expr(), |Expr()|);
      var i: nat :| i < nFlips;
      assert flipPos[..nFlips][i] in Where(Flips, Expr(), |Expr()|);
      m := M3(flipPos[i]);
      var r := copy.SwapCutUnit(flipPos[i]);
      done := r == Moved;
    }

    /** M1 at a random unit other than the last, made on a copy of this state. */
    method TryUnitsOn(copy: NPE) returns (done: bool, ghost m: Move)
      requires Valid() && nUnits >= 2 && copy.Valid() && copy.nUnits == nUnits
      requires copy.Expr() == Expr() && this != copy && Arrays() !! copy.Arrays()
      modifies copy, copy.Arrays()
      ensures copy.Valid() && copy.nUnits == nUnits
      ensures done && Legal(Expr(), m) && copy.Expr() == Apply(Expr(), m)
    {
      ghost var e := Expr();
      hide Normalized;
      var i: nat :| i < nUnits - 1;
      NotLastUnit(e, i);
      var pos := unitPos[i];
      m := M1(pos);
      done := copy.SwapUnits(pos);
    }

    /** M2 at a random chain, made on a copy of this state. */
    method TryChainOn(copy: NPE) returns (done: bool, ghost m: Move)
      requires Valid() && nUnits >= 2 && copy.Valid() && copy.nUnits == nUnits
      requires copy.Expr() == Expr() && this != copy && Arrays() !! copy.Arrays()
      modifies copy, copy.Arrays()
      ensures copy.Valid() && copy.nUnits == nUnits
      ensures done && Legal(Expr(), m) && copy.Expr() == Apply(Expr(), m)
    {
      HasFlip(Expr(), nUnits);
      WhereIs(Chains, Expr(), |Expr()|);
      hide Normalized;
      var i: nat :| i < nChains;
      assert chainPos[..nChains][i] in Where(Chains, Expr(), |Expr()|);
      m := M2(chainPos[i]);
      done := copy.InvertChainAt(chainPos[i]);
    }

    /** One random choice among the three moves, tried on a copy of this state. */
    method TryMoveOn(copy: NPE) returns (done: bool, ghost m: Move)
      requires Valid() && nUnits >= 2 && copy.Valid() && copy.nUnits == nUnits
      requires copy.Expr() == Expr() && this != copy && Arrays() !! copy.Arrays()
      modifies copy, copy.Arrays()
      ensures copy.Valid() && copy.nUnits == nUnits
      ensures done ==> Legal(Expr(), m) && copy.Expr() == Apply(Expr(), m)
      ensures !done ==> copy.Expr() == Expr()
    {
      hide Normalized;
      var move: nat :| move < 3;
      if move == 0 {
        done, m := TryUnitsOn(copy);
      } else if move == 1 {
        done, m := TryChainOn(copy);
      } else {
        var m3Count := 0;
        done, m := false, M3(0);
        while !done && m3Count < MAX_MOVES
          invariant copy.Valid() && copy.nUnits == nUnits
          invariant if done then Legal(Expr(), m) && copy.Expr() == Apply(Expr(), m) else copy.Expr() == Expr()
        {
          done, m := TrySwapOn(copy);
          m3Count := m3Count + 1;
        }
      }
    }

    /** A copy changed by one randomly chosen legal move. It stops the program exactly when
        all tries were used, also if a move was made at the last one. */
    method MakeRandomMove() returns (copy: NPE, ok: bool, ghost tries: nat, ghost made: bool)
      requires Valid() && nUnits >= 2
      ensures fresh(copy) && fresh(copy.Arrays()) && copy.Valid() && copy.nUnits == nUnits
      ensures Valid() && Expr() == old(Expr())
      ensures if made then exists m :: Legal(Expr(), m) && copy.Expr() == Apply(Expr(), m) else copy.Expr() == Expr() && tries == MAX_MOVES
      ensures 1 <= tries <= MAX_MOVES && (ok <==> tries < MAX_MOVES)
    {
      hide Normalized, Apply, Legal, Where, Ballot;
      copy := Duplicate();
      var count, done := 0, false;
      ghost var m := M1(0);
      while !done && count < MAX_MOVES
        invariant count <= MAX_MOVES && copy.Valid() && copy.nUnits == nUnits && (done ==> count > 0)
        invariant if done then Legal(Expr(), m) && copy.Expr() == Apply(Expr(), m) else copy.Expr() == Expr()
      {
        done, m := TryMoveOn(copy);
        count := count + 1;
      }
      tries, made := count, done;
      ok := count != MAX_MOVES;
    }
  }

  /** For two units every try that chooses the third move fails, and one that chooses the
      first succeeds: so the last of the tries can be the only one to succeed. */
  lemma {:induction false} LastTryExample(e: seq<int>)
    requires e == Initial(2)
    ensures Normalized(e, 2) && e == [0, 1, CUT_VERTICAL]
    ensures forall pos :: !Legal(e, M3(pos))
    ensures Legal(e, M1(0)) && Apply(e, M1(0)) == [1, 0, CUT_VERTICAL]
  {
    PolishReach.InitialNormalized(2);
    assert Initial(1) == [0];
    assert Cuts(e, 0) == 0 && Cuts(e, 1) == 0 && Cuts(e, 2) == 0 && Cuts(e, 3) == 1;
  }

  /** What the loop over a chain relies on. */
  ghost predicate ChainStarts(e: seq<int>, pos: nat) {
    && pos < |e| && e[pos] < 0
    && (forall i | 0 <= i < |e| :: IsCut(e[i]) || e[i] >= 0) && NoEqualAdjacentCuts(e)
  }

  lemma {:induction false} ChainElements(e: seq<int>, n: nat, pos: nat)
    requires Normalized(e, n) && Marks(Chains, e, pos)
    ensures ChainStarts(e, pos)
  {
  }

  /** Inverting a chain needs no change of the index lists. */
  lemma {:induction false} ChainKeepsIndexes(e: seq<int>, n: nat, pos: nat)
    requires Normalized(e, n) && Marks(Chains, e, pos)
    ensures var f := InvertChain(e, pos);
      && |f| == |e| && Normalized(f, n) && f == Apply(e, M2(pos)) && Ballot(f) == Ballot(e)
      && Where(Units, f, |f|) == Where(Units, e, |e|) && Where(Flips, f, |f|) == Where(Flips, e, |e|)
      && Where(Chains, f, |f|) == Where(Chains, e, |e|)
  {
    InvertChainKeeps(e, n, pos);
    IndexesSameSigns(e, InvertChain(e, pos));
  }

  /** Inverts the cuts from pos up to the next unit; fails on two equal cuts in a row or an
      unknown element. */
  method InvertRun(elements: array<int>, pos: nat) returns (ok: bool)
    requires ChainStarts(elements[..], pos)
    modifies elements
    ensures ok && elements[..] == InvertChain(old(elements[..]), pos)
  {
    ghost var e := elements[..];
    var i, prev := pos + 1, elements[pos];
    if elements[pos] == CUT_VERTICAL {
      elements[pos] := CUT_HORIZONTAL;
    } else if elements[pos] == CUT_HORIZONTAL {
      elements[pos] := CUT_VERTICAL;
    } else {
      return false;
    }
    while i < elements.Length && elements[i] < 0
      invariant pos < i <= elements.Length
      invariant forall k | pos <= k < i :: e[k] < 0
      invariant prev == e[i-1]
      invariant forall k | 0 <= k < |e| :: elements[k] == if pos <= k < i then Invert(e[k]) else e[k]
    {
      if elements[i] == prev {
        return false;
      }
      prev := elements[i];
      if elements[i] == CUT_VERTICAL {
        elements[i] := CUT_HORIZONTAL;
      } else if elements[i] == CUT_HORIZONTAL {
        elements[i] := CUT_VERTICAL;
      } else {
        return false;
      }
      i := i + 1;
    }
    EndOfChain(e, pos, i);
    return true;
  }

  lemma {:induction false} EndOfChain(e: seq<int>, pos: nat, i: nat)
    requires pos < i <= |e| && (forall k | pos <= k < i :: e[k] < 0) && (i < |e| ==> e[i] >= 0)
    ensures NextUnit(e, pos) == i
  {
  }

  method CopyPrefix(dst: array<int>, src: array<int>, n: nat)
    requires n <= dst.Length && n <= src.Length && dst != src
    modifies dst
    ensures dst[..n] == src[..n]
  {
    var i := 0;
    while i < n
      invariant i <= n && dst[..i] == src[..i]
    {
      dst[i] := src[i];
      i := i + 1;
    }
  }

  /** Replacing an entry by its absent neighbour keeps the order. */
  lemma {:induction false} ReplaceNeighbour(s: seq<int>, t: seq<int>, from: int, to: int)
    requires Ascending(s) && from in s && to !in s && (to == from + 1 || to == from - 1)
    requires |t| == |s| && forall k | 0 <= k < |s| :: t[k] == if s[k] == from then to else s[k]
    ensures Ascending(t)
    ensures forall p :: p in t <==> p == to || (p in s && p != from)
  {
    assert forall k | 0 <= k < |s| :: s[k] in s;
    forall p | p == to || (p in s && p != from) ensures p in t {
      var k :| 0 <= k < |s| && s[k] == if p == to then from else p;
      assert t[k] == p;
    }
  }

  /** After a cut and a unit change places, patching one entry gives the list of
      unit positions. */
  lemma {:induction false} UnitPositionsSwapped(e: seq<int>, pos: nat, t: seq<int>, from: int, to: int)
    requires Marks(Flips, e, pos)
    requires from == (if e[pos] >= 0 then pos else pos + 1) && to == 2 * pos + 1 - from
    requires |t| == |Where(Units, e, |e|)|
    requires forall k | 0 <= k < |t| ::
        t[k] == var s := Where(Units, e, |e|); s[k] + if s[k] == from then to - from else 0
    ensures t == Where(Units, Swapped(e, pos, pos + 1), |e|)
  {
    var f, s := Swapped(e, pos, pos + 1), Where(Units, e, |e|);
    WhereIs(Units, e, |e|);
    ReplaceNeighbour(s, t, from, to);
    WhereIs(Units, f, |e|);
    forall p ensures p in t <==> p in Where(Units, f, |e|) {
      assert p in s <==> Marks(Units, e, p);
      assert Marks(Units, f, p) <==> p == to || (p != from && Marks(Units, e, p));
    }
    AscendingUnique(t, Where(Units, f, |e|));
  }

  lemma {:induction false} BallotSwapped(e: seq<int>, pos: nat, b: seq<int>)
    requires Marks(Flips, e, pos)
    requires b == Ballot(e)[pos := Ballot(e)[pos] + if e[pos] >= 0 then 1 else -1]
    ensures b == Ballot(Swapped(e, pos, pos + 1))
  {
    var f := Swapped(e, pos, pos + 1);
    forall i | 0 <= i < |e| ensures b[i] == Ballot(f)[i] {
      CutsSwapped(e, pos, i + 1);
    }
  }

  /** Only the last entry of the unit positions has no unit after it. */
  lemma {:induction false} NotLastUnit(e: seq<int>, i: nat)
    requires i + 1 < |Where(Units, e, |e|)|
    ensures var p := Where(Units, e, |e|)[i]; p >= 0 && Legal(e, M1(p))
  {
    var s := Where(Units, e, |e|);
    WhereIs(Units, e, |e|);
    assert s[i] in s && s[i+1] in s;
  }

  /** With two or more units there is a boundary and a chain to choose. */
  lemma {:induction false} HasFlip(e: seq<int>, n: nat)
    requires Normalized(e, n) && n >= 2
    ensures |Where(Flips, e, |e|)| > 0 && |Where(Chains, e, |e|)| > 0
  {
    assert 2 * Cuts(e, 1) < 1;
    assert Cuts(e, 1) == Cuts(e, 0) + if e[0] < 0 then 1 else 0;
    var q := PolishReach.FirstCut(e, n, 1, 0);
    WhereIs(Flips, e, |e|);
    WhereIs(Chains, e, |e|);
    assert q - 1 in Where(Flips, e, |e|);
    assert q in Where(Chains, e, |e|);
  }
}
