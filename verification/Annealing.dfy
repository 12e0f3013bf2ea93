/** The annealing loop of the floorplanner: evaluating an expression, and whole runs of
    random moves, accepted or not. */
module Annealing {
  import opened Numbers
  import opened PolishExpression
  import opened ShapeCurve
  import opened SlicingTree
  import opened TreeNodes
  import opened Rectangles
  import opened TreeToFlp
  import opened AnnealingRun
  import PolishReach
  import AspectShape
  import Npe
  import FlpWrap

  ghost function ShapeArrays(shapes: seq<Shape>): set<object> {
    (set s | s in shapes :: s.x as object) + (set s | s in shapes :: s.y as object)
  }

  /** The blocks' shape curves, each a staircase. */
  ghost predicate Shaped(shapes: seq<Shape>, leaves: seq<Curve>)
    reads ShapeArrays(shapes)
  {
    |shapes| == |leaves| && Staircases(leaves)
    && forall u | 0 <= u < |shapes| :: SameSizes(leaves[u]) && shapes[u].Value() == leaves[u]
  }

  /** A block to be placed. */
  datatype Block = Block(area: real, min: real, max: real, rotable: bool) {
    predicate Valid() {
      area > 0.0 && 0.0 < min <= max
    }
  }

  datatype Reading = Described | RangeReversed | BadNumber | BadOrientations

  /** The curves are the orientations of the blocks. */
  ghost predicate CurvesOf(blocks: seq<Block>, leaves: seq<Curve>) {
    && |leaves| <= |blocks|
    && forall k | 0 <= k < |leaves| :: blocks[k].Valid()
         && AspectShape.Orientations(leaves[k].x, leaves[k].y, blocks[k].area, blocks[k].min, blocks[k].max, blocks[k].rotable)
  }

  lemma {:induction false} NoShapes(blocks: seq<Block>)
    ensures ShapeArrays([]) == {} && Shaped([], []) && CurvesOf(blocks, [])
  {
  }

  lemma {:induction false} OneMoreShape(blocks: seq<Block>, shapes: seq<Shape>, leaves: seq<Curve>, shape: Shape)
    requires Shaped(shapes, leaves) && CurvesOf(blocks, leaves) && |leaves| < |blocks| && blocks[|leaves|].Valid()
    requires shape.leftPos == [] && shape.rightPos == [] && shape.median == []
    requires var b := blocks[|leaves|]; AspectShape.Orientations(shape.x[..], shape.y[..], b.area, b.min, b.max, b.rotable)
    ensures Shaped(shapes + [shape], leaves + [shape.Value()]) && CurvesOf(blocks, leaves + [shape.Value()])
  {
    var b := blocks[|leaves|];
    hide AspectShape.Orientations, Staircase, ShapeArrays;
    AspectShape.OrientationsClimb(shape.x[..], shape.y[..], b.area, b.min, b.max, b.rotable);
    assert Staircases(leaves + [shape.Value()]);
    assert SameSizes(shape.Value()) by { ClimbHasSizes(shape.Value()); }
  }

  lemma {:induction false} ArraysOfMore(shapes: seq<Shape>, shape: Shape)
    ensures ShapeArrays(shapes + [shape]) == ShapeArrays(shapes) + {shape.x, shape.y}
  {
    var more := shapes + [shape];
    assert more[|shapes|] == shape && forall s | s in shapes :: s in more;
  }

  lemma {:induction false} ClimbHasSizes(c: Curve)
    requires Staircase(c)
    ensures SameSizes(c)
  {
  }

  /** Builds the shape curves of the blocks. All endings but the first stop the program;
      without them the annealer can start. */
  method PopulateShapes(blocks: seq<Block>, nOrients: int, sqrt: real -> real, root: (real, nat) -> real)
    returns (reading: Reading, shapes: seq<Shape>, ghost leaves: seq<Curve>)
    requires SquareRoot(sqrt) && AspectShape.Root(root)
    ensures reading == Described <==> blocks == [] || ((forall k | 0 <= k < |blocks| :: blocks[k].Valid()) && nOrients > 1 && nOrients % 2 == 0)
    ensures reading == Described ==> |shapes| == |blocks| && Shaped(shapes, leaves) && CurvesOf(blocks, leaves)
    ensures fresh(ShapeArrays(shapes))
  {
    shapes, leaves := [], [];
    NoShapes(blocks);
    hide SquareRoot, AspectShape.Root, AspectShape.Orientations, AspectShape.Spread, Shaped, CurvesOf;
    for i := 0 to |blocks|
      invariant |shapes| == i == |leaves| && Shaped(shapes, leaves) && CurvesOf(blocks, leaves) && fresh(ShapeArrays(shapes))
      invariant (forall k | 0 <= k < i :: blocks[k].Valid()) && (i > 0 ==> nOrients > 1 && nOrients % 2 == 0)
    {
      var b := blocks[i];
      if b.min > b.max {
        return RangeReversed, shapes, leaves;
      }
      if b.min <= 0.0 || b.max <= 0.0 || b.area <= 0.0 {
        return BadNumber, shapes, leaves;
      }
      var shape := AspectShape.ShapeFromAspect(b.area, b.min, b.max, b.rotable, nOrients, sqrt, root);
      if shape == null {
        return BadOrientations, shapes, leaves;
      }
      assert Shaped(shapes, leaves);
      ArraysOfMore(shapes, shape);
      OneMoreShape(blocks, shapes, leaves, shape);
      shapes, leaves := shapes + [shape], leaves + [shape.Value()];
    }
    reading := Described;
  }

  /** Turns an expression into a floorplan. */
  method Evaluate(shapes: seq<Shape>, stack: TreeNodeStack, expr: Npe.NPE, flp: Floorplan, ratio: real, ghost leaves: seq<Curve>)
    returns (ok: bool, compacted: int, ghost t: Tree, ghost whole: Unit)
    requires expr.Valid() && expr.nUnits >= 1 && |shapes| == expr.nUnits && Shaped(shapes, leaves)
    requires stack.Valid() && stack.Nodes() == [] && flp.nUnits == 2 * expr.nUnits - 1 <= flp.units.Length
    requires {stack, stack.slots, flp, flp.units} !! ShapeArrays(shapes) + expr.Arrays() + {expr}
    requires {stack, stack.slots} !! {flp, flp.units}
    modifies stack, stack.slots, flp, flp.units
    ensures ok <==> StackFits(expr.Expr(), |expr.Expr()|)
    ensures ok ==> stack.Valid() && stack.Nodes() == [] && 0 <= compacted <= expr.nUnits - 1
    ensures ok ==> flp.nUnits == 2 * expr.nUnits - 1 - compacted
    ensures ok ==> Evaluated(expr.Expr(), leaves, flp.units[..], flp.nUnits, t, whole, ratio)
  {
    hide Normalized, Built, Postorder, LeastBox, Floorplanned, StackFits, Staircases, RootGaps, GapsDecide;
    ghost var e := expr.Expr();
    var root := TreeFromNPE(shapes, stack, expr, leaves);
    ok := root != null;
    compacted, t, whole := 0, Leaf(Curve([], [], [], [], []), 0), Unit(0.0, 0.0, 0.0, 0.0);
    if root == null {
      return;
    }
    t := root.Value();
    ghost var pos, gaps;
    compacted, whole, pos, gaps := TreeToFlp.TreeToFlp(root, flp, true, ratio, leaves, expr.nUnits);
  }

  /** A valid state over few enough units is reachable and never overflows the stack. */
  lemma {:induction false} NormalizedAndSmall(expr: Npe.NPE, n: nat)
    requires expr.Valid() && expr.nUnits == n && 1 <= n <= MAX_STACK
    ensures PolishReach.Reaches(Initial(n), expr.Expr()) && StackFits(expr.Expr(), |expr.Expr()|)
  {
    hide Normalized, PolishReach.Reaches, StackFits;
    PolishReach.ReachableIffNormalized(n, expr.Expr());
    EnoughStack(expr.Expr(), n);
  }

  datatype Ending = Done | StackOverflow | TooManyTries

  /** An expression of the annealer: over the n units, apart from the memory it shares
      nothing with, and within the stack. */
  ghost predicate Candidate(expr: Npe.NPE, n: nat)
    reads expr, expr.Arrays()
  {
    expr.Valid() && expr.nUnits == n && StackFits(expr.Expr(), |expr.Expr()|) && PolishReach.Reaches(Initial(n), expr.Expr())
  }

  lemma {:induction false} ValidIsCandidate(expr: Npe.NPE, n: nat)
    requires expr.Valid() && expr.nUnits == n && 1 <= n <= MAX_STACK
    ensures Candidate(expr, n)
  {
    hide StackFits, PolishReach.Reaches, Initial;
    NormalizedAndSmall(expr, n);
  }

  /** The state between two rounds. */
  ghost predicate Ready(shapes: seq<Shape>, stack: TreeNodeStack, flp: Floorplan, leaves: seq<Curve>)
    reads ShapeArrays(shapes), stack, stack.slots, flp
  {
    Shaped(shapes, leaves) && stack.Valid() && stack.Nodes() == [] && flp.nUnits == 2 * |shapes| - 1 <= flp.units.Length
  }

  ghost predicate Apart(shapes: seq<Shape>, stack: TreeNodeStack, flp: Floorplan) {
    {stack, stack.slots, flp, flp.units} !! ShapeArrays(shapes) && {stack, stack.slots} !! {flp, flp.units}
  }

  /** The expression the annealer goes on from and the best one so far, with what they cost. */
  datatype Search = Search(expr: Npe.NPE, cost: real, best: Npe.NPE, bestCost: real)

  ghost function Own(s: Search): set<object>
    reads s.expr, s.best
  {
    s.expr.Arrays() + {s.expr} + s.best.Arrays() + {s.best}
  }

  /** The search after these trials: it holds the last one taken, and the cheapest. */
  ghost predicate Tracks(s: Search, log: seq<Trial>, b: nat, n: nat)
    reads s.expr, s.best, Own(s)
  {
    && log != [] && FirstLeast(log, b)
    && Candidate(s.expr, n) && s.expr.Expr() == log[Held(log)].e && s.cost == log[Held(log)].cost
    && Candidate(s.best, n) && s.best.Expr() == log[b].e && s.bestCost == log[b].cost
  }

  /** A copy of an expression. */
  method Keep(expr: Npe.NPE, n: nat) returns (copy: Npe.NPE)
    requires Candidate(expr, n) && 1 <= n <= MAX_STACK
    ensures fresh(copy) && fresh(copy.Arrays()) && Candidate(copy, n) && copy.Expr() == expr.Expr()
  {
    hide StackFits, PolishReach.Reaches, Initial, Normalized, Where, Ballot;
    copy := expr.Duplicate();
    ValidIsCandidate(copy, n);
  }

  /** Evaluates an expression and puts the compacted blocks back. The expression is within
      the stack, so it never overflows. */
  method TryExpression(shapes: seq<Shape>, stack: TreeNodeStack, expr: Npe.NPE, flp: Floorplan, ratio: real, metric: seq<Unit> -> real,
                       ghost leaves: seq<Curve>)
    returns (ok: bool, cost: real, ghost plan: seq<Unit>)
    requires 1 <= |shapes| <= MAX_STACK && Ready(shapes, stack, flp, leaves) && Apart(shapes, stack, flp)
    requires Candidate(expr, |shapes|) && {stack, stack.slots, flp, flp.units} !! expr.Arrays() + {expr}
    modifies stack, stack.slots, flp, flp.units
    ensures ok && Ready(shapes, stack, flp, leaves) && Candidate(expr, |shapes|) && expr.Expr() == old(expr.Expr())
    ensures IsPlan(expr.Expr(), leaves, plan, ratio) && cost == metric(plan)
  {
    hide Staircases, SameSizes, StackFits, Evaluated, PolishReach.Reaches, Initial, Normalized, Where, Ballot;
    var compacted;
    ghost var t, whole;
    ok, compacted, t, whole := Evaluate(shapes, stack, expr, flp, ratio, leaves);
    cost, plan := 0.0, [];
    if ok {
      FloorplanFits(expr.Expr(), leaves, flp.units[..], flp.nUnits, t, whole, ratio);
      plan := flp.units[..flp.nUnits];
      cost := metric(flp.units[..flp.nUnits]);
      assert IsPlan(expr.Expr(), leaves, plan, ratio) by { assert plan == flp.units[..][..|plan|]; }
      PutBack(shapes, stack, expr, flp, compacted, leaves);
    }
  }

  /** The compacted blocks back in their places. */
  method PutBack(shapes: seq<Shape>, stack: TreeNodeStack, expr: Npe.NPE, flp: Floorplan, compacted: nat, ghost leaves: seq<Curve>)
    requires |shapes| >= 1 && Shaped(shapes, leaves) && stack.Valid() && stack.Nodes() == [] && Apart(shapes, stack, flp)
    requires flp.nUnits == 2 * |shapes| - 1 - compacted && 2 * |shapes| - 1 <= flp.units.Length
    requires Candidate(expr, |shapes|) && {stack, stack.slots, flp, flp.units} !! expr.Arrays() + {expr}
    modifies flp, flp.units
    ensures Ready(shapes, stack, flp, leaves) && Candidate(expr, |shapes|) && expr.Expr() == old(expr.Expr())
  {
    hide Staircases, SameSizes, StackFits, PolishReach.Reaches, Initial, Normalized, Where, Ballot;
    FlpWrap.RestoreDeadBlocks(flp, |shapes|, compacted, false, false, 0);
  }

  lemma {:induction false} FloorplanFits(e: seq<int>, leaves: seq<Curve>, us: seq<Unit>, m: nat, t: Tree, whole: Unit, ratio: real)
    requires Evaluated(e, leaves, us, m, t, whole, ratio)
    ensures m <= |us|
  {
  }

  method FirstExpression(n: nat) returns (expr: Npe.NPE)
    requires 1 <= n <= MAX_STACK
    ensures Candidate(expr, n) && fresh(expr) && fresh(expr.Arrays()) && expr.Expr() == Initial(n)
  {
    hide Candidate, StackFits, PolishReach.Reaches, Initial, Normalized, Where, Ballot;
    var filled;
    expr, filled := Npe.NPE.GetInitial(n);
    ValidIsCandidate(expr, n);
  }

  /** The first expression, evaluated. */
  method FirstRound(shapes: seq<Shape>, stack: TreeNodeStack, flp: Floorplan, ratio: real, rules: Rules, ghost leaves: seq<Curve>)
    returns (ok: bool, s: Search, ghost log: seq<Trial>)
    requires 1 <= |shapes| <= MAX_STACK && Ready(shapes, stack, flp, leaves) && Apart(shapes, stack, flp)
    modifies stack, stack.slots, flp, flp.units
    ensures ok && Ready(shapes, stack, flp, leaves) && fresh(Own(s))
    ensures |log| == 1 && Logged(log, |shapes|, leaves, ratio, rules) && Tracks(s, log, 0, |shapes|)
  {
    hide Candidate, Ready, Shaped, IsPlan, Initial;
    var expr := FirstExpression(|shapes|);
    var cost;
    ghost var plan;
    ok, cost, plan := TryExpression(shapes, stack, expr, flp, ratio, rules.metric, leaves);
    var best := Keep(expr, |shapes|);
    s := Search(expr, cost, best, cost);
    ghost var t := Trial(expr.Expr(), plan, cost, 0.0, false, false);
    log := [t];
    LogOne(t, |shapes|, leaves, ratio, rules);
  }

  /** A copy of the expression that is one legal move away, or the program stops. */
  method MovedCopy(expr: Npe.NPE, n: nat) returns (next: Npe.NPE, moved: bool)
    requires Candidate(expr, n) && 2 <= n <= MAX_STACK
    ensures Candidate(next, n) && fresh(next) && fresh(next.Arrays())
    ensures moved ==> OneMove(expr.Expr(), next.Expr())
  {
    hide StackFits, PolishReach.Reaches, Initial, Normalized, Where, Ballot, Legal, Apply;
    ghost var tries, made;
    next, moved, tries, made := expr.MakeRandomMove();
    ValidIsCandidate(next, n);
  }

  /** A random move on a copy, and its evaluation. */
  method TryMove(shapes: seq<Shape>, stack: TreeNodeStack, flp: Floorplan, ratio: real, expr: Npe.NPE, metric: seq<Unit> -> real,
                 ghost leaves: seq<Curve>)
    returns (end: Ending, next: Npe.NPE, cost: real, ghost plan: seq<Unit>)
    requires 2 <= |shapes| <= MAX_STACK && Ready(shapes, stack, flp, leaves) && Apart(shapes, stack, flp)
    requires Candidate(expr, |shapes|) && {stack, stack.slots, flp, flp.units} !! expr.Arrays() + {expr}
    modifies stack, stack.slots, flp, flp.units
    ensures end != StackOverflow && Candidate(next, |shapes|) && fresh(next) && fresh(next.Arrays())
    ensures end == Done ==> Ready(shapes, stack, flp, leaves) && OneMove(old(expr.Expr()), next.Expr())
    ensures end == Done ==> IsPlan(next.Expr(), leaves, plan, ratio) && cost == metric(plan)
  {
    hide Candidate, Ready, Shaped, IsPlan, OneMove;
    var moved;
    next, moved := MovedCopy(expr, |shapes|);
    cost, plan := 0.0, [];
    if !moved {
      end := TooManyTries;
      return;
    }
    var ok;
    ok, cost, plan := TryExpression(shapes, stack, next, flp, ratio, metric, leaves);
    end := if ok then Done else StackOverflow;
  }

  /** One round: a random move, its evaluation, and the decision. It adds one trial to the
      run, and the search still holds what it should. */
  method Round(shapes: seq<Shape>, stack: TreeNodeStack, flp: Floorplan, ratio: real, s: Search, rules: Rules, tried: nat, temp: real,
               ghost leaves: seq<Curve>, ghost log: seq<Trial>, ghost b: nat)
    returns (end: Ending, s': Search, down: bool, taken: bool, ghost t: Trial, ghost b': nat)
    requires 2 <= |shapes| <= MAX_STACK && Ready(shapes, stack, flp, leaves) && Apart(shapes, stack, flp)
    requires Tracks(s, log, b, |shapes|) && tried == |log| - 1 && {stack, stack.slots, flp, flp.units} !! Own(s)
    modifies stack, stack.slots, flp, flp.units
    ensures end != StackOverflow && forall o | o in Own(s') :: o in old(Own(s)) || fresh(o)
    ensures end == Done ==> Ready(shapes, stack, flp, leaves) && IsPlan(t.e, leaves, t.plan, ratio)
    ensures end == Done ==> Follows(log, t, rules) && t.temp == temp && down == t.down && taken == t.taken
    ensures end == Done ==> Tracks(s', log + [t], b', |shapes|)
  {
    hide Candidate, Ready, Shaped, IsPlan, OneMove;
    s', down, taken, b' := s, false, false, b;
    t := Trial([], [], 0.0, 0.0, false, false);
    var next, newCost;
    ghost var plan;
    end, next, newCost, plan := TryMove(shapes, stack, flp, ratio, s.expr, rules.metric, leaves);
    if end != Done {
      return;
    }
    down, taken := newCost < s.cost, Takes(rules, tried, s.cost, newCost, temp);
    if taken {
      s' := s.(expr := next, cost := newCost);
      if down && newCost < s.bestCost {
        var best := Keep(next, |shapes|);
        s' := s'.(best := best, bestCost := newCost);
      }
    }
    t := Trial(next.Expr(), plan, newCost, temp, down, taken);
    LeastOfMore(log, t, b, rules);
    b' := if down && newCost < s.bestCost then |log| else b;
  }

  /** One round more at a temperature. */
  method NextTrial(shapes: seq<Shape>, stack: TreeNodeStack, flp: Floorplan, ratio: real, s: Search, rules: Rules, tried: nat, temp: real,
                   ghost leaves: seq<Curve>, ghost log: seq<Trial>, ghost stage: seq<Trial>, ghost b: nat, ghost moves: int)
    returns (end: Ending, s': Search, down: bool, taken: bool, ghost stage': seq<Trial>, ghost b': nat)
    requires 2 <= |shapes| <= MAX_STACK && Ready(shapes, stack, flp, leaves) && Apart(shapes, stack, flp)
    requires Tracks(s, log + stage, b, |shapes|) && tried == |log| + |stage| - 1 && {stack, stack.slots, flp, flp.units} !! Own(s)
    requires Logged(log + stage, |shapes|, leaves, ratio, rules) && InStage(stage, moves, temp) && !Enough(stage, moves)
    modifies stack, stack.slots, flp, flp.units
    ensures end != StackOverflow && forall o | o in Own(s') :: o in old(Own(s)) || fresh(o)
    ensures end == Done ==> Ready(shapes, stack, flp, leaves) && Logged(log + stage', |shapes|, leaves, ratio, rules)
    ensures end == Done ==> Tracks(s', log + stage', b', |shapes|) && InStage(stage', moves, temp) && |stage'| == |stage| + 1
    ensures end == Done ==> Downs(stage') == Downs(stage) + (if down then 1 else 0)
    ensures end == Done ==> Rejects(stage') == Rejects(stage) + if taken then 0 else 1
  {
    hide Candidate, Ready, Shaped, Apart, Own, IsPlan, Logged, Tracks, Follows, Rejects, Downs, InStage, Enough;
    ghost var t;
    stage' := stage;
    end, s', down, taken, t, b' := Round(shapes, stack, flp, ratio, s, rules, tried, temp, leaves, log + stage, b);
    if end == Done {
      LogMore(log + stage, t, |shapes|, leaves, ratio, rules);
      StageMore(stage, t, moves, temp);
      Regroup(log, stage, t);
      stage' := stage + [t];
    }
  }

  lemma {:induction false} MovesAre(shapes: seq<Shape>, stack: TreeNodeStack, flp: Floorplan, rules: Rules, leaves: seq<Curve>)
    requires Ready(shapes, stack, flp, leaves)
    ensures (rules.kMoves * flp.nUnits as real).Floor == Moves(rules, |shapes|)
  {
  }

  /** The trials at one temperature. */
  method Stage(shapes: seq<Shape>, stack: TreeNodeStack, flp: Floorplan, ratio: real, s: Search, rules: Rules, tried: nat, temp: real,
               ghost leaves: seq<Curve>, ghost log: seq<Trial>, ghost b: nat)
    returns (end: Ending, s': Search, i: nat, rejects: nat, ghost stage: seq<Trial>, ghost b': nat)
    requires 2 <= |shapes| <= MAX_STACK && Ready(shapes, stack, flp, leaves) && Apart(shapes, stack, flp)
    requires Tracks(s, log, b, |shapes|) && tried == |log| - 1 && {stack, stack.slots, flp, flp.units} !! Own(s)
    requires Logged(log, |shapes|, leaves, ratio, rules)
    modifies stack, stack.slots, flp, flp.units
    ensures end != StackOverflow && forall o | o in Own(s') :: o in old(Own(s)) || fresh(o)
    ensures end == Done ==> Ready(shapes, stack, flp, leaves) && Logged(log + stage, |shapes|, leaves, ratio, rules)
    ensures end == Done ==> Tracks(s', log + stage, b', |shapes|) && IsStage(stage, Moves(rules, |shapes|), temp)
    ensures end == Done ==> i == |stage| && rejects == Rejects(stage)
  {
    hide Candidate, Ready, Shaped, IsPlan, Logged, Tracks, Follows, Rejects, Downs, InStage, Moves, Enough, Apart, Own;
    MovesAre(shapes, stack, flp, rules, leaves);
    var n, downs := (rules.kMoves * flp.nUnits as real).Floor, 0;
    end, s', i, rejects, stage, b' := Done, s, 0, 0, [], b;
    NoTrials(log, n, temp);
    EnoughIs(stage, n);
    while i < 2 * n && downs < n
      invariant end == Done && i == |stage| && downs == Downs(stage) && rejects == Rejects(stage)
      invariant Ready(shapes, stack, flp, leaves) && Logged(log + stage, |shapes|, leaves, ratio, rules)
      invariant Tracks(s', log + stage, b', |shapes|) && forall o | o in Own(s') :: o in old(Own(s)) || fresh(o)
      invariant InStage(stage, n, temp) && Enough(stage, n) == (i >= 2 * n || downs >= n)
    {
      var down, taken;
      end, s', down, taken, stage, b' := NextTrial(shapes, stack, flp, ratio, s', rules, tried + i, temp, leaves, log, stage, b', n);
      if end != Done {
        return;
      }
      if down {
        downs := downs + 1;
      }
      if !taken {
        rejects := rejects + 1;
      }
      i := i + 1;
      EnoughIs(stage, n);
    }
    assert IsStage(stage, n, temp);
  }

  /** One temperature after another. */
  method Cool(shapes: seq<Shape>, stack: TreeNodeStack, flp: Floorplan, ratio: real, s: Search, rules: Rules,
              ghost leaves: seq<Curve>, ghost first: Trial)
    returns (end: Ending, s': Search, ghost stages: seq<seq<Trial>>, ghost b: nat)
    requires 2 <= |shapes| <= MAX_STACK && Ready(shapes, stack, flp, leaves) && Apart(shapes, stack, flp)
    requires Tracks(s, [first], 0, |shapes|) && {stack, stack.slots, flp, flp.units} !! Own(s)
    requires Logged([first], |shapes|, leaves, ratio, rules)
    modifies stack, stack.slots, flp, flp.units
    ensures end != StackOverflow && forall o | o in Own(s') :: o in old(Own(s)) || fresh(o)
    ensures end == Done ==> Ready(shapes, stack, flp, leaves) && Logged([first] + Trials(stages), |shapes|, leaves, ratio, rules)
    ensures end == Done ==> Cooled(stages, |shapes|, rules) && Stopped(stages, rules)
    ensures end == Done ==> Tracks(s', [first] + Trials(stages), b, |shapes|)
  {
    hide Candidate, Ready, Shaped, Apart, Own, Logged, Cooled, IsStage, Halted, TooFew, TooMany, Rejects, Tracks, Temperature, Colder, Trials;
    ghost var log := [first];
    end, s', stages, b := Done, s, [], 0;
    var temp, steps, tried, done := rules.start, 0, 0, false;
    NoStages(first, |shapes|, rules);
    Cooler(rules, 0);
    while !done && temp >= rules.cold && steps < rules.nMax
      invariant end == Done && Ready(shapes, stack, flp, leaves) && Tracks(s', log, b, |shapes|)
      invariant forall o | o in Own(s') :: o in old(Own(s)) || fresh(o)
      invariant log == [first] + Trials(stages) && tried == |log| - 1 && Logged(log, |shapes|, leaves, ratio, rules)
      invariant Cooled(stages, |shapes|, rules) && done == Halted(stages, rules)
      invariant !done ==> steps == |stages| && temp == Temperature(rules, steps)
      decreases !done, rules.nMax - steps
    {
      var i, rejects;
      ghost var stage;
      end, s', i, rejects, stage, b := Stage(shapes, stack, flp, ratio, s', rules, tried, temp, leaves, log, b);
      if end != Done {
        return;
      }
      CooledMore(stages, stage, |shapes|, rules);
      RegroupStages(first, stages, stage);
      log, stages, tried := log + stage, stages + [stage], tried + i;
      TooFewIs(stage, rules);
      if TooMany(rejects, i, rules.rReject) {
        done := true;
      } else {
        Cooler(rules, steps);
        temp := Colder(temp, rules);
        steps := steps + 1;
      }
    }
  }

  /** The best expression turned into a floorplan for good. */
  method Settle(shapes: seq<Shape>, stack: TreeNodeStack, flp: Floorplan, ratio: real, best: Npe.NPE, ghost leaves: seq<Curve>)
    returns (compacted: int, ghost t: Tree, ghost whole: Unit)
    requires 1 <= |shapes| <= MAX_STACK && Ready(shapes, stack, flp, leaves) && Apart(shapes, stack, flp)
    requires Candidate(best, |shapes|) && {stack, stack.slots, flp, flp.units} !! best.Arrays() + {best}
    modifies stack, stack.slots, flp, flp.units
    ensures Candidate(best, |shapes|) && flp.nUnits == 2 * |shapes| - 1 - compacted && 0 <= compacted <= |shapes| - 1
    ensures best.Expr() == old(best.Expr()) && Evaluated(best.Expr(), leaves, flp.units[..], flp.nUnits, t, whole, ratio)
  {
    hide Staircases, StackFits, PolishReach.Reaches, Initial, Normalized, Where, Ballot, Evaluated;
    var ok;
    ok, compacted, t, whole := Evaluate(shapes, stack, best, flp, ratio, leaves);
  }

  lemma {:induction false} BestOf(s: Search, log: seq<Trial>, b: nat, n: nat)
    requires Tracks(s, log, b, n)
    ensures Candidate(s.best, n) && FirstLeast(log, b) && s.best.Expr() == log[b].e
    ensures s.best.Arrays() + {s.best} <= Own(s)
  {
    hide Candidate, FirstLeast, Held;
  }

  /** Simulated annealing: every round makes a random move on a copy, evaluates it, and
      keeps it or drops it, at temperatures that fall until it is cold, long enough, or too few
      are accepted. The stack never overflows, and the floorplan returned is the least tiling of
      the first of all the expressions tried whose floorplan costs least. */
  method Anneal(shapes: seq<Shape>, stack: TreeNodeStack, flp: Floorplan, ratio: real, rules: Rules, ghost leaves: seq<Curve>)
    returns (end: Ending, best: Npe.NPE, compacted: int, ghost t: Tree, ghost whole: Unit,
             ghost first: Trial, ghost stages: seq<seq<Trial>>, ghost b: nat)
    requires 2 <= |shapes| <= MAX_STACK && Ready(shapes, stack, flp, leaves) && Apart(shapes, stack, flp)
    modifies stack, stack.slots, flp, flp.units
    ensures end != StackOverflow
    ensures end == Done ==> flp.nUnits == 2 * |shapes| - 1 - compacted && 0 <= compacted <= |shapes| - 1
    ensures end == Done ==> Evaluated(best.Expr(), leaves, flp.units[..], flp.nUnits, t, whole, ratio)
    ensures end == Done ==> Logged([first] + Trials(stages), |shapes|, leaves, ratio, rules)
    ensures end == Done ==> Cooled(stages, |shapes|, rules) && Stopped(stages, rules)
    ensures end == Done ==> FirstLeast([first] + Trials(stages), b) && best.Expr() == ([first] + Trials(stages))[b].e
    ensures end == Done ==> Candidate(best, |shapes|)
  {
    hide Candidate, Ready, Shaped, Apart, Evaluated, Logged, Cooled, Stopped, Trials, Tracks, Held;
    compacted, t, whole := 0, Leaf(Curve([], [], [], [], []), 0), Unit(0.0, 0.0, 0.0, 0.0);
    var ok, s;
    ghost var log;
    ok, s, log := FirstRound(shapes, stack, flp, ratio, rules, leaves);
    first := log[0];
    assert log == [first];
    end, s, stages, b := Cool(shapes, stack, flp, ratio, s, rules, leaves, first);
    best := s.best;
    if end != Done {
      return;
    }
    log := [first] + Trials(stages);
    BestOf(s, log, b, |shapes|);
    compacted, t, whole := Settle(shapes, stack, flp, ratio, best, leaves);
  }
}
