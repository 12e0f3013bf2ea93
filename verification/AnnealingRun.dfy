/** What a run of the annealer is: the expressions it tries one after another, which of them it
    goes on from, when it cools, when it stops, and which one it keeps as the best. */
module AnnealingRun {
  import opened PolishExpression
  import opened ShapeCurve
  import opened SlicingTree
  import opened Rectangles
  import opened TreeToFlp

  /** A floorplan evaluated for an expression: the blocks and surviving dead blocks tile
      the least box any orientation of the blocks allows under that slicing tree. */
  ghost predicate Evaluated(e: seq<int>, leaves: seq<Curve>, us: seq<Unit>, m: nat, t: Tree, whole: Unit, ratio: real) {
    && Built(t, leaves) && Postorder(t) == e && LeastBox(t, leaves, whole)
    && Floorplanned(us, m, whole, true, ratio)
  }

  ghost predicate IsPlan(e: seq<int>, leaves: seq<Curve>, plan: seq<Unit>, ratio: real) {
    exists us: seq<Unit>, t, whole :: |plan| <= |us| && plan == us[..|plan|] && Evaluated(e, leaves, us, |plan|, t, whole, ratio)
  }

  /** What decides: the cost of a floorplan, the exponential, the random fraction drawn for
      each trial, and the configured schedule. */
  datatype Rules = Rules(metric: seq<Unit> -> real, exp: real -> real, chances: nat -> real,
                         start: real, cold: real, kMoves: real, rCool: real, rReject: real, nMax: nat)

  /** One expression tried: its floorplan, what that costs, the temperature, whether it cost
      less than the one held, and whether it was taken in its place. */
  datatype Trial = Trial(e: seq<int>, plan: seq<Unit>, cost: real, temp: real, down: bool, taken: bool)

  /** The trial held after all of these. */
  ghost function Held(log: seq<Trial>): (k: nat)
    requires log != []
    ensures k < |log|
  {
    var k := |log| - 1;
    if k == 0 || log[k].taken then k else Held(log[..k])
  }

  /** Cheaper is always taken; dearer with a probability that falls with temperature. At zero
      temperature it is never taken: the exponent is no number or minus infinity. */
  predicate Takes(rules: Rules, k: nat, cost: real, newCost: real, temp: real) {
    newCost < cost || (temp != 0.0 && rules.chances(k) < rules.exp(-(newCost - cost) / temp))
  }

  ghost predicate OneMove(e: seq<int>, f: seq<int>) {
    exists m :: Legal(e, m) && f == Apply(e, m)
  }

  /** A trial after these: one legal move from the expression held, and decided by the costs. */
  ghost predicate Follows(log: seq<Trial>, t: Trial, rules: Rules)
    requires log != []
  {
    var h := log[Held(log)];
    OneMove(h.e, t.e) && t.cost == rules.metric(t.plan)
    && t.down == (t.cost < h.cost) && t.taken == Takes(rules, |log| - 1, h.cost, t.cost, t.temp)
  }

  /** All trials from the first expression on. */
  ghost predicate Logged(log: seq<Trial>, n: nat, leaves: seq<Curve>, ratio: real, rules: Rules)
    requires n > 0
  {
    && log != [] && log[0].e == Initial(n) && log[0].cost == rules.metric(log[0].plan)
    && (forall k | 0 <= k < |log| :: IsPlan(log[k].e, leaves, log[k].plan, ratio))
    && forall k | 1 <= k < |log| :: Follows(log[..k], log[k], rules)
  }

  /** No trial costs less, and every one before it costs more. */
  ghost predicate FirstLeast(log: seq<Trial>, b: nat) {
    b < |log| && forall k | 0 <= k < |log| :: log[b].cost <= log[k].cost && (k < b ==> log[b].cost < log[k].cost)
  }

  lemma {:induction false} LogOne(t: Trial, n: nat, leaves: seq<Curve>, ratio: real, rules: Rules)
    requires n > 0 && t.e == Initial(n) && t.cost == rules.metric(t.plan) && IsPlan(t.e, leaves, t.plan, ratio)
    ensures Logged([t], n, leaves, ratio, rules) && FirstLeast([t], 0) && Held([t]) == 0
  {
    hide IsPlan, Follows, Initial;
  }

  lemma {:induction false} LogMore(log: seq<Trial>, t: Trial, n: nat, leaves: seq<Curve>, ratio: real, rules: Rules)
    requires n > 0 && Logged(log, n, leaves, ratio, rules) && Follows(log, t, rules) && IsPlan(t.e, leaves, t.plan, ratio)
    ensures Logged(log + [t], n, leaves, ratio, rules) && Held(log + [t]) == if t.taken then |log| else Held(log)
  {
    hide IsPlan, Follows, Initial;
    var more := log + [t];
    assert more[..|log|] == log;
    forall k | 1 <= k < |more| ensures Follows(more[..k], more[k], rules) {
      assert more[..k] == log[..k];
      assert k == |log| ==> log[..k] == log;
    }
  }

  /** Only a trial cheaper than the one held can be the cheapest so far. */
  lemma {:induction false} LeastOfMore(log: seq<Trial>, t: Trial, b: nat, rules: Rules)
    requires log != [] && FirstLeast(log, b) && Follows(log, t, rules)
    ensures t.down && t.cost < log[b].cost ==> t.taken && FirstLeast(log + [t], |log|)
    ensures !(t.down && t.cost < log[b].cost) ==> FirstLeast(log + [t], b)
  {
    hide OneMove;
    var more := log + [t];
    assert forall k | 0 <= k < |log| :: more[k] == log[k];
    assert log[b].cost <= log[Held(log)].cost;
  }

  // ---- the schedule ----

  function Downs(s: seq<Trial>): nat {
    if s == [] then 0 else Downs(s[..|s|-1]) + if s[|s|-1].down then 1 else 0
  }

  function Rejects(s: seq<Trial>): nat {
    if s == [] then 0 else Rejects(s[..|s|-1]) + if s[|s|-1].taken then 0 else 1
  }

  /** Enough trials, or enough that went downhill. */
  predicate Enough(s: seq<Trial>, moves: int) {
    |s| >= 2 * moves || Downs(s) >= moves
  }

  /** Trials at one temperature, none after enough. */
  ghost predicate InStage(s: seq<Trial>, moves: int, temp: real) {
    forall k | 0 <= k < |s| :: s[k].temp == temp && !Enough(s[..k], moves)
  }

  /** The trials at one temperature: they end as soon as they are enough. */
  ghost predicate IsStage(s: seq<Trial>, moves: int, temp: real) {
    InStage(s, moves, temp) && Enough(s, moves)
  }

  /** Too large a part was rejected; of no trials nothing was. */
  predicate TooMany(rejects: nat, tried: nat, most: real) {
    tried > 0 && rejects as real / tried as real > most
  }

  predicate TooFew(s: seq<Trial>, rules: Rules) {
    TooMany(Rejects(s), |s|, rules.rReject)
  }

  function Colder(temp: real, rules: Rules): real {
    temp * rules.rCool
  }

  function Temperature(rules: Rules, steps: nat): real {
    if steps == 0 then rules.start else Colder(Temperature(rules, steps - 1), rules)
  }

  predicate Hot(rules: Rules, steps: nat) {
    Temperature(rules, steps) >= rules.cold && steps < rules.nMax
  }

  /** The moves tried at one temperature grow with the number of units, dead blocks included. */
  function Moves(rules: Rules, n: nat): int {
    (rules.kMoves * (2 * n - 1) as real).Floor
  }

  /** Stages while it is hot enough, none after one with too few accepted. */
  ghost predicate Cooled(stages: seq<seq<Trial>>, n: nat, rules: Rules) {
    forall s | 0 <= s < |stages| :: IsStage(stages[s], Moves(rules, n), Temperature(rules, s)) && Hot(rules, s)
      && (s + 1 < |stages| ==> !TooFew(stages[s], rules))
  }

  ghost predicate Halted(stages: seq<seq<Trial>>, rules: Rules) {
    stages != [] && TooFew(stages[|stages|-1], rules)
  }

  /** No stage follows. */
  ghost predicate Stopped(stages: seq<seq<Trial>>, rules: Rules) {
    Halted(stages, rules) || !Hot(rules, |stages|)
  }

  function Trials(stages: seq<seq<Trial>>): seq<Trial> {
    if stages == [] then [] else Trials(stages[..|stages|-1]) + stages[|stages|-1]
  }

  lemma {:induction false} CooledMore(stages: seq<seq<Trial>>, s: seq<Trial>, n: nat, rules: Rules)
    requires Cooled(stages, n, rules) && !Halted(stages, rules) && Hot(rules, |stages|)
    requires IsStage(s, Moves(rules, n), Temperature(rules, |stages|))
    ensures Cooled(stages + [s], n, rules) && Halted(stages + [s], rules) == TooFew(s, rules)
  {
    hide IsStage, TooFew, Hot, Moves, Temperature;
  }

  lemma {:induction false} NoTrials(log: seq<Trial>, moves: int, temp: real)
    ensures log + [] == log && Downs([]) == 0 && Rejects([]) == 0 && InStage([], moves, temp)
  {
  }

  lemma {:induction false} NoStages(first: Trial, n: nat, rules: Rules)
    ensures [first] + Trials([]) == [first] && Cooled([], n, rules) && !Halted([], rules)
  {
  }

  lemma {:induction false} EnoughIs(s: seq<Trial>, moves: int)
    ensures Enough(s, moves) == (|s| >= 2 * moves || Downs(s) >= moves)
  {
  }

  lemma {:induction false} TooFewIs(s: seq<Trial>, rules: Rules)
    ensures TooFew(s, rules) == TooMany(Rejects(s), |s|, rules.rReject)
  {
  }

  lemma {:induction false} Cooler(rules: Rules, steps: nat)
    ensures Temperature(rules, 0) == rules.start && Temperature(rules, steps + 1) == Colder(Temperature(rules, steps), rules)
  {
  }

  lemma {:induction false} Regroup(log: seq<Trial>, s: seq<Trial>, t: Trial)
    ensures log + s + [t] == log + (s + [t])
  {
  }

  lemma {:induction false} RegroupStages(first: Trial, stages: seq<seq<Trial>>, s: seq<Trial>)
    ensures [first] + Trials(stages) + s == [first] + Trials(stages + [s])
  {
    assert (stages + [s])[..|stages|] == stages;
  }

  /** One trial more at the same temperature. */
  lemma {:induction false} StageMore(s: seq<Trial>, t: Trial, moves: int, temp: real)
    requires InStage(s, moves, temp) && !Enough(s, moves) && t.temp == temp
    ensures Downs(s + [t]) == Downs(s) + (if t.down then 1 else 0) && Rejects(s + [t]) == Rejects(s) + if t.taken then 0 else 1
    ensures InStage(s + [t], moves, temp)
  {
    var more := s + [t];
    assert more[..|s|] == s;
    hide Enough, Downs, Rejects;
    forall k | 0 <= k < |more| ensures more[k].temp == temp && !Enough(more[..k], moves) {
      if k < |s| { assert more[..k] == s[..k]; }
    }
  }

  /** At most twice the moves are tried at one temperature and at most the moves go downhill,
      and one of the two is reached exactly. */
  lemma {:induction false} StageSize(s: seq<Trial>, moves: nat, temp: real)
    requires IsStage(s, moves, temp)
    ensures |s| <= 2 * moves && Downs(s) <= moves && (|s| == 2 * moves || Downs(s) == moves)
  {
    if s != [] { assert !Enough(s[..|s|-1], moves); }
  }

  /** So the whole run tries a bounded number of expressions. */
  lemma {:induction false} RunSize(stages: seq<seq<Trial>>, n: nat, rules: Rules)
    requires Cooled(stages, n, rules) && Moves(rules, n) >= 0
    ensures |stages| <= rules.nMax && |Trials(stages)| <= rules.nMax * (2 * Moves(rules, n))
  {
    hide IsStage, TooFew, Temperature;
    assert |stages| > 0 ==> Hot(rules, |stages| - 1);
    hide Moves, Hot;
    TrialsAtMost(stages, n, rules);
    AtMostTimes(|stages|, rules.nMax, 2 * Moves(rules, n));
  }

  lemma {:induction false} AtMostTimes(a: nat, b: nat, c: nat)
    requires a <= b
    ensures a * c <= b * c
  {
  }

  lemma {:induction false} TrialsAtMost(stages: seq<seq<Trial>>, n: nat, rules: Rules)
    requires Cooled(stages, n, rules) && Moves(rules, n) >= 0
    ensures |Trials(stages)| <= |stages| * (2 * Moves(rules, n))
  {
    hide TooFew, Temperature, Moves, Hot, IsStage;
    if stages != [] {
      var k := |stages| - 1;
      TrialsAtMost(stages[..k], n, rules);
      StageSize(stages[k], Moves(rules, n), Temperature(rules, k));
      assert (k + 1) * (2 * Moves(rules, n)) == k * (2 * Moves(rules, n)) + 2 * Moves(rules, n);
    }
  }

}
