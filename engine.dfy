/**
 * The simulated-annealing driver of main: the sanity check on the options,
 * the initial candidate sets, and one generation of the evolution loop —
 * cooling, the incremental shape budget, mutation of a copy of the current
 * solution, the acceptance test and the best / absolute-best bookkeeping.
 * Scores and the temperature are reals; the score of a candidate (drawing it
 * and comparing it with the target image) is a parameter.
 */
module Annealing {
  import opened Random
  import opened Shapes
  import opened ShapeSets

  /** The amount the temperature drops every ten generations. */
  const COOLING_STEP: real := 0.00001
  /** The temperature the search starts at. */
  const INITIAL_TEMPERATURE: real := 0.10
  /** The worst difference, as a percentage: the initial best and absolute best. */
  const WORST_DIFF: real := 100.0
  /** The `count` main passes to mutatetriangles: the number of mutation trials per generation. */
  const TRIALS: nat := 10
  /** The largest mutation rate, in thousandths. */
  const MAX_MUTATION_RATE: int := 1000

  function RealMax(a: real, b: real): real {
    if a >= b then a else b
  }

  // ----- Options -------------------------------------------------------------

  /** The options the sanity check looks at. */
  datatype Config = Config(maxShapes: int, initialShapes: int, mutationRate: int)

  /** The defaults before the command line is read. */
  const DEFAULT_CONFIG: Config := Config(64, 1, 200)

  /**
   * The sanity check of main: a shape budget above the total raises the
   * total to it, and a mutation rate above 1000 is cut to 1000.
   */
  function SanityChecked(c: Config): (r: Config)
    ensures r.initialShapes == c.initialShapes
    ensures r.initialShapes <= r.maxShapes && c.maxShapes <= r.maxShapes
    ensures r.maxShapes == c.maxShapes || r.maxShapes == c.initialShapes
    ensures r.mutationRate <= MAX_MUTATION_RATE
    ensures c.mutationRate <= MAX_MUTATION_RATE ==> r.mutationRate == c.mutationRate
    ensures c.mutationRate > MAX_MUTATION_RATE ==> r.mutationRate == MAX_MUTATION_RATE
  {
    var c1 := if c.initialShapes > c.maxShapes then c.(maxShapes := c.initialShapes) else c;
    if c1.mutationRate > MAX_MUTATION_RATE then c1.(mutationRate := MAX_MUTATION_RATE) else c1
  }

  /** The defaults pass the sanity check unchanged: 64 slots, a budget of 1 and a rate of 200 need no correction. */
  lemma DefaultsPassSanityCheck()
    ensures SanityChecked(DEFAULT_CONFIG) == DEFAULT_CONFIG
  {
  }

  /** A checked configuration passes the check unchanged. */
  lemma SanityCheckedIdempotent(c: Config)
    ensures SanityChecked(SanityChecked(c)) == SanityChecked(c)
  {
  }

  // ----- Cooling -------------------------------------------------------------

  /** The temperature after generation `generation` starts: every tenth generation it drops by one step, never below 0. */
  function Cooled(temperature: real, generation: int): (t: real)
    ensures 0.0 <= temperature ==> 0.0 <= t <= temperature
    ensures t != temperature ==> 0.0 < temperature && generation % 10 == 0
    ensures temperature - COOLING_STEP <= t
  {
    if temperature > 0.0 && generation % 10 == 0 then
      if temperature - COOLING_STEP < 0.0 then 0.0 else temperature - COOLING_STEP
    else
      temperature
  }

  /** The temperature after n more generations, the last of which is generation + n. */
  function CooledRun(temperature: real, generation: int, n: nat): real {
    if n == 0 then temperature else Cooled(CooledRun(temperature, generation, n - 1), generation + n)
  }

  /** Integer division by a positive constant goes up by one exactly at its multiples. */
  lemma DivStep(m: int, d: int)
    requires m >= 0 && (d == 10 || d == 1000)
    ensures (m + 1) / d == m / d + (if (m + 1) % d == 0 then 1 else 0)
  {
  }

  /**
   * Over any run of generations the temperature is the start value less one
   * step per multiple of ten passed, floored at 0.
   */
  lemma {:induction false} CooledRunClosedForm(t: real, g: int, n: nat)
    requires t >= 0.0 && g >= 0
    ensures CooledRun(t, g, n) == RealMax(0.0, t - COOLING_STEP * ((g + n) / 10 - g / 10) as real)
  {
    if n > 0 {
      CooledRunClosedForm(t, g, n - 1);
      DivStep(g + n - 1, 10);
    }
  }

  // ----- Shape budget --------------------------------------------------------

  /**
   * The budget after generation `generation` starts: every thousandth
   * generation it grows by one, if it is below the number of slots and the
   * candidate of the previous generation uses the whole budget.
   */
  function RaisedBudget(budget: int, generation: int, count: int, inuse: int): (r: int)
    ensures budget <= r <= budget + 1
    ensures budget <= count ==> r <= count
    ensures r > budget ==> generation % 1000 == 0 && inuse >= budget
    ensures generation % 1000 == 0 && budget < count && inuse >= budget ==> r == budget + 1
  {
    if generation % 1000 == 0 && budget < count && inuse > budget - 1 then budget + 1 else budget
  }

  /** The budget after |inuses| more generations, inuses[k] being the candidate's inuse before generation generation + k + 1. */
  function BudgetRun(budget: int, generation: int, count: int, inuses: seq<int>): int {
    if |inuses| == 0 then budget
    else RaisedBudget(BudgetRun(budget, generation, count, inuses[..|inuses| - 1]),
                      generation + |inuses|, count, inuses[|inuses| - 1])
  }

  /** The budget never shrinks, never passes the slot count, and grows at most once per thousand generations. */
  lemma {:induction false} BudgetRunBounds(budget: int, g: int, count: int, inuses: seq<int>)
    requires budget <= count && g >= 0
    ensures var b := BudgetRun(budget, g, count, inuses);
      budget <= b <= count && b <= budget + ((g + |inuses|) / 1000 - g / 1000)
  {
    if |inuses| > 0 {
      BudgetRunBounds(budget, g, count, inuses[..|inuses| - 1]);
      DivStep(g + |inuses| - 1, 1000);
    }
  }

  // ----- Acceptance ----------------------------------------------------------

  /**
   * The acceptance test: a better candidate always; a worse one only while
   * the temperature is positive, the coin falls below it, and the candidate
   * is within twice the temperature of the absolute best.
   */
  function Accept(percdiff: real, bestdiff: real, temperature: real, absbestdiff: real, coin: real): (accepted: bool)
    ensures percdiff < bestdiff ==> accepted
    ensures accepted ==> percdiff < RealMax(bestdiff, absbestdiff + 2.0 * temperature)
    ensures accepted && percdiff >= bestdiff ==> 0.0 < temperature && coin < temperature
  {
    percdiff < bestdiff ||
    (temperature > 0.0 && coin < temperature && percdiff - absbestdiff < 2.0 * temperature)
  }

  /** Once the temperature has reached 0 only improvements are accepted. */
  lemma ColdAcceptsOnlyImprovements(percdiff: real, bestdiff: real, temperature: real, absbestdiff: real, coin: real)
    requires temperature <= 0.0
    ensures Accept(percdiff, bestdiff, temperature, absbestdiff, coin) <==> percdiff < bestdiff
  {
  }

  /** A worse candidate close enough to the absolute best is accepted exactly when the coin falls below the temperature. */
  lemma UphillAcceptedOnCoin(percdiff: real, bestdiff: real, temperature: real, absbestdiff: real, coin: real)
    requires bestdiff <= percdiff && percdiff - absbestdiff < 2.0 * temperature && temperature > 0.0
    ensures Accept(percdiff, bestdiff, temperature, absbestdiff, coin) <==> coin < temperature
  {
  }

  // ----- Best and absolute best ----------------------------------------------

  /** bestdiff, the score of the current solution, and absbestdiff, the score kept with the absolute best copy. */
  datatype Scores = Scores(best: real, absBest: real)

  /**
   * The bookkeeping after the acceptance test: an accepted candidate becomes
   * the current solution; if it beat the current solution it is also copied
   * to the absolute best, whose score it takes.
   */
  function Record(sc: Scores, percdiff: real, accepted: bool): (r: Scores)
    ensures !accepted ==> r == sc
    ensures accepted ==> r.best == percdiff
    ensures accepted && percdiff < sc.best ==> r.absBest == percdiff
    ensures r.absBest != sc.absBest ==> accepted && percdiff < sc.best && r.absBest == percdiff
    ensures sc.absBest <= sc.best ==> r.absBest <= r.best
  {
    if !accepted then sc
    else if percdiff < sc.best then Scores(percdiff, percdiff)
    else sc.(best := percdiff)
  }

  /** The step the absolute best takes on a candidate scored percdiff. */
  function RecordStep(sc: Scores, percdiff: real, temperature: real, coin: real): Scores {
    Record(sc, percdiff, Accept(percdiff, sc.best, temperature, sc.absBest, coin))
  }

  /**
   * The absolute best is replaced whenever a candidate beats the current
   * solution, not the absolute best: after an uphill acceptance, a candidate
   * between the two raises absbestdiff.
   */
  lemma AbsBestCanRise()
    ensures var s0 := Scores(3.0, 3.0);
      var s1 := RecordStep(s0, 3.1, 0.1, 0.0);
      var s2 := RecordStep(s1, 3.05, 0.1, 0.5);
      s1 == Scores(3.1, 3.0) && s2.absBest == 3.05 && s2.absBest > s0.absBest
  {
  }

  /** With the temperature at 0 the current solution is the absolute best, and its score never rises. */
  lemma ColdKeepsAbsoluteBest(sc: Scores, percdiff: real, temperature: real, coin: real)
    requires temperature <= 0.0 && sc.absBest == sc.best
    ensures var r := RecordStep(sc, percdiff, temperature, coin);
      r.absBest == r.best && r.absBest <= sc.absBest
  {
    ColdAcceptsOnlyImprovements(percdiff, sc.best, temperature, sc.absBest, coin);
  }

  // ----- The evolution loop --------------------------------------------------

  /** The state main keeps across generations: the global state, bestdiff and the three candidate sets. */
  class Engine {
    const width: int
    const height: int
    /** The scratch candidate: a copy of best, mutated. */
    const triangles: ShapeSet
    /** The current solution. */
    const best: ShapeSet
    /** The copy kept of the best solution found. */
    const absbest: ShapeSet
    var maxShapesIncremental: int
    var temperature: real
    var absbestdiff: real
    var generation: int
    var bestdiff: real

    ghost predicate Valid()
      reads this, triangles, best, absbest, triangles.shapes, best.shapes, absbest.shapes
    {
      width >= 1 && height >= 1 &&
      triangles != best && triangles != absbest && best != absbest &&
      triangles.shapes != best.shapes && triangles.shapes != absbest.shapes && best.shapes != absbest.shapes &&
      triangles.shapes.Length == best.shapes.Length == absbest.shapes.Length &&
      triangles.Valid(width, height) && best.Valid(width, height) && absbest.Valid(width, height) &&
      maxShapesIncremental <= best.shapes.Length &&
      temperature >= 0.0 && absbestdiff <= bestdiff && generation >= 0
    }

    /**
     * The set-up of main after the sanity check: three random sets of
     * maxShapes slots; with --restart the current solution uses the whole
     * initial budget, otherwise (no saved state) only its first shape; the
     * absolute best starts as a copy of it.
     */
    constructor (width: int, height: int, maxShapes: int, initialShapes: int, restart: bool, opts: Options,
                 d1: seq<seq<int>>, d2: seq<seq<int>>, d3: seq<seq<int>>)
      requires width >= 1 && height >= 1 && 1 <= maxShapes && initialShapes <= maxShapes && (restart ==> 1 <= initialShapes)
      requires |d1| == maxShapes && forall j :: 0 <= j < maxShapes ==> IsDraws(d1[j], Generate.RANDOM_SHAPE_DRAWS)
      requires |d2| == maxShapes && forall j :: 0 <= j < maxShapes ==> IsDraws(d2[j], Generate.RANDOM_SHAPE_DRAWS)
      requires |d3| == maxShapes && forall j :: 0 <= j < maxShapes ==> IsDraws(d3[j], Generate.RANDOM_SHAPE_DRAWS)
      ensures Valid()
      ensures best.shapes.Length == maxShapes
      ensures maxShapesIncremental == initialShapes && temperature == INITIAL_TEMPERATURE && generation == 0
      ensures bestdiff == WORST_DIFF && absbestdiff == WORST_DIFF
      ensures best.inuse == (if restart then initialShapes else 1)
      ensures absbest.inuse == best.inuse && absbest.shapes[..] == best.shapes[..]
    {
      this.width := width;
      this.height := height;
      triangles := new ShapeSet(maxShapes, width, height, opts, d1);
      best := new ShapeSet(maxShapes, width, height, opts, d2);
      absbest := new ShapeSet(maxShapes, width, height, opts, d3);
      maxShapesIncremental := initialShapes;
      temperature := INITIAL_TEMPERATURE;
      generation := 0;
      absbestdiff := WORST_DIFF;
      bestdiff := WORST_DIFF;
      new;
      if restart {
        best.inuse := initialShapes;
      }
      absbest.CopyFrom(best);
      assert absbest.shapes[..] == best.shapes[..];
    }

    /**
     * One generation of the loop in main: cool, maybe raise the budget (on
     * the inuse of last generation's candidate), copy the current solution
     * into the scratch set and mutate it, score it, and keep it as the
     * current solution, and the absolute best, as Accept and Record decide.
     */
    method Step(opts: Options, rate: int, coin: real, d: EditDraws, score: seq<Shape> -> real)
      returns (percdiff: real, accepted: bool)
      requires Valid() && 0.0 <= coin <= 1.0 && IsEditDraws(d, TRIALS)
      modifies this, triangles, triangles.shapes, best, best.shapes, absbest, absbest.shapes
      ensures Valid()
      ensures generation == old(generation) + 1
      ensures temperature == Cooled(old(temperature), generation)
      ensures maxShapesIncremental ==
        RaisedBudget(old(maxShapesIncremental), generation, best.shapes.Length, old(triangles.inuse))
      ensures percdiff == score(triangles.shapes[..triangles.inuse])
      ensures accepted == Accept(percdiff, old(bestdiff), temperature, old(absbestdiff), coin)
      ensures Scores(bestdiff, absbestdiff) == Record(Scores(old(bestdiff), old(absbestdiff)), percdiff, accepted)
      ensures accepted ==> best.inuse == triangles.inuse && best.shapes[..] == triangles.shapes[..]
      ensures !accepted ==> best.inuse == old(best.inuse) && best.shapes[..] == old(best.shapes[..])
      ensures accepted && percdiff < old(bestdiff) ==>
        absbest.inuse == triangles.inuse && absbest.shapes[..] == triangles.shapes[..]
      ensures !(accepted && percdiff < old(bestdiff)) ==>
        absbest.inuse == old(absbest.inuse) && absbest.shapes[..] == old(absbest.shapes[..])
      ensures GrowFires(d, old(best.inuse), best.shapes.Length, maxShapesIncremental) ==>
        triangles.inuse == old(best.inuse) + 1 &&
        triangles.shapes[..old(best.inuse)] == old(best.shapes[..best.inuse]) &&
        GrownShape(triangles.shapes[old(best.inuse)], width, height, opts, d.growKind, d.shape)
      ensures !GrowFires(d, old(best.inuse), best.shapes.Length, maxShapesIncremental) && RemoveFires(d, old(best.inuse)) ==>
        triangles.inuse == old(best.inuse) - 1 &&
        triangles.shapes[..triangles.inuse] == RemovedAt(old(best.shapes[..best.inuse]), Below(d.removeIndex, old(best.inuse)))
      ensures !GrowFires(d, old(best.inuse), best.shapes.Length, maxShapesIncremental) && !RemoveFires(d, old(best.inuse)) ==>
        triangles.inuse == old(best.inuse) &&
        forall i :: old(best.inuse) <= i < triangles.shapes.Length && i < old(best.shapes.Length) ==>
          triangles.shapes[i] == old(best.shapes[i])
      ensures !GrowFires(d, old(best.inuse), best.shapes.Length, maxShapesIncremental) && !RemoveFires(d, old(best.inuse)) && rate <= 0 ==>
        triangles.shapes[..] ==
          if d.swapCoin % 20 == 0 then Swapped(old(best.shapes[..]), Below(d.swapA, old(best.inuse)), Below(d.swapB, old(best.inuse)))
          else old(best.shapes[..])
    {
      Advance();
      Propose(opts, rate, d);
      percdiff := score(triangles.shapes[..triangles.inuse]);
      accepted := Settle(percdiff, coin);
    }

    /** The counters at the head of the loop: the generation, the temperature and the shape budget. */
    method Advance()
      requires Valid()
      modifies this`generation, this`temperature, this`maxShapesIncremental
      ensures Valid()
      ensures generation == old(generation) + 1
      ensures temperature == Cooled(old(temperature), generation)
      ensures maxShapesIncremental ==
        RaisedBudget(old(maxShapesIncremental), generation, best.shapes.Length, triangles.inuse)
    {
      generation := generation + 1;
      if temperature > 0.0 && generation % 10 == 0 {
        temperature := temperature - COOLING_STEP;
        if temperature < 0.0 {
          temperature := 0.0;
        }
      }
      if generation % 1000 == 0 {
        if maxShapesIncremental < triangles.shapes.Length && triangles.inuse > maxShapesIncremental - 1 {
          maxShapesIncremental := maxShapesIncremental + 1;
        }
      }
    }

    /** The candidate: a copy of the current solution (its slots and its inuse), mutated by mutatetriangles. */
    method Propose(opts: Options, rate: int, d: EditDraws)
      requires Valid() && IsEditDraws(d, TRIALS)
      modifies triangles, triangles.shapes
      ensures Valid()
      ensures GrowFires(d, best.inuse, best.shapes.Length, maxShapesIncremental) ==>
        triangles.inuse == best.inuse + 1 &&
        triangles.shapes[..best.inuse] == best.shapes[..best.inuse] &&
        GrownShape(triangles.shapes[best.inuse], width, height, opts, d.growKind, d.shape)
      ensures !GrowFires(d, best.inuse, best.shapes.Length, maxShapesIncremental) && RemoveFires(d, best.inuse) ==>
        triangles.inuse == best.inuse - 1 &&
        triangles.shapes[..triangles.inuse] == RemovedAt(best.shapes[..best.inuse], Below(d.removeIndex, best.inuse))
      ensures !GrowFires(d, best.inuse, best.shapes.Length, maxShapesIncremental) && !RemoveFires(d, best.inuse) ==>
        triangles.inuse == best.inuse &&
        forall i :: best.inuse <= i < best.shapes.Length ==> triangles.shapes[i] == best.shapes[i]
      ensures !GrowFires(d, best.inuse, best.shapes.Length, maxShapesIncremental) && !RemoveFires(d, best.inuse) && rate <= 0 ==>
        triangles.shapes[..] ==
          if d.swapCoin % 20 == 0 then Swapped(best.shapes[..], Below(d.swapA, best.inuse), Below(d.swapB, best.inuse))
          else best.shapes[..]
    {
      triangles.CopyFrom(best);
      assert triangles.shapes[..] == best.shapes[..];
      assert triangles.shapes[..triangles.inuse] == best.shapes[..best.inuse];
      triangles.Mutate(TRIALS, width, height, maxShapesIncremental, opts, rate, d);
    }

    /** The acceptance test on a candidate scored percdiff, and the copies and scores it decides. */
    method Settle(percdiff: real, coin: real) returns (accepted: bool)
      requires Valid()
      modifies this`bestdiff, this`absbestdiff, best, best.shapes, absbest, absbest.shapes
      ensures Valid()
      ensures accepted == Accept(percdiff, old(bestdiff), temperature, old(absbestdiff), coin)
      ensures Scores(bestdiff, absbestdiff) == Record(Scores(old(bestdiff), old(absbestdiff)), percdiff, accepted)
      ensures accepted ==> best.inuse == triangles.inuse && best.shapes[..] == triangles.shapes[..]
      ensures !accepted ==> best.inuse == old(best.inuse) && best.shapes[..] == old(best.shapes[..])
      ensures accepted && percdiff < old(bestdiff) ==>
        absbest.inuse == triangles.inuse && absbest.shapes[..] == triangles.shapes[..]
      ensures !(accepted && percdiff < old(bestdiff)) ==>
        absbest.inuse == old(absbest.inuse) && absbest.shapes[..] == old(absbest.shapes[..])
    {
      accepted := Accept(percdiff, bestdiff, temperature, absbestdiff, coin);
      if accepted {
        best.CopyFrom(triangles);
        assert best.shapes[..] == triangles.shapes[..];
        if percdiff < bestdiff {
          absbest.CopyFrom(best);
          assert absbest.shapes[..] == best.shapes[..];
          absbestdiff := percdiff;
        }
        bestdiff := percdiff;
      }
    }
  }
}
