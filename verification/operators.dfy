/**
 * The genetic operators of the steady-state evolution, as functions of
 * values: the first-maximum and first-minimum scans, tournament selection
 * over drawn candidates, two-point crossover, the three-gene mutation,
 * replacement of the worst individual, one generation and a whole run.
 * Every random draw is an explicit argument; fitness evaluation is the
 * `evaluate` function of the settings.
 */
module GeneticOperators {

  /** Index of the first maximum: a left-to-right scan that moves only on a strictly greater value. */
  function ArgMax(f: seq<real>): (r: nat)
    requires |f| >= 1
    ensures r < |f|
    decreases |f|
  {
    if |f| == 1 then 0
    else
      var b := ArgMax(f[..|f| - 1]);
      if f[|f| - 1] > f[b] then |f| - 1 else b
  }

  /** Index of the first minimum: a left-to-right scan that moves only on a strictly smaller value. */
  function ArgMin(f: seq<real>): (r: nat)
    requires |f| >= 1
    ensures r < |f|
    decreases |f|
  {
    if |f| == 1 then 0
    else
      var b := ArgMin(f[..|f| - 1]);
      if f[|f| - 1] < f[b] then |f| - 1 else b
  }

  /** ArgMax finds a maximum, and no earlier index holds that value. */
  lemma {:induction false} ArgMaxIsFirstMax(f: seq<real>)
    requires |f| >= 1
    ensures forall j :: 0 <= j < |f| ==> f[j] <= f[ArgMax(f)]
    ensures forall j :: 0 <= j < ArgMax(f) ==> f[j] < f[ArgMax(f)]
    decreases |f|
  {
    if |f| > 1 {
      var p := f[..|f| - 1];
      ArgMaxIsFirstMax(p);
      assert forall j :: 0 <= j < |p| ==> f[j] == p[j];
    }
  }

  /** ArgMin finds a minimum, and no earlier index holds that value. */
  lemma {:induction false} ArgMinIsFirstMin(f: seq<real>)
    requires |f| >= 1
    ensures forall j :: 0 <= j < |f| ==> f[ArgMin(f)] <= f[j]
    ensures forall j :: 0 <= j < ArgMin(f) ==> f[ArgMin(f)] < f[j]
    decreases |f|
  {
    if |f| > 1 {
      var p := f[..|f| - 1];
      ArgMinIsFirstMin(p);
      assert forall j :: 0 <= j < |p| ==> f[j] == p[j];
    }
  }

  /** The scan for the first maximum, one element further. */
  lemma ArgMaxNext(f: seq<real>, i: nat)
    requires 1 <= i < |f|
    ensures ArgMax(f[..i + 1]) == if f[i] > f[ArgMax(f[..i])] then i else ArgMax(f[..i])
  {
    assert f[..i + 1][..i] == f[..i];
  }

  /** The scan for the first minimum, one element further. */
  lemma ArgMinNext(f: seq<real>, i: nat)
    requires 1 <= i < |f|
    ensures ArgMin(f[..i + 1]) == if f[i] < f[ArgMin(f[..i])] then i else ArgMin(f[..i])
  {
    assert f[..i + 1][..i] == f[..i];
  }

  /** Conversely, the first index of a maximum is the one ArgMax finds. */
  lemma FirstMaxIsArgMax(f: seq<real>, r: nat)
    requires r < |f|
    requires forall j :: 0 <= j < |f| ==> f[j] <= f[r]
    requires forall j :: 0 <= j < r ==> f[j] < f[r]
    ensures ArgMax(f) == r
  {
    ArgMaxIsFirstMax(f);
    var a := ArgMax(f);
    assert f[a] <= f[r] && f[r] <= f[a];
  }

  /** Conversely, the first index of a minimum is the one ArgMin finds. */
  lemma FirstMinIsArgMin(f: seq<real>, r: nat)
    requires r < |f|
    requires forall j :: 0 <= j < |f| ==> f[r] <= f[j]
    requires forall j :: 0 <= j < r ==> f[r] < f[j]
    ensures ArgMin(f) == r
  {
    ArgMinIsFirstMin(f);
    var a := ArgMin(f);
    assert f[a] <= f[r] && f[r] <= f[a];
  }

  // ---------------------------------------------------------------------
  // Tournament selection

  /** The drawn candidate indices: each raw draw reduced modulo the population size. */
  function Candidates(draws: seq<nat>, n: nat): (c: seq<nat>)
    requires n >= 1
    ensures |c| == |draws| && forall i :: 0 <= i < |c| ==> c[i] < n
  {
    seq(|draws|, i requires 0 <= i < |draws| => draws[i] % n)
  }

  /** The fitness of each candidate, in the order drawn. */
  function Drawn(f: seq<real>, c: seq<nat>): (d: seq<real>)
    requires forall i :: 0 <= i < |c| ==> c[i] < |f|
    ensures |d| == |c|
  {
    seq(|c|, i requires 0 <= i < |c| => f[c[i]])
  }

  /**
   * The tournament: the first candidate is the incumbent, and each later
   * candidate replaces it only with strictly greater fitness.
   */
  function Winner(f: seq<real>, c: seq<nat>): (r: nat)
    requires |c| >= 1 && forall i :: 0 <= i < |c| ==> c[i] < |f|
    ensures r < |f|
  {
    c[ArgMax(Drawn(f, c))]
  }

  /**
   * The winner is a drawn candidate at least as fit as every other drawn
   * candidate, and every candidate drawn before it was strictly less fit.
   */
  lemma WinnerIsFirstFittest(f: seq<real>, c: seq<nat>)
    requires |c| >= 1 && forall i :: 0 <= i < |c| ==> c[i] < |f|
    ensures exists j :: 0 <= j < |c| && c[j] == Winner(f, c) &&
                        (forall i :: 0 <= i < j ==> f[c[i]] < f[Winner(f, c)])
    ensures forall i :: 0 <= i < |c| ==> f[c[i]] <= f[Winner(f, c)]
  {
    var d := Drawn(f, c);
    ArgMaxIsFirstMax(d);
    var j := ArgMax(d);
    assert c[j] == Winner(f, c);
    assert forall i :: 0 <= i < |c| ==> d[i] == f[c[i]];
  }

  // ---------------------------------------------------------------------
  // Two-point crossover

  /**
   * The two-point crossover child: the second parent's gene at the
   * positions p1..p2 (both ends included), the first parent's elsewhere.
   */
  function Splice(one: seq<real>, two: seq<real>, p1: int, p2: int): (child: seq<real>)
    requires |one| == |two|
    ensures |child| == |one|
  {
    seq(|one|, i requires 0 <= i < |one| => if i < p1 || i > p2 then one[i] else two[i])
  }

  /** For cut points inside the genome, the child is a head of one, a middle of two and a tail of one. */
  lemma SpliceSegments(one: seq<real>, two: seq<real>, p1: nat, p2: nat)
    requires |one| == |two| && p1 <= p2 < |one|
    ensures Splice(one, two, p1, p2) == one[..p1] + two[p1 .. p2 + 1] + one[p2 + 1..]
  {
    var c := Splice(one, two, p1, p2);
    var s := one[..p1] + two[p1 .. p2 + 1] + one[p2 + 1..];
    assert |s| == |c|;
    forall i | 0 <= i < |c|
      ensures c[i] == s[i]
    {
      if i < p1 {
      } else if i <= p2 {
        assert s[i] == two[p1 .. p2 + 1][i - p1];
      } else {
        assert s[i] == one[p2 + 1..][i - p2 - 1];
      }
    }
  }

  /** Every gene of the child is the gene of one of the parents at the same position. */
  lemma SpliceFromParents(one: seq<real>, two: seq<real>, p1: int, p2: int)
    requires |one| == |two|
    ensures forall i :: 0 <= i < |one| ==>
      Splice(one, two, p1, p2)[i] == one[i] || Splice(one, two, p1, p2)[i] == two[i]
  {
    var c := Splice(one, two, p1, p2);
    forall i | 0 <= i < |one|
      ensures c[i] == one[i] || c[i] == two[i]
    {
      assert c[i] == if i < p1 || i > p2 then one[i] else two[i];
    }
  }

  /** Crossing a genome with itself, or cutting at or after its end, reproduces the first parent. */
  lemma SpliceKeepsFirst(one: seq<real>, two: seq<real>, p1: int, p2: int)
    requires |one| == |two| && (one == two || p1 >= |one| || p2 < p1)
    ensures Splice(one, two, p1, p2) == one
  {
    var c := Splice(one, two, p1, p2);
    forall i | 0 <= i < |one|
      ensures c[i] == one[i]
    {
      assert c[i] == if i < p1 || i > p2 then one[i] else two[i];
    }
  }

  // ---------------------------------------------------------------------
  // Mutation

  /** One mutation draw: a gene position and the amount added to it. */
  datatype Tweak = Tweak(index: nat, delta: real)

  /** The number of genes the mutation touches. */
  const NumberOfGenesToMutate: nat := 3

  predicate InBounds(ts: seq<Tweak>, n: nat)
  {
    forall k :: 0 <= k < |ts| ==> ts[k].index < n
  }

  /** The genome after the tweaks are added one after the other. */
  function ApplyTweaks(g: seq<real>, ts: seq<Tweak>): (r: seq<real>)
    requires InBounds(ts, |g|)
    ensures |r| == |g|
    decreases |ts|
  {
    if ts == [] then g
    else
      var h := ApplyTweaks(g, ts[..|ts| - 1]);
      var t := ts[|ts| - 1];
      h[t.index := h[t.index] + t.delta]
  }

  /** The total added at position i: the sum of the deltas of the tweaks aimed at i. */
  function Shift(ts: seq<Tweak>, i: nat): real
    decreases |ts|
  {
    if ts == [] then 0.0
    else Shift(ts[..|ts| - 1], i) + (if ts[|ts| - 1].index == i then ts[|ts| - 1].delta else 0.0)
  }

  /** Each gene ends up shifted by the sum of the deltas aimed at it, whatever the order of the tweaks. */
  lemma {:induction false} ApplyTweaksShifts(g: seq<real>, ts: seq<Tweak>)
    requires InBounds(ts, |g|)
    ensures forall i :: 0 <= i < |g| ==> ApplyTweaks(g, ts)[i] == g[i] + Shift(ts, i)
    decreases |ts|
  {
    if ts != [] {
      ApplyTweaksShifts(g, ts[..|ts| - 1]);
    }
  }

  /** A gene no tweak is aimed at keeps its value. */
  lemma {:induction false} UntouchedGeneKept(g: seq<real>, ts: seq<Tweak>, i: nat)
    requires InBounds(ts, |g|) && i < |g|
    requires forall k :: 0 <= k < |ts| ==> ts[k].index != i
    ensures ApplyTweaks(g, ts)[i] == g[i]
    decreases |ts|
  {
    if ts != [] {
      UntouchedGeneKept(g, ts[..|ts| - 1], i);
    }
  }

  /** At most |ts| genes change: every changed gene is the target of some tweak. */
  lemma ChangedGenesAreTargets(g: seq<real>, ts: seq<Tweak>, i: nat)
    requires InBounds(ts, |g|) && i < |g| && ApplyTweaks(g, ts)[i] != g[i]
    ensures exists k :: 0 <= k < |ts| && ts[k].index == i
  {
    if forall k :: 0 <= k < |ts| ==> ts[k].index != i {
      UntouchedGeneKept(g, ts, i);
    }
  }

  // ---------------------------------------------------------------------
  // Steady-state replacement

  /** An individual as a value: its genome and its fitness. */
  datatype Entry = Entry(genome: seq<real>, fitness: real)

  function Fitnesses(pop: seq<Entry>): (f: seq<real>)
    ensures |f| == |pop| && forall i :: 0 <= i < |pop| ==> f[i] == pop[i].fitness
  {
    seq(|pop|, i requires 0 <= i < |pop| => pop[i].fitness)
  }

  /** The first slot of lowest fitness, the one the child may take over. */
  function Worst(pop: seq<Entry>): (w: nat)
    requires |pop| >= 1
    ensures w < |pop|
  {
    ArgMin(Fitnesses(pop))
  }

  /** The first slot of highest fitness. */
  function Best(pop: seq<Entry>): (b: nat)
    requires |pop| >= 1
    ensures b < |pop|
  {
    ArgMax(Fitnesses(pop))
  }

  function MinFitness(pop: seq<Entry>): real
    requires |pop| >= 1
  {
    pop[Worst(pop)].fitness
  }

  function MaxFitness(pop: seq<Entry>): real
    requires |pop| >= 1
  {
    pop[Best(pop)].fitness
  }

  /** MinFitness and MaxFitness bound every fitness of the population. */
  lemma FitnessBounds(pop: seq<Entry>)
    requires |pop| >= 1
    ensures forall i :: 0 <= i < |pop| ==> MinFitness(pop) <= pop[i].fitness <= MaxFitness(pop)
  {
    ArgMinIsFirstMin(Fitnesses(pop));
    ArgMaxIsFirstMax(Fitnesses(pop));
  }

  /** The child takes over the worst slot when it is at least as fit; otherwise nothing changes. */
  function ReplaceWorst(pop: seq<Entry>, child: Entry): (r: seq<Entry>)
    requires |pop| >= 1
    ensures |r| == |pop|
  {
    var w := Worst(pop);
    if pop[w].fitness <= child.fitness then pop[w := child] else pop
  }

  /**
   * Replacement writes at most one slot, the first one of lowest fitness,
   * and writes it exactly when the child is at least as fit as its occupant.
   */
  lemma ReplaceWorstSlots(pop: seq<Entry>, child: Entry)
    requires |pop| >= 1
    ensures forall i :: 0 <= i < |pop| && i != Worst(pop) ==> ReplaceWorst(pop, child)[i] == pop[i]
    ensures ReplaceWorst(pop, child)[Worst(pop)] ==
      if pop[Worst(pop)].fitness <= child.fitness then child else pop[Worst(pop)]
    ensures forall i :: 0 <= i < |pop| && i != Worst(pop) ==> pop[Worst(pop)].fitness <= pop[i].fitness
    ensures forall i :: 0 <= i < Worst(pop) ==> pop[Worst(pop)].fitness < pop[i].fitness
  {
    ArgMinIsFirstMin(Fitnesses(pop));
  }

  /** Replacement never lowers the population's lowest fitness. */
  lemma ReplaceWorstRaisesMin(pop: seq<Entry>, child: Entry)
    requires |pop| >= 1
    ensures MinFitness(pop) <= MinFitness(ReplaceWorst(pop, child))
  {
    var r := ReplaceWorst(pop, child);
    FitnessBounds(pop);
    FitnessBounds(r);
    var w := Worst(r);
    assert r[w] == pop[w] || (r[w] == child && MinFitness(pop) <= child.fitness);
  }

  /** Replacement never lowers the population's highest fitness. */
  lemma ReplaceWorstRaisesMax(pop: seq<Entry>, child: Entry)
    requires |pop| >= 1
    ensures MaxFitness(pop) <= MaxFitness(ReplaceWorst(pop, child))
  {
    var r := ReplaceWorst(pop, child);
    var w, b := Worst(pop), Best(pop);
    FitnessBounds(pop);
    FitnessBounds(r);
    if b == w && pop[w].fitness <= child.fitness {
      assert r[b] == child;
    } else {
      assert r[b] == pop[b];
    }
  }

  // ---------------------------------------------------------------------
  // One generation, and a run of generations

  /** The settings a generation depends on; `evaluate` scores a genome. */
  datatype Settings = Settings(genomeLength: nat, crossoverRate: real, mutationRate: real,
                               evaluate: seq<real> -> real)

  /**
   * The random draws of one generation: the raw candidate draws of the two
   * tournaments, the two coin rolls, the crossover cut points and the
   * mutation's tweaks.
   */
  datatype StepDraws = StepDraws(first: seq<nat>, crossoverRoll: real, second: seq<nat>,
                                 cut1: int, cut2: int, mutationRoll: real, tweaks: seq<Tweak>)

  /** A population of at least one individual, every genome `len` genes long. */
  predicate Fits(pop: seq<Entry>, len: nat)
  {
    |pop| >= 1 && forall i :: 0 <= i < |pop| ==> |pop[i].genome| == len
  }

  /**
   * Draws a generation can use: non-empty tournaments, and mutation positions
   * inside the genome whenever the mutation roll lets them be used.
   */
  predicate Usable(d: StepDraws, s: Settings)
  {
    |d.first| >= 1 && |d.second| >= 1 && |d.tweaks| == NumberOfGenesToMutate &&
    (d.mutationRoll < s.mutationRate ==> InBounds(d.tweaks, s.genomeLength))
  }

  /** The genome the tournament over `draws` picks. */
  function Select(pop: seq<Entry>, draws: seq<nat>): (g: seq<real>)
    requires |pop| >= 1 && |draws| >= 1
  {
    pop[Winner(Fitnesses(pop), Candidates(draws, |pop|))].genome
  }

  /**
   * The tournament hands back the genome of a drawn individual that is at
   * least as fit as every individual drawn.
   */
  lemma SelectDrawn(pop: seq<Entry>, draws: seq<nat>) returns (w: nat)
    requires |pop| >= 1 && |draws| >= 1
    ensures w < |pop| && Select(pop, draws) == pop[w].genome
    ensures exists j :: 0 <= j < |draws| && w == draws[j] % |pop|
    ensures forall j :: 0 <= j < |draws| ==> pop[draws[j] % |pop|].fitness <= pop[w].fitness
  {
    var f, c := Fitnesses(pop), Candidates(draws, |pop|);
    w := Winner(f, c);
    WinnerIsFirstFittest(f, c);
    var j :| 0 <= j < |c| && c[j] == w;
    assert w == draws[j] % |pop|;
    forall i | 0 <= i < |draws|
      ensures pop[draws[i] % |pop|].fitness <= pop[w].fitness
    {
      assert c[i] == draws[i] % |pop| && f[c[i]] <= f[w];
    }
  }

  /**
   * The child before mutation: the crossover of the two tournament winners
   * when the crossover roll is below the rate, otherwise the all-zero genome
   * (the first winner is then drawn but not used).
   */
  function Crossed(pop: seq<Entry>, d: StepDraws, s: Settings): (c: seq<real>)
    requires Fits(pop, s.genomeLength) && Usable(d, s)
    ensures |c| == s.genomeLength
  {
    if d.crossoverRoll < s.crossoverRate then Splice(Select(pop, d.first), Select(pop, d.second), d.cut1, d.cut2)
    else seq(s.genomeLength, _ => 0.0)
  }

  /** The child of a generation: the crossed genome, mutated when the mutation roll is below the rate. */
  function Child(pop: seq<Entry>, d: StepDraws, s: Settings): (c: seq<real>)
    requires Fits(pop, s.genomeLength) && Usable(d, s)
    ensures |c| == s.genomeLength
  {
    var crossed := Crossed(pop, d, s);
    if d.mutationRoll < s.mutationRate then ApplyTweaks(crossed, d.tweaks) else crossed
  }

  /** One generation: the child, scored by `evaluate`, replaces the worst individual if it is as fit. */
  function Step(pop: seq<Entry>, d: StepDraws, s: Settings): (r: seq<Entry>)
    requires Fits(pop, s.genomeLength) && Usable(d, s)
    ensures Fits(r, s.genomeLength)
  {
    var c := Child(pop, d, s);
    ReplaceWorst(pop, Entry(c, s.evaluate(c)))
  }

  predicate AllUsable(ds: seq<StepDraws>, s: Settings)
  {
    forall k :: 0 <= k < |ds| ==> Usable(ds[k], s)
  }

  /** The population after one generation per element of `ds`, in order. */
  function Evolve(pop: seq<Entry>, ds: seq<StepDraws>, s: Settings): (r: seq<Entry>)
    requires Fits(pop, s.genomeLength) && AllUsable(ds, s)
    ensures Fits(r, s.genomeLength) && |r| == |pop|
    decreases |ds|
  {
    if ds == [] then pop
    else Step(Evolve(pop, ds[..|ds| - 1], s), ds[|ds| - 1], s)
  }

  /** Running one more row of draws is one more generation on top of the run so far. */
  lemma EvolveNext(pop: seq<Entry>, ds: seq<StepDraws>, k: nat, s: Settings)
    requires Fits(pop, s.genomeLength) && AllUsable(ds, s) && k < |ds|
    ensures AllUsable(ds[..k], s) && AllUsable(ds[..k + 1], s)
    ensures Evolve(pop, ds[..k + 1], s) == Step(Evolve(pop, ds[..k], s), ds[k], s)
  {
    assert ds[..k + 1][..k] == ds[..k];
  }

  /** A generation writes at most one slot and never lowers the lowest or the highest fitness. */
  lemma StepMonotone(pop: seq<Entry>, d: StepDraws, s: Settings)
    requires Fits(pop, s.genomeLength) && Usable(d, s)
    ensures forall i, j :: 0 <= i < j < |pop| ==> Step(pop, d, s)[i] == pop[i] || Step(pop, d, s)[j] == pop[j]
    ensures MinFitness(pop) <= MinFitness(Step(pop, d, s))
    ensures MaxFitness(pop) <= MaxFitness(Step(pop, d, s))
  {
    var c := Child(pop, d, s);
    var e := Entry(c, s.evaluate(c));
    ReplaceWorstSlots(pop, e);
    ReplaceWorstRaisesMin(pop, e);
    ReplaceWorstRaisesMax(pop, e);
  }

  /** Over a whole run, the lowest and the highest fitness never decrease. */
  lemma {:induction false} EvolveMonotone(pop: seq<Entry>, ds: seq<StepDraws>, s: Settings)
    requires Fits(pop, s.genomeLength) && AllUsable(ds, s)
    ensures MinFitness(pop) <= MinFitness(Evolve(pop, ds, s))
    ensures MaxFitness(pop) <= MaxFitness(Evolve(pop, ds, s))
    decreases |ds|
  {
    if ds != [] {
      var front := ds[..|ds| - 1];
      assert AllUsable(front, s);
      EvolveMonotone(pop, front, s);
      StepMonotone(Evolve(pop, front, s), ds[|ds| - 1], s);
    }
  }

  /**
   * The best fitness recorded at a generation is the highest fitness before
   * it, so from the first generation on the recorded best never drops: the
   * highest fitness after the first k generations of a run is at most the
   * highest fitness at its end.
   */
  lemma {:induction false} RecordedBestNeverDrops(pop: seq<Entry>, ds: seq<StepDraws>, s: Settings, k: nat)
    requires Fits(pop, s.genomeLength) && AllUsable(ds, s) && k <= |ds|
    ensures AllUsable(ds[..k], s)
    ensures MaxFitness(Evolve(pop, ds[..k], s)) <= MaxFitness(Evolve(pop, ds, s))
    decreases |ds|
  {
    if k < |ds| {
      var front := ds[..|ds| - 1];
      assert AllUsable(front, s);
      assert front[..k] == ds[..k];
      RecordedBestNeverDrops(pop, front, s, k);
      StepMonotone(Evolve(pop, front, s), ds[|ds| - 1], s);
    } else {
      assert ds[..k] == ds;
    }
  }
}
