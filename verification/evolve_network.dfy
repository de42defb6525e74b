/**
 * The steady-state genetic algorithm that evolves the network's genome: a
 * population of individuals, tournament selection, two-point crossover,
 * mutation and replacement of the worst individual.
 *
 * Every random draw is an argument, fitness evaluation is the `Evaluate`
 * function fixed at construction, and the population array, which only the
 * constructor fills, is a constant sequence of individuals whose fields the
 * replacement updates in place.
 */
module Evolution {
  import opened GeneticOperators
  import opened NeuralNet
  import opened Data

  class Individual {
    var Fitness: real
    var Genome: array<real>

    constructor (genome: array<real>, fitness: real)
      ensures Genome == genome && Fitness == fitness
    {
      Genome := genome;
      Fitness := fitness;
    }
  }

  /** The population size the engine is built with. */
  const DefaultPopulationSize: nat := 50

  /** A fresh genome holding the given uniform draws, one per gene. */
  method RandomGenome(genomeLength: nat, uniform: seq<real>) returns (genome: array<real>)
    requires |uniform| == genomeLength
    ensures fresh(genome) && genome[..] == uniform
  {
    genome := new real[genomeLength];
    for i := 0 to genome.Length
      invariant genome[..i] == uniform[..i]
    {
      genome[i] := uniform[i];
    }
  }

  /**
   * A population of fresh, distinct individuals, one per row of draws, each
   * scored by `evaluate`.
   */
  method CreatePopulation(populationSize: nat, genomeLength: nat, uniform: seq<seq<real>>,
                          evaluate: seq<real> -> real)
    returns (population: seq<Individual>)
    requires |uniform| == populationSize
    requires forall i :: 0 <= i < populationSize ==> |uniform[i]| == genomeLength
    ensures |population| == populationSize
    ensures forall i :: 0 <= i < populationSize ==>
      fresh(population[i]) && fresh(population[i].Genome) &&
      population[i].Genome[..] == uniform[i] && population[i].Fitness == evaluate(uniform[i])
    ensures forall i, j :: 0 <= i < j < populationSize ==> population[i] != population[j]
  {
    population := [];
    for i := 0 to populationSize
      invariant |population| == i
      invariant forall k :: 0 <= k < i ==>
        fresh(population[k]) && fresh(population[k].Genome) &&
        population[k].Genome[..] == uniform[k] && population[k].Fitness == evaluate(uniform[k])
      invariant forall k, l :: 0 <= k < l < i ==> population[k] != population[l]
    {
      var genome := RandomGenome(genomeLength, uniform[i]);
      var newIndividual := new Individual(genome, evaluate(genome[..]));
      population := population + [newIndividual];
    }
  }

  class EvolveNetwork {
    const Network: NeuralNetwork
    const Population: seq<Individual>
    var PopulationSize: int
    var TournamentSelectionNumber: nat
    var CrossoverRate: real
    var MutationRate: real
    const GenomeLength: nat
    var Generations: nat
    var BestIndividualFitness: real
    var Data: Dataset
    /** Scores a genome: stands for loading it into the network and measuring it on the data. */
    const Evaluate: seq<real> -> real

    ghost function Individuals(): set<Individual>
    {
      set x | x in Population
    }

    ghost function GenomeArrays(): set<array<real>>
      reads Individuals()
    {
      set x | x in Population :: x.Genome
    }

    /** A non-empty population of distinct individuals whose genomes all have GenomeLength genes. */
    ghost predicate Valid()
      reads Individuals()
    {
      |Population| >= 1 &&
      (forall i, j :: 0 <= i < j < |Population| ==> Population[i] != Population[j]) &&
      (forall i :: 0 <= i < |Population| ==> Population[i].Genome.Length == GenomeLength)
    }

    /** The fitness of each slot. */
    ghost function FitnessValues(): (f: seq<real>)
      reads Individuals()
      ensures |f| == |Population|
    {
      seq(|Population|, i requires 0 <= i < |Population| reads Individuals() => Population[i].Fitness)
    }

    /** The population as values: each slot's genome contents and fitness. */
    ghost function Entries(): (pop: seq<Entry>)
      reads Individuals(), GenomeArrays()
      ensures |pop| == |Population|
      ensures Fitnesses(pop) == FitnessValues()
      ensures Valid() ==> Fits(pop, GenomeLength)
    {
      seq(|Population|, i requires 0 <= i < |Population| reads Individuals(), GenomeArrays() =>
        Entry(Population[i].Genome[..], Population[i].Fitness))
    }

    /** The settings a generation depends on. */
    ghost function Config(): Settings
      reads this
    {
      Settings(GenomeLength, CrossoverRate, MutationRate, Evaluate)
    }

    /**
     * Builds an engine with the default parameters and a population of
     * DefaultPopulationSize individuals made from the uniform draws.
     */
    constructor (network: NeuralNetwork, dataset: Dataset, evaluate: seq<real> -> real, uniform: seq<seq<real>>)
      requires |uniform| == DefaultPopulationSize
      requires forall i :: 0 <= i < DefaultPopulationSize ==> |uniform[i]| == network.NumberOfWeights
      ensures Valid()
      ensures Network == network && Data == dataset && Evaluate == evaluate
      ensures GenomeLength == network.NumberOfWeights && PopulationSize == DefaultPopulationSize
      ensures TournamentSelectionNumber == 5 && CrossoverRate == 0.9 && MutationRate == 0.9
      ensures Generations == 20000 && BestIndividualFitness == 0.0
      ensures Entries() == seq(DefaultPopulationSize, i requires 0 <= i < DefaultPopulationSize =>
        Entry(uniform[i], evaluate(uniform[i])))
      ensures forall i :: 0 <= i < |Population| ==> fresh(Population[i]) && fresh(Population[i].Genome)
    {
      Network := network;
      GenomeLength := network.NumberOfWeights;
      PopulationSize := DefaultPopulationSize;
      TournamentSelectionNumber := 5;
      CrossoverRate := 0.9;
      MutationRate := 0.9;
      Generations := 20000;
      Data := dataset;
      BestIndividualFitness := 0.0;
      Evaluate := evaluate;
      var population := CreatePopulation(DefaultPopulationSize, network.NumberOfWeights, uniform, evaluate);
      Population := population;
    }

    /**
     * Tournament selection: the first draw names the incumbent, each of the
     * TournamentSelectionNumber further draws a challenger that wins only
     * with strictly greater fitness. Returns the winner's genome itself,
     * not a copy.
     */
    method TournamentSelection(draws: seq<nat>) returns (genome: array<real>)
      requires Valid() && |draws| == TournamentSelectionNumber + 1
      ensures genome == Population[Winner(FitnessValues(), Candidates(draws, |Population|))].Genome
      ensures genome.Length == GenomeLength && genome[..] == Select(Entries(), draws)
    {
      ghost var f := FitnessValues();
      ghost var c := Candidates(draws, |Population|);
      ghost var d := Drawn(f, c);
      ghost var j := 0;
      var bestCandidateIndex := draws[0] % |Population|;
      for i := 0 to TournamentSelectionNumber
        invariant j == ArgMax(d[..i + 1]) && bestCandidateIndex == c[j]
      {
        var newCandidateIndex := draws[i + 1] % |Population|;
        assert d[..i + 2][..i + 1] == d[..i + 1];
        if Population[newCandidateIndex].Fitness > Population[bestCandidateIndex].Fitness {
          bestCandidateIndex := newCandidateIndex;
          j := i + 1;
        }
      }
      assert d[..|draws|] == d;
      genome := Population[bestCandidateIndex].Genome;
      assert Entries()[bestCandidateIndex].genome == genome[..];
    }

    /** Adds each tweak's delta to its gene, in place; the same array is returned. */
    method Mutate(childGenome: array<real>, tweaks: seq<Tweak>) returns (mutated: array<real>)
      requires childGenome.Length == GenomeLength
      requires |tweaks| == NumberOfGenesToMutate && InBounds(tweaks, GenomeLength)
      modifies childGenome
      ensures mutated == childGenome && childGenome[..] == ApplyTweaks(old(childGenome[..]), tweaks)
    {
      ghost var g := childGenome[..];
      for i := 0 to NumberOfGenesToMutate
        invariant childGenome[..] == ApplyTweaks(g, tweaks[..i])
      {
        assert tweaks[..i + 1][..i] == tweaks[..i];
        var randIndex := tweaks[i].index;
        childGenome[randIndex] := childGenome[randIndex] + tweaks[i].delta;
      }
      assert tweaks[..NumberOfGenesToMutate] == tweaks;
      mutated := childGenome;
    }

    /** Two-point crossover into a fresh genome: parent two's genes at cut1..cut2, parent one's elsewhere. */
    method Crossover(parentOneGenome: array<real>, parentTwoGenome: array<real>, cut1: int, cut2: int)
      returns (childGenome: array<real>)
      requires parentOneGenome.Length == GenomeLength && parentTwoGenome.Length == GenomeLength
      ensures fresh(childGenome)
      ensures childGenome[..] == Splice(parentOneGenome[..], parentTwoGenome[..], cut1, cut2)
    {
      ghost var child := Splice(parentOneGenome[..], parentTwoGenome[..], cut1, cut2);
      childGenome := new real[GenomeLength];
      for i := 0 to GenomeLength
        invariant childGenome[..i] == child[..i]
      {
        if i < cut1 || i > cut2 {
          childGenome[i] := parentOneGenome[i];
        } else {
          childGenome[i] := parentTwoGenome[i];
        }
      }
    }

    /**
     * The scan of updatePopulation: one pass that finds the first slot of
     * highest and the first slot of lowest fitness.
     */
    method FindBestAndWorst() returns (bestIndividualIndex: nat, worstIndividualIndex: nat)
      requires Valid()
      ensures bestIndividualIndex == ArgMax(FitnessValues())
      ensures worstIndividualIndex == ArgMin(FitnessValues())
    {
      ghost var f := FitnessValues();
      bestIndividualIndex, worstIndividualIndex := 0, 0;
      for i := 0 to |Population|
        invariant FitnessValues() == f
        invariant i == 0 ==> bestIndividualIndex == 0 && worstIndividualIndex == 0
        invariant i >= 1 ==> bestIndividualIndex == ArgMax(f[..i]) && worstIndividualIndex == ArgMin(f[..i])
      {
        if i >= 1 {
          ArgMaxNext(f, i);
          ArgMinNext(f, i);
        } else {
          assert |f[..1]| == 1;
        }
        assert Population[i].Fitness == f[i];
        assert Population[bestIndividualIndex].Fitness == f[bestIndividualIndex];
        assert Population[worstIndividualIndex].Fitness == f[worstIndividualIndex];
        if Population[i].Fitness > Population[bestIndividualIndex].Fitness {
          bestIndividualIndex := i;
        }
        if Population[i].Fitness < Population[worstIndividualIndex].Fitness {
          worstIndividualIndex := i;
        }
      }
      assert f[..|Population|] == f;
    }

    /**
     * Records the best fitness, then lets the child take over the first
     * slot of lowest fitness when it is at least as fit.
     */
    method UpdatePopulation(childGenome: array<real>, childFitness: real)
      requires Valid() && childGenome.Length == GenomeLength
      modifies this`BestIndividualFitness, Individuals()
      ensures Valid()
      ensures var w := Worst(old(Entries()));
        Population[w].Genome == if old(Population[w].Fitness) <= childFitness then childGenome else old(Population[w].Genome)
      ensures forall i :: 0 <= i < |Population| && i != Worst(old(Entries())) ==>
        Population[i].Genome == old(Population[i].Genome)
      ensures Entries() == ReplaceWorst(old(Entries()), Entry(childGenome[..], childFitness))
      ensures BestIndividualFitness == MaxFitness(old(Entries()))
    {
      ghost var pop := Entries();
      ghost var child := Entry(childGenome[..], childFitness);
      var bestIndividualIndex, worstIndividualIndex := FindBestAndWorst();
      assert worstIndividualIndex == Worst(pop) && bestIndividualIndex == Best(pop);
      BestIndividualFitness := Population[bestIndividualIndex].Fitness;
      assert Entries() == pop;
      if Population[worstIndividualIndex].Fitness <= childFitness {
        TakeOver(worstIndividualIndex, childGenome, childFitness);
        assert Entries() == ReplaceWorst(pop, child);
      }
    }

    /** The individual in slot `w` takes the child's genome array and fitness. */
    method TakeOver(w: nat, childGenome: array<real>, childFitness: real)
      requires Valid() && w < |Population| && childGenome.Length == GenomeLength
      modifies Population[w]
      ensures Valid()
      ensures Population[w].Genome == childGenome
      ensures forall i :: 0 <= i < |Population| && i != w ==> Population[i].Genome == old(Population[i].Genome)
      ensures Entries() == old(Entries())[w := Entry(childGenome[..], childFitness)]
    {
      Population[w].Genome := childGenome;
      Population[w].Fitness := childFitness;
    }

    /**
     * Runs Generations generations, one row of draws each, in order. The
     * best fitness recorded is the one found by the last generation's scan,
     * taken before its child was offered.
     */
    method RunEvolution(draws: seq<StepDraws>)
      requires Valid() && |draws| == Generations && AllUsable(draws, Config())
      requires forall k :: 0 <= k < |draws| ==>
        |draws[k].first| == TournamentSelectionNumber + 1 && |draws[k].second| == TournamentSelectionNumber + 1
      modifies this`BestIndividualFitness, Individuals()
      ensures Valid()
      ensures Entries() == Evolve(old(Entries()), draws, Config())
      ensures |draws| >= 1 ==> BestIndividualFitness == MaxFitness(Evolve(old(Entries()), draws[..|draws| - 1], Config()))
      ensures |draws| == 0 ==> BestIndividualFitness == old(BestIndividualFitness)
    {
      ghost var pop, s, best := Entries(), Config(), BestIndividualFitness;
      ghost var last := pop;
      assert AllUsable(draws, s);
      for generation := 0 to Generations
        invariant Valid() && Config() == s
        invariant Entries() == Evolve(pop, draws[..generation], s)
        invariant generation >= 1 ==> last == Evolve(pop, draws[..generation - 1], s)
        invariant BestIndividualFitness == if generation == 0 then best else MaxFitness(last)
      {
        EvolveNext(pop, draws, generation, s);
        last := Entries();
        RunEvolutionStep(draws[generation]);
      }
      assert draws[..Generations] == draws;
    }

    /**
     * The child of one generation: the all-zero genome, replaced by the
     * crossover of two tournament winners when the crossover roll is below
     * the rate, then mutated when the mutation roll is below the rate.
     */
    method MakeChild(d: StepDraws) returns (childGenome: array<real>)
      requires Valid() && Usable(d, Config())
      requires |d.first| == TournamentSelectionNumber + 1 && |d.second| == TournamentSelectionNumber + 1
      ensures fresh(childGenome) && childGenome[..] == Child(old(Entries()), d, Config())
    {
      ghost var pop, s := Entries(), Config();
      childGenome := new real[GenomeLength](_ => 0.0);
      assert childGenome[..] == seq(GenomeLength, _ => 0.0);
      var parentOneGenome := TournamentSelection(d.first);
      assert Entries() == pop && Config() == s;
      if d.crossoverRoll < CrossoverRate {
        var parentTwoGenome := TournamentSelection(d.second);
        assert Entries() == pop;
        childGenome := Crossover(parentOneGenome, parentTwoGenome, d.cut1, d.cut2);
        assert childGenome[..] == Splice(Select(pop, d.first), Select(pop, d.second), d.cut1, d.cut2);
      }
      assert childGenome[..] == Crossed(pop, d, s);
      if d.mutationRoll < MutationRate {
        childGenome := Mutate(childGenome, d.tweaks);
      }
      assert childGenome[..] == Child(pop, d, s);
    }

    /**
     * One generation: the child is built, scored and offered to the
     * population.
     */
    method RunEvolutionStep(d: StepDraws)
      requires Valid() && Usable(d, Config())
      requires |d.first| == TournamentSelectionNumber + 1 && |d.second| == TournamentSelectionNumber + 1
      modifies this`BestIndividualFitness, Individuals()
      ensures Valid()
      ensures Entries() == Step(old(Entries()), d, Config())
      ensures BestIndividualFitness == MaxFitness(old(Entries()))
      ensures forall i :: 0 <= i < |Population| && i != Worst(old(Entries())) ==>
        Population[i].Genome == old(Population[i].Genome)
      ensures var w := Worst(old(Entries()));
        Population[w].Genome == old(Population[w].Genome) || fresh(Population[w].Genome)
    {
      ghost var pop, s := Entries(), Config();
      var childGenome := MakeChild(d);
      var childFitness := Evaluate(childGenome[..]);
      assert Step(pop, d, s) == ReplaceWorst(pop, Entry(childGenome[..], childFitness));
      UpdatePopulation(childGenome, childFitness);
      assert Config() == s;
    }
  }
}
