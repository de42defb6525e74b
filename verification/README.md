# NeuralNetworkEvolver in Dafny

NeuralNetworkEvolver trains a small feedforward neural network with a
steady-state genetic algorithm instead of back-propagation.

- A *genome* is the network's list of weights. For each layer, then each
  neuron, it holds the neuron's bias weight followed by one weight per input.
- The network loads a genome into its weight arrays (`SetWeights`), takes an
  input vector (`SetInput`) and runs the forward pass (`Activate`).
- The evolution engine (`EvolveNetwork`) keeps a population of fifty
  individuals, each a genome and its fitness. Each generation:
  - a tournament picks a first parent;
  - with probability `CrossoverRate`, a second tournament and a two-point
    crossover produce the child; otherwise the child is the all-zero genome;
  - with probability `MutationRate`, three genes of the child are shifted;
  - the child is scored, the best fitness is recorded, and the child takes
    over the first slot of lowest fitness when it is at least as fit.
- The `Dataset` holds the training rows.

The project is in five modules:

- `Layout` (`layout.dfy`) is the value-level view of the network.
  - `WeightCount` gives the number of genes a topology needs.
  - `Flatten` and `Unflatten` convert between genome and weights. They are
    proved inverse in both directions.
  - `Forward` is the forward pass over an activation function `sigma` that is
    left as a parameter.
- `NeuralNet` (`neural_network.dfy`) holds the classes `Neuron`, `Layer` and
  `NeuralNetwork`. They use the source's arrays and loops, and each method is
  proved against the `Layout` functions.
- `Data` (`dataset.dfy`) holds the `Dataset` class.
- `GeneticOperators` (`operators.dfy`) gives the genetic operators as
  functions of values:
  - first-maximum and first-minimum scans;
  - the tournament, two-point crossover and the three-gene mutation;
  - replacement of the worst individual;
  - one generation (`Step`) and a run of generations (`Evolve`).

  It also proves what they guarantee. For example, the lowest and highest
  fitness of the population never decrease over a run.
- `Evolution` (`evolve_network.dfy`) holds the classes `Individual` and
  `EvolveNetwork`. Their methods keep the source's loops and in-place updates,
  and are proved against the `GeneticOperators` functions through
  `Entries()`, the population read as values.

Every random draw of the source is an explicit argument:

- the raw `rand.Next()` values of a tournament;
- the crossover and mutation rolls;
- the two crossover points;
- the position and amount of each mutation;
- the uniform genes of the initial population.

A generation's draws are collected in a `StepDraws` value. Fitness evaluation
is the function `Evaluate`, fixed when the engine is built.

The comment above `runEvolutionStep` (EvolveNetwork.cs:193-196) says the child
"may be a copy of an existing Individual". The code does something else: when
the crossover roll fails, the child is the freshly allocated all-zero genome,
and the first parent is drawn but never used (EvolveNetwork.cs:200-210). The
model follows the code (`GeneticOperators.Crossed`).

The recorded best fitness starts at 0.0 (EvolveNetwork.cs:37). Each
generation sets it to the highest fitness of the population before the child
is placed (EvolveNetwork.cs:238). Fitness is a negative mean squared error
(EvolveNetwork.cs:87), so it is at most 0. The recorded best therefore drops
at generation 1, unless some genome fits the data exactly. From generation 1
on it never drops (`GeneticOperators.RecordedBestNeverDrops`), because a
generation never lowers the highest fitness.

## Model

| member | source | states |
|---|---|---|
| Layout.TimesIsProduct | NeuralNetworkEvolver/NeuralNetwork.cs:71 | the repeated-addition count of a layer's genes equals neurons * (inputs + 1) |
| Layout.WeightCountPrefix | NeuralNetworkEvolver/NeuralNetwork.cs:65-73 | the count of genes (the NumberOfWeights sum) never shrinks as layers are added: a prefix of the topology needs no more genes than the whole |
| Layout.LayerStartNext | NeuralNetworkEvolver/NeuralNetwork.cs:78-89 | the genes of layer l + 1 start right after the t[l+1] * (t[l] + 1) genes of layer l |
| Layout.Unflatten | NeuralNetworkEvolver/NeuralNetwork.cs:76-90 | the weights read from a genome have exactly the shape the topology prescribes (neurons per layer, inputs + 1 weights per neuron) |
| Layout.FlattenAt | NeuralNetworkEvolver/NeuralNetwork.cs:78-89 | the genome order SetWeights reads: weight j of neuron i of layer l is gene LayerStart(t, l) + i * (t[l] + 1) + j, with LayerStart(t, l) the number of weights of the layers before l |
| Layout.FlattenLayerAt | NeuralNetworkEvolver/NeuralNetwork.cs:78-89 | the genes of layer l are the LayerStart(t, l)-th onward of the genome, and the layer reads them neuron by neuron, each neuron taking t[l] + 1 of them |
| Layout.FlattenLength | NeuralNetworkEvolver/NeuralNetwork.cs:62-74 | a network of the topology's shape has exactly WeightCount(t) weights, the NumberOfWeights the constructor computes |
| Layout.FlattenUnflatten | NeuralNetworkEvolver/NeuralNetwork.cs:76-90 | reading a genome into weights and writing them back gives the genome's first WeightCount(t) genes |
| Layout.UnflattenFlatten | NeuralNetworkEvolver/NeuralNetwork.cs:76-90 | writing shaped weights into a genome and reading it back gives the same weights |
| Layout.UnflattenPrefix | NeuralNetworkEvolver/NeuralNetwork.cs:76-90 | the weights depend only on the first WeightCount(t) genes; longer genomes with that prefix load the same |
| Layout.UnflattenLayerAt | NeuralNetworkEvolver/NeuralNetwork.cs:81-87 | neuron i of a layer takes the k genes starting at i * k of the layer's genes |
| Layout.UnflattenAt | NeuralNetworkEvolver/NeuralNetwork.cs:78-89 | layer l takes its t[l+1] * (t[l] + 1) genes from offset LayerStart(t, l), inside the first WeightCount(t) genes |
| Layout.LayerGenes | NeuralNetworkEvolver/NeuralNetwork.cs:78-89 | the running gene index moves from LayerStart(t, l) to LayerStart(t, l + 1) across layer l |
| Layout.DotOrder | NeuralNetworkEvolver/NeuralNetwork.cs:14-20 | the left-to-right accumulation of weighted inputs equals the front-first sum |
| Layout.PreActivationSum | NeuralNetworkEvolver/NeuralNetwork.cs:12-21 | the sum SumInputs computes (PreActivation) is the bias weight plus the sum of each input times its weight |
| Layout.LayerOutput | NeuralNetworkEvolver/NeuralNetwork.cs:40-49 | a layer yields one output per neuron |
| Layout.Activation | NeuralNetworkEvolver/NeuralNetwork.cs:97-104 | the values entering layer l have t[l] entries, one per output of layer l - 1 |
| Layout.Forward | NeuralNetworkEvolver/NeuralNetwork.cs:97-104 | the network's output has one entry per neuron of the last layer |
| NeuralNet.Neuron.constructor | NeuralNetworkEvolver/NeuralNetwork.cs:8-11 | a neuron owns a fresh weight array of the requested length |
| NeuralNet.Neuron.SumInputs | NeuralNetworkEvolver/NeuralNetwork.cs:12-21 | the sum is the bias weight plus each input times its weight (PreActivation) |
| NeuralNet.Neuron.LoadGenes | NeuralNetworkEvolver/NeuralNetwork.cs:83-87 | the neuron's weights become the next Weights.Length genes, and the gene index moves past them |
| NeuralNet.Layer.constructor | NeuralNetworkEvolver/NeuralNetwork.cs:28-38 | numberOfNeurons neurons, each with its own fresh array of numberOfInputs + 1 weights, and a fresh input buffer of numberOfInputs |
| NeuralNet.Layer.LoadGenes | NeuralNetworkEvolver/NeuralNetwork.cs:81-88 | the layer's weights become the next \|Neurons\| blocks of Width + 1 genes, and no other layer's weights change |
| NeuralNet.Layer.Activate | NeuralNetworkEvolver/NeuralNetwork.cs:40-49 | a fresh array holding sigma of each neuron's pre-activation over the current inputs |
| NeuralNet.WeightCountStep | NeuralNetworkEvolver/NeuralNetwork.cs:71 | each new layer adds layers[i] * (layers[i - 1] + 1) weights to the count |
| NeuralNet.NeuralNetwork.constructor | NeuralNetworkEvolver/NeuralNetwork.cs:62-74 | one layer per consecutive pair of sizes, no weight array shared, NumberOfWeights == WeightCount(layers); the layers, their weight arrays and their input buffers are all newly allocated |
| NeuralNet.NeuralNetwork.SetWeights | NeuralNetworkEvolver/NeuralNetwork.cs:76-90 | the weights become Unflatten of the genome, and flattening them gives back the genome's first NumberOfWeights genes |
| NeuralNet.NeuralNetwork.SetInput | NeuralNetworkEvolver/NeuralNetwork.cs:92-95 | the given array itself becomes the first layer's input buffer |
| NeuralNet.NeuralNetwork.Feed | NeuralNetworkEvolver/NeuralNetwork.cs:99-102 | layer i gets as input a fresh array holding layer i - 1's output; no other buffer and no weight changes |
| NeuralNet.NeuralNetwork.FeedForward | NeuralNetworkEvolver/NeuralNetwork.cs:99-102 | after the loop every layer's input buffer holds the activation entering that layer, and no weight has changed |
| NeuralNet.NeuralNetwork.Activate | NeuralNetworkEvolver/NeuralNetwork.cs:97-104 | the output is Forward of the weights and the first layer's input; each layer's buffer holds the activations entering it |
| Data.Dataset.constructor | NeuralNetworkEvolver/Dataset.cs:11-15 | both lists start empty |
| Data.Dataset.Add | NeuralNetworkEvolver/Dataset.cs:16-20 | the row is appended to both lists in step; NumberOfOutputs keeps the first row's width once a row exists |
| Data.Dataset.NumberOfOutputs | NeuralNetworkEvolver/Dataset.cs:22-28 | the width of the first expected-output row |
| GeneticOperators.ArgMax | NeuralNetworkEvolver/EvolveNetwork.cs:229-237 | the strict left-to-right scan for the best slot ends on a valid index (what that index is: ArgMaxIsFirstMax) |
| GeneticOperators.ArgMin | NeuralNetworkEvolver/EvolveNetwork.cs:229-237 | the strict left-to-right scan for the worst slot ends on a valid index (what that index is: ArgMinIsFirstMin) |
| GeneticOperators.ArgMaxIsFirstMax | NeuralNetworkEvolver/EvolveNetwork.cs:229-237 | the strict scan ends on a maximum, and every earlier slot is strictly less fit |
| GeneticOperators.ArgMinIsFirstMin | NeuralNetworkEvolver/EvolveNetwork.cs:229-237 | the strict scan ends on a minimum, and every earlier slot is strictly more fit |
| GeneticOperators.FirstMaxIsArgMax | NeuralNetworkEvolver/EvolveNetwork.cs:229-237 | conversely, the first index of a maximum is the one the scan finds |
| GeneticOperators.FirstMinIsArgMin | NeuralNetworkEvolver/EvolveNetwork.cs:229-237 | conversely, the first index of a minimum is the one the scan finds |
| GeneticOperators.ArgMaxNext | NeuralNetworkEvolver/EvolveNetwork.cs:233-234 | one more scan step moves the best index only on a strictly greater fitness |
| GeneticOperators.ArgMinNext | NeuralNetworkEvolver/EvolveNetwork.cs:235-236 | one more scan step moves the worst index only on a strictly smaller fitness |
| GeneticOperators.Candidates | NeuralNetworkEvolver/EvolveNetwork.cs:138-141 | each raw draw modulo the population size is a valid slot |
| GeneticOperators.Winner | NeuralNetworkEvolver/EvolveNetwork.cs:136-146 | the tournament winner is a slot of the population |
| GeneticOperators.WinnerIsFirstFittest | NeuralNetworkEvolver/EvolveNetwork.cs:136-146 | the winner is a drawn candidate at least as fit as every candidate drawn, and strictly fitter than every candidate drawn before it |
| GeneticOperators.SelectDrawn | NeuralNetworkEvolver/EvolveNetwork.cs:136-146 | the genome a tournament returns (Select) is that of a drawn individual, one at least as fit as every individual drawn |
| GeneticOperators.Splice | NeuralNetworkEvolver/EvolveNetwork.cs:161-178 | the child is as long as the parents |
| GeneticOperators.SpliceSegments | NeuralNetworkEvolver/EvolveNetwork.cs:170-176 | for points inside the genome the child is parent one's head, parent two's genes p1..p2 and parent one's tail |
| GeneticOperators.SpliceFromParents | NeuralNetworkEvolver/EvolveNetwork.cs:170-176 | every gene of the child is the same-position gene of one parent |
| GeneticOperators.SpliceKeepsFirst | NeuralNetworkEvolver/EvolveNetwork.cs:170-176 | identical parents, or points at or past the end, give back parent one |
| GeneticOperators.ApplyTweaks | NeuralNetworkEvolver/EvolveNetwork.cs:149-158 | mutation keeps the genome length |
| GeneticOperators.ApplyTweaksShifts | NeuralNetworkEvolver/EvolveNetwork.cs:152-156 | each gene ends up shifted by the sum of the deltas aimed at it, repeats included |
| GeneticOperators.UntouchedGeneKept | NeuralNetworkEvolver/EvolveNetwork.cs:152-156 | a gene no draw is aimed at keeps its value |
| GeneticOperators.ChangedGenesAreTargets | NeuralNetworkEvolver/EvolveNetwork.cs:151-156 | a gene that changed was the target of some draw, so at most three genes change |
| GeneticOperators.FitnessBounds | NeuralNetworkEvolver/EvolveNetwork.cs:229-238 | the recorded best and the worst fitness bound every fitness of the population |
| GeneticOperators.ReplaceWorst | NeuralNetworkEvolver/EvolveNetwork.cs:241-245 | replacement keeps the population size |
| GeneticOperators.ReplaceWorstSlots | NeuralNetworkEvolver/EvolveNetwork.cs:226-246 | only the first slot of lowest fitness may change, and it takes the child exactly when the child is at least as fit |
| GeneticOperators.ReplaceWorstRaisesMin | NeuralNetworkEvolver/EvolveNetwork.cs:241-245 | replacement never lowers the lowest fitness |
| GeneticOperators.ReplaceWorstRaisesMax | NeuralNetworkEvolver/EvolveNetwork.cs:241-245 | replacement never lowers the highest fitness |
| GeneticOperators.Crossed | NeuralNetworkEvolver/EvolveNetwork.cs:200-210 | the pre-mutation child has the genome length |
| GeneticOperators.Child | NeuralNetworkEvolver/EvolveNetwork.cs:198-214 | the child has the genome length |
| GeneticOperators.Step | NeuralNetworkEvolver/EvolveNetwork.cs:198-220 | a generation keeps a population of genomes of the genome length |
| GeneticOperators.Evolve | NeuralNetworkEvolver/EvolveNetwork.cs:181-191 | a run keeps the population size and the genome length |
| GeneticOperators.EvolveNext | NeuralNetworkEvolver/EvolveNetwork.cs:183-189 | one more generation of the loop is one more Step on the population so far |
| GeneticOperators.StepMonotone | NeuralNetworkEvolver/EvolveNetwork.cs:198-220 | a generation changes at most one slot and lowers neither the lowest nor the highest fitness |
| GeneticOperators.EvolveMonotone | NeuralNetworkEvolver/EvolveNetwork.cs:181-191 | over a whole run the lowest and the highest fitness never decrease |
| GeneticOperators.RecordedBestNeverDrops | NeuralNetworkEvolver/EvolveNetwork.cs:181-191 | the highest fitness after the first k generations is at most the highest at the end of the run, so the best recorded from generation 1 on never drops |
| Evolution.Individual.constructor | NeuralNetworkEvolver/EvolveNetwork.cs:47-49 | an individual holds the given genome array and fitness |
| Evolution.RandomGenome | NeuralNetworkEvolver/EvolveNetwork.cs:55-61 | a fresh genome holding the uniform draws, one per gene |
| Evolution.CreatePopulation | NeuralNetworkEvolver/EvolveNetwork.cs:43-52 | fresh, distinct individuals, each with a fresh genome from its draws and that genome's fitness |
| Evolution.EvolveNetwork.constructor | NeuralNetworkEvolver/EvolveNetwork.cs:25-40 | default parameters (50, 5, 0.9, 0.9, 20000, best 0.0) and a population made from the draws, whose individuals and genome arrays are all newly allocated |
| Evolution.EvolveNetwork.TournamentSelection | NeuralNetworkEvolver/EvolveNetwork.cs:136-146 | returns the Winner's genome array itself, whose contents are Select of the population |
| Evolution.EvolveNetwork.Mutate | NeuralNetworkEvolver/EvolveNetwork.cs:149-158 | the same array is returned, its contents the tweaks applied in order |
| Evolution.EvolveNetwork.Crossover | NeuralNetworkEvolver/EvolveNetwork.cs:161-178 | a fresh array holding the Splice of the parents at the two points |
| Evolution.EvolveNetwork.FindBestAndWorst | NeuralNetworkEvolver/EvolveNetwork.cs:229-237 | the indices are the first maximum and the first minimum of the fitnesses |
| Evolution.EvolveNetwork.UpdatePopulation | NeuralNetworkEvolver/EvolveNetwork.cs:226-246 | the best fitness is recorded, the population becomes ReplaceWorst with the child, the worst slot takes the child's own array when it is replaced, and every other slot keeps its genome array |
| Evolution.EvolveNetwork.TakeOver | NeuralNetworkEvolver/EvolveNetwork.cs:241-245 | the slot takes the child's own array and fitness; every other slot keeps its genome array and its entry |
| Evolution.EvolveNetwork.MakeChild | NeuralNetworkEvolver/EvolveNetwork.cs:200-214 | a fresh genome equal to Child of the population and the draws |
| Evolution.EvolveNetwork.RunEvolutionStep | NeuralNetworkEvolver/EvolveNetwork.cs:198-220 | the population becomes Step of the old one, and the recorded best is the old population's highest fitness; every slot but the worst keeps its genome array, and the worst keeps its array or holds the newly allocated child |
| Evolution.EvolveNetwork.RunEvolution | NeuralNetworkEvolver/EvolveNetwork.cs:181-191 | the population becomes Evolve over the rows of draws; the recorded best is the highest fitness before the last generation, or unchanged when there are no generations |

## Left out

- The steepened sigmoid `1 / (1 + e^(-3x))` (NeuralNetwork.cs:50-54) is the parameter `sigma`, because the model has no exponential. Sums and products are over exact reals, not IEEE doubles, so rounding and NaN are not modelled.
- evaluateFitness (EvolveNetwork.cs:67-88) is the function `Evaluate`, because the fitness is a floating-point mean squared error. It would be computed from SetWeights, SetInput and Activate on the dataset, which are modelled. On an empty dataset the source throws in `NumberOfOutputs` (Dataset.cs:25), called at EvolveNetwork.cs:73 before any division.
- uniformRandomNumber and gaussianRandomNumber (EvolveNetwork.cs:117-130) and the `Random` object are left out. Their values are inputs: the uniform genes, the tournament draws, the rolls, the crossover points and the mutation `Tweak`s.
- The conversion of a uniform number to a mutation index (`Convert.ToInt16`, EvolveNetwork.cs:154) and to the crossover points (EvolveNetwork.cs:165-169) is left out. The resulting integers are inputs. When the mutation roll is below the rate, the mutation indices are required to be inside the genome (`Usable`). The conversion gives that only for genome lengths from 1 to 32768: a genome of length 0 gives the index -1 or 0 and the write fails, and past 32768 genes the product can exceed 32767 and `Convert.ToInt16` throws.
- PrintResults (EvolveNetwork.cs:90-114), the progress line of RunEvolution (EvolveNetwork.cs:185-187) and Program.cs are left out because they are console output. Program.cs is not part of this model.
- Data.Dataset.NumberOfOutputs: the `null` branch is left out because the lists are created by the constructor and never null. On an empty list the source throws, which is the precondition here.
- NeuralNet.NeuralNetwork.SetInput: requires the input to have exactly the first layer's width, and not to be one of the network's weight arrays. The source demands neither. A shorter input makes SumInputs return the bias plus a partial sum without error; a longer one makes SumInputs read past the weights and throw. An input that is also a weight array would be changed by SetWeights; that aliasing is not modelled.
- NeuralNet.NeuralNetwork.SetWeights: requires a genome of at least NumberOfWeights genes (the source throws otherwise) that is none of the network's own weight arrays.
- NeuralNet.NeuralNetwork.constructor: `NumberOfWeights` is an unbounded count here (`WeightCount`). In the source it is a 32-bit `int` sum (NeuralNetwork.cs:71) that wraps without error once a topology needs more than Int32.MaxValue weights. For example, sizes (46341, 46341) need 2147534622 weights; the sum wraps to -2147432674, and `new double[this.genomeLength]` then throws (EvolveNetwork.cs:57). The model builds the population instead.
- NeuralNet.NeuralNetwork.constructor: requires at least one size. On an empty list of sizes the source throws when it allocates `new Layer[layers.Length - 1]` (NeuralNetwork.cs:64).
- Evolution.EvolveNetwork.RunEvolution: does not state which genome arrays the slots hold after the run. RunEvolutionStep states it for each generation: every slot but the worst keeps its array, and the worst keeps its array or takes the newly allocated child.
- NeuralNet.NeuralNetwork.Activate and SetInput require at least one layer; on a network built from a single size, the source indexes an empty layer array.
- The inner loops of SetWeights are the methods Neuron.LoadGenes and Layer.LoadGenes. The loop of Activate is FeedForward and its body is Feed. The scan of updatePopulation is FindBestAndWorst and its swap is TakeOver. The child-building half of runEvolutionStep is MakeChild. These are the same statements in the same order, split into methods.
- The arrays of neurons, of layers and of the population are filled by their constructors and never written again. They are constant sequences here; the weight arrays, input buffers and genomes stay arrays.
- createPopulation and randomGenome are module-level methods, because they run before the engine object exists. The population size is the constant 50 that the constructor uses.
- The PopulationSize setter does not resize the population in the source either, so PopulationSize is a plain field. TournamentSelectionNumber and Generations are natural numbers, because a negative value makes the loops run zero times.
