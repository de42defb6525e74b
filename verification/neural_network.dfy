/**
 * The feedforward network whose weights a genome encodes: neurons that own a
 * weight array (bias first), layers that own their neurons and an input
 * buffer, and a network that loads a genome into the weights, installs an
 * input vector and runs the forward pass.  The activation function is a
 * parameter (`sigma`); sums are over exact reals.
 *
 * The neuron array of a layer and the layer array of a network are filled by
 * their constructors and never written again, so they are constant sequences
 * here; the weight arrays and the input buffers, which are written or
 * replaced later, stay arrays.
 */
module NeuralNet {
  import opened Layout

  class Neuron {
    /** Bias weight at index 0, then one weight per input. */
    const Weights: array<real>

    constructor (numberOfWeights: nat)
      ensures Weights.Length == numberOfWeights && fresh(Weights)
    {
      Weights := new real[numberOfWeights](_ => 0.0);
    }

    /** The neuron's pre-activation for `inputs`: bias plus weighted inputs. */
    method SumInputs(inputs: array<real>) returns (sum: real)
      requires Weights.Length >= inputs.Length + 1
      ensures sum == PreActivation(inputs[..], Weights[..])
    {
      sum := 0.0;
      sum := sum + 1.0 * Weights[0];
      ghost var v := Weights[1..];
      for i := 0 to inputs.Length
        invariant sum == Weights[0] + Dot(inputs[..i], v)
      {
        assert inputs[..i + 1][..i] == inputs[..i];
        sum := sum + inputs[i] * Weights[i + 1];
      }
      assert inputs[..inputs.Length] == inputs[..];
    }

    /** The innermost loop of SetWeights: copies the next Weights.Length genes, starting at `from`. */
    method LoadGenes(genome: array<real>, from: nat) returns (next: nat)
      requires genome != Weights && from + Weights.Length <= genome.Length
      modifies Weights
      ensures next == from + Weights.Length && Weights[..] == genome[from .. next]
    {
      next := from;
      for weightIndex := 0 to Weights.Length
        invariant next == from + weightIndex
        invariant Weights[..weightIndex] == genome[from .. next]
      {
        Weights[weightIndex] := genome[next];
        next := next + 1;
      }
    }
  }

  class Layer {
    const Neurons: seq<Neuron>
    /** The layer's input buffer; the network replaces it, never writes into it. */
    var Inputs: array<real>
    /** The number of inputs the layer was built for. */
    ghost const Width: nat
    /** A set holding the weight arrays of this layer's neurons. */
    ghost const WeightSet: set<array<real>>

    /**
     * Every neuron has one weight per input plus the bias, and WeightSet holds
     * the neurons' weight arrays, no two neurons sharing one.
     */
    ghost predicate Wired()
    {
      (forall k :: 0 <= k < |Neurons| ==> Neurons[k].Weights.Length == Width + 1) &&
      (forall i, j :: 0 <= i < j < |Neurons| ==> Neurons[i].Weights != Neurons[j].Weights) &&
      (forall k :: 0 <= k < |Neurons| ==> Neurons[k].Weights in WeightSet)
    }

    /** The current weight values, neuron by neuron. */
    ghost function WeightValues(): (ws: seq<seq<real>>)
      requires Wired()
      reads WeightSet
      ensures |ws| == |Neurons|
    {
      seq(|Neurons|, k requires 0 <= k < |Neurons| && Wired() reads WeightSet => Neurons[k].Weights[..])
    }

    /** The input buffer has the layer's width and is not a weight array. */
    ghost predicate Valid()
      reads this
    {
      Wired() && Inputs.Length == Width && Inputs !in WeightSet
    }

    constructor (numberOfNeurons: nat, numberOfInputs: nat)
      ensures Valid()
      ensures |Neurons| == numberOfNeurons && Width == numberOfInputs
      ensures fresh(Inputs) && fresh(WeightSet)
    {
      var inputs := new real[numberOfInputs](_ => 0.0);
      var built: seq<Neuron> := [];
      for i := 0 to numberOfNeurons
        invariant |built| == i
        invariant forall k :: 0 <= k < i ==>
          fresh(built[k].Weights) && built[k].Weights.Length == numberOfInputs + 1 && built[k].Weights != inputs
        invariant forall a, b :: 0 <= a < b < i ==> built[a].Weights != built[b].Weights
      {
        var neuron := new Neuron(numberOfInputs + 1);
        built := built + [neuron];
      }
      Neurons := built;
      Inputs := inputs;
      Width := numberOfInputs;
      WeightSet := set k | 0 <= k < |built| :: built[k].Weights;
    }

    /**
     * The middle loop of SetWeights: loads each neuron in turn from the genes
     * starting at `from`, so the layer takes the next |Neurons| blocks of
     * Width + 1 genes.
     */
    method LoadGenes(genome: array<real>, from: nat) returns (next: nat)
      requires Wired() && genome !in WeightSet
      requires from + Times(|Neurons|, Width + 1) <= genome.Length
      modifies WeightSet
      ensures next == from + Times(|Neurons|, Width + 1)
      ensures WeightValues() == UnflattenLayer(|Neurons|, Width + 1, genome[from..])
      ensures forall L: Layer :: old(allocated(L)) && L.Wired() && L.WeightSet !! WeightSet ==>
                L.WeightValues() == old(L.WeightValues())
    {
      ghost var n, k := |Neurons|, Width + 1;
      ghost var g := genome[..];
      ghost var u := UnflattenLayer(n, k, g[from..]);
      next := from;
      for neuronIndex := 0 to |Neurons|
        invariant next == from + Times(neuronIndex, k)
        invariant genome[..] == g
        invariant forall j :: 0 <= j < neuronIndex ==> Neurons[j].Weights[..] == u[j]
        invariant forall L: Layer :: old(allocated(L)) && L.Wired() && L.WeightSet !! WeightSet ==>
                    L.WeightValues() == old(L.WeightValues())
      {
        NeuronGenes(n, k, g, from, neuronIndex);
        assert Neurons[neuronIndex].Weights in WeightSet;
        next := Neurons[neuronIndex].LoadGenes(genome, next);
      }
    }

    /** Applies `sigma` to each neuron's pre-activation over the current inputs. */
    method Activate(sigma: real -> real) returns (output: array<real>)
      requires Valid()
      ensures fresh(output)
      ensures output[..] == LayerOutput(WeightValues(), Inputs[..], sigma)
    {
      output := new real[|Neurons|];
      for neuronIndex := 0 to |Neurons|
        invariant forall k :: 0 <= k < neuronIndex ==>
          output[k] == sigma(PreActivation(Inputs[..], Neurons[k].Weights[..]))
      {
        var inputSum := Neurons[neuronIndex].SumInputs(Inputs);
        output[neuronIndex] := sigma(inputSum);
      }
    }
  }

  /**
   * Layers that fit the front of a topology: layer l has t[l+1] neurons and
   * width t[l], and no two layers share a layer object or a weight array.
   */
  ghost predicate Chained(ls: seq<Layer>, t: seq<nat>)
  {
    |ls| < |t| &&
    (forall l :: 0 <= l < |ls| ==> |ls[l].Neurons| == t[l + 1] && ls[l].Width == t[l] && ls[l].Wired()) &&
    (forall l, m :: 0 <= l < m < |ls| ==> ls[l] != ls[m] && ls[l].WeightSet !! ls[m].WeightSet)
  }

  /** Each layer's input buffer has the layer's width and is no layer's weight array. */
  ghost predicate Buffered(ls: seq<Layer>)
    reads set L | L in ls
  {
    (forall l :: 0 <= l < |ls| ==> ls[l].Inputs.Length == ls[l].Width) &&
    (forall l, m :: 0 <= l < |ls| && 0 <= m < |ls| ==> ls[l].Inputs !in ls[m].WeightSet)
  }

  /** Chained, buffered layers whose input buffers and weight arrays all lie in `arrays`. */
  ghost predicate Built(ls: seq<Layer>, t: seq<nat>, arrays: set<array<real>>)
    reads set L | L in ls
  {
    Chained(ls, t) && Buffered(ls) &&
    forall l :: 0 <= l < |ls| ==> ls[l].Inputs in arrays && ls[l].WeightSet <= arrays
  }

  /** A layer made of arrays the stack does not use can be put on top of it. */
  lemma BuiltAppend(ls: seq<Layer>, t: seq<nat>, top: Layer, arrays: set<array<real>>)
    requires Built(ls, t, arrays) && |ls| + 1 < |t| && top !in ls
    requires top.Valid() && |top.Neurons| == t[|ls| + 1] && top.Width == t[|ls|]
    requires top.Inputs !in arrays && top.WeightSet !! arrays
    ensures Built(ls + [top], t, arrays + {top.Inputs} + top.WeightSet)
  {
    var ls' := ls + [top];
    assert forall l :: 0 <= l < |ls| ==> ls'[l] == ls[l];
  }

  /** Adding one more layer of sizes adds that layer's weights and biases. */
  lemma WeightCountStep(layers: seq<nat>, i: nat)
    requires 1 <= i < |layers|
    ensures WeightCount(layers[..i + 1]) == WeightCount(layers[..i]) + layers[i] * (layers[i - 1] + 1)
  {
    TimesIsProduct(layers[i], layers[i - 1] + 1);
    var t := layers[..i + 1];
    assert t[..|t| - 1] == layers[..i] && t[|t| - 1] == layers[i] && t[|t| - 2] == layers[i - 1];
    assert WeightCount(t) == WeightCount(t[..|t| - 1]) + Times(t[|t| - 1], t[|t| - 2] + 1);
  }

  class NeuralNetwork {
    const Layers: seq<Layer>
    const NumberOfWeights: nat
    /** The layer sizes the network was built from. */
    ghost const Topology: seq<nat>

    /** The layer objects, whose input buffers the forward pass replaces. */
    ghost function LayerObjects(): set<Layer>
    {
      set L | L in Layers
    }

    /** Every weight array of the network. */
    ghost function WeightArrays(): set<array<real>>
    {
      set l, a | 0 <= l < |Layers| && a in Layers[l].WeightSet :: a
    }

    /**
     * The layers fit the topology one after the other, no weight array is
     * shared, and NumberOfWeights counts them all.
     */
    ghost predicate Shape()
    {
      Chained(Layers, Topology) && |Layers| + 1 == |Topology| && NumberOfWeights == WeightCount(Topology)
    }

    /** The shape holds and no input buffer has the wrong width or doubles as a weight array. */
    ghost predicate Valid()
      reads LayerObjects()
    {
      Shape() && Buffered(Layers)
    }

    /** Every layer's WeightSet holds its neurons' weight arrays, one per neuron and all distinct; Shape implies it. */
    ghost predicate Wired()
    {
      forall l :: 0 <= l < |Layers| ==> Layers[l].Wired()
    }

    /** The current weights, layer by layer. */
    ghost function WeightValues(): (w: Weights)
      requires Wired()
      reads WeightArrays()
    {
      seq(|Layers|, l requires 0 <= l < |Layers| && Layers[l].Wired()
        reads (if 0 <= l < |Layers| then Layers[l].WeightSet else {}) =>
        Layers[l].WeightValues())
    }

    /** The weights of a network in shape have the shape of its topology. */
    lemma ShapeShaped()
      requires Shape()
      ensures Wired() && Shaped(Topology, WeightValues())
    {
    }

    /** What the shape says about layer i: its sizes, and that it shares no weight array with another layer. */
    lemma LayerApart(i: nat)
      requires Shape() && i < |Layers|
      ensures Layers[i].Wired() && |Layers[i].Neurons| == Topology[i + 1] && Layers[i].Width == Topology[i]
      ensures forall l :: 0 <= l < |Layers| && l != i ==> Layers[l].Wired() && Layers[l].WeightSet !! Layers[i].WeightSet
    {
    }

    constructor (layers: seq<nat>)
      requires |layers| >= 1
      ensures Valid()
      ensures Topology == layers && NumberOfWeights == WeightCount(layers)
      ensures fresh(LayerObjects()) && fresh(WeightArrays())
      ensures forall l :: 0 <= l < |Layers| ==> fresh(Layers[l]) && fresh(Layers[l].Inputs) && fresh(Layers[l].WeightSet)
    {
      var built: seq<Layer> := [];
      ghost var arrays: set<array<real>> := {};
      var numberOfWeights: int := 0;
      for i := 1 to |layers|
        invariant |built| == i - 1
        invariant numberOfWeights == WeightCount(layers[..i])
        invariant Built(built, layers, arrays)
        invariant fresh(arrays) && forall l :: 0 <= l < |built| ==> fresh(built[l])
      {
        var newLayer := new Layer(layers[i], layers[i - 1]);
        assert fresh(newLayer) && fresh({newLayer.Inputs} + newLayer.WeightSet);
        BuiltAppend(built, layers, newLayer, arrays);
        built := built + [newLayer];
        arrays := arrays + {newLayer.Inputs} + newLayer.WeightSet;
        WeightCountStep(layers, i);
        numberOfWeights := numberOfWeights + (layers[i] as int) * (layers[i - 1] as int + 1);
      }
      assert layers[..|layers|] == layers;
      Layers := built;
      NumberOfWeights := numberOfWeights;
      Topology := layers;
    }

    /**
     * Copies the genome into the weights, layer by layer, neuron by neuron,
     * bias first: the weights become the genome's first NumberOfWeights genes
     * cut into the network's shape.
     */
    method SetWeights(genome: array<real>)
      requires Valid()
      requires genome.Length >= NumberOfWeights
      requires forall l :: 0 <= l < |Layers| ==> genome !in Layers[l].WeightSet
      modifies WeightArrays()
      ensures Valid()
      ensures WeightValues() == Unflatten(Topology, genome[..])
      ensures Flatten(WeightValues()) == genome[..NumberOfWeights]
    {
      ghost var g := genome[..];
      ghost var w := Unflatten(Topology, g);
      var genomeIndex := 0;
      for layerIndex := 0 to |Layers|
        invariant genome[..] == g
        invariant genomeIndex == LayerStart(Topology, layerIndex)
        invariant forall l :: 0 <= l < layerIndex ==> Layers[l].WeightValues() == w[l]
      {
        var layer := Layers[layerIndex];
        LayerApart(layerIndex);
        LayerGenes(Topology, g, layerIndex, |layer.Neurons|, layer.Width + 1);
        genomeIndex := layer.LoadGenes(genome, genomeIndex);
      }
      FlattenUnflatten(Topology, g);
    }

    /** Installs `input` as the first layer's input buffer. */
    method SetInput(input: array<real>)
      requires Valid() && |Layers| >= 1
      requires input.Length == Topology[0] && input !in WeightArrays()
      modifies Layers[0]
      ensures Valid() && Layers[0].Inputs == input
    {
      Layers[0].Inputs := input;
    }

    /** One step of the forward pass: layer i - 1's output becomes layer i's input buffer. */
    method Feed(i: nat, sigma: real -> real)
      requires Valid() && 1 <= i < |Layers|
      modifies Layers[i]
      ensures Valid() && fresh(Layers[i].Inputs)
      ensures Layers[i].Inputs[..] == LayerOutput(Layers[i - 1].WeightValues(), Layers[i - 1].Inputs[..], sigma)
      ensures forall l :: 0 <= l < |Layers| && l != i ==> Layers[l].Inputs == old(Layers[l].Inputs)
      ensures forall l :: 0 <= l < |Layers| && l != i ==> Layers[l].Inputs[..] == old(Layers[l].Inputs[..])
      ensures forall l :: 0 <= l < |Layers| ==> Layers[l].WeightValues() == old(Layers[l].WeightValues())
    {
      LayerApart(i - 1);
      LayerApart(i);
      Layers[i].Inputs := Layers[i - 1].Activate(sigma);
    }

    /**
     * The forward pass: each layer's output becomes the next layer's input
     * buffer, and the last layer's output is the result.
     */
    method Activate(sigma: real -> real) returns (output: array<real>)
      requires Valid() && |Layers| >= 1
      modifies LayerObjects()
      ensures Valid() && fresh(output) && Layers[0].Inputs == old(Layers[0].Inputs)
      ensures output[..] == Forward(Topology, old(WeightValues()), old(Layers[0].Inputs[..]), sigma)
      ensures forall l :: 0 <= l < |Layers| ==>
        Layers[l].Inputs[..] == Activation(Topology, old(WeightValues()), old(Layers[0].Inputs[..]), sigma, l)
    {
      ShapeShaped();
      ghost var w := WeightValues();
      ghost var x := Layers[0].Inputs[..];
      FeedForward(sigma, w, x);
      LayerApart(|Layers| - 1);
      output := Layers[|Layers| - 1].Activate(sigma);
    }

    /** The loop of the forward pass: every layer's input buffer ends up holding the activation entering it. */
    method FeedForward(sigma: real -> real, ghost w: Weights, ghost x: seq<real>)
      requires Valid() && |Layers| >= 1 && Shaped(Topology, w)
      requires WeightValues() == w && Layers[0].Inputs[..] == x
      modifies LayerObjects()
      ensures Valid() && Layers[0].Inputs == old(Layers[0].Inputs)
      ensures forall l :: 0 <= l < |Layers| ==> Layers[l].WeightValues() == w[l]
      ensures forall l :: 0 <= l < |Layers| ==> Layers[l].Inputs[..] == Activation(Topology, w, x, sigma, l)
    {
      for layerIndex := 1 to |Layers|
        invariant Valid() && Layers[0].Inputs == old(Layers[0].Inputs) && Layers[0].Inputs[..] == x
        invariant forall l :: 0 <= l < |Layers| ==> Layers[l].WeightValues() == w[l]
        invariant forall l :: 0 <= l < layerIndex ==>
          Layers[l].Inputs[..] == Activation(Topology, w, x, sigma, l)
      {
        Feed(layerIndex, sigma);
      }
    }
  }
}
