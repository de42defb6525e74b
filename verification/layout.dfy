/**
 * The value-level view of a genome-encoded feedforward network.
 *
 * A topology `t` lists layer sizes: `t[0]` inputs, then `t[i]` neurons in
 * layer `i-1`.  Every neuron of layer `i-1` carries `t[i-1] + 1` weights, the
 * bias first.  A genome stores all weights layer-major, neuron-major,
 * weight-minor.  This module defines that layout (flatten / unflatten), the
 * weight count, and the forward pass over an uninterpreted activation.
 */
module Layout {

  /** All weights of a network: layer, then neuron, then weight (bias at 0). */
  type Weights = seq<seq<seq<real>>>

  /**
   * `n` rows of `k` weights: Times(n, k) written as repeated addition, so that the
   * layout proofs stay in linear arithmetic (TimesIsProduct connects the two).
   */
  function Times(n: nat, k: nat): nat
  {
    if n == 0 then 0 else Times(n - 1, k) + k
  }

  lemma {:induction false} TimesIsProduct(n: nat, k: nat)
    ensures Times(n, k) == n * k
  {
    if n > 0 {
      TimesIsProduct(n - 1, k);
    }
  }

  /** Number of weights a topology needs: the sum of t[i] * (t[i-1] + 1). */
  function WeightCount(t: seq<nat>): nat
    decreases |t|
  {
    if |t| < 2 then 0 else WeightCount(t[..|t| - 1]) + Times(t[|t| - 1], t[|t| - 2] + 1)
  }

  /** Number of weights stored before layer `l` (the genome offset of that layer). */
  function LayerStart(t: seq<nat>, l: nat): nat
    requires l < |t|
  {
    WeightCount(t[..l + 1])
  }

  /** The next layer's genes start where this layer's genes end. */
  lemma LayerStartNext(t: seq<nat>, l: nat)
    requires l + 1 < |t|
    ensures LayerStart(t, l + 1) == LayerStart(t, l) + Times(t[l + 1], t[l] + 1)
  {
    var p := t[..l + 2];
    assert p[..|p| - 1] == t[..l + 1];
  }

  /** `w` has exactly the shape the topology `t` prescribes. */
  ghost predicate Shaped(t: seq<nat>, w: Weights)
  {
    |t| >= 1 && |w| == |t| - 1 &&
    forall l :: 0 <= l < |w| ==>
      |w[l]| == t[l + 1] &&
      forall n :: 0 <= n < |w[l]| ==> |w[l][n]| == t[l] + 1
  }

  /** Every row of `ns` holds `k` weights. */
  ghost predicate Rows(ns: seq<seq<real>>, k: nat)
  {
    forall n :: 0 <= n < |ns| ==> |ns[n]| == k
  }

  /** A shaped network without its last layer is shaped by the topology without its last size. */
  lemma ShapedFront(t: seq<nat>, w: Weights)
    requires Shaped(t, w) && |w| >= 1
    ensures Shaped(t[..|t| - 1], w[..|w| - 1])
    ensures |w[|w| - 1]| == t[|t| - 1]
    ensures Rows(w[|w| - 1], t[|t| - 2] + 1)
  {
  }

  /** Appending a layer of the last size, with rows as wide as the previous size plus one, keeps the shape. */
  lemma ShapedSnoc(t: seq<nat>, front: Weights, layer: seq<seq<real>>)
    requires |t| >= 2 && Shaped(t[..|t| - 1], front)
    requires |layer| == t[|t| - 1] && forall n :: 0 <= n < |layer| ==> |layer[n]| == t[|t| - 2] + 1
    ensures Shaped(t, front + [layer])
  {
  }

  /** The weights of one layer, neuron after neuron. */
  function FlattenLayer(ns: seq<seq<real>>): seq<real>
  {
    if ns == [] then [] else FlattenLayer(ns[..|ns| - 1]) + ns[|ns| - 1]
  }

  /** The genome a network's weights are stored as. */
  function Flatten(w: Weights): seq<real>
  {
    if w == [] then [] else Flatten(w[..|w| - 1]) + FlattenLayer(w[|w| - 1])
  }

  /** Cuts the first `Times(n, k)` genes of `g` into `n` neurons of `k` weights. */
  function UnflattenLayer(n: nat, k: nat, g: seq<real>): (r: seq<seq<real>>)
    requires Times(n, k) <= |g|
    ensures |r| == n
    ensures forall i :: 0 <= i < n ==> |r[i]| == k
  {
    if n == 0 then []
    else
      UnflattenLayer(n - 1, k, g) + [g[Times(n - 1, k) .. Times(n, k)]]
  }

  lemma {:induction false} WeightCountPrefix(t: seq<nat>, i: nat)
    requires 1 <= i <= |t|
    ensures WeightCount(t[..i]) <= WeightCount(t)
    decreases |t| - i
  {
    if i < |t| {
      var p := t[..|t| - 1];
      assert p[..i] == t[..i];
      WeightCountPrefix(p, i);
      assert WeightCount(t) == WeightCount(p) + Times(t[|t| - 1], t[|t| - 2] + 1);
    } else {
      assert t[..i] == t;
    }
  }

  /** Reads a genome back into the weights of a network of topology `t`. */
  function Unflatten(t: seq<nat>, g: seq<real>): (w: Weights)
    requires |t| >= 1 && WeightCount(t) <= |g|
    ensures Shaped(t, w)
    decreases |t|
  {
    if |t| == 1 then []
    else
      var p := t[..|t| - 1];
      var k := t[|t| - 2] + 1;
      ShapedSnoc(t, Unflatten(p, g), UnflattenLayer(t[|t| - 1], k, g[WeightCount(p)..]));
      Unflatten(p, g) + [UnflattenLayer(t[|t| - 1], k, g[WeightCount(p)..])]
  }

  lemma {:induction false} FlattenLayerLength(ns: seq<seq<real>>, k: nat)
    requires forall i :: 0 <= i < |ns| ==> |ns[i]| == k
    ensures |FlattenLayer(ns)| == Times(|ns|, k)
  {
    if ns != [] {
      FlattenLayerLength(ns[..|ns| - 1], k);
    }
  }

  /** A flattened network has exactly WeightCount(t) genes. */
  lemma {:induction false} FlattenLength(t: seq<nat>, w: Weights)
    requires Shaped(t, w)
    ensures |Flatten(w)| == WeightCount(t)
    decreases |w|
  {
    if w != [] {
      var p := t[..|t| - 1];
      var n, k := WeightCountLast(t);
      ShapedFront(t, w);
      FlattenLength(p, w[..|w| - 1]);
      FlattenLayerLength(w[|w| - 1], k);
    }
  }

  /** Round trip, genome side: unflattening then flattening gives back the used prefix. */
  lemma {:induction false} FlattenUnflattenLayer(n: nat, k: nat, g: seq<real>)
    requires Times(n, k) <= |g|
    ensures FlattenLayer(UnflattenLayer(n, k, g)) == g[..Times(n, k)]
  {
    if n > 0 {
      var a, b := Times(n - 1, k), Times(n, k);
      assert b == a + k;
      var r := UnflattenLayer(n, k, g);
      assert r[..n - 1] == UnflattenLayer(n - 1, k, g);
      FlattenUnflattenLayer(n - 1, k, g);
      assert g[..a] + g[a..b] == g[..b];
    }
  }

  /** Unfolds WeightCount at its last layer, naming the product. */
  lemma WeightCountLast(t: seq<nat>) returns (n: nat, k: nat)
    requires |t| >= 2
    ensures n == t[|t| - 1] && k == t[|t| - 2] + 1
    ensures WeightCount(t) == WeightCount(t[..|t| - 1]) + Times(n, k)
  {
    n, k := t[|t| - 1], t[|t| - 2] + 1;
  }

  /** A non-empty sequence is its front followed by its last element. */
  lemma FrontLast<T>(s: seq<T>)
    requires |s| >= 1
    ensures s == s[..|s| - 1] + [s[|s| - 1]]
  {
  }

  lemma SplitAt(g: seq<real>, s: nat, n: nat)
    requires s + n <= |g|
    ensures g[..s] + g[s..][..n] == g[..s + n]
  {
    assert g[s..][..n] == g[s .. s + n];
  }

  lemma FlattenLast(front: Weights, last: seq<seq<real>>)
    ensures Flatten(front + [last]) == Flatten(front) + FlattenLayer(last)
  {
    assert (front + [last])[..|front|] == front;
  }

  /** Round trip, genome side: Flatten(Unflatten(t, g)) is the first WeightCount(t) genes of g. */
  lemma {:induction false} FlattenUnflatten(t: seq<nat>, g: seq<real>)
    requires |t| >= 1 && WeightCount(t) <= |g|
    ensures Flatten(Unflatten(t, g)) == g[..WeightCount(t)]
    decreases |t|
  {
    if |t| > 1 {
      var p := t[..|t| - 1];
      var n, k := WeightCountLast(t);
      var s, nk := WeightCount(p), Times(n, k);
      var h := g[s..];
      var front, last := Unflatten(p, g), UnflattenLayer(n, k, h);
      UnflattenLast(t, g);
      FlattenUnflatten(p, g);
      FlattenUnflattenLayer(n, k, h);
      FlattenUnflattenStep(g, s, nk, front, last);
    }
  }

  lemma FlattenUnflattenStep(g: seq<real>, s: nat, nk: nat, front: Weights, last: seq<seq<real>>)
    requires s + nk <= |g| && Flatten(front) == g[..s] && FlattenLayer(last) == g[s..][..nk]
    ensures Flatten(front + [last]) == g[..s + nk]
  {
    FlattenLast(front, last);
    SplitAt(g, s, nk);
  }

  /** UnflattenLayer only looks at the first Times(n, k) genes. */
  lemma {:induction false} UnflattenLayerPrefix(n: nat, k: nat, g: seq<real>, h: seq<real>)
    requires Times(n, k) <= |g| && Times(n, k) <= |h| && g[..Times(n, k)] == h[..Times(n, k)]
    ensures UnflattenLayer(n, k, g) == UnflattenLayer(n, k, h)
  {
    if n > 0 {
      assert g[..Times(n - 1, k)] == g[..Times(n, k)][..Times(n - 1, k)];
      assert h[..Times(n - 1, k)] == h[..Times(n, k)][..Times(n - 1, k)];
      UnflattenLayerPrefix(n - 1, k, g, h);
      assert g[Times(n - 1, k) .. Times(n, k)] == g[..Times(n, k)][Times(n - 1, k) ..];
      assert h[Times(n - 1, k) .. Times(n, k)] == h[..Times(n, k)][Times(n - 1, k) ..];
    }
  }

  /** Unflatten only looks at the first WeightCount(t) genes. */
  lemma {:induction false} UnflattenPrefix(t: seq<nat>, g: seq<real>, h: seq<real>)
    requires |t| >= 1 && WeightCount(t) <= |g| && WeightCount(t) <= |h|
    requires g[..WeightCount(t)] == h[..WeightCount(t)]
    ensures Unflatten(t, g) == Unflatten(t, h)
    decreases |t|
  {
    if |t| > 1 {
      var p := t[..|t| - 1];
      var n, k := t[|t| - 1], t[|t| - 2] + 1;
      var s := WeightCount(p);
      assert g[..s] == g[..WeightCount(t)][..s];
      assert h[..s] == h[..WeightCount(t)][..s];
      UnflattenPrefix(p, g, h);
      assert g[s..][..Times(n, k)] == g[..WeightCount(t)][s..];
      assert h[s..][..Times(n, k)] == h[..WeightCount(t)][s..];
      UnflattenLayerPrefix(n, k, g[s..], h[s..]);
    }
  }

  /** Round trip, weight side, for one layer. */
  lemma {:induction false} UnflattenFlattenLayer(ns: seq<seq<real>>, k: nat)
    requires forall i :: 0 <= i < |ns| ==> |ns[i]| == k
    ensures |FlattenLayer(ns)| == Times(|ns|, k)
    ensures UnflattenLayer(|ns|, k, FlattenLayer(ns)) == ns
  {
    FlattenLayerLength(ns, k);
    if ns != [] {
      var n := |ns|;
      var front, last := ns[..n - 1], ns[n - 1];
      var ff := FlattenLayer(front);
      var f := ff + last;
      assert FlattenLayer(ns) == f;
      FlattenLayerLength(front, k);
      UnflattenFlattenLayer(front, k);
      assert f[..Times(n - 1, k)] == ff;
      UnflattenLayerPrefix(n - 1, k, f, ff);
      assert f[Times(n - 1, k) .. Times(n, k)] == last;
      FrontLast(ns);
    }
  }

  /** Unfolds Unflatten at its last layer. */
  lemma UnflattenLast(t: seq<nat>, g: seq<real>)
    requires |t| >= 2 && WeightCount(t) <= |g|
    ensures WeightCount(t[..|t| - 1]) <= |g|
    ensures Unflatten(t, g) ==
      Unflatten(t[..|t| - 1], g) + [UnflattenLayer(t[|t| - 1], t[|t| - 2] + 1, g[WeightCount(t[..|t| - 1])..])]
  {
  }

  /**
   * A genome made of a part that unflattens to the first layers and a part
   * that unflattens to the last layer unflattens to the whole network.
   */
  lemma UnflattenAppend(t: seq<nat>, gf: seq<real>, gl: seq<real>, front: Weights, last: seq<seq<real>>)
    requires |t| >= 2
    requires |gf| == WeightCount(t[..|t| - 1]) && Unflatten(t[..|t| - 1], gf) == front
    requires |gl| == Times(t[|t| - 1], t[|t| - 2] + 1) && UnflattenLayer(t[|t| - 1], t[|t| - 2] + 1, gl) == last
    ensures WeightCount(t) == |gf + gl|
    ensures Unflatten(t, gf + gl) == front + [last]
  {
    var g := gf + gl;
    var _, _ := WeightCountLast(t);
    assert g[..|gf|] == gf[..|gf|];
    UnflattenPrefix(t[..|t| - 1], g, gf);
    assert g[|gf|..] == gl;
    UnflattenLast(t, g);
  }

  /** The inductive step of UnflattenFlatten: a network whose front round-trips, topped by a layer of the right shape. */
  lemma UnflattenFlattenStep(t: seq<nat>, w: Weights)
    requires |t| >= 2 && |w| == |t| - 1
    requires |w[|w| - 1]| == t[|t| - 1] && Rows(w[|w| - 1], t[|t| - 2] + 1)
    requires |Flatten(w[..|w| - 1])| == WeightCount(t[..|t| - 1])
    requires Unflatten(t[..|t| - 1], Flatten(w[..|w| - 1])) == w[..|w| - 1]
    ensures |Flatten(w)| == WeightCount(t)
    ensures Unflatten(t, Flatten(w)) == w
  {
    var front, last := w[..|w| - 1], w[|w| - 1];
    UnflattenFlattenLayer(last, t[|t| - 2] + 1);
    UnflattenAppend(t, Flatten(front), FlattenLayer(last), front, last);
    FrontLast(w);
  }

  /** Round trip, weight side: a correctly shaped network survives flatten then unflatten. */
  lemma {:induction false} UnflattenFlatten(t: seq<nat>, w: Weights)
    requires Shaped(t, w)
    ensures |Flatten(w)| == WeightCount(t)
    ensures Unflatten(t, Flatten(w)) == w
    decreases |w|
  {
    if w != [] {
      ShapedFront(t, w);
      UnflattenFlatten(t[..|t| - 1], w[..|w| - 1]);
      UnflattenFlattenStep(t, w);
    }
  }

  /** Where the genome keeps neuron `n` of a layer that starts at offset 0. */
  lemma {:induction false} UnflattenLayerAt(n: nat, k: nat, g: seq<real>, i: nat)
    requires Times(n, k) <= |g| && i < n
    ensures Times(i + 1, k) <= Times(n, k)
    ensures UnflattenLayer(n, k, g)[i] == g[Times(i, k) .. Times(i, k) + k]
  {
    if i < n - 1 {
      UnflattenLayerAt(n - 1, k, g, i);
    }
  }

  /**
   * The genome layout itself: weight j of neuron i of layer l sits at
   * LayerStart(t, l) + i * (t[l] + 1) + j, layer by layer, neuron by neuron,
   * bias first.
   */
  lemma FlattenAt(t: seq<nat>, w: Weights, l: nat, i: nat, j: nat)
    requires Shaped(t, w) && l < |w| && i < |w[l]| && j < |w[l][i]|
    ensures LayerStart(t, l) + Times(i, t[l] + 1) + j < |Flatten(w)|
    ensures Flatten(w)[LayerStart(t, l) + Times(i, t[l] + 1) + j] == w[l][i][j]
  {
    var g := Flatten(w);
    var s, n, k := LayerStart(t, l), t[l + 1], t[l] + 1;
    FlattenLayerAt(t, w, l);
    var layer := w[l];
    var idx := s + Times(i, k) + j;
    GeneAt(n, k, g, s, i, j, layer, idx);
    assert w[l][i][j] == g[idx];
  }

  /** Weight j of neuron i of the layer whose genes start at `s` is gene `idx`. */
  lemma GeneAt(n: nat, k: nat, g: seq<real>, s: nat, i: nat, j: nat, layer: seq<seq<real>>, idx: nat)
    requires s + Times(n, k) <= |g| && i < n && j < k && layer == UnflattenLayer(n, k, g[s..])
    requires idx == s + Times(i, k) + j
    ensures idx < |g| && |layer| == n && |layer[i]| == k && layer[i][j] == g[idx]
  {
    NeuronGenes(n, k, g, s, i);
    var row := g[s + Times(i, k) .. s + Times(i + 1, k)];
    assert row[j] == g[idx];
  }

  /** Layer l of a network is stored in its genome from offset LayerStart(t, l). */
  lemma FlattenLayerAt(t: seq<nat>, w: Weights, l: nat)
    requires Shaped(t, w) && l < |w|
    ensures LayerStart(t, l) + Times(t[l + 1], t[l] + 1) <= |Flatten(w)|
    ensures w[l] == UnflattenLayer(t[l + 1], t[l] + 1, Flatten(w)[LayerStart(t, l)..])
  {
    UnflattenFlatten(t, w);
    UnflattenAt(t, Flatten(w), l);
  }

  /** Where the genome keeps neuron `i` of a layer whose genes start at `from`. */
  lemma NeuronGenes(n: nat, k: nat, g: seq<real>, from: nat, i: nat)
    requires from + Times(n, k) <= |g| && i < n
    ensures Times(i + 1, k) == Times(i, k) + k && from + Times(i + 1, k) <= |g|
    ensures UnflattenLayer(n, k, g[from..])[i] == g[from + Times(i, k) .. from + Times(i + 1, k)]
  {
    UnflattenLayerAt(n, k, g[from..], i);
    assert g[from..][Times(i, k) .. Times(i, k) + k] == g[from + Times(i, k) .. from + Times(i, k) + k];
  }

  /** Where the genome keeps layer `l`: at offset LayerStart(t, l). */
  lemma {:induction false} UnflattenAt(t: seq<nat>, g: seq<real>, l: nat)
    requires |t| >= 1 && WeightCount(t) <= |g| && l < |t| - 1
    ensures LayerStart(t, l) + Times(t[l + 1], t[l] + 1) <= WeightCount(t)
    ensures Unflatten(t, g)[l] == UnflattenLayer(t[l + 1], t[l] + 1, g[LayerStart(t, l)..])
    decreases |t|
  {
    var p := t[..|t| - 1];
    assert t[..l + 2][..l + 1] == t[..l + 1];
    WeightCountPrefix(t, l + 2);
    if l < |t| - 2 {
      assert p[..l + 1] == t[..l + 1];
      UnflattenAt(p, g, l);
    } else {
      assert p == t[..l + 1];
      assert t[..l + 2] == t;
    }
  }

  /**
   * Layer l of `t` has n neurons of k genes each; its genes are the n * k
   * that follow those of the layers before it.
   */
  lemma LayerGenes(t: seq<nat>, g: seq<real>, l: nat, n: nat, k: nat)
    requires |t| >= 1 && WeightCount(t) <= |g| && l < |t| - 1 && n == t[l + 1] && k == t[l] + 1
    ensures LayerStart(t, l + 1) == LayerStart(t, l) + Times(n, k) <= WeightCount(t)
    ensures Unflatten(t, g)[l] == UnflattenLayer(n, k, g[LayerStart(t, l)..])
  {
    UnflattenAt(t, g, l);
    LayerStartNext(t, l);
  }

  /** Sum of x[i] * v[i], accumulated left to right. */
  function Dot(x: seq<real>, v: seq<real>): real
    requires |x| <= |v|
  {
    if x == [] then 0.0 else Dot(x[..|x| - 1], v) + x[|x| - 1] * v[|x| - 1]
  }

  /** The same sum, accumulated right to left: the order of a textbook definition. */
  function DotFromFront(x: seq<real>, v: seq<real>): real
    requires |x| <= |v|
  {
    if x == [] then 0.0 else x[0] * v[0] + DotFromFront(x[1..], v[1..])
  }

  /** The front-first sum, with its last term split off. */
  lemma {:induction false} DotFromFrontLast(x: seq<real>, v: seq<real>)
    requires 1 <= |x| <= |v|
    ensures DotFromFront(x, v) == DotFromFront(x[..|x| - 1], v) + x[|x| - 1] * v[|x| - 1]
    decreases |x|
  {
    if |x| > 1 {
      var m := |x| - 1;
      assert x[1..][..m - 1] == x[..m][1..];
      DotFromFrontLast(x[1..], v[1..]);
    }
  }

  /** Over exact reals the accumulation order does not matter. */
  lemma {:induction false} DotOrder(x: seq<real>, v: seq<real>)
    requires |x| <= |v|
    ensures Dot(x, v) == DotFromFront(x, v)
    decreases |x|
  {
    if x != [] {
      DotOrder(x[..|x| - 1], v);
      DotFromFrontLast(x, v);
    }
  }

  /** A neuron's pre-activation: the bias weight plus the weighted inputs. */
  function PreActivation(x: seq<real>, w: seq<real>): real
    requires |w| >= |x| + 1
  {
    w[0] + Dot(x, w[1..])
  }

  /** The pre-activation is the bias plus the textbook sum of inputs times their weights. */
  lemma PreActivationSum(x: seq<real>, w: seq<real>)
    requires |w| >= |x| + 1
    ensures PreActivation(x, w) == w[0] + DotFromFront(x, w[1..])
  {
    DotOrder(x, w[1..]);
  }

  /** The outputs of one layer: the activation of each neuron's pre-activation. */
  function LayerOutput(ns: seq<seq<real>>, x: seq<real>, sigma: real -> real): (y: seq<real>)
    requires forall k :: 0 <= k < |ns| ==> |ns[k]| >= |x| + 1
    ensures |y| == |ns|
  {
    seq(|ns|, k requires 0 <= k < |ns| => sigma(PreActivation(x, ns[k])))
  }

  /**
   * The values entering layer l of the forward pass: x for the first layer,
   * otherwise the outputs of layer l - 1 (l = |w| gives the network's output).
   */
  function Activation(t: seq<nat>, w: Weights, x: seq<real>, sigma: real -> real, l: nat): (y: seq<real>)
    requires Shaped(t, w) && |x| == t[0] && l <= |w|
    ensures |y| == t[l]
  {
    if l == 0 then x else LayerOutput(w[l - 1], Activation(t, w, x, sigma, l - 1), sigma)
  }

  /** The forward pass: the outputs of the last layer. */
  function Forward(t: seq<nat>, w: Weights, x: seq<real>, sigma: real -> real): (y: seq<real>)
    requires Shaped(t, w) && |x| == t[0]
    ensures |y| == t[|t| - 1]
  {
    Activation(t, w, x, sigma, |w|)
  }
}
