/**
 * The Gaussian policy head `StochasticActor` of network/actor.py: a shared
 * feature extractor, a linear mean head and a log-std that is either one
 * learned vector (state-independent) or a second linear head on the
 * features (state-dependent); the log-std is clamped to
 * [LOG_STD_MIN, LOG_STD_MAX] before it is exponentiated.
 *
 * The MLP feature extractor and `exp` are left uninterpreted: they are
 * function-valued inputs. Linear layers are modelled exactly over reals.
 */
module Actor {

  const LOG_STD_MIN: real := -20.0
  const LOG_STD_MAX: real := 2.0

  function Abs(x: real): real
  {
    if x < 0.0 then -x else x
  }

  /** `torch.clamp(x, LOG_STD_MIN, LOG_STD_MAX)` on one component. */
  function Clamp(x: real): (r: real)
    ensures LOG_STD_MIN <= r <= LOG_STD_MAX
    ensures LOG_STD_MIN <= x <= LOG_STD_MAX ==> r == x
    ensures x < LOG_STD_MIN ==> r == LOG_STD_MIN
    ensures LOG_STD_MAX < x ==> r == LOG_STD_MAX
  {
    if x < LOG_STD_MIN then LOG_STD_MIN
    else if x > LOG_STD_MAX then LOG_STD_MAX
    else x
  }

  /** The clamp is the projection onto the interval: no point of it is closer to x. */
  lemma ClampIsNearest(x: real, y: real)
    requires LOG_STD_MIN <= y <= LOG_STD_MAX
    ensures Abs(Clamp(x) - x) <= Abs(y - x)
  {
  }

  /** The clamp preserves order. */
  lemma ClampMonotone(x: real, y: real)
    requires x <= y
    ensures Clamp(x) <= Clamp(y)
  {
  }

  /** The clamp applied to every component of a log-std vector. */
  function ClampAll(v: seq<real>): (r: seq<real>)
    ensures |r| == |v|
    ensures forall i :: 0 <= i < |r| ==> r[i] == Clamp(v[i])
    ensures forall i :: 0 <= i < |r| ==> LOG_STD_MIN <= r[i] <= LOG_STD_MAX
    ensures (forall i :: 0 <= i < |v| ==> LOG_STD_MIN <= v[i] <= LOG_STD_MAX) ==> r == v
  {
    seq(|v|, i requires 0 <= i < |v| => Clamp(v[i]))
  }

  /** Clamping twice equals clamping once. */
  lemma ClampAllIdempotent(v: seq<real>)
    ensures ClampAll(ClampAll(v)) == ClampAll(v)
  {
  }

  /** A linear layer `y = W x + b`; row i of W produces output i. */
  datatype Linear = Linear(weight: seq<seq<real>>, bias: seq<real>)

  /** The layer maps inDim inputs to outDim outputs (nn.Linear(inDim, outDim)). */
  ghost predicate Shaped(l: Linear, inDim: nat, outDim: nat)
  {
    |l.weight| == outDim && |l.bias| == outDim
    && forall i :: 0 <= i < outDim ==> |l.weight[i]| == inDim
  }

  function Dot(w: seq<real>, x: seq<real>): real
    requires |w| == |x|
  {
    if |w| == 0 then 0.0 else w[0] * x[0] + Dot(w[1..], x[1..])
  }

  function Apply(l: Linear, x: seq<real>): (y: seq<real>)
    requires Shaped(l, |x|, |l.bias|)
    ensures |y| == |l.bias|
    ensures forall i :: 0 <= i < |y| ==> y[i] == Dot(l.weight[i], x) + l.bias[i]
  {
    seq(|l.bias|, i requires 0 <= i < |l.bias| => Dot(l.weight[i], x) + l.bias[i])
  }

  /** `tensor.mul_(c)` on a vector. */
  function Scale(c: real, v: seq<real>): (r: seq<real>)
    ensures |r| == |v|
    ensures forall i :: 0 <= i < |v| ==> r[i] == c * v[i]
  {
    seq(|v|, i requires 0 <= i < |v| => c * v[i])
  }

  /** `tensor.mul_(c)` on a matrix. */
  function ScaleRows(c: real, w: seq<seq<real>>): (r: seq<seq<real>>)
    ensures |r| == |w|
    ensures forall i :: 0 <= i < |w| ==> r[i] == Scale(c, w[i])
  {
    seq(|w|, i requires 0 <= i < |w| => Scale(c, w[i]))
  }

  function Zeros(n: nat): (r: seq<real>)
    ensures |r| == n && forall i :: 0 <= i < n ==> r[i] == 0.0
  {
    seq(n, _ => 0.0)
  }

  /** Scaling the weights scales the pre-activation by the same factor. */
  lemma {:induction false} DotScale(c: real, w: seq<real>, x: seq<real>)
    requires |w| == |x|
    ensures Dot(Scale(c, w), x) == c * Dot(w, x)
  {
    if |w| > 0 {
      assert forall i :: 0 <= i < |w| - 1 ==> Scale(c, w)[1..][i] == Scale(c, w[1..])[i];
      assert Scale(c, w)[1..] == Scale(c, w[1..]);
      DotScale(c, w[1..], x[1..]);
    }
  }

  /**
   * The mean head right after construction: with the weights multiplied by
   * 0.1 and the bias by 0, every output is one tenth of what the freshly
   * initialised weights alone produce.
   */
  lemma InitialMeanIsScaled(init: Linear, x: seq<real>)
    requires Shaped(init, |x|, |init.bias|)
    ensures Shaped(Linear(ScaleRows(0.1, init.weight), Scale(0.0, init.bias)), |x|, |init.bias|)
    ensures forall i :: 0 <= i < |init.bias| ==>
              Apply(Linear(ScaleRows(0.1, init.weight), Scale(0.0, init.bias)), x)[i]
              == 0.1 * Dot(init.weight[i], x)
  {
    forall i | 0 <= i < |init.bias|
      ensures Dot(ScaleRows(0.1, init.weight)[i], x) == 0.1 * Dot(init.weight[i], x)
    {
      DotScale(0.1, init.weight[i], x);
    }
  }

  /**
   * Input width of the heads: the width of the extractor's last layer when
   * there are hidden layers, the state width otherwise.
   */
  function HeadInputDim(stateDim: nat, hiddenSize: seq<nat>): (d: nat)
    ensures d == ([stateDim] + hiddenSize)[|hiddenSize|]
  {
    if |hiddenSize| > 0 then hiddenSize[|hiddenSize| - 1] else stateDim
  }

  /** Where `self.log_std` lives: a learned vector or a linear head. */
  datatype LogStdHead = Shared(param: seq<real>) | PerState(head: Linear)

  /** What `forward` returns: the Gaussian's mean and standard deviation. */
  datatype PolicyOutput = PolicyOutput(mean: seq<real>, std: seq<real>)

  class StochasticActor {
    const stateDim: nat
    const actionDim: nat
    const inputDim: nat
    const stateStdIndependent: bool
    const featureExtractor: seq<real> -> seq<real>
    var mu: Linear
    var logStd: LogStdHead

    ghost predicate Valid()
      reads this
    {
      && Shaped(mu, inputDim, actionDim)
      && (stateStdIndependent <==> logStd.Shared?)
      && (logStd.Shared? ==> |logStd.param| == actionDim)
      && (logStd.PerState? ==> Shaped(logStd.head, inputDim, actionDim))
      && forall s :: |s| == stateDim ==> |featureExtractor(s)| == inputDim
    }

    /**
     * `__init__`. The freshly initialised layers `muInit` and `logStdInit`
     * (random in the source) are inputs; `logStdInit` is only used in the
     * state-dependent mode.
     */
    constructor (stateDim: nat, hiddenSize: seq<nat>, actionDim: nat,
                 featureExtractor: seq<real> -> seq<real>, stateStdIndependent: bool,
                 muInit: Linear, logStdInit: Linear)
      requires forall s :: |s| == stateDim ==>
                 |featureExtractor(s)| == HeadInputDim(stateDim, hiddenSize)
      requires Shaped(muInit, HeadInputDim(stateDim, hiddenSize), actionDim)
      requires !stateStdIndependent ==> Shaped(logStdInit, HeadInputDim(stateDim, hiddenSize), actionDim)
      ensures Valid()
      ensures this.stateDim == stateDim && this.actionDim == actionDim
      ensures this.inputDim == HeadInputDim(stateDim, hiddenSize)
      ensures this.stateStdIndependent == stateStdIndependent
      ensures this.featureExtractor == featureExtractor
      ensures mu.weight == ScaleRows(0.1, muInit.weight)
      ensures mu.bias == Zeros(actionDim)
      ensures stateStdIndependent ==> logStd == Shared(Zeros(actionDim))
      ensures !stateStdIndependent ==> logStd == PerState(logStdInit)
    {
      this.stateDim := stateDim;
      this.actionDim := actionDim;
      this.stateStdIndependent := stateStdIndependent;
      this.featureExtractor := featureExtractor;
      inputDim := HeadInputDim(stateDim, hiddenSize);
      mu := muInit;
      if stateStdIndependent {
        logStd := Shared(Zeros(actionDim));
      } else {
        logStd := PerState(logStdInit);
      }
      new;
      mu := mu.(weight := ScaleRows(0.1, mu.weight));
      mu := mu.(bias := Scale(0.0, mu.bias));
    }

    /** The clamped log-std `forward` computes before exponentiating it. */
    function LogStd(state: seq<real>): (r: seq<real>)
      reads this
      requires Valid() && |state| == stateDim
      ensures |r| == actionDim
      ensures forall i :: 0 <= i < |r| ==> LOG_STD_MIN <= r[i] <= LOG_STD_MAX
    {
      ClampAll(if stateStdIndependent then logStd.param
               else Apply(logStd.head, featureExtractor(state)))
    }

    /**
     * `forward`: mean from the features, std = exp of the clamped log-std;
     * with a monotone exp every std lies in [exp(LOG_STD_MIN), exp(LOG_STD_MAX)].
     */
    function Forward(state: seq<real>, exp: real -> real): (out: PolicyOutput)
      reads this
      requires Valid() && |state| == stateDim
      ensures |out.mean| == actionDim && |out.std| == actionDim
      ensures out.mean == Apply(mu, featureExtractor(state))
      ensures forall i :: 0 <= i < actionDim ==> out.std[i] == exp(LogStd(state)[i])
      ensures (forall a, b :: a <= b ==> exp(a) <= exp(b)) ==>
                forall i :: 0 <= i < actionDim ==> exp(LOG_STD_MIN) <= out.std[i] <= exp(LOG_STD_MAX)
    {
      var feature := featureExtractor(state);
      var logStdValue := LogStd(state);
      PolicyOutput(Apply(mu, feature), seq(actionDim, i requires 0 <= i < actionDim => exp(logStdValue[i])))
    }

    /** With a monotone exp, every std lies in [exp(LOG_STD_MIN), exp(LOG_STD_MAX)]. */
    lemma StdBounds(state: seq<real>, exp: real -> real)
      requires Valid() && |state| == stateDim
      requires forall a, b :: a <= b ==> exp(a) <= exp(b)
      ensures forall i :: 0 <= i < actionDim ==>
                exp(LOG_STD_MIN) <= Forward(state, exp).std[i] <= exp(LOG_STD_MAX)
    {
    }

    /** State-independent mode: the std is the same for every state. */
    lemma SharedStdIgnoresState(s1: seq<real>, s2: seq<real>, exp: real -> real)
      requires Valid() && stateStdIndependent
      requires |s1| == stateDim && |s2| == stateDim
      ensures LogStd(s1) == ClampAll(logStd.param)
      ensures Forward(s1, exp).std == Forward(s2, exp).std
    {
    }

    /** State-dependent mode: the log-std is the clamped second head of the features only. */
    lemma PerStateStdFollowsFeature(s1: seq<real>, s2: seq<real>, exp: real -> real)
      requires Valid() && !stateStdIndependent
      requires |s1| == stateDim && |s2| == stateDim
      requires featureExtractor(s1) == featureExtractor(s2)
      ensures LogStd(s1) == ClampAll(Apply(logStd.head, featureExtractor(s1)))
      ensures Forward(s1, exp) == Forward(s2, exp)
    {
    }
  }
}
