/**
 * What the training loop of train_expert.py (`train`) is meant to keep
 * track of, stated over prefixes of the environment trace and of the
 * sequence of evaluation scores. The loop in module Training is proved
 * against these definitions; the lemmas here say what they mean.
 */
module TrainingSpec {
  import opened Wrappers
  import opened Returns

  type Observation = seq<real>

  /** What `env.step(action)` returned at one training step. */
  datatype StepOutcome = StepOutcome(nextObs: Observation, reward: real, done: bool)

  /** Where the action of a step came from: `env.action_space.sample()` or the agent. */
  datatype ActionSource = Sampled | Policy

  /** `best_avg_reward`: minus infinity before the first in-loop evaluation. */
  datatype BestScore = NegInf | Score(value: real)

  /** The content of the model file: loaded at start, or saved at a training step. */
  datatype Checkpoint = Preexisting | SavedAt(step: nat)

  /** `avg_reward > best_avg_reward`, with every real above minus infinity. */
  predicate Exceeds(x: real, best: BestScore)
  {
    best.NegInf? || x > best.value
  }

  function Last(steps: seq<StepOutcome>): StepOutcome
    requires |steps| > 0
  {
    steps[|steps| - 1]
  }

  function Init(steps: seq<StepOutcome>): seq<StepOutcome>
    requires |steps| > 0
  {
    steps[..|steps| - 1]
  }

  // ---------------------------------------------------------------------
  // Episode bookkeeping

  /** `episode_num`: how many steps so far reported `done`. */
  function Finished(steps: seq<StepOutcome>): nat
  {
    if |steps| == 0 then 0 else Finished(Init(steps)) + (if Last(steps).done then 1 else 0)
  }

  /** `episode_timesteps`: steps taken since the last `done`. */
  function EpisodeLength(steps: seq<StepOutcome>): nat
  {
    if |steps| == 0 then 0
    else if Last(steps).done then 0
    else EpisodeLength(Init(steps)) + 1
  }

  /** `episode_reward`: reward accumulated since the last `done`. */
  function EpisodeReward(steps: seq<StepOutcome>): real
  {
    if |steps| == 0 then 0.0
    else if Last(steps).done then 0.0
    else EpisodeReward(Init(steps)) + Last(steps).reward
  }

  function Rewards(steps: seq<StepOutcome>): (r: seq<real>)
    ensures |r| == |steps| && forall i :: 0 <= i < |steps| ==> r[i] == steps[i].reward
  {
    seq(|steps|, i requires 0 <= i < |steps| => steps[i].reward)
  }

  /**
   * If the episode in progress began at index k (k is 0 or follows a
   * `done`, and nothing from k on is `done`), then `episode_timesteps`
   * counts exactly the steps from k on and `episode_reward` is the sum of
   * their rewards.
   */
  lemma {:induction false} EpisodeSince(steps: seq<StepOutcome>, k: nat)
    requires k <= |steps|
    requires k == 0 || steps[k - 1].done
    requires forall i :: k <= i < |steps| ==> !steps[i].done
    ensures EpisodeLength(steps) == |steps| - k
    ensures EpisodeReward(steps) == Sum(Rewards(steps[k..]))
  {
    if |steps| > k {
      var init := Init(steps);
      EpisodeSince(init, k);
      assert Rewards(steps[k..])[..|steps| - k - 1] == Rewards(init[k..]);
    } else if k > 0 {
      assert Last(steps).done;
    }
  }

  /** Each `done` ends exactly one episode; episodes are only counted on `done`. */
  lemma {:induction false} FinishedAppend(a: seq<StepOutcome>, b: seq<StepOutcome>)
    ensures Finished(a + b) == Finished(a) + Finished(b)
  {
    if |b| == 0 {
      assert a + b == a;
    } else {
      assert Init(a + b) == a + Init(b);
      FinishedAppend(a, Init(b));
    }
  }

  lemma {:induction false} FinishedAtMost(steps: seq<StepOutcome>)
    ensures Finished(steps) <= |steps|
  {
    if |steps| > 0 {
      FinishedAtMost(Init(steps));
    }
  }

  /** The counters after one more step, read off the prefix before it. */
  lemma PrefixStep(steps: seq<StepOutcome>, t: nat)
    requires t < |steps|
    ensures Finished(steps[..t + 1]) == Finished(steps[..t]) + (if steps[t].done then 1 else 0)
    ensures EpisodeLength(steps[..t + 1])
            == if steps[t].done then 0 else EpisodeLength(steps[..t]) + 1
    ensures EpisodeReward(steps[..t + 1])
            == if steps[t].done then 0.0 else EpisodeReward(steps[..t]) + steps[t].reward
  {
    assert Init(steps[..t + 1]) == steps[..t];
  }

  /**
   * The raw observation the agent sees at step t: the reset observation
   * at the start and right after a `done`, the previous step's observation
   * otherwise. `reset(k)` is what the k-th call of `env.reset()` returns.
   */
  function ObservedState(steps: seq<StepOutcome>, reset: nat -> Observation, t: nat): Observation
    requires t <= |steps|
  {
    if t == 0 || steps[t - 1].done then reset(Finished(steps[..t])) else steps[t - 1].nextObs
  }

  // ---------------------------------------------------------------------
  // Evaluation cadence

  /** An evaluation follows step t when `(t + 1) % eval_freq == 0`. */
  predicate IsEvalStep(t: nat, evalFreq: nat)
    requires evalFreq > 0
  {
    (t + 1) % evalFreq == 0
  }

  /** How many in-loop evaluations the steps 0 .. t-1 trigger. */
  function EvalsBefore(t: nat, evalFreq: nat): nat
    requires evalFreq > 0
  {
    if t == 0 then 0
    else EvalsBefore(t - 1, evalFreq) + (if IsEvalStep(t - 1, evalFreq) then 1 else 0)
  }

  lemma {:induction false} MulAtLeast(a: int, f: int)
    requires a >= 1 && f >= 0
    ensures a * f >= f
  {
    if a > 1 {
      MulAtLeast(a - 1, f);
      assert a * f == (a - 1) * f + f;
    }
  }

  lemma DivModUnique(n: int, f: int, q: int, r: int)
    requires f > 0 && 0 <= r < f && n == q * f + r
    ensures n / f == q && n % f == r
  {
    var q', r' := n / f, n % f;
    assert n == q' * f + r';
    assert (q - q') * f == r' - r by {
      assert (q - q') * f == q * f - q' * f;
    }
    if q > q' {
      MulAtLeast(q - q', f);
    } else if q < q' {
      MulAtLeast(q' - q, f);
    }
  }

  /** The step after which the j-th in-loop evaluation (from 0) runs. */
  function EvalStep(j: nat, evalFreq: nat): nat
    requires evalFreq > 0
  {
    MulAtLeast(j + 1, evalFreq);
    (j + 1) * evalFreq - 1
  }

  lemma DivSucc(n: nat, f: nat)
    requires f > 0
    ensures (n + 1) / f == n / f + (if (n + 1) % f == 0 then 1 else 0)
  {
    var q, r := n / f, n % f;
    if r + 1 < f {
      DivModUnique(n + 1, f, q, r + 1);
    } else {
      DivModUnique(n + 1, f, q + 1, 0);
    }
  }

  /** A run of t steps evaluates `t / eval_freq` times (integer division). */
  lemma {:induction false} EvalsBeforeIsQuotient(t: nat, evalFreq: nat)
    requires evalFreq > 0
    ensures EvalsBefore(t, evalFreq) == t / evalFreq
  {
    if t > 0 {
      var n := t - 1;
      EvalsBeforeIsQuotient(n, evalFreq);
      DivSucc(n, evalFreq);
      assert EvalsBefore(n + 1, evalFreq)
             == EvalsBefore(n, evalFreq) + (if IsEvalStep(n, evalFreq) then 1 else 0);
    }
  }

  /** The j-th in-loop evaluation (from 0) follows step (j + 1) * eval_freq - 1. */
  lemma EvalStepPosition(t: nat, evalFreq: nat)
    requires evalFreq > 0 && IsEvalStep(t, evalFreq)
    ensures t == EvalStep(EvalsBefore(t, evalFreq), evalFreq)
  {
    var e := EvalsBefore(t, evalFreq);
    EvalsBeforeIsQuotient(t, evalFreq);
    DivSucc(t, evalFreq);
    ExactMultiple(t + 1, evalFreq);
    assert (t + 1) / evalFreq == e + 1;
  }

  lemma ExactMultiple(n: nat, f: nat)
    requires f > 0 && n % f == 0
    ensures n == (n / f) * f
  {
  }

  lemma {:induction false} EvalsBeforeMonotone(t: nat, u: nat, evalFreq: nat)
    requires evalFreq > 0 && t <= u
    ensures EvalsBefore(t, evalFreq) <= EvalsBefore(u, evalFreq)
  {
    if t < u {
      EvalsBeforeMonotone(t, u - 1, evalFreq);
    }
  }

  // ---------------------------------------------------------------------
  // Best score and checkpoint

  /** Evaluation j beats every earlier in-loop evaluation strictly. */
  predicate Improves(scores: seq<real>, j: nat)
    requires j < |scores|
  {
    forall i :: 0 <= i < j ==> scores[i] < scores[j]
  }

  /** `best_avg_reward` after the in-loop evaluations `scores`. */
  function Best(scores: seq<real>): BestScore
  {
    if |scores| == 0 then NegInf
    else
      var before := Best(scores[..|scores| - 1]);
      if Exceeds(scores[|scores| - 1], before) then Score(scores[|scores| - 1]) else before
  }

  /** The running best is the maximum of the scores: an upper bound that is one of them. */
  lemma {:induction false} BestIsMaximum(scores: seq<real>)
    ensures |scores| == 0 <==> Best(scores).NegInf?
    ensures Best(scores).Score? ==> Best(scores).value in scores
    ensures Best(scores).Score? ==> forall i :: 0 <= i < |scores| ==> scores[i] <= Best(scores).value
  {
    if |scores| > 0 {
      var init := scores[..|scores| - 1];
      BestIsMaximum(init);
      assert forall i :: 0 <= i < |init| ==> init[i] == scores[i];
      assert scores == init + [scores[|scores| - 1]];
    }
  }

  /**
   * The source's test `avg_reward > best_avg_reward` against the running
   * best holds exactly when the score beats every earlier one strictly: a
   * tie does not save.
   */
  lemma ExceedsBestIffImproves(scores: seq<real>, j: nat)
    requires j < |scores|
    ensures Exceeds(scores[j], Best(scores[..j])) <==> Improves(scores, j)
  {
    var before := scores[..j];
    BestIsMaximum(before);
    if Best(before).Score? {
      var k :| 0 <= k < j && before[k] == Best(before).value;
    }
  }

  /** `best_avg_reward` never decreases. */
  lemma BestNeverDecreases(scores: seq<real>, j: nat)
    requires j < |scores|
    ensures Best(scores[..j]).Score? ==>
              Best(scores[..j + 1]).Score? && Best(scores[..j]).value <= Best(scores[..j + 1]).value
  {
    assert scores[..j + 1][..j] == scores[..j];
  }

  /** The index of the last in-loop evaluation that saved the model, if any. */
  function LastImprovement(scores: seq<real>): Option<nat>
  {
    if |scores| == 0 then None
    else if Improves(scores, |scores| - 1) then Some(|scores| - 1)
    else LastImprovement(scores[..|scores| - 1])
  }

  /** What the model file holds after the evaluations `scores`. */
  function ModelFile(existsAtStart: bool, scores: seq<real>, evalFreq: nat): Option<Checkpoint>
    requires evalFreq > 0
  {
    match LastImprovement(scores)
    case Some(j) => Some(SavedAt(EvalStep(j, evalFreq)))
    case None => if existsAtStart then Some(Preexisting) else None
  }

  /** The model file after one more in-loop evaluation: replaced iff that evaluation improves. */
  lemma ModelFileStep(existsAtStart: bool, scores: seq<real>, j: nat, evalFreq: nat)
    requires evalFreq > 0 && j < |scores|
    ensures ModelFile(existsAtStart, scores[..j + 1], evalFreq)
            == if Improves(scores, j) then Some(SavedAt(EvalStep(j, evalFreq)))
               else ModelFile(existsAtStart, scores[..j], evalFreq)
  {
    var s := scores[..j + 1];
    assert s[..j] == scores[..j];
    assert Improves(s, j) <==> Improves(scores, j) by {
      assert forall i :: 0 <= i <= j ==> s[i] == scores[i];
    }
  }

  /**
   * The checkpoint kept is the first evaluation that reached the maximum
   * score: it beats everything before it and nothing after it beats it.
   */
  lemma {:induction false} LastImprovementIsBest(scores: seq<real>)
    ensures |scores| > 0 <==> LastImprovement(scores).Some?
    ensures LastImprovement(scores).Some? ==>
              var j := LastImprovement(scores).value;
              j < |scores| && Improves(scores, j) && Best(scores) == Score(scores[j])
              && forall i :: j < i < |scores| ==> scores[i] <= scores[j]
  {
    if |scores| > 0 {
      var n := |scores| - 1;
      var init := scores[..n];
      LastImprovementIsBest(init);
      BestIsMaximum(scores);
      assert forall i :: 0 <= i < n ==> init[i] == scores[i];
      if Improves(scores, n) {
        ExceedsBestIffImproves(scores, n);
      } else {
        ExceedsBestIffImproves(scores, n);
        var j := LastImprovement(init).value;
        assert Improves(init, j);
        assert forall i :: 0 <= i < j ==> init[i] < init[j];
      }
    }
  }

  /**
   * The first in-loop evaluation always saves (best starts at minus
   * infinity), so it overwrites a checkpoint that existed before the run.
   */
  lemma PreexistingOverwritten(existsAtStart: bool, scores: seq<real>, evalFreq: nat)
    requires evalFreq > 0 && |scores| > 0
    ensures ModelFile(existsAtStart, scores, evalFreq).Some?
    ensures ModelFile(existsAtStart, scores, evalFreq) != Some(Preexisting)
  {
    LastImprovementIsBest(scores);
  }

  /**
   * Warm start: at step t the action is sampled iff `start_timesteps` is
   * configured, t is below it and no model file exists. Because the first
   * evaluation always saves, the file exists from step `eval_freq` on, so
   * the sampled window is t < min(start_timesteps, eval_freq), and it is
   * empty when a checkpoint existed before the run.
   */
  lemma WarmStartWindow(existsAtStart: bool, scores: seq<real>, evalFreq: nat, t: nat)
    requires evalFreq > 0 && EvalsBefore(t, evalFreq) <= |scores|
    ensures ModelFile(existsAtStart, scores[..EvalsBefore(t, evalFreq)], evalFreq).None?
            <==> !existsAtStart && t < evalFreq
  {
    var n := EvalsBefore(t, evalFreq);
    EvalsBeforeIsQuotient(t, evalFreq);
    if t < evalFreq {
      DivModUnique(t, evalFreq, 0, t);
      assert n == 0;
    } else {
      var q, r := (t - evalFreq) / evalFreq, (t - evalFreq) % evalFreq;
      DivModUnique(t, evalFreq, q + 1, r);
      assert n >= 1;
    }
    LastImprovementIsBest(scores[..n]);
  }

  /** `load_model` at the end fails exactly when no file exists: no checkpoint before, no evaluation. */
  lemma FinalLoadFails(existsAtStart: bool, maxTimesteps: nat, evalFreq: nat, scores: seq<real>)
    requires evalFreq > 0 && |scores| == maxTimesteps / evalFreq
    ensures ModelFile(existsAtStart, scores, evalFreq).None? <==> !existsAtStart && maxTimesteps < evalFreq
  {
    LastImprovementIsBest(scores);
    if maxTimesteps >= evalFreq {
      DivModUnique(maxTimesteps, evalFreq, maxTimesteps / evalFreq, maxTimesteps % evalFreq);
    }
  }

  /** Scores 5, 3, 8, 8, 10: evaluations 0, 2 and 4 save; the drop and the tie do not. */
  lemma CheckpointExample()
    ensures var s := [5.0, 3.0, 8.0, 8.0, 10.0];
            Improves(s, 0) && !Improves(s, 1) && Improves(s, 2) && !Improves(s, 3) && Improves(s, 4)
  {
    var s := [5.0, 3.0, 8.0, 8.0, 10.0];
    assert s[0] > s[1];
    assert s[2] == s[3];
  }
}
