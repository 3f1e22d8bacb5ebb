/**
 * The bookkeeping of `train` in train_expert.py: one pass of the `for t`
 * loop per environment step. The environment, the agent and `eval` are
 * abstracted into their results: the trace `steps` of `env.step`
 * outcomes, `reset(k)` for the k-th `env.reset()`, the baseline score
 * and the in-loop evaluation scores. What the loop hands to the agent is
 * returned as the sequence of `learn` calls.
 */
module Training {
  import opened Wrappers
  import opened TrainingSpec

  /** The arguments of one `agent.learn(state, action, next_state, reward, real_done)`. */
  datatype LearnCall = LearnCall(state: Observation, source: ActionSource,
                                 nextState: Observation, reward: real, terminal: real)

  /** One scalar written under "evaluation_averaged_return", and whether it saved the model. */
  datatype EvalRecord = EvalRecord(step: nat, score: real, saved: bool)

  /**
   * What a run is given: the configuration, the normaliser, the
   * environment's answers and the evaluation scores. `|steps|` is
   * `max_timesteps`.
   */
  datatype Run = Run(evalFreq: nat, startTimesteps: Option<int>, maxEpisodeSteps: int,
                     modelExistsAtStart: bool, normalize: Observation -> Observation,
                     reset: nat -> Observation, steps: seq<StepOutcome>,
                     baseline: real, scores: seq<real>)

  /** The variables the loop carries from one step to the next. */
  datatype Progress = Progress(calls: seq<LearnCall>, evals: seq<EvalRecord>,
                               episodeTimesteps: nat, episodeReward: real, episodeNum: nat,
                               best: BestScore, modelFile: Option<Checkpoint>,
                               nextState: Observation, normalized: nat)

  /** Evaluations happen, and there is a score for every evaluation any step reaches. */
  ghost predicate Configured(run: Run)
  {
    && run.evalFreq > 0
    && forall t :: 0 <= t <= |run.steps| ==> EvalsBefore(t, run.evalFreq) <= |run.scores|
  }

  /** The scores of the evaluations that ran before step t. */
  ghost function ScoresBefore(run: Run, t: nat): seq<real>
    requires Configured(run) && t <= |run.steps|
  {
    run.scores[..EvalsBefore(t, run.evalFreq)]
  }

  /** The arguments `learn` must receive at step t. */
  ghost predicate LearnsStep(c: LearnCall, t: nat, run: Run)
    requires t < |run.steps|
  {
    && c.state == run.normalize(ObservedState(run.steps, run.reset, t))
    && c.nextState == run.normalize(run.steps[t].nextObs)
    && c.reward == run.steps[t].reward
    && c.terminal
       == if run.steps[t].done && EpisodeLength(run.steps[..t]) + 1 < run.maxEpisodeSteps then 1.0 else 0.0
  }

  /** At step t the action is sampled iff warm start is configured, t is below it and no model file exists. */
  ghost predicate SamplesAt(source: ActionSource, t: nat, run: Run)
    requires Configured(run) && t < |run.steps|
  {
    source == Sampled
    <==> run.startTimesteps.Some? && t < run.startTimesteps.value
         && ModelFile(run.modelExistsAtStart, ScoresBefore(run, t), run.evalFreq).None?
  }

  /** The first n calls are those the steps 0 .. n-1 prescribe. */
  ghost predicate LearnedSteps(calls: seq<LearnCall>, n: nat, run: Run)
    requires Configured(run) && n <= |calls| && n <= |run.steps|
  {
    forall t :: 0 <= t < n ==> LearnsStep(calls[t], t, run) && SamplesAt(calls[t].source, t, run)
  }

  /** The record of the j-th in-loop evaluation: its step, its score, and whether it saved. */
  ghost function EvalLogged(j: nat, run: Run): EvalRecord
    requires j < |run.scores| && run.evalFreq > 0
  {
    EvalRecord(EvalStep(j, run.evalFreq), run.scores[j], Improves(run.scores, j))
  }

  /** The log holds the baseline, then the first n in-loop evaluations. */
  ghost predicate EvaluatedFirst(evals: seq<EvalRecord>, n: nat, run: Run)
    requires n <= |run.scores| && run.evalFreq > 0
  {
    && |evals| == n + 1
    && evals[0] == EvalRecord(0, run.baseline, false)
    && forall j :: 0 <= j < n ==> evals[j + 1] == EvalLogged(j, run)
  }

  /** The loop invariant: the variables after the steps 0 .. t-1. */
  ghost predicate Reached(run: Run, t: nat, p: Progress)
    requires Configured(run) && t <= |run.steps|
  {
    && |p.calls| == t
    && LearnedSteps(p.calls, t, run)
    && p.episodeTimesteps == EpisodeLength(run.steps[..t])
    && p.episodeReward == EpisodeReward(run.steps[..t])
    && p.episodeNum == Finished(run.steps[..t])
    && p.nextState == run.normalize(ObservedState(run.steps, run.reset, t))
    && p.normalized == 1 + t + Finished(run.steps[..t])
    && EvaluatedFirst(p.evals, EvalsBefore(t, run.evalFreq), run)
    && p.best == Best(ScoresBefore(run, t))
    && p.modelFile == ModelFile(run.modelExistsAtStart, ScoresBefore(run, t), run.evalFreq)
  }

  lemma LearnedOneMore(calls: seq<LearnCall>, c: LearnCall, n: nat, run: Run)
    requires Configured(run) && n == |calls| && n < |run.steps|
    requires LearnedSteps(calls, n, run)
    requires LearnsStep(c, n, run) && SamplesAt(c.source, n, run)
    ensures LearnedSteps(calls + [c], n + 1, run)
  {
    var calls' := calls + [c];
    assert forall t :: 0 <= t < n ==> calls'[t] == calls[t];
  }

  lemma EvaluatedOneMore(evals: seq<EvalRecord>, r: EvalRecord, n: nat, run: Run)
    requires n < |run.scores| && run.evalFreq > 0
    requires EvaluatedFirst(evals, n, run)
    requires r == EvalLogged(n, run)
    ensures EvaluatedFirst(evals + [r], n + 1, run)
  {
    var evals' := evals + [r];
    assert forall j :: 0 <= j <= n ==> evals'[j] == evals[j];
  }

  /**
   * One pass of the loop body at step t: select the action, step the
   * environment, call `learn`, reset on `done`, and every `eval_freq`
   * steps evaluate and save the model when the score beats the best.
   */
  method TrainStep(run: Run, t: nat, p: Progress) returns (q: Progress)
    requires Configured(run) && t < |run.steps|
    requires Reached(run, t, p)
    ensures Reached(run, t + 1, q)
  {
    var steps, evalFreq, normalize := run.steps, run.evalFreq, run.normalize;
    PrefixStep(steps, t);
    ghost var evalsSoFar := EvalsBefore(t, evalFreq);
    assert EvalsBefore(t + 1, evalFreq) == evalsSoFar + (if (t + 1) % evalFreq == 0 then 1 else 0);
    var episodeTimesteps := p.episodeTimesteps + 1;
    // 0. state transition
    var state := p.nextState;
    // 1. select action
    var source := if run.startTimesteps.Some? && t < run.startTimesteps.value && p.modelFile.None?
                  then Sampled else Policy;
    // 2. conduct action
    var outcome := steps[t];
    var nextState := normalize(outcome.nextObs);
    var normalized := p.normalized + 1;
    // 3. update agent
    var realDone := if episodeTimesteps < run.maxEpisodeSteps then outcome.done else false;
    var call := LearnCall(state, source, nextState, outcome.reward, if realDone then 1.0 else 0.0);
    assert LearnsStep(call, t, run);
    assert SamplesAt(call.source, t, run);
    LearnedOneMore(p.calls, call, t, run);
    var calls := p.calls + [call];
    var episodeReward := p.episodeReward + outcome.reward;
    var episodeNum := p.episodeNum;
    // 4. check env
    if outcome.done {
      nextState := normalize(run.reset(episodeNum + 1));
      normalized := normalized + 1;
      episodeReward := 0.0;
      episodeTimesteps := 0;
      episodeNum := episodeNum + 1;
    }
    // 5. periodically evaluate learned policy
    var evals, best, modelFile := p.evals, p.best, p.modelFile;
    if (t + 1) % evalFreq == 0 {
      var j := |evals| - 1;
      assert j == evalsSoFar;
      EvalStepPosition(t, evalFreq);
      ExceedsBestIffImproves(run.scores, j);
      ModelFileStep(run.modelExistsAtStart, run.scores, j, evalFreq);
      assert run.scores[..j + 1][..j] == run.scores[..j];
      var avgReward := run.scores[j];
      var saved := Exceeds(avgReward, best);
      if saved {
        best := Score(avgReward);
        modelFile := Some(SavedAt(t));
      }
      EvaluatedOneMore(evals, EvalRecord(t, avgReward, saved), j, run);
      evals := evals + [EvalRecord(t, avgReward, saved)];
    }
    assert ScoresBefore(run, t + 1)
           == run.scores[..evalsSoFar + (if (t + 1) % evalFreq == 0 then 1 else 0)];
    q := Progress(calls, evals, episodeTimesteps, episodeReward, episodeNum,
                  best, modelFile, nextState, normalized);
  }

  method Train(maxTimesteps: nat, evalFreq: nat, startTimesteps: Option<int>,
               maxEpisodeSteps: int, modelExistsAtStart: bool,
               normalize: Observation -> Observation, reset: nat -> Observation,
               steps: seq<StepOutcome>, baseline: real, scores: seq<real>)
    returns (calls: seq<LearnCall>, evals: seq<EvalRecord>,
             episodeTimesteps: nat, episodeReward: real, episodeNum: nat,
             best: BestScore, normalized: nat, loaded: Option<Checkpoint>)
    requires evalFreq > 0
    requires |steps| == maxTimesteps
    requires |scores| == maxTimesteps / evalFreq
    // one learn call per step, fed the step's outcome
    ensures |calls| == maxTimesteps
    ensures forall t :: 0 <= t < maxTimesteps ==>
              calls[t].state == normalize(ObservedState(steps, reset, t))
              && calls[t].nextState == normalize(steps[t].nextObs)
              && calls[t].reward == steps[t].reward
    // truncation at the episode cap is not termination
    ensures forall t :: 0 <= t < maxTimesteps ==>
              calls[t].terminal
              == if steps[t].done && EpisodeLength(steps[..t]) + 1 < maxEpisodeSteps then 1.0 else 0.0
    // no step comes after more evaluations than were scored
    ensures forall t :: 0 <= t <= maxTimesteps ==> EvalsBefore(t, evalFreq) <= |scores|
    // warm start: sample while configured, below start_timesteps and no model file exists
    ensures forall t :: 0 <= t < maxTimesteps ==>
              (calls[t].source == Sampled
               <==> startTimesteps.Some? && t < startTimesteps.value
                    && ModelFile(modelExistsAtStart, scores[..EvalsBefore(t, evalFreq)], evalFreq).None?)
    // the baseline is only logged; every in-loop evaluation is compared with the best so far
    ensures |evals| == 1 + |scores|
    ensures evals[0] == EvalRecord(0, baseline, false)
    ensures forall j :: 0 <= j < |scores| ==>
              evals[j + 1] == EvalRecord(EvalStep(j, evalFreq), scores[j], Improves(scores, j))
    ensures episodeTimesteps == EpisodeLength(steps)
    ensures episodeReward == EpisodeReward(steps)
    ensures episodeNum == Finished(steps)
    ensures best == Best(scores)
    // every raw observation is normalised exactly once
    ensures normalized == 1 + maxTimesteps + Finished(steps)
    // the final load_model reads the last checkpoint; None: no file, load_model raises
    ensures loaded == ModelFile(modelExistsAtStart, scores, evalFreq)
  {
    EvalsBeforeIsQuotient(maxTimesteps, evalFreq);
    forall t | 0 <= t <= maxTimesteps
      ensures EvalsBefore(t, evalFreq) <= |scores|
    {
      EvalsBeforeMonotone(t, maxTimesteps, evalFreq);
    }
    var run := Run(evalFreq, startTimesteps, maxEpisodeSteps, modelExistsAtStart,
                   normalize, reset, steps, baseline, scores);
    var p := Progress([], [EvalRecord(0, baseline, false)], 0, 0.0, 0, NegInf,
                      if modelExistsAtStart then Some(Preexisting) else None,
                      normalize(reset(0)), 1);
    assert steps[..0] == [];
    for t := 0 to maxTimesteps
      invariant Reached(run, t, p)
    {
      p := TrainStep(run, t, p);
    }
    assert steps[..maxTimesteps] == steps;
    assert ScoresBefore(run, maxTimesteps) == scores;
    forall j | 0 <= j < |scores|
      ensures p.evals[j + 1] == EvalRecord(EvalStep(j, evalFreq), scores[j], Improves(scores, j))
    {
      assert p.evals[j + 1] == EvalLogged(j, run);
    }
    calls, evals := p.calls, p.evals;
    episodeTimesteps, episodeReward, episodeNum := p.episodeTimesteps, p.episodeReward, p.episodeNum;
    best, normalized := p.best, p.normalized;
    loaded := p.modelFile;
  }
}
