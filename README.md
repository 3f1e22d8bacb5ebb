# ILAlgo expert training: a Dafny model

This project models two pieces of logic from ILAlgo's expert-training script and its actor network:

- **Training-loop bookkeeping of `train`** (`train_expert.py`). The model covers:
  - the per-episode counters `episode_timesteps`, `episode_reward` and `episode_num`;
  - the warm-start rule that picks a sampled or a policy action;
  - the truncation-aware `real_done` flag handed to `agent.learn`;
  - the reset on `done`;
  - the `(t + 1) % eval_freq` evaluation cadence;
  - the running `best_avg_reward`, and the model file that `save_model` overwrites on strict improvement and the final `load_model` reads.
- **`eval`'s averaging**: every step reward of every evaluation episode is accumulated, then divided by the episode count.
- **The expert-dataset file name**: `env_name.lower().split("-")` unpacked into a name and a version, turned into `<name>_expert-<version>.hdf5`, and placed under `data/expert_data`.
- **`StochasticActor`** (`network/actor.py`). The model covers:
  - the sizing of the heads' input;
  - the choice between a state-independent log-std vector and a state-dependent linear head;
  - the in-place `mul_` initialisation of the mean head;
  - `forward`, which clamps the log-std to [-20, 2] before exponentiating it.

Files:

- `Wrappers.dfy`: `Option`. `None` stands for a Python exception: `ZeroDivisionError` in `eval`, `ValueError` when unpacking the split id, or a missing model file at the final `load_model`.
- `Returns.dfy`: the sum of a list of rewards.
- `Evaluation.dfy`: `Evaluate`, a method with the two nested loops of `eval`, proved against `Sum`/`Flatten`, with bounds on the average.
- `DatasetName.dfy`: ASCII lower-casing, `split`/`join`, and the file-name and path derivation. Split and join are proved to be inverses.
- `TrainingSpec.dfy`: what the loop keeps track of, as functions over prefixes of the environment trace and of the evaluation scores. It contains:
  - the episode counters, the number of evaluations before a step, and the running best;
  - `ModelFile`, the content of the model file;
  - lemmas about their meaning.
- `Training.dfy`:
  - `Train`, the `for t` loop, with the loop state in a `Progress` record;
  - `TrainStep`, one pass of the loop body, proved to carry the loop invariant `Reached` from step t to step t + 1.

  `Train`'s postcondition states what every `learn` call receives, what is logged at every evaluation, and the final counters, best score and loaded checkpoint.
- `Actor.dfy`: the `StochasticActor` class. Its constructor performs the `mul_` updates in place. `LogStd` and `Forward` are functions reading the object.

Two consequences of the loop are proved:

- **Warm start is cut short by the first evaluation.** `best_avg_reward` starts at minus infinity, so the first in-loop evaluation always saves. From step `eval_freq` on the model file exists, so actions are sampled only for t < min(`start_timesteps`, `eval_freq`). None are sampled if a checkpoint existed before the run (`WarmStartWindow`).
- **A pre-existing checkpoint is always replaced** by the first in-loop evaluation, however good it was (`PreexistingOverwritten`).

## Model

| member | source | states |
|---|---|---|
| Returns.SumAppend | train_expert.py:29 | Accumulating rewards over a concatenation is accumulating each part and adding. |
| Evaluation.Evaluate | train_expert.py:23-31 | The result is an error exactly when there are no episodes (division by zero); otherwise it is the sum of every step reward of every episode divided by the episode count. |
| Evaluation.TotalReturnIsSumOfSteps | train_expert.py:24-29 | Adding up episode returns episode by episode equals summing all step rewards in the order received. |
| Evaluation.TotalReturnBounds | train_expert.py:24-29 | If every episode return lies in [lo, hi], the accumulated total lies between n copies of lo and n copies of hi. |
| Evaluation.AverageWithinEpisodeReturns | train_expert.py:31 | The reported average lies between the smallest and the largest episode return bounds. |
| DatasetName.Lower | train_expert.py:150 | Lower-casing keeps the length, lowers each ASCII capital, keeps every '-' where it was and leaves no capital. |
| DatasetName.LowerIdempotent | train_expert.py:150 | Lower-casing twice equals lower-casing once. |
| DatasetName.Split | train_expert.py:150 | `split` yields at least one part, no part contains the separator, and joining the parts with it gives the input back. |
| DatasetName.SplitJoin | train_expert.py:150 | Splitting undoes joining for separator-free parts. |
| DatasetName.SplitCount | train_expert.py:150 | A string with n separators splits into n + 1 parts. |
| DatasetName.LowerCount | train_expert.py:150 | Lower-casing keeps the number of '-' characters. |
| DatasetName.ExpertFileName | train_expert.py:150-151 | A file name exists exactly when the id contains exactly one '-'; otherwise the two-name unpacking fails. |
| DatasetName.ExpertFileNameAt | train_expert.py:150-151 | For an id whose only '-' is at k, the file name is the lower-cased text before k, "_expert-", the lower-cased text after k, ".hdf5". |
| DatasetName.FileNameParts | train_expert.py:151 | Name and version can be read back from a file name built from a '-'-free name. |
| DatasetName.ExpertFileNameInjective | train_expert.py:150-151 | Two ids with the same dataset file name are equal up to letter case. |
| DatasetName.JoinPath | train_expert.py:151 | Joining with an absolute name yields the name itself, as `os.path.join` does. |
| DatasetName.ExpertDataPath | train_expert.py:148-151 | A path exists exactly when the id has one '-'; for a relative file name it is "data/expert_data/" followed by the file name. |
| Actor.Clamp | network/actor.py:79 | The clamp to [LOG_STD_MIN, LOG_STD_MAX] = [-20, 2] lands in range, leaves in-range values unchanged, maps values below to -20 and values above to 2. |
| Actor.ClampIsNearest | network/actor.py:79 | The clamped value is the point of the interval nearest to the input. |
| Actor.ClampMonotone | network/actor.py:79 | The clamp preserves order. |
| Actor.ClampAll | network/actor.py:79 | Clamping a vector keeps its length, clamps each component, puts every component in [-20, 2] and leaves an in-range vector unchanged. |
| Actor.ClampAllIdempotent | network/actor.py:79 | Clamping twice equals clamping once. |
| Actor.DotScale | network/actor.py:72 | Multiplying a weight row by c multiplies its dot product with any input by c. |
| Actor.InitialMeanIsScaled | network/actor.py:72-73 | After initialisation the mean head still has the right shape, and every output is 0.1 times what the initial weights alone give (the bias is zeroed). |
| Actor.HeadInputDim | network/actor.py:58-61 | The heads' input width is the last hidden width when there are hidden layers, the state width otherwise. |
| Actor.StochasticActor.constructor | network/actor.py:54-73 | After construction the mean head's weights are 0.1 times the initial weights and its bias is all zeros. The log-std is a zero vector in state-independent mode and the second linear head otherwise. Every head is shaped for the head input width. |
| Actor.StochasticActor.LogStd | network/actor.py:76-79 | The log-std `forward` exponentiates has one component per action, each in [-20, 2]. |
| Actor.StochasticActor.Forward | network/actor.py:75-80 | The mean is the mean head applied to the extracted features; each std component is exp of the clamped log-std component, so with a monotone exp it lies in [exp(-20), exp(2)]. |
| Actor.StochasticActor.StdBounds | network/actor.py:79-80 | With a monotone exp every std lies in [exp(-20), exp(2)]. |
| Actor.StochasticActor.SharedStdIgnoresState | network/actor.py:66-78 | In state-independent mode the log-std is the clamped parameter, so two states get the same std. |
| Actor.StochasticActor.PerStateStdFollowsFeature | network/actor.py:69-78 | In state-dependent mode the log-std is the clamped second head of the features, so states with equal features get equal outputs. |
| TrainingSpec.EpisodeSince | train_expert.py:94-125 | Within an episode that began at k, `episode_timesteps` counts the steps since k and `episode_reward` is the sum of their rewards. |
| TrainingSpec.FinishedAppend | train_expert.py:116-125 | `episode_num` over a concatenated trace is the sum over the parts: one per `done`, never otherwise. |
| TrainingSpec.FinishedAtMost | train_expert.py:125 | No more episodes finish than steps are taken. |
| TrainingSpec.PrefixStep | train_expert.py:94-125 | After one more step: `episode_num` grows by one exactly on `done`; `episode_timesteps` and `episode_reward` are reset on `done` and otherwise grow by one step and its reward. |
| TrainingSpec.EvalsBeforeIsQuotient | train_expert.py:127 | The steps 0 .. t-1 trigger t / eval_freq (integer division) in-loop evaluations. |
| TrainingSpec.EvalStepPosition | train_expert.py:127 | An evaluation step t is the step of evaluation number EvalsBefore(t): evaluation j follows step (j + 1) * eval_freq - 1. |
| TrainingSpec.EvalsBeforeMonotone | train_expert.py:127 | The evaluation count never decreases along the run. |
| TrainingSpec.BestIsMaximum | train_expert.py:75-131 | `best_avg_reward` is minus infinity exactly when no in-loop evaluation ran; otherwise it is one of the scores and no score exceeds it. |
| TrainingSpec.ExceedsBestIffImproves | train_expert.py:130 | The test `avg_reward > best_avg_reward` holds exactly when the score strictly beats every earlier one; ties do not save. |
| TrainingSpec.BestNeverDecreases | train_expert.py:130-131 | `best_avg_reward` never decreases. |
| TrainingSpec.ModelFileStep | train_expert.py:130-132 | One more evaluation replaces the model file with the one saved at its step exactly when it improves; otherwise the file is unchanged. |
| TrainingSpec.LastImprovementIsBest | train_expert.py:130-132 | A checkpoint was saved exactly when some evaluation ran. The last save holds the best score, beat everything before it, and nothing after it beats it. |
| TrainingSpec.PreexistingOverwritten | train_expert.py:75-132 | After any in-loop evaluation the model file exists and is not the one present before the run. |
| TrainingSpec.WarmStartWindow | train_expert.py:98-102 | No model file exists before step t exactly when none existed at start and t < eval_freq. |
| TrainingSpec.FinalLoadFails | train_expert.py:134 | The final `load_model` finds no file exactly when none existed at start and max_timesteps < eval_freq. |
| TrainingSpec.CheckpointExample | train_expert.py:130-132 | Scores 5, 3, 8, 8, 10 save at evaluations 0, 2 and 4 only. |
| Training.TrainStep | train_expert.py:94-132 | One pass of the loop body carries the loop invariant from step t to t + 1: counters, learn calls, evaluation log, best score and model file all match their definitions over the longer prefix. |
| Training.Train | train_expert.py:72-134 | Every `learn` call receives the step's normalised state, next state and reward, terminal 1.0 only on a `done` under the episode cap, and a sampled action exactly in the warm-start window; the log, counters, best score and final load match their definitions over the whole run (details below). |

`Training.Train`'s postcondition states, for every step t:

- `learn` gets the observation seen at t (the reset observation at the start and after `done`, otherwise the previous next state), normalised.
- It gets the normalised next observation and the reward.
- It gets terminal 1.0 only when `done` and the episode is under the step cap.
- The action is sampled iff `start_timesteps` is set, t is below it and no model file exists.

It also states:

- The log holds the baseline, never compared, then one record per in-loop evaluation with its step, score and save decision.
- The counters, the best score and the normaliser count match their definitions over the whole trace.
- The final load reads the last checkpoint, and fails when there is none.

## Left out

- Environment construction, seeding, `env.reset`/`env.step` and `env.action_space.sample()` (train_expert.py:20-21, 40-54). The environment is replaced by its answers: the step outcomes, and `reset(k)`, the observation of the k-th reset.
- Which action is taken. Only its source (sampled or policy) is modelled, because `select_action` and the agents of `ALGOS` are not part of this model.
- The agent's learning and parameters. `learn`, `save_model` and `load_model` are modelled as the recorded `learn` arguments and the content of the model file. The load at train_expert.py:82 therefore has no modelled effect.
- `eval`'s episodes. Each evaluation score is an input to `Train`, and `Evaluate` models `eval` on given per-episode reward lists. Running until `done` with `training=False` is external behaviour.
- The normaliser. `state_normalizer` is a pure function parameter; `Normalizer` is not part of this model and may keep running statistics.
- Logging, the TensorBoard writer (including the "training_return" scalar), `write_config`, `os.makedirs` and the `h5py` dataset writing: I/O.
- Torch device selection, broadcast and keepdim warnings, `generate_expert_dataset` and `build_mlp_extractor`: library configuration or code outside this model.
- The MLP feature extractor and `exp`. They are function parameters; the only thing assumed of the extractor is its output width (see the `Actor.StochasticActor.constructor` line below). Linear layers are exact real arithmetic.
- Batches and tensor shapes. `forward` is modelled on one state rather than a batch. In state-independent mode the source returns the `(1, action_dim)` parameter without expanding it, so its std does not take the mean's shape; the model returns a plain vector of `action_dim` components in both modes.
- Floating point. Rewards, scores and network values are reals; rounding, NaN and infinities other than the initial minus infinity are not modelled.
- The commented-out earlier actor variants (network/actor.py:8-51): dead code.
- Train: requires `eval_freq > 0` (a `nat`). An `eval_freq` of 0 raises ZeroDivisionError at the first step when `max_timesteps > 0`. A negative `eval_freq`, which Python's `%` treats like its absolute value, is not modelled.
- Train: requires one evaluation score per in-loop evaluation. The scores are given as a sequence whose length must match the run.
- DatasetName.Lower: lower-cases ASCII letters only, not the full Unicode case mapping of Python's `str.lower()`.
- DatasetName.JoinPath: POSIX `os.path.join` for two components only.
- Actor.StochasticActor.constructor: assumes that the feature extractor maps every state of width `state_dim` to `hidden_size[-1]` features (`state_dim` when `hidden_size` is empty). The source never checks this; a mismatch would only show up as a shape error in `self.mu(feature)`. The length guarantees of `LogStd` and `Forward` rest on this assumption, so the extractor is constrained in this way rather than fully uninterpreted.
