# NewsClip epoch controller in Dafny

This project models the training control loop of the NewsClip captioning trainer (`main.py`): the per-epoch
controller that stops after twenty epochs without improvement, decays the primary learning rate, skips validation
during the warmup epochs, keeps the best validation score and writes one checkpoint per trained epoch. It also models
how `main` sets up the controller on a fresh start or a resume, and the parameter counter `get_parameter_number`.

Files and modules:

- `common.dfy` (`Common`): `Option` and `Result`.
- `parameters.dfy` (`ParameterCount`): `get_parameter_number` as two sums over a parameter list.
- `rates.dfy` (`LearningRate`): the primary learning rate after repeated `adjust_learning_rate(optimizer, 0.6)` calls.
- `controller.dfy` (`EpochController`): the controller state, one loop iteration (`EpochStep`), the whole loop as a
  function (`Run`), and the loop itself as an imperative method (`RunEpochs`) proved equal to `Run`.
- `properties.dfy` (`ControllerProperties`): what a run guarantees, stated over the run's final state and its log.
- `resume.dfy` (`Resume`): the initial state from the options or from a loaded checkpoint, and `main`'s controller part.

The controller's state is the counter `args.epochs_since_improvement`, `best_cider`, and the two optimizers' learning
rates. Each trained epoch leaves an `EpochRecord`. The record says whether `adjust_learning_rate` ran and which rates
`train` ran with. It holds the score `validate` returned, or None in warmup. It holds the `save_checkpoint` arguments
the controller decides: the epoch, the counter after this epoch's update, the score, and `is_best`. An epoch stopped by
the stop test leaves no record, so it has no training call and no checkpoint. `train` is opaque. `validate` is a
caller-supplied function from epoch to score.

Behaviour of the code worth knowing:

- The stop test is `counter == 20`, not `>= 20`. A counter that starts above 20 only stops the loop after an
  improvement resets it and twenty misses follow (`RunAboveLimitNeverStops`, `EarlyStopFollowsStreak`).
- On resume, the restored counter goes into a global that the loop never reads. The loop starts from
  `args.epochs_since_improvement` (`ResumeIgnoresSavedCounter`). The best score and the primary learning rate also come
  from the options, so earlier decays are lost. A resumed run therefore does not restore the saved counter or the saved
  best score.
- On resume with no encoder optimizer in the checkpoint, the code rebuilds it from `ImageEncoder`. That name is bound
  only in the fresh-start branch, so the lookup fails. The model returns `Err(ImageEncoderUndefined)`; the encoder
  optimizer is not rebuilt.
- The decay test has no warmup condition. Because warmup epochs leave the counter unchanged, a counter that sits at a
  positive multiple of 6 decays the rate on every warmup epoch (`WarmupRepeatsDecay`).

## Model

| member | source | states |
|---|---|---|
| `ParameterCount.GetParameterNumber` | main.py:53-56 | Trainable is at most Total; Trainable is the element count of the parameters with `requires_grad`; Total is Trainable plus the frozen parameters' count |
| `ParameterCount.TotalCount` | main.py:54 | the sum over all parameters is at least each parameter's element count, and zero exactly when every parameter is empty |
| `ParameterCount.TrainableCount` | main.py:55 | the sum over the gradient-taking parameters is at least each one's element count, and zero exactly when all of them are empty |
| `ParameterCount.RequiringGrad` | main.py:55 | the filtered list holds each gradient-taking parameter of the input as many times as the input does, and no frozen one |
| `ParameterCount.Frozen` | main.py:54-55 | the complementary list holds each frozen parameter of the input as many times as the input does, and no gradient-taking one |
| `ParameterCount.TrainableAtMostTotal` | main.py:54-55 | the trainable sum never exceeds the total sum over the same list |
| `ParameterCount.TrainableIsTotalOfRequiringGrad` | main.py:55 | the trainable sum equals the total sum of the gradient-taking parameters |
| `ParameterCount.TotalSplitsByTrainability` | main.py:54-55 | Total = Trainable + element count of the frozen parameters |
| `ParameterCount.AllTrainableIff` | main.py:54-55 | Trainable equals Total exactly when every frozen parameter has no elements |
| `ParameterCount.TotalCountAppend` | main.py:54-55 | both sums over a concatenation are the sums of the parts |
| `LearningRate.RateAfter` | main.py:116-117 | repeated `adjust_learning_rate(optimizer, 0.6)`: a non-negative rate stays between 0 and its start, and a positive rate stays positive and falls strictly below its start once at least one call has run |
| `LearningRate.RateAfterIsPower` | main.py:117 | k decays by 0.6 turn a rate lr into lr * 0.6^k |
| `LearningRate.RateAfterAdd` | main.py:117 | a decays followed by b decays are a + b decays |
| `EpochController.Max` | main.py:137 | Python's `max` of two scores is at least both and equal to one of them |
| `EpochController.EpochStep` | main.py:114-149 | one iteration: the epoch and checkpoint epoch are the loop's; the decay runs exactly when due and is one 0.6 step, taken before training; the encoder rate is kept; only epochs above 4 are validated, with the score `validate` returns for the epoch, which is the score saved; a warmup epoch saves score 0; the new best is `max` of that score and the old best; the best never falls, and a validated epoch is best exactly when it raises it; a warmup epoch is best and keeps the best; the counter is reset on improvement, raised on a miss, kept in warmup, and is the checkpoint's counter |
| `EpochController.Run` | main.py:113-152 | the whole loop: at most `epochs - start` records; no record exactly when the range is empty or the counter is 20 at the start, and then the state is unchanged; the encoder rate is kept and the best score never falls |
| `EpochController.RunEpochs` | main.py:113-152 | the imperative loop (stop test with `break`, decay, train, validate or warmup, save) yields exactly the final state and records of `Run` |
| `ControllerProperties.RunVisitsEpochsInOrder` | main.py:113-115 | records are for epochs start, start+1, ... in order, never reaching `epochs`; every trained epoch had a counter other than 20 at the top; the run ends before `epochs` only with counter 20; a counter of 20 at the start trains nothing; the final counter is the last checkpoint's |
| `ControllerProperties.RunDecaysWhenDue` | main.py:116-117 | the decay runs exactly on epochs whose counter at the top is a positive multiple of 6; the encoder rate is never changed, in training or at the end |
| `ControllerProperties.RunLearningRate` | main.py:116-117 | the run ends with the primary rate decayed once per decay in the log |
| `ControllerProperties.EpochLearningRate` | main.py:116-126 | each epoch trains with the primary rate decayed once per decay so far, this epoch's included (decay precedes training) |
| `ControllerProperties.RunLearningRatePower` | main.py:116-117 | after n decays the primary rate is the initial rate times 0.6^n |
| `ControllerProperties.EpochLearningRatePower` | main.py:116-126 | each epoch trains with the initial primary rate times 0.6^k, k the decays up to and including that epoch |
| `ControllerProperties.RunWarmupEpochs` | main.py:128-149 | an epoch is validated exactly when it is above 4; a warmup epoch is saved with score 0, marked best, and keeps the counter |
| `ControllerProperties.WarmupRepeatsDecay` | main.py:114-149 | two consecutive warmup epochs: if the first decayed, the second decays too |
| `ControllerProperties.RunBestScore` | main.py:128-137 | past warmup the validation score is what `validate` returned for that epoch and is the saved score, and `is_best` holds iff it is strictly above the best so far (ties are not improvements); the final best is the fold of `max` over the initial best and all validation scores |
| `ControllerProperties.BestOfIsMaximum` | main.py:137 | the folded best is at least the initial best, at least every validation score, and equal to the initial best or to one of the scores |
| `ControllerProperties.BestNeverDecreases` | main.py:137 | the best score after a later epoch is never below the best after an earlier one |
| `ControllerProperties.BestOfAppend` | main.py:137 | folding the best over two consecutive stretches of epochs is folding over their concatenation |
| `ControllerProperties.RunCounterUpdates` | main.py:140-145 | each checkpoint's counter is 0 after an improvement, one more than before after a validated non-improvement, and unchanged after a warmup epoch |
| `ControllerProperties.RunCounterBounded` | main.py:114-145 | a counter that starts at most 20 stays at most 20 in every checkpoint and at the end |
| `ControllerProperties.RunAboveLimitNeverStops` | main.py:114-115 | a counter that starts above 20 runs every epoch unless some epoch improves |
| `ControllerProperties.CounterIsMissesSinceImprovement` | main.py:140-145 | every counter equals the number of validated non-improving epochs since the last improvement (plus the initial counter if none) |
| `ControllerProperties.EarlyStopFollowsStreak` | main.py:114-145 | when the loop stops early, the last checkpoint's counter is 20 and it was reached by consecutive non-improving validated epochs since the last improvement |
| `ControllerProperties.WarmupThenTwoValidations` | main.py:112-152 | fresh run over epochs 0..6 from best 0: epochs 0-4 saved as best with score 0 and counter 0; score 0.12 at epoch 5 is a best with counter 0; score 0.10 at epoch 6 is not, counter 1 |
| `Resume.StartUp` | main.py:63-89 | fresh start begins at `args.start_epoch`; resume begins at saved epoch + 1 and uses the saved encoder optimizer, or fails if it is missing; counter, best score and primary rate always come from the options |
| `Resume.Saved` | main.py:82-86 | the checkpoint written for an epoch keeps its epoch and counter, and resuming from it always succeeds, at the next epoch, with the saved encoder rate and the options' counter, best score and primary rate |
| `Resume.ResumeIgnoresSavedCounter` | main.py:83 | two checkpoints differing only in their saved counter give the same start |
| `Resume.ResumeContinuesAtNextEpoch` | main.py:82 | resuming from a run's last checkpoint starts at the epoch after the last trained one, with the run's encoder rate and the options' counter |
| `Resume.RunTraining` | main.py:112-113 | `main`'s controller part is the start-up followed by the loop over `range(start, args.epochs)`, or the start-up error |

## Left out

- Model construction, weight initialisation, device placement, forward and backward passes, gradient clipping and
  optimizer internals: foreign tensor library calls on floating point values.
- The bodies of `train` and `validate`: loss, perplexity, running averages and the decoding and scoring pipeline are
  floating point numerics in code that is not part of this model (`utils`, `model.py`). `train` becomes the rates it
  runs with; `validate` becomes a caller-supplied score per epoch.
- `save_checkpoint`, `adjust_learning_rate`, `Logger` (from `utils`) and `torch.load`: only their effects on the
  controller are modelled. `Resume.Saved` assumes the saved file holds the epoch, the counter and the encoder optimizer
  passed to `save_checkpoint`. A checkpoint with a missing field is not modelled.
- Data loaders, worker processes, progress bars and `print`: I/O and concurrency plumbing.
- Scores are Dafny reals: NaN and the other floating point special values are not modelled.
- Learning rates are Dafny reals: the per-step rounding of repeated `lr * 0.6` in floating point and its underflow to
  zero are not modelled.
- `encoder_optimizer.step()` is never called in `train`. The model keeps the encoder rate unchanged and does not model
  parameter updates at all.
