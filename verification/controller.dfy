/**
 * The epoch controller of `main` in main.py: the `for epoch in range(...)`
 * loop that stops on twenty epochs without improvement, decays the primary
 * learning rate every sixth such epoch, trains, validates past the warmup
 * epochs, keeps the best score, and saves one checkpoint per trained epoch.
 *
 * Training and validation are opaque: training is recorded with the learning
 * rates it runs with, and validation is a caller-supplied score per epoch.
 */
module EpochController {
  import opened Common
  import LearningRate

  /** The stop test `epochs_since_improvement == 20`. */
  const StopAfter: int := 20
  /** The decay test `epochs_since_improvement % 6 == 0`. */
  const DecayEvery: int := 6
  /** Epochs `<= 4` are warmup epochs: no validation. */
  const WarmupLast: int := 4

  /**
   * The controller's mutable state: `args.epochs_since_improvement`,
   * `best_cider`, and the learning rates of the primary optimizer and of the
   * image-encoder optimizer.
   */
  datatype State = State(
    epochsSinceImprovement: int,
    bestScore: real,
    decoderLr: real,
    encoderLr: real)

  /** The arguments of one `save_checkpoint` call that the controller decides. */
  datatype Checkpoint = Checkpoint(
    epoch: int,
    epochsSinceImprovement: int,
    score: real,
    isBest: bool)

  /**
   * What one trained epoch does, in order: whether `adjust_learning_rate` was
   * called, the rates `train` ran with, the score `validate` returned (None
   * when it was not called) and the checkpoint saved.
   */
  datatype EpochRecord = EpochRecord(
    epoch: int,
    decayed: bool,
    trainDecoderLr: real,
    trainEncoderLr: real,
    validation: Option<real>,
    checkpoint: Checkpoint)

  /** The decay test at the top of an iteration. */
  predicate DecayDue(counter: int)
  {
    counter > 0 && counter % DecayEvery == 0
  }

  /** Python's `max(a, b)`: the first argument unless the second is larger. */
  function Max(a: real, b: real): (r: real)
    ensures a <= r && b <= r
    ensures r == a || r == b
  {
    if b > a then b else a
  }

  /**
   * One iteration of the loop body, for an epoch whose stop test failed. The
   * primary rate is decayed once when due and training uses the decayed rate;
   * the encoder rate is kept; only epochs past warmup are validated; the best
   * score never falls, and a validated epoch is best exactly when it raises
   * it; the counter is reset by an improvement, raised by a miss and kept in
   * warmup, and the checkpoint holds the new counter.
   */
  function EpochStep(s: State, epoch: int, validate: int -> real): (r: (State, EpochRecord))
    ensures r.1.epoch == epoch && r.1.checkpoint.epoch == epoch
    ensures r.1.decayed == DecayDue(s.epochsSinceImprovement)
    ensures r.0.decoderLr == LearningRate.RateAfter(s.decoderLr, if r.1.decayed then 1 else 0)
    ensures r.1.trainDecoderLr == r.0.decoderLr
    ensures r.0.encoderLr == s.encoderLr && r.1.trainEncoderLr == s.encoderLr
    ensures r.1.validation.Some? <==> epoch > WarmupLast
    ensures r.1.validation.Some? ==>
      && r.1.validation.value == validate(epoch)
      && r.1.checkpoint.score == validate(epoch)
      && r.0.bestScore == Max(validate(epoch), s.bestScore)
    ensures r.1.validation.None? ==> r.1.checkpoint.score == 0.0
    ensures r.0.bestScore >= s.bestScore
    ensures r.1.validation.Some? ==> (r.1.checkpoint.isBest <==> r.0.bestScore > s.bestScore)
    ensures r.1.validation.None? ==> r.1.checkpoint.isBest && r.0.bestScore == s.bestScore
    ensures r.0.epochsSinceImprovement == r.1.checkpoint.epochsSinceImprovement
    ensures r.0.epochsSinceImprovement
            == if r.1.validation.None? then s.epochsSinceImprovement
               else if r.1.checkpoint.isBest then 0
               else s.epochsSinceImprovement + 1
  {
    var decayed := DecayDue(s.epochsSinceImprovement);
    var lr := if decayed then s.decoderLr * LearningRate.Factor else s.decoderLr;
    if epoch > WarmupLast then
      var score := validate(epoch);
      var isBest := score > s.bestScore;
      var counter := if isBest then 0 else s.epochsSinceImprovement + 1;
      (State(counter, Max(score, s.bestScore), lr, s.encoderLr),
       EpochRecord(epoch, decayed, lr, s.encoderLr, Some(score), Checkpoint(epoch, counter, score, isBest)))
    else
      (s.(decoderLr := lr),
       EpochRecord(epoch, decayed, lr, s.encoderLr, None, Checkpoint(epoch, s.epochsSinceImprovement, 0.0, true)))
  }

  /**
   * The loop from `epoch` up to (excluding) `epochs`, ending early when the
   * counter equals `StopAfter` at the top of an iteration: the final state and
   * one record per trained epoch.
   */
  function Run(s: State, epoch: int, epochs: int, validate: int -> real): (r: (State, seq<EpochRecord>))
    ensures |r.1| <= if epoch < epochs then epochs - epoch else 0
    ensures r.1 == [] <==> epoch >= epochs || s.epochsSinceImprovement == StopAfter
    ensures r.1 == [] ==> r.0 == s
    ensures r.0.encoderLr == s.encoderLr
    ensures r.0.bestScore >= s.bestScore
    decreases epochs - epoch
  {
    if epoch >= epochs || s.epochsSinceImprovement == StopAfter then (s, [])
    else
      var (s1, r) := EpochStep(s, epoch, validate);
      var (s2, rest) := Run(s1, epoch + 1, epochs, validate);
      (s2, [r] + rest)
  }

  /** The controller loop, updating its state step by step. */
  method RunEpochs(init: State, startEpoch: int, epochs: int, validate: int -> real)
    returns (s: State, log: seq<EpochRecord>)
    ensures (s, log) == Run(init, startEpoch, epochs, validate)
  {
    s, log := init, [];
    var epoch := startEpoch;
    assert log + Run(s, epoch, epochs, validate).1 == Run(s, epoch, epochs, validate).1;
    while epoch < epochs
      invariant Run(init, startEpoch, epochs, validate)
                == (Run(s, epoch, epochs, validate).0, log + Run(s, epoch, epochs, validate).1)
      decreases epochs - epoch
    {
      if s.epochsSinceImprovement == StopAfter {
        break;
      }
      ghost var before := s;
      ghost var (after, record) := EpochStep(before, epoch, validate);
      ghost var (final, rest) := Run(after, epoch + 1, epochs, validate);
      assert Run(before, epoch, epochs, validate) == (final, [record] + rest);
      var decayed := false;
      if s.epochsSinceImprovement > 0 && s.epochsSinceImprovement % DecayEvery == 0 {
        s := s.(decoderLr := s.decoderLr * LearningRate.Factor);
        decayed := true;
      }
      // train(...) runs here with the current rates.
      var trainDecoderLr, trainEncoderLr := s.decoderLr, s.encoderLr;
      var recent: real;
      var isBest: bool;
      var validation: Option<real>;
      if epoch > WarmupLast {
        recent := validate(epoch);
        validation := Some(recent);
        isBest := recent > s.bestScore;
        s := s.(bestScore := Max(recent, s.bestScore));
        if !isBest {
          s := s.(epochsSinceImprovement := s.epochsSinceImprovement + 1);
        } else {
          s := s.(epochsSinceImprovement := 0);
        }
      } else {
        recent := 0.0;
        isBest := true;
        validation := None;
      }
      var ck := Checkpoint(epoch, s.epochsSinceImprovement, recent, isBest);
      var entry := EpochRecord(epoch, decayed, trainDecoderLr, trainEncoderLr, validation, ck);
      assert s == after && entry == record;
      assert (log + [entry]) + rest == log + ([entry] + rest);
      log := log + [entry];
      epoch := epoch + 1;
    }
    assert Run(s, epoch, epochs, validate) == (s, []);
    assert log + [] == log;
  }
}
