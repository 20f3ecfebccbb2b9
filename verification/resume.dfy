/**
 * Start-up of `main` in main.py: the controller's initial state, from the
 * command-line options alone or from a checkpoint loaded with `torch.load`,
 * followed by the epoch loop.
 *
 * The model follows the code: on resume only the start epoch and the
 * encoder optimizer come from the checkpoint. The restored counter is
 * assigned to a global the loop never reads, so the loop starts from
 * `args.epochs_since_improvement`; the best score and the primary rate
 * come from the options too.
 */
module Resume {
  import opened Common
  import opened EpochController
  import ControllerProperties

  /** The options `main` reads for the controller. */
  datatype Args = Args(
    startEpoch: int,
    epochs: int,
    epochsSinceImprovement: int,
    bestCider: real,
    decoderLr: real,
    encoderLr: real)

  /** The fields of a loaded checkpoint that `main` reads; None for a missing encoder optimizer. */
  datatype LoadedCheckpoint = LoadedCheckpoint(
    epoch: int,
    epochsSinceImprovement: int,
    encoderOptimizerLr: Option<real>)

  /**
   * Rebuilding a missing encoder optimizer uses `ImageEncoder`, which is
   * bound only in the fresh-start branch: the name lookup fails.
   */
  datatype StartError = ImageEncoderUndefined

  /** Where the loop starts and with what state. */
  datatype Start = Start(startEpoch: int, state: State)

  /** The initial controller state of a fresh start or of a resume. */
  function StartUp(args: Args, checkpoint: Option<LoadedCheckpoint>): (r: Result<Start, StartError>)
    ensures checkpoint.None? ==> r.Ok? && r.value.startEpoch == args.startEpoch && r.value.state.encoderLr == args.encoderLr
    ensures checkpoint.Some? ==> (r.Ok? <==> checkpoint.value.encoderOptimizerLr.Some?)
    ensures checkpoint.Some? && r.Ok? ==>
      && r.value.startEpoch == checkpoint.value.epoch + 1
      && r.value.state.encoderLr == checkpoint.value.encoderOptimizerLr.value
    ensures r.Ok? ==>
      && r.value.state.epochsSinceImprovement == args.epochsSinceImprovement
      && r.value.state.bestScore == args.bestCider
      && r.value.state.decoderLr == args.decoderLr
  {
    var initial := State(args.epochsSinceImprovement, args.bestCider, args.decoderLr, args.encoderLr);
    match checkpoint
    case None => Ok(Start(args.startEpoch, initial))
    case Some(ck) =>
      match ck.encoderOptimizerLr
      case None => Err(ImageEncoderUndefined)
      case Some(lr) => Ok(Start(ck.epoch + 1, initial.(encoderLr := lr)))
  }

  /**
   * The checkpoint file written for a record: its epoch and counter, and the
   * encoder optimizer (never None in a running loop). Every such file can be
   * resumed from, at the epoch after the saved one, with the saved encoder
   * rate.
   */
  function Saved(ck: Checkpoint, encoderLr: real): (r: LoadedCheckpoint)
    ensures r.epoch == ck.epoch && r.epochsSinceImprovement == ck.epochsSinceImprovement
    ensures forall args :: StartUp(args, Some(r)).Ok?
    ensures forall args :: StartUp(args, Some(r)).Ok? ==>
      StartUp(args, Some(r)).value == Start(ck.epoch + 1, State(args.epochsSinceImprovement, args.bestCider, args.decoderLr, encoderLr))
  {
    LoadedCheckpoint(ck.epoch, ck.epochsSinceImprovement, Some(encoderLr))
  }

  /** The counter saved in the checkpoint has no effect on the resumed run. */
  lemma ResumeIgnoresSavedCounter(args: Args, a: LoadedCheckpoint, b: LoadedCheckpoint)
    requires a.epoch == b.epoch && a.encoderOptimizerLr == b.encoderOptimizerLr
    ensures StartUp(args, Some(a)) == StartUp(args, Some(b))
  {
  }

  /**
   * Resuming from the last checkpoint of a run starts at the epoch after the
   * last trained one, the next epoch the interrupted loop would have visited,
   * with the encoder rate the run ended with; the counter is the option's,
   * not the one the run ended with.
   */
  lemma ResumeContinuesAtNextEpoch(args: Args, s: State, e: int, n: int, v: int -> real, s': State, log: seq<EpochRecord>)
    requires Run(s, e, n, v) == (s', log)
    requires log != []
    ensures var r := StartUp(args, Some(Saved(log[|log| - 1].checkpoint, s'.encoderLr)));
      && r.Ok?
      && r.value.startEpoch == e + |log|
      && r.value.state.encoderLr == s.encoderLr
      && r.value.state.epochsSinceImprovement == args.epochsSinceImprovement
  {
    ControllerProperties.RunVisitsEpochsInOrder(s, e, n, v, s', log);
    ControllerProperties.RunDecaysWhenDue(s, e, n, v, s', log);
  }

  /** `main`'s controller part: start-up, then the epoch loop over `range(start, args.epochs)`. */
  method RunTraining(args: Args, checkpoint: Option<LoadedCheckpoint>, validate: int -> real)
    returns (r: Result<(State, seq<EpochRecord>), StartError>)
    ensures StartUp(args, checkpoint).Err? ==> r == Err(StartUp(args, checkpoint).error)
    ensures StartUp(args, checkpoint).Ok? ==>
      var start := StartUp(args, checkpoint).value;
      r == Ok(Run(start.state, start.startEpoch, args.epochs, validate))
  {
    var started := StartUp(args, checkpoint);
    match started
    case Err(error) =>
      r := Err(error);
    case Ok(start) =>
      var s, log := RunEpochs(start.state, start.startEpoch, args.epochs, validate);
      r := Ok((s, log));
  }
}
