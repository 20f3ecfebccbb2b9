/**
 * What the epoch controller guarantees over a whole run: the epochs it
 * visits, when it stops, when it decays the learning rate, how the warmup
 * epochs are recorded, how the best score and the epochs-since-improvement
 * counter evolve.
 */
module ControllerProperties {
  import opened Common
  import opened EpochController
  import opened LearningRate

  /** The counter at the top of the iteration that produced `log[i]` (or after the last one). */
  function CounterBefore(c0: int, log: seq<EpochRecord>, i: nat): int
    requires i <= |log|
  {
    if i == 0 then c0 else log[i - 1].checkpoint.epochsSinceImprovement
  }

  /** The number of `adjust_learning_rate` calls in a log. */
  function DecayCount(log: seq<EpochRecord>): nat
  {
    if log == [] then 0 else (if log[0].decayed then 1 else 0) + DecayCount(log[1..])
  }

  /** The best score after starting from `b` and seeing the validation scores of `log`. */
  function BestOf(b: real, log: seq<EpochRecord>): real
    decreases |log|
  {
    if log == [] then b
    else
      var b' := if log[0].validation.Some? then Max(log[0].validation.value, b) else b;
      BestOf(b', log[1..])
  }

  /** A validated epoch whose score was a new best. */
  predicate Improved(r: EpochRecord)
  {
    r.validation.Some? && r.checkpoint.isBest
  }

  /** A validated epoch whose score was not a new best. */
  predicate Missed(r: EpochRecord)
  {
    r.validation.Some? && !r.checkpoint.isBest
  }

  predicate NoImprovement(log: seq<EpochRecord>)
  {
    forall i :: 0 <= i < |log| ==> !Improved(log[i])
  }

  /** The number of validated epochs without improvement among `log[j..k]`, both ends included. */
  function MissesBetween(log: seq<EpochRecord>, j: nat, k: int): nat
    requires j <= k + 1 && k < |log|
    decreases k - j + 1
  {
    if k < j then 0 else MissesBetween(log, j, k - 1) + (if Missed(log[k]) then 1 else 0)
  }

  /** Each record's counter: reset by an improvement, raised by a miss, kept by a warmup epoch. */
  predicate CounterFollowsRules(c0: int, log: seq<EpochRecord>)
  {
    forall i :: 0 <= i < |log| ==>
      log[i].checkpoint.epochsSinceImprovement
        == if Improved(log[i]) then 0
           else CounterBefore(c0, log, i) + (if Missed(log[i]) then 1 else 0)
  }

  /**
   * `log[k]`'s counter counts the misses since the last improvement `log[j-1]`
   * (or since the start of the log, on top of the initial counter `c0`).
   */
  predicate StreakFrom(c0: int, log: seq<EpochRecord>, j: nat, k: nat)
    requires j <= k + 1 <= |log|
  {
    && (j == 0 || Improved(log[j - 1]))
    && (forall i :: j <= i <= k ==> !Improved(log[i]))
    && log[k].checkpoint.epochsSinceImprovement == (if j == 0 then c0 else 0) + MissesBetween(log, j, k)
  }

  /** A streak `StreakFrom(c0, log, j, k)` that reaches the last record. */
  predicate StreakToEnd(c0: int, log: seq<EpochRecord>, j: nat)
  {
    log != [] && j <= |log| && StreakFrom(c0, log, j, |log| - 1)
  }

  /**
   * A run that trains its first epoch is that epoch's step followed by the
   * run from the next epoch; the counters before each later record shift by
   * one.
   */
  lemma RunCons(s: State, e: int, n: int, v: int -> real, s': State, log: seq<EpochRecord>)
    returns (s1: State, r: EpochRecord, rest: seq<EpochRecord>)
    requires Run(s, e, n, v) == (s', log)
    requires e < n && s.epochsSinceImprovement != StopAfter
    ensures (s1, r) == EpochStep(s, e, v)
    ensures Run(s1, e + 1, n, v) == (s', rest)
    ensures log == [r] + rest
    ensures forall i :: 0 < i < |log| ==> log[i] == rest[i - 1]
    ensures forall i :: 0 < i <= |log| ==>
      CounterBefore(s.epochsSinceImprovement, log, i) == CounterBefore(s1.epochsSinceImprovement, rest, i - 1)
  {
    s1, r := EpochStep(s, e, v).0, EpochStep(s, e, v).1;
    rest := Run(s1, e + 1, n, v).1;
  }

  /**
   * The loop visits `e, e+1, ...` in order, one record per trained epoch; it
   * trains an epoch only when the counter at the top differs from
   * `StopAfter`, and it ends before `n` only because the counter equals
   * `StopAfter`. The final counter is the last checkpoint's.
   */
  lemma {:induction false} RunVisitsEpochsInOrder(s: State, e: int, n: int, v: int -> real, s': State, log: seq<EpochRecord>)
    requires Run(s, e, n, v) == (s', log)
    ensures log == [] || e + |log| <= n
    ensures forall i :: 0 <= i < |log| ==> log[i].epoch == e + i && log[i].checkpoint.epoch == e + i
    ensures forall i :: 0 <= i < |log| ==> CounterBefore(s.epochsSinceImprovement, log, i) != StopAfter
    ensures e + |log| < n ==> s'.epochsSinceImprovement == StopAfter
    ensures s'.epochsSinceImprovement == CounterBefore(s.epochsSinceImprovement, log, |log|)
    ensures s.epochsSinceImprovement == StopAfter ==> log == [] && s' == s
    decreases n - e
  {
    if e < n && s.epochsSinceImprovement != StopAfter {
      var s1, r, rest := RunCons(s, e, n, v, s', log);
      RunVisitsEpochsInOrder(s1, e + 1, n, v, s', rest);
    }
  }

  /**
   * `adjust_learning_rate` is called exactly when the counter at the top of
   * the iteration is a positive multiple of `DecayEvery`; the encoder
   * optimizer's rate never changes.
   */
  lemma {:induction false} RunDecaysWhenDue(s: State, e: int, n: int, v: int -> real, s': State, log: seq<EpochRecord>)
    requires Run(s, e, n, v) == (s', log)
    ensures forall i :: 0 <= i < |log| ==> log[i].decayed == DecayDue(CounterBefore(s.epochsSinceImprovement, log, i))
    ensures forall i :: 0 <= i < |log| ==> log[i].trainEncoderLr == s.encoderLr
    ensures s'.encoderLr == s.encoderLr
    decreases n - e
  {
    if e < n && s.epochsSinceImprovement != StopAfter {
      var s1, r, rest := RunCons(s, e, n, v, s', log);
      RunDecaysWhenDue(s1, e + 1, n, v, s', rest);
    }
  }

  /** Prepending a record adds its decay to the count. */
  lemma DecayCountCons(r: EpochRecord, rest: seq<EpochRecord>)
    ensures DecayCount([r] + rest) == (if r.decayed then 1 else 0) + DecayCount(rest)
  {
    assert ([r] + rest)[1..] == rest;
  }

  /** The run ends with the initial primary rate decayed once per decay in the log. */
  lemma {:induction false} RunLearningRate(s: State, e: int, n: int, v: int -> real, s': State, log: seq<EpochRecord>)
    requires Run(s, e, n, v) == (s', log)
    ensures s'.decoderLr == RateAfter(s.decoderLr, DecayCount(log))
    decreases n - e
  {
    if e < n && s.epochsSinceImprovement != StopAfter {
      var s1, r, rest := RunCons(s, e, n, v, s', log);
      RunLearningRate(s1, e + 1, n, v, s', rest);
      var d := if r.decayed then 1 else 0;
      assert s1.decoderLr == RateAfter(s.decoderLr, d);
      DecayCountCons(r, rest);
      RateAfterAdd(s.decoderLr, d, DecayCount(rest));
    }
  }

  /**
   * Epoch `log[i]` trains with the initial primary rate decayed once per
   * decay so far, its own decay included: the decay comes before training.
   */
  lemma {:induction false} EpochLearningRate(s: State, e: int, n: int, v: int -> real, s': State, log: seq<EpochRecord>, i: nat)
    requires Run(s, e, n, v) == (s', log)
    requires i < |log|
    ensures log[i].trainDecoderLr == RateAfter(s.decoderLr, DecayCount(log[..i + 1]))
    decreases i
  {
    var s1, r, rest := RunCons(s, e, n, v, s', log);
    var d := if r.decayed then 1 else 0;
    assert s1.decoderLr == RateAfter(s.decoderLr, d);
    assert log[..i + 1] == [r] + rest[..i];
    DecayCountCons(r, rest[..i]);
    if i > 0 {
      EpochLearningRate(s1, e + 1, n, v, s', rest, i - 1);
    }
    RateAfterAdd(s.decoderLr, d, DecayCount(rest[..i]));
  }

  /** After `k` decays the run ends with the initial primary rate times `0.6^k`. */
  lemma RunLearningRatePower(s: State, e: int, n: int, v: int -> real, s': State, log: seq<EpochRecord>)
    requires Run(s, e, n, v) == (s', log)
    ensures s'.decoderLr == s.decoderLr * Pow(Factor, DecayCount(log))
  {
    RunLearningRate(s, e, n, v, s', log);
    RateAfterIsPower(s.decoderLr, DecayCount(log));
  }

  /** Epoch `log[i]` trains with the initial primary rate times `0.6^k`, `k` the decays so far. */
  lemma EpochLearningRatePower(s: State, e: int, n: int, v: int -> real, s': State, log: seq<EpochRecord>, i: nat)
    requires Run(s, e, n, v) == (s', log)
    requires i < |log|
    ensures log[i].trainDecoderLr == s.decoderLr * Pow(Factor, DecayCount(log[..i + 1]))
  {
    EpochLearningRate(s, e, n, v, s', log, i);
    RateAfterIsPower(s.decoderLr, DecayCount(log[..i + 1]));
  }

  /**
   * Warmup epochs (`epoch <= WarmupLast`) are exactly the ones not validated;
   * each is saved with score 0, marked best, and leaves the counter as it was.
   */
  lemma {:induction false} RunWarmupEpochs(s: State, e: int, n: int, v: int -> real, s': State, log: seq<EpochRecord>)
    requires Run(s, e, n, v) == (s', log)
    ensures forall i :: 0 <= i < |log| ==> (log[i].epoch <= WarmupLast <==> log[i].validation.None?)
    ensures forall i :: 0 <= i < |log| && log[i].epoch <= WarmupLast ==>
      && log[i].checkpoint.score == 0.0
      && log[i].checkpoint.isBest
      && log[i].checkpoint.epochsSinceImprovement == CounterBefore(s.epochsSinceImprovement, log, i)
    decreases n - e
  {
    if e < n && s.epochsSinceImprovement != StopAfter {
      var s1, r, rest := RunCons(s, e, n, v, s', log);
      RunWarmupEpochs(s1, e + 1, n, v, s', rest);
    }
  }

  /**
   * Past warmup the validation score is what `validate` returned for that
   * epoch and is the checkpoint's score, the epoch is
   * best exactly when that score is strictly greater than the best so far
   * (a tie is not an improvement), and the best score ends as the fold of
   * Python's `max` over the initial best and every validation score.
   */
  lemma {:induction false} RunBestScore(s: State, e: int, n: int, v: int -> real, s': State, log: seq<EpochRecord>)
    requires Run(s, e, n, v) == (s', log)
    ensures forall i :: 0 <= i < |log| && log[i].validation.Some? ==>
      && log[i].validation.value == v(log[i].epoch)
      && log[i].validation.value == log[i].checkpoint.score
      && (log[i].checkpoint.isBest <==> log[i].checkpoint.score > BestOf(s.bestScore, log[..i]))
    ensures s'.bestScore == BestOf(s.bestScore, log)
    decreases n - e
  {
    if e < n && s.epochsSinceImprovement != StopAfter {
      var s1, r, rest := RunCons(s, e, n, v, s', log);
      RunBestScore(s1, e + 1, n, v, s', rest);
      assert s1.bestScore == BestOf(s.bestScore, [r]);
      forall i | 0 <= i < |log| && log[i].validation.Some?
        ensures log[i].validation.value == v(log[i].epoch)
        ensures log[i].validation.value == log[i].checkpoint.score
        ensures log[i].checkpoint.isBest <==> log[i].checkpoint.score > BestOf(s.bestScore, log[..i])
      {
        if i > 0 {
          assert log[i] == rest[i - 1];
          assert log[..i] == [r] + rest[..i - 1];
          assert ([r] + rest[..i - 1])[1..] == rest[..i - 1];
        }
      }
      assert log[1..] == rest;
    }
  }

  /** Every record's counter follows the reset / increment / keep rules. */
  lemma {:induction false} RunCounterUpdates(s: State, e: int, n: int, v: int -> real, s': State, log: seq<EpochRecord>)
    requires Run(s, e, n, v) == (s', log)
    ensures CounterFollowsRules(s.epochsSinceImprovement, log)
    decreases n - e
  {
    if e < n && s.epochsSinceImprovement != StopAfter {
      var s1, r, rest := RunCons(s, e, n, v, s', log);
      RunCounterUpdates(s1, e + 1, n, v, s', rest);
    }
  }

  /** A counter that starts at most `StopAfter` never exceeds it. */
  lemma {:induction false} RunCounterBounded(s: State, e: int, n: int, v: int -> real, s': State, log: seq<EpochRecord>)
    requires Run(s, e, n, v) == (s', log)
    requires s.epochsSinceImprovement <= StopAfter
    ensures forall i :: 0 <= i < |log| ==> log[i].checkpoint.epochsSinceImprovement <= StopAfter
    ensures s'.epochsSinceImprovement <= StopAfter
    decreases n - e
  {
    if e < n && s.epochsSinceImprovement != StopAfter {
      var s1, r, rest := RunCons(s, e, n, v, s', log);
      RunCounterBounded(s1, e + 1, n, v, s', rest);
    }
  }

  /**
   * The stop test is an equality: a counter that starts above `StopAfter`
   * never stops the loop unless an improvement resets it first.
   */
  lemma {:induction false} RunAboveLimitNeverStops(s: State, e: int, n: int, v: int -> real, s': State, log: seq<EpochRecord>)
    requires Run(s, e, n, v) == (s', log)
    requires s.epochsSinceImprovement > StopAfter
    ensures NoImprovement(log) ==> |log| == if e < n then n - e else 0
    decreases n - e
  {
    if e < n {
      var s1, r, rest := RunCons(s, e, n, v, s', log);
      if NoImprovement(log) {
        assert !Improved(log[0]);
        assert s1.epochsSinceImprovement >= s.epochsSinceImprovement;
        RunAboveLimitNeverStops(s1, e + 1, n, v, s', rest);
        forall i | 0 <= i < |rest| ensures !Improved(rest[i]) {
          assert rest[i] == log[i + 1];
        }
      }
    }
  }

  /** Two consecutive warmup epochs see the same counter, so a due decay repeats. */
  lemma WarmupRepeatsDecay(s: State, e: int, n: int, v: int -> real, s': State, log: seq<EpochRecord>, i: nat)
    requires Run(s, e, n, v) == (s', log)
    requires i + 1 < |log|
    requires log[i].epoch <= WarmupLast && log[i + 1].epoch <= WarmupLast
    requires log[i].decayed
    ensures log[i + 1].decayed
  {
    RunDecaysWhenDue(s, e, n, v, s', log);
    RunWarmupEpochs(s, e, n, v, s', log);
  }

  /**
   * Every counter equals the number of validated epochs without improvement
   * since the last improvement (plus the initial counter, if there was none).
   */
  lemma {:induction false} CounterIsMissesSinceImprovement(c0: int, log: seq<EpochRecord>, k: nat)
    requires CounterFollowsRules(c0, log)
    requires k < |log|
    ensures exists j :: 0 <= j <= k + 1 && StreakFrom(c0, log, j, k)
  {
    if Improved(log[k]) {
      assert StreakFrom(c0, log, k + 1, k);
    } else if k == 0 {
      assert MissesBetween(log, 0, 0) == if Missed(log[0]) then 1 else 0;
      assert StreakFrom(c0, log, 0, 0);
    } else {
      CounterIsMissesSinceImprovement(c0, log, k - 1);
      var j :| 0 <= j <= k && StreakFrom(c0, log, j, k - 1);
      assert StreakFrom(c0, log, j, k);
    }
  }

  /**
   * When the loop stops early, the counter reached `StopAfter` through
   * consecutive validated epochs without improvement.
   */
  lemma EarlyStopFollowsStreak(s: State, e: int, n: int, v: int -> real, s': State, log: seq<EpochRecord>)
    requires Run(s, e, n, v) == (s', log)
    requires log != [] && e + |log| < n
    ensures log[|log| - 1].checkpoint.epochsSinceImprovement == StopAfter
    ensures exists j :: StreakToEnd(s.epochsSinceImprovement, log, j)
  {
    RunVisitsEpochsInOrder(s, e, n, v, s', log);
    RunCounterUpdates(s, e, n, v, s', log);
    var k := |log| - 1;
    CounterIsMissesSinceImprovement(s.epochsSinceImprovement, log, k);
    var j :| 0 <= j <= k + 1 && StreakFrom(s.epochsSinceImprovement, log, j, k);
    assert StreakToEnd(s.epochsSinceImprovement, log, j);
  }

  /** Folding the best score over a concatenation is folding over each part. */
  lemma {:induction false} BestOfAppend(b: real, a: seq<EpochRecord>, c: seq<EpochRecord>)
    ensures BestOf(b, a + c) == BestOf(BestOf(b, a), c)
    decreases |a|
  {
    if a != [] {
      assert (a + c)[1..] == a[1..] + c;
      assert (a + c)[0] == a[0];
      var b' := if a[0].validation.Some? then Max(a[0].validation.value, b) else b;
      BestOfAppend(b', a[1..], c);
    } else {
      assert a + c == c;
    }
  }

  /** The best score is the maximum of the initial best and every validation score. */
  lemma {:induction false} BestOfIsMaximum(b: real, log: seq<EpochRecord>)
    ensures BestOf(b, log) >= b
    ensures forall i :: 0 <= i < |log| && log[i].validation.Some? ==> log[i].validation.value <= BestOf(b, log)
    ensures BestOf(b, log) == b || exists i :: 0 <= i < |log| && log[i].validation == Some(BestOf(b, log))
    decreases |log|
  {
    if log != [] {
      var b' := if log[0].validation.Some? then Max(log[0].validation.value, b) else b;
      BestOfIsMaximum(b', log[1..]);
      forall i | 0 <= i < |log| && log[i].validation.Some?
        ensures log[i].validation.value <= BestOf(b, log)
      {
        if i > 0 {
          assert log[i] == log[1..][i - 1];
        }
      }
      if BestOf(b, log) != b && BestOf(b, log) != b' {
        var i :| 0 <= i < |log[1..]| && log[1..][i].validation == Some(BestOf(b', log[1..]));
        assert log[i + 1] == log[1..][i];
      } else if BestOf(b, log) != b {
        assert log[0].validation == Some(BestOf(b, log));
      }
    }
  }

  /** The best score never decreases from one epoch to a later one. */
  lemma BestNeverDecreases(b: real, log: seq<EpochRecord>, i: nat, j: nat)
    requires i <= j <= |log|
    ensures BestOf(b, log[..i]) <= BestOf(b, log[..j])
  {
    assert log[..j] == log[..i] + log[i..j];
    BestOfAppend(b, log[..i], log[i..j]);
    BestOfIsMaximum(BestOf(b, log[..i]), log[i..j]);
  }

  /**
   * A fresh run over epochs 0..6 with initial best 0: five warmup epochs,
   * then a score of 0.12 (a new best, counter stays 0) and a score of 0.10
   * (not a best, counter 1).
   */
  lemma WarmupThenTwoValidations(lr: real, encoderLr: real)
    ensures var v := (epoch: int) => if epoch == 5 then 0.12 else 0.10;
      var (s', log) := Run(State(0, 0.0, lr, encoderLr), 0, 7, v);
      && |log| == 7
      && (forall i :: 0 <= i < 5 ==> log[i].checkpoint == Checkpoint(i, 0, 0.0, true))
      && log[5].checkpoint == Checkpoint(5, 0, 0.12, true)
      && log[6].checkpoint == Checkpoint(6, 1, 0.10, false)
      && s'.bestScore == 0.12 && s'.epochsSinceImprovement == 1
  {
    var v := (epoch: int) => if epoch == 5 then 0.12 else 0.10;
    var s0 := State(0, 0.0, lr, encoderLr);
    var s6 := State(0, 0.12, lr, encoderLr);
    var s7 := State(1, 0.12, lr, encoderLr);
    assert Run(s7, 7, 7, v) == (s7, []);
    assert Run(s6, 6, 7, v).1 == [EpochStep(s6, 6, v).1];
    assert Run(s0, 5, 7, v).1 == [EpochStep(s0, 5, v).1] + Run(s6, 6, 7, v).1;
    assert Run(s0, 4, 7, v).1 == [EpochStep(s0, 4, v).1] + Run(s0, 5, 7, v).1;
    assert Run(s0, 3, 7, v).1 == [EpochStep(s0, 3, v).1] + Run(s0, 4, 7, v).1;
    assert Run(s0, 2, 7, v).1 == [EpochStep(s0, 2, v).1] + Run(s0, 3, 7, v).1;
    assert Run(s0, 1, 7, v).1 == [EpochStep(s0, 1, v).1] + Run(s0, 2, 7, v).1;
    assert Run(s0, 0, 7, v).1 == [EpochStep(s0, 0, v).1] + Run(s0, 1, 7, v).1;
    assert Run(s0, 0, 7, v).0 == s7;
  }
}
