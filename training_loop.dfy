/**
 The training branch of the program's entry point as the imperative loop it
 is: the accumulators, the best smoothed episode reward and the two outputs
 are fields that each iteration updates in place. Every method is proved to
 do exactly what the value-level description in module Bookkeeping says, so
 the properties proved there hold of the fields.
 */
module TrainingLoop {
  import opened Stats
  import opened Bookkeeping

  class Trainer {
    const config: Config

    var numGame: int
    var epReward: int
    var totalReward: int
    var epRewards: seq<int>
    var actions: seq<int>
    var updateCount: nat
    var totalLoss: real
    var totalQ: real
    var maxAvgEpReward: real
    /** The steps passed to save_model, in order. */
    var saved: seq<int>
    /** The payloads passed to inject_summary, in order. */
    var summaries: seq<Summary>

    /** The fields read as one value. */
    function State(): LoopState
      reads this
    {
      LoopState(
        Accumulators(numGame, epReward, totalReward, epRewards, actions, updateCount, totalLoss, totalQ),
        maxAvgEpReward, saved, summaries)
    }

    ghost predicate Valid()
      reads this
    {
      WellFormed(config) && Bookkeeping.Valid(State())
    }

    /** Every counter and sum at zero, both lists empty and the best at 0, before the first step. */
    constructor (c: Config)
      requires WellFormed(c)
      ensures config == c && State() == Initial && Valid()
    {
      config := c;
      numGame, updateCount, epReward := 0, 0, 0;
      totalReward, totalLoss, totalQ := 0, 0.0, 0.0;
      maxAvgEpReward := 0.0;
      epRewards, actions := [], [];
      saved, summaries := [], [];
    }

    /** Clears every accumulator; the best value and the outputs stay. */
    method Reset()
      modifies this
      ensures State() == old(State()).(acc := Cleared)
    {
      numGame, totalReward := 0, 0;
      totalLoss, totalQ, updateCount := 0.0, 0.0, 0;
      epReward := 0;
      epRewards, actions := [], [];
    }

    /**
     One iteration of the loop for the given step: the reset at learn_start,
     the agent's observe, the episode and window bookkeeping, and at a window
     end the report, the checkpoint decision, the telemetry and the reset.
     */
    method Step(step: int, inp: StepInput) returns (out: StepOutcome)
      requires Valid()
      modifies this
      ensures (out, State()) == StepSpec(config, old(State()), step, inp)
      ensures Valid()
    {
      ghost var s0 := State();
      if step == config.learnStart {
        Reset();
      }
      updateCount := updateCount + inp.observed.updates;
      totalLoss := totalLoss + inp.observed.loss;
      totalQ := totalQ + inp.observed.q;
      var reward := inp.reward;
      if inp.terminal {
        reward := inp.rewardAfterReset;
        numGame := numGame + 1;
        epRewards := epRewards + [epReward];
        epReward := 0;
      } else {
        epReward := epReward + reward;
      }
      actions := actions + [inp.action];
      totalReward := totalReward + reward;
      assert State() == s0.(acc := StepAcc(AtLearnStart(config, step, s0.acc), inp));
      StepPreservesValid(config, s0, step, inp);
      out := CloseWindowIfDue(step);
    }

    /** The window-end part of an iteration, on the fields the step has already updated. */
    method CloseWindowIfDue(step: int) returns (out: StepOutcome)
      requires WellFormed(config)
      modifies this
      ensures (out, State()) == CloseWindow(config, old(State()), step)
    {
      out := Continued;
      if step >= config.learnStart && step % config.testStep == config.testStep - 1 {
        var avgReward := Quotient(totalReward, config.testStep);
        if updateCount == 0 {
          return DivisionByZero;
        }
        var avgLoss := totalLoss / (updateCount as real);
        var avgQ := totalQ / (updateCount as real);
        var episodes := EpisodeStats(epRewards);
        var report := Report(avgReward, avgLoss, avgQ, episodes, numGame);
        var fire := Tolerated(maxAvgEpReward, episodes.avgReward);
        if fire {
          saved := saved + [step + 1];
          maxAvgEpReward := Max(maxAvgEpReward, episodes.avgReward);
        }
        if step > 180 {
          summaries := summaries + [Summary(step, report, epRewards, actions)];
        }
        Reset();
        out := WindowClosed(report, fire);
      }
    }

    /**
     The loop over the steps startStep, ..., maxStep - 1, one input each. It
     stops early, with crashed set, at the iteration that raises on a zero
     update count.
     */
    method Train(startStep: int, maxStep: int, inputs: seq<StepInput>) returns (crashed: bool)
      requires Valid()
      requires |inputs| == if startStep < maxStep then maxStep - startStep else 0
      modifies this
      ensures (crashed, State()) == Run(config, old(State()), startStep, inputs)
      ensures Valid()
    {
      ghost var s0 := State();
      var k := 0;
      crashed := false;
      while k < |inputs| && !crashed
        invariant 0 <= k <= |inputs|
        invariant Valid()
        invariant (crashed, State()) == Run(config, s0, startStep, inputs[..k])
      {
        assert inputs[..k + 1][..k] == inputs[..k];
        var out := Step(startStep + k, inputs[k]);
        crashed := out.DivisionByZero?;
        k := k + 1;
      }
      if k < |inputs| {
        RunHalts(config, s0, startStep, inputs, k);
      } else {
        assert inputs[..k] == inputs;
      }
    }
  }
}
