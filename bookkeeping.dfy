/**
 The window and episode bookkeeping of the training loop, as values: what one
 iteration of the loop does to the accumulators, to the best smoothed episode
 reward seen so far, and to the two things the loop hands to the outside world
 (the steps at which the model is saved and the telemetry payloads).

 The agent's own work in an iteration (predict, observe and the emulator) is not
 part of this model: the action, reward and terminal signal of a step are
 inputs, and so is what agent.observe adds to the update counter and to the
 loss and Q sums.
 */
module Bookkeeping {
  import opened Arith
  import opened Stats
  import opened Wrappers

  /** The two thresholds the loop tests the step counter against. */
  datatype Config = Config(learnStart: int, testStep: int)

  /** test_step is a positive number of steps (its remainder is taken every step once past learn_start). */
  predicate WellFormed(c: Config)
  {
    c.testStep > 0
  }

  /**
   The last step of an evaluation window. Python's `%` rounds toward minus
   infinity; for a positive divisor it agrees with Dafny's Euclidean `%`.
   A window ends exactly where the next step is a multiple of test_step.
   */
  predicate IsWindowEnd(c: Config, step: int): (b: bool)
    requires WellFormed(c)
    ensures b <==> step >= c.learnStart && (step + 1) % c.testStep == 0
  {
    NextIsMultiple(step, c.testStep);
    step >= c.learnStart && step % c.testStep == c.testStep - 1
  }

  /** x % T == T - 1 exactly when x + 1 is a multiple of T. */
  lemma NextIsMultiple(x: int, T: int)
    requires T > 0
    ensures x % T == T - 1 <==> (x + 1) % T == 0
  {
    var q, r := x / T, x % T;
    assert x == q * T + r;
    if r == T - 1 {
      assert x + 1 == (q + 1) * T + 0;
      DivMod(q + 1, T, 0);
    } else {
      assert x + 1 == q * T + (r + 1);
      DivMod(q, T, r + 1);
    }
  }

  /** The accumulators of the loop: episode and window counters, and the agent's training sums. */
  datatype Accumulators = Accumulators(
    numGame: int,
    epReward: int,
    totalReward: int,
    epRewards: seq<int>,
    actions: seq<int>,
    updateCount: nat,
    totalLoss: real,
    totalQ: real)

  /** Every accumulator at zero or empty: the state after a reset. */
  const Cleared := Accumulators(0, 0, 0, [], [], 0, 0.0, 0.0)

  /** What the agent's observe call adds to update_count, total_loss and total_q. */
  datatype Observed = Observed(updates: nat, loss: real, q: real)

  /**
   What one iteration receives from the agent and the emulator: the action,
   the reward and game-over signal that acting returned, the reward the
   emulator reports after the reset that follows a game over (read only on a
   terminal step), and what observe added.
   */
  datatype StepInput = StepInput(action: int, reward: int, terminal: bool, rewardAfterReset: int, observed: Observed)

  /**
   The reward the window total counts for a step: on a terminal step the
   reward variable has been re-read after the reset, so the reward that ended
   the game is counted neither in the episode nor in the window.
   */
  function CountedReward(inp: StepInput): int
  {
    if inp.terminal then inp.rewardAfterReset else inp.reward
  }

  /** The averages a window reports. */
  datatype Report = Report(avgReward: real, avgLoss: real, avgQ: real, episodes: EpisodeSummary, numGame: int)

  /** One telemetry payload: the report with the raw lists, keyed by the step. */
  datatype Summary = Summary(step: int, report: Report, epRewards: seq<int>, actions: seq<int>)

  /**
   Everything the bookkeeping keeps across iterations: the accumulators, the
   best smoothed episode reward, the steps handed to save_model (in order)
   and the payloads handed to inject_summary (in order).
   */
  datatype LoopState = LoopState(acc: Accumulators, best: real, saved: seq<int>, summaries: seq<Summary>)

  /** What an iteration ends with; DivisionByZero ends the whole run. */
  datatype StepOutcome = Continued | WindowClosed(report: Report, checkpointed: bool) | DivisionByZero

  /** The state before the first iteration. */
  const Initial := LoopState(Cleared, 0.0, [], [])

  /** One game counted per finished episode, and a best value that starts at 0 and never falls below it. */
  predicate Valid(s: LoopState)
  {
    s.acc.numGame == |s.acc.epRewards| && s.best >= 0.0
  }

  /** At learn_start every accumulator is reset before the step's own updates. */
  function AtLearnStart(c: Config, step: int, a: Accumulators): Accumulators
  {
    if step == c.learnStart then Cleared else a
  }

  /** The agent's observe call, seen only through its effect on the training sums. */
  function Observe(a: Accumulators, o: Observed): Accumulators
  {
    a.(updateCount := a.updateCount + o.updates, totalLoss := a.totalLoss + o.loss, totalQ := a.totalQ + o.q)
  }

  /**
   The step's own bookkeeping: a terminal step closes the episode (its own
   reward is not added to the episode), any other step adds its reward to the
   episode; every step records its action and adds its counted reward to the window.
   */
  function Record(a: Accumulators, inp: StepInput): (r: Accumulators)
    ensures r.actions == a.actions + [inp.action] && r.totalReward == a.totalReward + CountedReward(inp)
    ensures r.numGame - |r.epRewards| == a.numGame - |a.epRewards|
  {
    var a' :=
      if inp.terminal then a.(numGame := a.numGame + 1, epRewards := a.epRewards + [a.epReward], epReward := 0)
      else a.(epReward := a.epReward + inp.reward);
    a'.(actions := a'.actions + [inp.action], totalReward := a'.totalReward + CountedReward(inp))
  }

  /** Observe and record: an iteration's effect on the accumulators away from learn_start. */
  function StepAcc(a: Accumulators, inp: StepInput): Accumulators
  {
    Record(Observe(a, inp.observed), inp)
  }

  /**
   The window's averages. Dividing the loss and Q sums by a zero update count
   raises, and nothing catches it: None.
   */
  function WindowReport(c: Config, a: Accumulators): (r: Option<Report>)
    requires WellFormed(c)
    ensures r.None? <==> a.updateCount == 0
  {
    if a.updateCount == 0 then None
    else
      var n := a.updateCount as real;
      Some(Report(Quotient(a.totalReward, c.testStep), a.totalLoss / n, a.totalQ / n,
                  EpisodeStats(a.epRewards), a.numGame))
  }

  /** The tolerant checkpoint test: within 10% of the best so far, or above it. */
  predicate Tolerated(best: real, avg: real)
  {
    best * 0.9 <= avg
  }

  /** Python's max of two numbers: the larger one, and the first on a tie. */
  function Max(x: real, y: real): (m: real)
    ensures x <= m && y <= m && (m == x || m == y)
    ensures x >= y ==> m == x
  {
    if x < y then y else x
  }

  /**
   The window-end part of an iteration, on the accumulators the step has
   already updated: nothing happens before the last step of a window; at it
   the window is reported, the checkpoint rule applied, the telemetry
   emitted after step 180, and every accumulator reset.
   */
  function CloseWindow(c: Config, s: LoopState, step: int): (StepOutcome, LoopState)
    requires WellFormed(c)
  {
    if !IsWindowEnd(c, step) then (Continued, s)
    else
      match WindowReport(c, s.acc)
      case None => (DivisionByZero, s)
      case Some(rep) =>
        var fire := Tolerated(s.best, rep.episodes.avgReward);
        var best := if fire then Max(s.best, rep.episodes.avgReward) else s.best;
        var saved := if fire then s.saved + [step + 1] else s.saved;
        var summaries :=
          if step > 180 then s.summaries + [Summary(step, rep, s.acc.epRewards, s.acc.actions)] else s.summaries;
        (WindowClosed(rep, fire), LoopState(Cleared, best, saved, summaries))
  }

  /** One iteration of the training loop's bookkeeping. */
  function StepSpec(c: Config, s: LoopState, step: int, inp: StepInput): (StepOutcome, LoopState)
    requires WellFormed(c)
  {
    CloseWindow(c, s.(acc := StepAcc(AtLearnStart(c, step, s.acc), inp)), step)
  }

  /**
   The loop over the steps first, first + 1, ..., one input each; it stops at
   the first iteration that raises (the flag is then true).
   */
  function Run(c: Config, s: LoopState, first: int, inputs: seq<StepInput>): (bool, LoopState)
    requires WellFormed(c)
    decreases |inputs|
  {
    if inputs == [] then (false, s)
    else
      var n := |inputs|;
      var prev := Run(c, s, first, inputs[..n - 1]);
      if prev.0 then prev
      else
        var next := StepSpec(c, prev.1, first + n - 1, inputs[n - 1]);
        (next.0.DivisionByZero?, next.1)
  }

  // ----- Properties of one iteration -----

  /** At learn_start the step starts from cleared accumulators: only its own action, reward and training sums remain. */
  lemma LearnStartResets(c: Config, s: LoopState, inp: StepInput)
    requires WellFormed(c) && !IsWindowEnd(c, c.learnStart)
    ensures var a := StepSpec(c, s, c.learnStart, inp).1.acc;
      && a.actions == [inp.action]
      && a.totalReward == CountedReward(inp)
      && a.epRewards == (if inp.terminal then [0] else [])
      && a.numGame == |a.epRewards|
      && a.epReward == (if inp.terminal then 0 else inp.reward)
      && a.updateCount == inp.observed.updates
      && a.totalLoss == inp.observed.loss
      && a.totalQ == inp.observed.q
  {
  }

  /** The learn_start step does not depend on the accumulators it starts from. */
  lemma LearnStartForgets(c: Config, s: LoopState, inp: StepInput)
    requires WellFormed(c)
    ensures StepSpec(c, s, c.learnStart, inp) == StepSpec(c, s.(acc := Cleared), c.learnStart, inp)
  {
  }

  /** Away from learn_start and window ends, a step appends its action and adds its reward to the window total. */
  lemma StepRecords(c: Config, s: LoopState, step: int, inp: StepInput)
    requires WellFormed(c) && step != c.learnStart && !IsWindowEnd(c, step)
    ensures var (out, s') := StepSpec(c, s, step, inp);
      && out == Continued
      && s'.acc.actions == s.acc.actions + [inp.action]
      && s'.acc.totalReward == s.acc.totalReward + CountedReward(inp)
      && s'.acc.updateCount == s.acc.updateCount + inp.observed.updates
      && s'.best == s.best && s'.saved == s.saved && s'.summaries == s.summaries
  {
  }

  /**
   A terminal step appends the running episode reward (without its own
   reward) and counts a game, and the window counts the reward read after the
   reset instead of its own; a non-terminal step adds its reward to both.
   */
  lemma StepClosesEpisode(c: Config, s: LoopState, step: int, inp: StepInput)
    requires WellFormed(c) && step != c.learnStart && !IsWindowEnd(c, step)
    ensures var a, a' := s.acc, StepSpec(c, s, step, inp).1.acc;
      if inp.terminal then
        && a'.epRewards == a.epRewards + [a.epReward] && a'.numGame == a.numGame + 1 && a'.epReward == 0
        && a'.totalReward == a.totalReward + inp.rewardAfterReset
      else
        && a'.epRewards == a.epRewards && a'.numGame == a.numGame && a'.epReward == a.epReward + inp.reward
        && a'.totalReward == a.totalReward + inp.reward
  {
  }

  /** Every step keeps the game counter equal to the number of recorded episodes and the best value at least 0. */
  lemma StepPreservesValid(c: Config, s: LoopState, step: int, inp: StepInput)
    requires WellFormed(c) && Valid(s)
    ensures Valid(StepSpec(c, s, step, inp).1)
  {
  }

  /**
   A window closes exactly at its last step; then, unless the loss average
   raises, every accumulator is reset, whether or not a checkpoint was saved,
   and the reported reward average is the window's reward total over test_step.
   */
  lemma WindowCloses(c: Config, s: LoopState, step: int, inp: StepInput)
    requires WellFormed(c)
    ensures var (out, s') := StepSpec(c, s, step, inp);
      var mid := StepAcc(AtLearnStart(c, step, s.acc), inp);
      && (out.Continued? <==> !IsWindowEnd(c, step))
      && (out.DivisionByZero? <==> IsWindowEnd(c, step) && mid.updateCount == 0)
      && (out.WindowClosed? ==>
            && s'.acc == Cleared
            && out.report.avgReward * (c.testStep as real) == mid.totalReward as real
            && out.report.avgLoss * (mid.updateCount as real) == mid.totalLoss
            && out.report.avgQ * (mid.updateCount as real) == mid.totalQ
            && out.report.episodes == EpisodeStats(mid.epRewards)
            && out.report.numGame == mid.numGame)
  {
    var s1 := s.(acc := StepAcc(AtLearnStart(c, step, s.acc), inp));
    assert StepSpec(c, s, step, inp) == CloseWindow(c, s1, step);
    CloseWindowReports(c, s1, step);
  }

  /** WindowCloses for the window-end part alone, on the accumulators the step has already updated. */
  lemma CloseWindowReports(c: Config, s: LoopState, step: int)
    requires WellFormed(c)
    ensures var (out, s') := CloseWindow(c, s, step);
      && (out.Continued? <==> !IsWindowEnd(c, step))
      && (out.DivisionByZero? <==> IsWindowEnd(c, step) && s.acc.updateCount == 0)
      && (out.WindowClosed? ==>
            && s'.acc == Cleared
            && out.report.avgReward * (c.testStep as real) == s.acc.totalReward as real
            && out.report.avgLoss * (s.acc.updateCount as real) == s.acc.totalLoss
            && out.report.avgQ * (s.acc.updateCount as real) == s.acc.totalQ
            && out.report.episodes == EpisodeStats(s.acc.epRewards)
            && out.report.numGame == s.acc.numGame)
  {
    var a := s.acc;
    if IsWindowEnd(c, step) && a.updateCount != 0 {
      QuotientCancels(a.totalReward, c.testStep);
      DivCancels(a.totalLoss, a.updateCount as real);
      DivCancels(a.totalQ, a.updateCount as real);
    }
  }

  /**
   A checkpoint of step + 1 is saved exactly when a window closes with an
   average episode reward at least 0.9 times the best; the best then becomes
   the larger of the two and otherwise stays.
   */
  lemma CheckpointRule(c: Config, s: LoopState, step: int, inp: StepInput)
    requires WellFormed(c)
    ensures var (out, s') := StepSpec(c, s, step, inp);
      && (s'.saved != s.saved <==> out.WindowClosed? && out.checkpointed)
      && (out.WindowClosed? ==> out.checkpointed == Tolerated(s.best, out.report.episodes.avgReward))
      && (out.WindowClosed? && out.checkpointed ==>
            s'.saved == s.saved + [step + 1] && s'.best == Max(s.best, out.report.episodes.avgReward))
      && (!(out.WindowClosed? && out.checkpointed) ==> s'.saved == s.saved && s'.best == s.best)
      && s'.best >= s.best
  {
  }

  /** Telemetry is emitted only for a window that closes after step 180, with that window's lists. */
  lemma TelemetryRule(c: Config, s: LoopState, step: int, inp: StepInput)
    requires WellFormed(c)
    ensures var (out, s') := StepSpec(c, s, step, inp);
      var mid := StepAcc(AtLearnStart(c, step, s.acc), inp);
      if out.WindowClosed? && step > 180 then
        s'.summaries == s.summaries + [Summary(step, out.report, mid.epRewards, mid.actions)]
      else
        s'.summaries == s.summaries
  {
  }

  /** A window in which no episode finished reports 0, so it is saved only while the best is still 0. */
  lemma EmptyWindowCheckpoint(c: Config, s: LoopState, step: int, inp: StepInput)
    requires WellFormed(c) && Valid(s)
    ensures var (out, s') := StepSpec(c, s, step, inp);
      out.WindowClosed? && out.report.numGame == 0 ==>
        out.report.episodes == EpisodeSummary(0, 0, 0.0) && (out.checkpointed <==> s.best == 0.0)
  {
  }

  // ----- The checkpoint rule over a sequence of windows -----

  /** The best value after windows whose average episode rewards are avgs, in order, starting from best. */
  function BestAfter(best: real, avgs: seq<real>): real
    decreases |avgs|
  {
    if avgs == [] then best
    else
      var b := BestAfter(best, avgs[..|avgs| - 1]);
      var avg := avgs[|avgs| - 1];
      if Tolerated(b, avg) then Max(b, avg) else b
  }

  /** The save decision of each of those windows. */
  function Decisions(best: real, avgs: seq<real>): seq<bool>
    decreases |avgs|
  {
    if avgs == [] then []
    else
      var init := avgs[..|avgs| - 1];
      Decisions(best, init) + [Tolerated(BestAfter(best, init), avgs[|avgs| - 1])]
  }

  /** The larger of best and every element of avgs. */
  function MaxAll(best: real, avgs: seq<real>): real
    decreases |avgs|
  {
    if avgs == [] then best else Max(MaxAll(best, avgs[..|avgs| - 1]), avgs[|avgs| - 1])
  }

  /**
   From a non-negative start the tolerant rule still ends at the plain running
   maximum: a window it skips was below 0.9 times a non-negative best, so it
   could not have raised the bar. One decision is made per window.
   */
  lemma {:induction false} RatchetIsRunningMax(best: real, avgs: seq<real>)
    requires best >= 0.0
    ensures |Decisions(best, avgs)| == |avgs|
    ensures BestAfter(best, avgs) == MaxAll(best, avgs) >= best
  {
    if avgs != [] {
      RatchetIsRunningMax(best, avgs[..|avgs| - 1]);
    }
  }

  /** While every window's average episode reward is negative, a best that starts at 0 stays 0 and nothing is saved. */
  lemma {:induction false} NoCheckpointWhileNegative(avgs: seq<real>)
    requires forall i :: 0 <= i < |avgs| ==> avgs[i] < 0.0
    ensures BestAfter(0.0, avgs) == 0.0
    ensures Decisions(0.0, avgs) == seq(|avgs|, i => false)
  {
    if avgs != [] {
      var n := |avgs|;
      assert forall i :: 0 <= i < n - 1 ==> avgs[..n - 1][i] == avgs[i];
      NoCheckpointWhileNegative(avgs[..n - 1]);
      assert !Tolerated(0.0, avgs[n - 1]);
      assert seq(n - 1, i => false) + [false] == seq(n, i => false);
    }
  }

  /** Window averages 10, 8, 11, 9, 12 from a best of 0: saved at the first, third and fifth window. */
  lemma CheckpointExample()
    ensures Decisions(0.0, [10.0, 8.0, 11.0, 9.0, 12.0]) == [true, false, true, false, true]
    ensures BestAfter(0.0, [10.0, 8.0, 11.0, 9.0, 12.0]) == 12.0
  {
    var avgs := [10.0, 8.0, 11.0, 9.0, 12.0];
    assert avgs[..1][..0] == [];
    assert BestAfter(0.0, avgs[..1]) == 10.0 && Decisions(0.0, avgs[..1]) == [true];
    assert avgs[..2][..1] == avgs[..1];
    assert BestAfter(0.0, avgs[..2]) == 10.0 && Decisions(0.0, avgs[..2]) == [true, false];
    assert avgs[..3][..2] == avgs[..2];
    assert BestAfter(0.0, avgs[..3]) == 11.0 && Decisions(0.0, avgs[..3]) == [true, false, true];
    assert avgs[..4][..3] == avgs[..3];
    assert BestAfter(0.0, avgs[..4]) == 11.0 && Decisions(0.0, avgs[..4]) == [true, false, true, false];
    assert avgs[..5][..4] == avgs[..4];
    assert avgs[..5] == avgs;
  }

  /** One decision is made per window, whatever the starting best. */
  lemma {:induction false} DecisionsLength(best: real, avgs: seq<real>)
    ensures |Decisions(best, avgs)| == |avgs|
  {
    if avgs != [] {
      DecisionsLength(best, avgs[..|avgs| - 1]);
    }
  }

  /** One more window applies the checkpoint rule once more to the best so far. */
  lemma RatchetAppend(best: real, avgs: seq<real>, avg: real)
    ensures var b := BestAfter(best, avgs);
      && BestAfter(best, avgs + [avg]) == (if Tolerated(b, avg) then Max(b, avg) else b)
      && Decisions(best, avgs + [avg]) == Decisions(best, avgs) + [Tolerated(b, avg)]
  {
    assert (avgs + [avg])[..|avgs|] == avgs;
  }

  /** Along the windows the best never falls: every prefix ends at or above the start and at or below the whole. */
  lemma {:induction false} BestAfterNeverFalls(best: real, avgs: seq<real>, k: nat)
    requires k <= |avgs|
    ensures best <= BestAfter(best, avgs[..k]) <= BestAfter(best, avgs)
    decreases |avgs|
  {
    if avgs == [] {
      assert avgs[..k] == [];
    } else {
      var init := avgs[..|avgs| - 1];
      if k == |avgs| {
        assert avgs[..k] == avgs && init[..|init|] == init;
        BestAfterNeverFalls(best, init, |init|);
      } else {
        assert avgs[..k] == init[..k];
        BestAfterNeverFalls(best, init, k);
      }
    }
  }

  /**
   The loop's own iteration follows the list version of the rule: a closing
   window moves the best as BestAfter of its single mean does, saves exactly
   when Decisions says so, and any other iteration leaves best and saves alone.
   */
  lemma StepFollowsRatchet(c: Config, s: LoopState, step: int, inp: StepInput)
    requires WellFormed(c)
    ensures var (out, s') := StepSpec(c, s, step, inp);
      if out.WindowClosed? then
        var avg := out.report.episodes.avgReward;
        && s'.best == BestAfter(s.best, [avg])
        && Decisions(s.best, [avg]) == [out.checkpointed]
        && s'.saved == s.saved + (if out.checkpointed then [step + 1] else [])
      else
        s'.best == s.best && s'.saved == s.saved
  {
    var out := StepSpec(c, s, step, inp).0;
    CheckpointRule(c, s, step, inp);
    if out.WindowClosed? {
      RatchetAppend(s.best, [], out.report.episodes.avgReward);
    }
  }

  // ----- Properties of whole runs -----

  /** The actions of a sequence of inputs, in order. */
  function Actions(inputs: seq<StepInput>): seq<int>
    decreases |inputs|
  {
    if inputs == [] then [] else Actions(inputs[..|inputs| - 1]) + [inputs[|inputs| - 1].action]
  }

  /** The sum of the counted rewards of a sequence of inputs. */
  function RewardSum(inputs: seq<StepInput>): int
    decreases |inputs|
  {
    if inputs == [] then 0 else RewardSum(inputs[..|inputs| - 1]) + CountedReward(inputs[|inputs| - 1])
  }

  /** The number of training updates agent.observe reports over a sequence of inputs. */
  function UpdateSum(inputs: seq<StepInput>): nat
    decreases |inputs|
  {
    if inputs == [] then 0 else UpdateSum(inputs[..|inputs| - 1]) + inputs[|inputs| - 1].observed.updates
  }

  /** The accumulators after a sequence of steps that neither reset nor close a window. */
  function Accumulate(a: Accumulators, inputs: seq<StepInput>): Accumulators
    decreases |inputs|
  {
    if inputs == [] then a else StepAcc(Accumulate(a, inputs[..|inputs| - 1]), inputs[|inputs| - 1])
  }

  /**
   Between resets, the action list is exactly the steps' actions, the window
   total is exactly the sum of their rewards, the update counter sums the
   updates, and the game counter keeps matching the episode list.
   */
  lemma {:induction false} AccumulateTotals(a: Accumulators, inputs: seq<StepInput>)
    ensures var a' := Accumulate(a, inputs);
      && |Actions(inputs)| == |inputs|
      && a'.actions == a.actions + Actions(inputs)
      && a'.totalReward == a.totalReward + RewardSum(inputs)
      && a'.updateCount == a.updateCount + UpdateSum(inputs)
      && |a'.epRewards| - |a.epRewards| == a'.numGame - a.numGame
  {
    if inputs != [] {
      AccumulateTotals(a, inputs[..|inputs| - 1]);
    }
  }

  /** A run that meets neither learn_start (except at its start, on cleared accumulators) nor a window end. */
  lemma {:induction false} QuietRun(c: Config, s: LoopState, first: int, inputs: seq<StepInput>)
    requires WellFormed(c)
    requires forall t :: first <= t < first + |inputs| ==> !IsWindowEnd(c, t)
    requires first <= c.learnStart < first + |inputs| ==> c.learnStart == first && s.acc == Cleared
    ensures Run(c, s, first, inputs) == (false, s.(acc := Accumulate(s.acc, inputs)))
  {
    if inputs != [] {
      var n := |inputs|;
      QuietRun(c, s, first, inputs[..n - 1]);
      var a := Accumulate(s.acc, inputs[..n - 1]);
      if first + n - 1 == c.learnStart {
        assert n == 1 && a == Cleared;
      }
    }
  }

  /** Steps first, ..., first + T - 1 of a window starting at a multiple of T: only the last one ends it. */
  lemma WindowSteps(c: Config, first: int)
    requires WellFormed(c) && c.learnStart <= first && first % c.testStep == 0
    ensures forall t :: first <= t < first + c.testStep - 1 ==> !IsWindowEnd(c, t)
    ensures IsWindowEnd(c, first + c.testStep - 1)
  {
    var T := c.testStep;
    var q := first / T;
    assert first == q * T;
    forall t | first <= t < first + T
      ensures t % T == t - first
    {
      DivMod(q, T, t - first);
    }
  }

  /** At learn_start the accumulators a run starts from have no effect on it. */
  lemma {:induction false} RunFromLearnStart(c: Config, s: LoopState, inputs: seq<StepInput>)
    requires WellFormed(c)
    ensures Run(c, s, c.learnStart, inputs).1 == Run(c, s.(acc := Cleared), c.learnStart, inputs).1 || inputs == []
    ensures Run(c, s, c.learnStart, inputs).0 == Run(c, s.(acc := Cleared), c.learnStart, inputs).0
  {
    if |inputs| > 1 {
      RunFromLearnStart(c, s, inputs[..|inputs| - 1]);
    } else if |inputs| == 1 {
      LearnStartForgets(c, s, inputs[0]);
      assert inputs[..0] == [];
    }
  }

  /**
   A full evaluation window: test_step steps starting at a multiple of
   test_step, on cleared accumulators (or at learn_start, which clears them).
   It raises if and only if agent.observe reported no update in the whole
   window; otherwise it ends with every accumulator reset.
   */
  lemma FullWindowCloses(c: Config, s: LoopState, first: int, inputs: seq<StepInput>)
    requires WellFormed(c) && c.learnStart <= first && first % c.testStep == 0
    requires s.acc == Cleared || first == c.learnStart
    requires |inputs| == c.testStep
    ensures var r := Run(c, s, first, inputs);
      && (r.0 <==> UpdateSum(inputs) == 0)
      && (!r.0 ==> r.1.acc == Cleared)
  {
    var s1 := WindowShape(c, s, first, inputs);
    AccumulateTotals(Cleared, inputs);
    ClosingStep(c, s1, first + c.testStep - 1, inputs[c.testStep - 1]);
  }

  /**
   The payload such a window emits after step 180 carries exactly the
   window's test_step actions, and its reward average is the sum of exactly
   those steps' rewards over test_step; up to step 180 nothing is emitted.
   */
  lemma FullWindowReports(c: Config, s: LoopState, first: int, inputs: seq<StepInput>)
    requires WellFormed(c) && c.learnStart <= first && first % c.testStep == 0
    requires s.acc == Cleared || first == c.learnStart
    requires |inputs| == c.testStep
    ensures var r := Run(c, s, first, inputs);
      var last := first + c.testStep - 1;
      && (!r.0 && last > 180 ==>
            && |r.1.summaries| == |s.summaries| + 1
            && r.1.summaries[|s.summaries|].step == last
            && r.1.summaries[|s.summaries|].actions == Actions(inputs)
            && |Actions(inputs)| == c.testStep
            && r.1.summaries[|s.summaries|].report.avgReward == Quotient(RewardSum(inputs), c.testStep))
      && (!r.0 && last <= 180 ==> r.1.summaries == s.summaries)
  {
    var T := c.testStep;
    var s1 := WindowShape(c, s, first, inputs);
    ClosingWindowReports(c, s1, first + T - 1, inputs);
  }

  /** FullWindowReports for the closing step alone, given the accumulators the quiet steps built. */
  lemma ClosingWindowReports(c: Config, s1: LoopState, last: int, inputs: seq<StepInput>)
    requires WellFormed(c) && IsWindowEnd(c, last) && |inputs| == c.testStep
    requires StepAcc(AtLearnStart(c, last, s1.acc), inputs[c.testStep - 1]) == Accumulate(Cleared, inputs)
    ensures var next := StepSpec(c, s1, last, inputs[c.testStep - 1]);
      && (!next.0.DivisionByZero? && last > 180 ==>
            && |next.1.summaries| == |s1.summaries| + 1
            && next.1.summaries[|s1.summaries|].step == last
            && next.1.summaries[|s1.summaries|].actions == Actions(inputs)
            && |Actions(inputs)| == c.testStep
            && next.1.summaries[|s1.summaries|].report.avgReward == Quotient(RewardSum(inputs), c.testStep))
      && (!next.0.DivisionByZero? && last <= 180 ==> next.1.summaries == s1.summaries)
  {
    AccumulateTotals(Cleared, inputs);
    ClosingStep(c, s1, last, inputs[c.testStep - 1]);
  }

  /**
   Such a window is quiet up to its last step, which is a window end: the run
   is that last step applied to the state the quiet steps leave.
   */
  lemma WindowShape(c: Config, s: LoopState, first: int, inputs: seq<StepInput>) returns (s1: LoopState)
    requires WellFormed(c) && c.learnStart <= first && first % c.testStep == 0
    requires s.acc == Cleared || first == c.learnStart
    requires |inputs| == c.testStep
    ensures s1.best == s.best && s1.saved == s.saved && s1.summaries == s.summaries
    ensures IsWindowEnd(c, first + c.testStep - 1)
    ensures StepAcc(AtLearnStart(c, first + c.testStep - 1, s1.acc), inputs[c.testStep - 1])
         == Accumulate(Cleared, inputs)
    ensures var next := StepSpec(c, s1, first + c.testStep - 1, inputs[c.testStep - 1]);
      Run(c, s, first, inputs) == (next.0.DivisionByZero?, next.1)
  {
    var T := c.testStep;
    var init := inputs[..T - 1];
    var r := QuietPrefix(c, s, first, inputs);
    s1 := r.1;
    RunLastStep(c, s, first, inputs);
  }

  /** The run over all inputs is the run over all but the last, then the last step. */
  lemma RunLastStep(c: Config, s: LoopState, first: int, inputs: seq<StepInput>)
    requires WellFormed(c) && inputs != []
    ensures var n := |inputs|;
      var prev := Run(c, s, first, inputs[..n - 1]);
      var next := StepSpec(c, prev.1, first + n - 1, inputs[n - 1]);
      Run(c, s, first, inputs) == if prev.0 then prev else (next.0.DivisionByZero?, next.1)
  {
  }

  /**
   The first test_step - 1 steps of a window that starts at a multiple of
   test_step are quiet, and its last step is a window end that accumulates
   on top of them.
   */
  lemma QuietPrefix(c: Config, s: LoopState, first: int, inputs: seq<StepInput>) returns (r: (bool, LoopState))
    requires WellFormed(c) && c.learnStart <= first && first % c.testStep == 0
    requires s.acc == Cleared || first == c.learnStart
    requires |inputs| == c.testStep
    ensures r == Run(c, s, first, inputs[..c.testStep - 1]) && !r.0
    ensures r.1.best == s.best && r.1.saved == s.saved && r.1.summaries == s.summaries
    ensures IsWindowEnd(c, first + c.testStep - 1)
    ensures StepAcc(AtLearnStart(c, first + c.testStep - 1, r.1.acc), inputs[c.testStep - 1])
         == Accumulate(Cleared, inputs)
  {
    var T := c.testStep;
    var init := inputs[..T - 1];
    var s0 := s.(acc := Cleared);
    WindowSteps(c, first);
    r := Run(c, s, first, init);
    if init == [] {
      assert r == (false, s);
      assert inputs == [inputs[0]];
      assert Accumulate(Cleared, inputs) == StepAcc(Cleared, inputs[0]);
    } else {
      QuietRun(c, s0, first, init);
      if first == c.learnStart {
        RunFromLearnStart(c, s, init);
      }
      assert r == (false, s0.(acc := Accumulate(Cleared, init)));
      assert init + [inputs[T - 1]] == inputs;
    }
  }

  /** The step that closes a window: what it reports, emits and leaves. */
  lemma ClosingStep(c: Config, s1: LoopState, last: int, inp: StepInput)
    requires WellFormed(c) && IsWindowEnd(c, last)
    ensures var next := StepSpec(c, s1, last, inp);
      var mid := StepAcc(AtLearnStart(c, last, s1.acc), inp);
      && (next.0.DivisionByZero? <==> mid.updateCount == 0)
      && (!next.0.DivisionByZero? ==> next.0.WindowClosed? && next.1.acc == Cleared)
      && (next.0.WindowClosed? && last > 180 ==>
            && |next.1.summaries| == |s1.summaries| + 1
            && next.1.summaries[|s1.summaries|] == Summary(last, next.0.report, mid.epRewards, mid.actions)
            && next.0.report.avgReward == Quotient(mid.totalReward, c.testStep))
      && (next.0.WindowClosed? && last <= 180 ==> next.1.summaries == s1.summaries)
  {
    TelemetryRule(c, s1, last, inp);
  }

  /** A step either leaves a log alone or appends one entry for a window end step. */
  lemma StepLogs(c: Config, s: LoopState, step: int, inp: StepInput)
    requires WellFormed(c)
    ensures var s' := StepSpec(c, s, step, inp).1;
      && (s'.saved == s.saved || (s'.saved == s.saved + [step + 1] && IsWindowEnd(c, step)))
      && (s'.summaries == s.summaries
          || (s'.summaries == s.summaries + [s'.summaries[|s.summaries|]]
              && s'.summaries[|s.summaries|].step == step && step > 180 && IsWindowEnd(c, step)))
  {
    CheckpointRule(c, s, step, inp);
    WindowCloses(c, s, step, inp);
    TelemetryRule(c, s, step, inp);
  }

  /** The last step of a run either leaves a log alone or appends one entry for a window end step. */
  lemma RunLogs(c: Config, s: LoopState, first: int, inputs: seq<StepInput>)
    requires WellFormed(c) && inputs != []
    ensures var n := |inputs|;
      var prev, cur := Run(c, s, first, inputs[..n - 1]), Run(c, s, first, inputs).1;
      && (prev.0 ==> cur == prev.1)
      && (cur.saved == prev.1.saved || (cur.saved == prev.1.saved + [first + n] && IsWindowEnd(c, first + n - 1)))
      && (cur.summaries == prev.1.summaries
          || (|cur.summaries| == |prev.1.summaries| + 1
              && cur.summaries == prev.1.summaries + [cur.summaries[|prev.1.summaries|]]
              && cur.summaries[|prev.1.summaries|].step == first + n - 1
              && first + n - 1 > 180 && IsWindowEnd(c, first + n - 1)))
  {
    var n := |inputs|;
    var prev := Run(c, s, first, inputs[..n - 1]);
    if !prev.0 {
      StepLogs(c, prev.1, first + n - 1, inputs[n - 1]);
    }
  }

  /** Over a run the best value never decreases. */
  lemma {:induction false} RunBestNeverDecreases(c: Config, s: LoopState, first: int, inputs: seq<StepInput>)
    requires WellFormed(c)
    ensures Run(c, s, first, inputs).1.best >= s.best
  {
    if inputs != [] {
      var n := |inputs|;
      RunBestNeverDecreases(c, s, first, inputs[..n - 1]);
      var prev := Run(c, s, first, inputs[..n - 1]);
      if !prev.0 {
        CheckpointRule(c, prev.1, first + n - 1, inputs[n - 1]);
      }
    }
  }

  /** A run only appends to the list of saved steps. */
  lemma {:induction false} RunSavesAppend(c: Config, s: LoopState, first: int, inputs: seq<StepInput>)
    requires WellFormed(c)
    ensures var s' := Run(c, s, first, inputs).1;
      |s.saved| <= |s'.saved| && s'.saved[..|s.saved|] == s.saved
  {
    if inputs != [] {
      var n := |inputs|;
      RunSavesAppend(c, s, first, inputs[..n - 1]);
      RunLogs(c, s, first, inputs);
      AppendKeepsPrefix(s.saved, Run(c, s, first, inputs[..n - 1]).1.saved, Run(c, s, first, inputs).1.saved, first + n);
    }
  }


  /** Appending at most one element to a list keeps every prefix it had. */
  lemma AppendKeepsPrefix<T>(p: seq<T>, a: seq<T>, a': seq<T>, x: T)
    requires |p| <= |a| && a[..|p|] == p
    requires a' == a || a' == a + [x]
    ensures |p| <= |a'| && a'[..|p|] == p
  {
    if a' != a {
      assert a'[..|p|] == a[..|p|];
    }
  }

  /** Every entry of saved from index from on is t + 1 for a window end step t with lo <= t < hi. */
  predicate SavedAtWindowEnds(c: Config, saved: seq<int>, from: nat, lo: int, hi: int)
    requires WellFormed(c)
  {
    forall k :: from <= k < |saved| ==> lo < saved[k] <= hi && IsWindowEnd(c, saved[k] - 1)
  }

  /** Every step a run saves is step + 1 for a window end step inside the run. */
  lemma {:induction false} RunSavesAtWindowEnds(c: Config, s: LoopState, first: int, inputs: seq<StepInput>)
    requires WellFormed(c)
    ensures SavedAtWindowEnds(c, Run(c, s, first, inputs).1.saved, |s.saved|, first, first + |inputs|)
  {
    if inputs != [] {
      var n := |inputs|;
      RunSavesAtWindowEnds(c, s, first, inputs[..n - 1]);
      RunLogs(c, s, first, inputs);
      SavedExtend(c, Run(c, s, first, inputs[..n - 1]).1.saved, Run(c, s, first, inputs).1.saved,
                  |s.saved|, first, first + n);
    }
  }


  lemma SavedExtend(c: Config, saved: seq<int>, saved': seq<int>, from: nat, lo: int, hi: int)
    requires WellFormed(c) && lo < hi
    requires SavedAtWindowEnds(c, saved, from, lo, hi - 1)
    requires saved' == saved || (saved' == saved + [hi] && IsWindowEnd(c, hi - 1))
    ensures SavedAtWindowEnds(c, saved', from, lo, hi)
  {
    forall k | from <= k < |saved'|
      ensures lo < saved'[k] <= hi && IsWindowEnd(c, saved'[k] - 1)
    {
      if k < |saved| {
        assert saved'[k] == saved[k];
      }
    }
  }

  /** Every payload of summaries from index from on is keyed by a window end step past 180 with lo <= step < hi. */
  predicate EmittedAtWindowEnds(c: Config, summaries: seq<Summary>, from: nat, lo: int, hi: int)
    requires WellFormed(c)
  {
    forall k :: from <= k < |summaries| ==>
      lo <= summaries[k].step < hi && summaries[k].step > 180 && IsWindowEnd(c, summaries[k].step)
  }

  /**
   A run only appends to the list of telemetry payloads, and every payload it
   emits is keyed by a window end step inside the run that is past step 180.
   */
  lemma {:induction false} RunEmits(c: Config, s: LoopState, first: int, inputs: seq<StepInput>)
    requires WellFormed(c)
    ensures var s' := Run(c, s, first, inputs).1;
      && |s.summaries| <= |s'.summaries| && s'.summaries[..|s.summaries|] == s.summaries
      && EmittedAtWindowEnds(c, s'.summaries, |s.summaries|, first, first + |inputs|)
  {
    if inputs != [] {
      var n := |inputs|;
      RunEmits(c, s, first, inputs[..n - 1]);
      RunLogs(c, s, first, inputs);
      var sums, sums' := Run(c, s, first, inputs[..n - 1]).1.summaries, Run(c, s, first, inputs).1.summaries;
      EmitsExtend(c, s.summaries, sums, sums', first, first + n);
    }
  }

  /** RunEmits for one more step, on the payload lists alone. */
  lemma EmitsExtend(c: Config, base: seq<Summary>, sums: seq<Summary>, sums': seq<Summary>, lo: int, hi: int)
    requires WellFormed(c) && lo < hi
    requires |base| <= |sums| && sums[..|base|] == base
    requires EmittedAtWindowEnds(c, sums, |base|, lo, hi - 1)
    requires sums' == sums
      || (|sums'| == |sums| + 1 && sums' == sums + [sums'[|sums|]]
          && sums'[|sums|].step == hi - 1 && hi - 1 > 180 && IsWindowEnd(c, hi - 1))
    ensures |base| <= |sums'| && sums'[..|base|] == base
    ensures EmittedAtWindowEnds(c, sums', |base|, lo, hi)
  {
    if sums' != sums {
      AppendKeepsPrefix(base, sums, sums', sums'[|sums|]);
    }
    SummariesExtend(c, sums, sums', |base|, lo, hi);
  }


  lemma SummariesExtend(c: Config, sums: seq<Summary>, sums': seq<Summary>, from: nat, lo: int, hi: int)
    requires WellFormed(c) && lo < hi
    requires EmittedAtWindowEnds(c, sums, from, lo, hi - 1)
    requires sums' == sums
      || (|sums'| == |sums| + 1 && sums' == sums + [sums'[|sums|]]
          && sums'[|sums|].step == hi - 1 && hi - 1 > 180 && IsWindowEnd(c, hi - 1))
    ensures EmittedAtWindowEnds(c, sums', from, lo, hi)
  {
    forall k | from <= k < |sums'|
      ensures lo <= sums'[k].step < hi && sums'[k].step > 180 && IsWindowEnd(c, sums'[k].step)
    {
      if k < |sums| {
        assert sums'[k] == sums[k];
      }
    }
  }

  /** Once a run has raised, the remaining inputs change nothing. */
  lemma {:induction false} RunHalts(c: Config, s: LoopState, first: int, inputs: seq<StepInput>, k: nat)
    requires WellFormed(c) && k <= |inputs|
    requires Run(c, s, first, inputs[..k]).0
    ensures Run(c, s, first, inputs) == Run(c, s, first, inputs[..k])
    decreases |inputs|
  {
    var n := |inputs|;
    if k < n {
      assert inputs[..n - 1][..k] == inputs[..k];
      RunHalts(c, s, first, inputs[..n - 1], k);
      RunStopped(c, s, first, inputs);
    } else {
      assert inputs[..k] == inputs;
    }
  }

  /** A run whose prefix has raised ignores its last input. */
  lemma RunStopped(c: Config, s: LoopState, first: int, inputs: seq<StepInput>)
    requires WellFormed(c) && inputs != [] && Run(c, s, first, inputs[..|inputs| - 1]).0
    ensures Run(c, s, first, inputs) == Run(c, s, first, inputs[..|inputs| - 1])
  {
  }

  /** A window the loop closed: its last step and its mean episode reward. */
  datatype ClosedWindow = ClosedWindow(step: int, mean: real)

  /** The windows a run closes, in order. */
  function ClosedWindows(c: Config, s: LoopState, first: int, inputs: seq<StepInput>): seq<ClosedWindow>
    requires WellFormed(c)
    decreases |inputs|
  {
    if inputs == [] then []
    else
      var n := |inputs|;
      var prev := Run(c, s, first, inputs[..n - 1]);
      var ws := ClosedWindows(c, s, first, inputs[..n - 1]);
      if prev.0 then ws
      else
        var out := StepSpec(c, prev.1, first + n - 1, inputs[n - 1]).0;
        if out.WindowClosed? then ws + [ClosedWindow(first + n - 1, out.report.episodes.avgReward)] else ws
  }

  /** The mean episode rewards of a list of closed windows. */
  function Means(ws: seq<ClosedWindow>): seq<real>
    decreases |ws|
  {
    if ws == [] then [] else Means(ws[..|ws| - 1]) + [ws[|ws| - 1].mean]
  }

  /** The steps handed to save_model for windows whose decision is true: the window's last step + 1. */
  function Selected(ws: seq<ClosedWindow>, ds: seq<bool>): seq<int>
    requires |ws| == |ds|
    decreases |ws|
  {
    if ws == [] then []
    else
      var n := |ws|;
      Selected(ws[..n - 1], ds[..n - 1]) + (if ds[n - 1] then [ws[n - 1].step + 1] else [])
  }

  /** The last step of a run either closes no window, leaving best and saves, or closes one and applies the rule. */
  lemma RunLastWindow(c: Config, s: LoopState, first: int, inputs: seq<StepInput>)
    requires WellFormed(c) && inputs != []
    ensures var n := |inputs|;
      var prev, ws0 := Run(c, s, first, inputs[..n - 1]).1, ClosedWindows(c, s, first, inputs[..n - 1]);
      var r, ws := Run(c, s, first, inputs).1, ClosedWindows(c, s, first, inputs);
      || (ws == ws0 && r.best == prev.best && r.saved == prev.saved)
      || (|ws| == |ws0| + 1 && ws == ws0 + [ws[|ws0|]] && ws[|ws0|].step == first + n - 1
          && RatchetMoves(prev.best, prev.saved, ws[|ws0|], r.best, r.saved))
  {
    var n := |inputs|;
    var prev := Run(c, s, first, inputs[..n - 1]);
    if !prev.0 {
      var next := StepSpec(c, prev.1, first + n - 1, inputs[n - 1]);
      assert Run(c, s, first, inputs) == (next.0.DivisionByZero?, next.1);
      StepWindow(c, prev.1, first + n - 1, inputs[n - 1]);
    } else {
      assert Run(c, s, first, inputs) == prev;
    }
  }

  /** StepFollowsRatchet in the form the run-level proof uses. */
  lemma StepWindow(c: Config, s: LoopState, step: int, inp: StepInput)
    requires WellFormed(c)
    ensures var (out, s') := StepSpec(c, s, step, inp);
      if out.WindowClosed? then
        RatchetMoves(s.best, s.saved, ClosedWindow(step, out.report.episodes.avgReward), s'.best, s'.saved)
      else
        s'.best == s.best && s'.saved == s.saved
  {
    CheckpointRule(c, s, step, inp);
  }

  /** One application of the checkpoint rule to the window w: the best and saves before and after. */
  predicate RatchetMoves(best: real, saved: seq<int>, w: ClosedWindow, best': real, saved': seq<int>)
  {
    var fire := Tolerated(best, w.mean);
    && best' == (if fire then Max(best, w.mean) else best)
    && saved' == saved + (if fire then [w.step + 1] else [])
  }

  /**
   Over a whole run the loop's best value is BestAfter of the means of the
   windows it closed, and the steps it saved are exactly those windows' last
   steps + 1 that Decisions selects. With CheckpointExample and
   RatchetIsRunningMax this carries the list facts over to the loop.
   */
  lemma {:induction false} RunFollowsRatchet(c: Config, s: LoopState, first: int, inputs: seq<StepInput>)
    requires WellFormed(c)
    ensures var r, ws := Run(c, s, first, inputs).1, ClosedWindows(c, s, first, inputs);
      && |Decisions(s.best, Means(ws))| == |ws|
      && r.best == BestAfter(s.best, Means(ws))
      && r.saved == s.saved + Selected(ws, Decisions(s.best, Means(ws)))
  {
    var ws := ClosedWindows(c, s, first, inputs);
    DecisionsLength(s.best, Means(ws));
    if inputs != [] {
      var n := |inputs|;
      RunFollowsRatchet(c, s, first, inputs[..n - 1]);
      RunLastWindow(c, s, first, inputs);
      var ws0 := ClosedWindows(c, s, first, inputs[..n - 1]);
      if ws != ws0 {
        var prev, r := Run(c, s, first, inputs[..n - 1]).1, Run(c, s, first, inputs).1;
        RatchetExtend(s.best, s.saved, ws0, ws[|ws0|], prev.best, prev.saved, r.best, r.saved);
      }
    }
  }

  /** One more closed window extends the list form of the ratchet by one application of the rule. */
  lemma RatchetExtend(best: real, saved: seq<int>, ws: seq<ClosedWindow>, w: ClosedWindow,
                      b0: real, s0: seq<int>, b1: real, s1: seq<int>)
    requires |Decisions(best, Means(ws))| == |ws|
    requires b0 == BestAfter(best, Means(ws)) && s0 == saved + Selected(ws, Decisions(best, Means(ws)))
    requires RatchetMoves(b0, s0, w, b1, s1)
    ensures |Decisions(best, Means(ws + [w]))| == |ws + [w]|
    ensures b1 == BestAfter(best, Means(ws + [w]))
    ensures s1 == saved + Selected(ws + [w], Decisions(best, Means(ws + [w])))
  {
    MeansAppend(ws, w);
    RatchetAppend(best, Means(ws), w.mean);
    SelectedAppend(ws, Decisions(best, Means(ws)), w, Tolerated(b0, w.mean));
  }

  lemma MeansAppend(ws: seq<ClosedWindow>, w: ClosedWindow)
    ensures Means(ws + [w]) == Means(ws) + [w.mean]
  {
    assert (ws + [w])[..|ws|] == ws;
  }

  lemma SelectedAppend(ws: seq<ClosedWindow>, ds: seq<bool>, w: ClosedWindow, d: bool)
    requires |ws| == |ds|
    ensures Selected(ws + [w], ds + [d]) == Selected(ws, ds) + (if d then [w.step + 1] else [])
  {
    assert (ws + [w])[..|ws|] == ws;
    assert (ds + [d])[..|ds|] == ds;
  }

  /** Every run keeps the loop's invariant. */
  lemma {:induction false} RunPreservesValid(c: Config, s: LoopState, first: int, inputs: seq<StepInput>)
    requires WellFormed(c) && Valid(s)
    ensures Valid(Run(c, s, first, inputs).1)
  {
    if inputs != [] {
      var n := |inputs|;
      RunPreservesValid(c, s, first, inputs[..n - 1]);
      var prev := Run(c, s, first, inputs[..n - 1]);
      if !prev.0 {
        StepPreservesValid(c, prev.1, first + n - 1, inputs[n - 1]);
      }
    }
  }
}
