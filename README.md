# Training-loop bookkeeping and frame conversion of DQN-2Player-Coop

This project models two parts of `main.py`, the entry point that trains a
Deep Q-Network agent on a two-player Pong ROM through the Arcade Learning
Environment:

- **The bookkeeping of the training loop** (`main.py:117-243`). Each step does
  the following:
  - at `learn_start`, it clears every accumulator;
  - it lets the agent observe;
  - it closes the running episode on a game over or adds the reward to it;
  - it records the action and adds the reward to the window total.
  
  At the last step of every evaluation window at or after `learn_start` (`step %
  test_step == test_step - 1`), the loop computes the window's averages and
  the max/min/mean of the finished episodes' rewards. It saves a checkpoint
  when the mean is at least 0.9 times the best mean so far, and then raises
  the best to the larger of the two. It emits telemetry after step 180, then
  clears every accumulator.
- **The frame conversion `getRgbFromPalette`** (`main.py:53-76`). It fills an
  8-bit pygame surface pixel by pixel, in place, from the planar red/green/blue
  buffer the emulator produces. It returns the same buffer reshaped to
  `(3, height, width)` with axis 0 rolled to the end, as a
  `height x width x 3` image.

The project is organised in four main modules, plus two small shared ones (`Arith` in `arith.dfy` for multiplication, division and remainder facts, and `Wrappers` in `wrappers.dfy` for `Option`):

- `Stats` (`stats.dfy`) covers `np.max`, `np.min` and `np.mean` over the
  episode rewards, and the zero fallback the loop's `except` applies to an
  empty list.
- `Bookkeeping` (`bookkeeping.dfy`) describes the loop as values:
  - `StepSpec` is one iteration (`CloseWindow` is its window-end part);
  - `Run` is the loop over consecutive steps;
  - `BestAfter` / `Decisions` apply the checkpoint rule over a sequence of
    windows, and `ClosedWindows` lists the windows a run closes, so that the
    list form of the rule is tied to the loop.
  
  It also holds the lemmas about one iteration and about whole runs.
- `TrainingLoop` (`training_loop.dfy`) is the loop as the program runs it. A
  class `Trainer` holds the loop's counters, sums and lists as fields, with
  two more fields: the steps passed to `save_model` and the payloads passed
  to `inject_summary`. `Trainer.Step` and `Trainer.Train` update those fields
  in place. They are proved to produce exactly `StepSpec` and `Run`, so every
  lemma of `Bookkeeping` holds of the fields.
- `Palette` (`palette.dfy`) covers:
  - the in-place fill loop on an `array`;
  - numpy's reshape and rollaxis as index functions;
  - their inverse (`Planar`), with round-trip lemmas both ways.

Modelling choices:

- **Agent, emulator and clock.** The agent (`predict`, `observe`), the
  emulator and the clock are outside the model. An iteration receives its
  action, reward and game-over flag as an input. It also receives the reward
  the emulator reports after the reset that follows a game over, and what
  `observe` added to `update_count`, `total_loss` and `total_q`.
- **The reward on a terminal step.** The source re-reads `reward` after
  `ale_resetGame()` (`main.py:182`) before adding it to `total_reward`
  (`main.py:198`). As a result, the window total counts the post-reset
  reading on a terminal step, and the reward that ended the game is counted
  neither in the episode nor in the window. The model does the same
  (`CountedReward`).
- **Division by zero.** `avg_loss = total_loss / update_count`
  (`main.py:203`) is outside the `try`, so a window in which the agent made
  no update raises `ZeroDivisionError` and ends the run. This is the outcome
  `DivisionByZero`. The empty-episode fallback, by contrast, is caught and
  gives `0, 0, 0`.
- **Number types.** Rewards, actions and game counts are integers, and
  averages are exact reals. `0.9` is the exact real 9/10.
- **`map_rgb`.** `map_rgb` is a function parameter from three bytes to a
  surface byte (the surface has depth 8). The fills of the index and colour
  buffers are foreign calls, so the colour buffer arrives as a parameter of
  the length the program allocates (`n_rgb = 3 * n_obs`).
- **A short surface buffer.** Writing `rgb_new[i]` past the end of the
  surface buffer raises `IndexError` after every earlier pixel has been
  written. `FillSurface` returns `false` in that case, and
  `GetRgbFromPalette` returns `None`.

## Model

| member | source | states |
|---|---|---|
| `Stats.MaxOf` | main.py:207 | the maximum of a non-empty episode list is one of its elements and no element exceeds it |
| `Stats.MinOf` | main.py:208 | the minimum of a non-empty episode list is one of its elements and no element is below it |
| `Stats.Mean` | main.py:209 | the mean of a non-empty episode list lies between its minimum and its maximum |
| `Stats.EpisodeStats` | main.py:206-211 | an empty list gives 0, 0, 0; otherwise its max and min are elements bounding every entry, the mean is the sum over the count, and min <= mean <= max |
| `Stats.MeanBetween` | main.py:209 | the mean of a non-empty episode list, the sum over the count, lies between the list's minimum and maximum |
| `Bookkeeping.IsWindowEnd` | main.py:200-201 | a step is a window end iff it is at or past learn_start and the next step is a multiple of test_step |
| `Bookkeeping.CountedReward` | main.py:179-198 | the reward a step adds to the window total: the post-reset reading on a terminal step, the step's own reward otherwise (its effect is stated by `StepClosesEpisode` and `AccumulateTotals`) |
| `Bookkeeping.AtLearnStart` | main.py:138-141 | the accumulators a step starts from: cleared at learn_start, unchanged otherwise (stated by `LearnStartResets` and `LearnStartForgets`) |
| `Bookkeeping.Record` | main.py:179-198 | a step's action list is the old one with exactly its own action appended, its window total grows by the counted reward, and the game count and the episode list grow together |
| `Bookkeeping.Observe` | main.py:169 | what `observe` adds to update_count, total_loss and total_q, and nothing else (stated through `StepAcc` by `StepRecords`, `LearnStartResets` and `AccumulateTotals`) |
| `Bookkeeping.StepAcc` | main.py:169-198 | the whole accumulator update of an iteration away from learn_start: observe, then the episode and window recording (stated by `StepClosesEpisode`, `StepRecords`, `AccumulateTotals`, `WindowCloses` and `TelemetryRule`) |
| `Bookkeeping.Tolerated` | main.py:216 | the checkpoint test best * 0.9 <= mean (stated by `CheckpointRule`, `StepFollowsRatchet` and `RatchetIsRunningMax`) |
| `Bookkeeping.Max` | main.py:220 | Python's `max` of two numbers: at least both, equal to one of them, and the first argument on a tie |
| `Bookkeeping.CloseWindow` | main.py:200-243 | the window-end part of an iteration (stated by `CloseWindowReports`, and through `StepSpec` by `WindowCloses`, `CheckpointRule` and `TelemetryRule`) |
| `Bookkeeping.CloseWindowReports` | main.py:200-243 | the window-end part continues iff the step is not a window end and raises iff it is one with no update; a closed window resets all accumulators and reports total_reward / test_step, the loss and Q averages, the episode statistics and the game count |
| `Bookkeeping.StepSpec` | main.py:136-243 | one iteration (stated by `StepRecords`, `StepClosesEpisode`, `StepPreservesValid`, `WindowCloses`, `CheckpointRule`, `TelemetryRule` and `StepFollowsRatchet`) |
| `Bookkeeping.Run` | main.py:136 | the loop over consecutive steps, stopping at the first iteration that raises (stated by `RunHalts`, `RunPreservesValid`, `RunBestNeverDecreases`, `RunSavesAtWindowEnds`, `RunEmits` and `RunFollowsRatchet`) |
| `Bookkeeping.WindowReport` | main.py:202-204 | the window's averages fail to exist exactly when the update count is 0 (the unguarded division) |
| `Bookkeeping.LearnStartResets` | main.py:138-141 | after the learn_start step only that step's own action, counted reward, episode effect and training increments remain; the game count equals the episode list's length |
| `Bookkeeping.LearnStartForgets` | main.py:138-141 | the learn_start step's outcome does not depend on the accumulators it starts from |
| `Bookkeeping.StepRecords` | main.py:194-198 | away from learn_start and window ends a step appends its action, adds its counted reward and its updates, continues, and leaves best, checkpoints and telemetry alone |
| `Bookkeeping.StepClosesEpisode` | main.py:179-198 | a terminal step appends the running episode reward, counts a game, zeroes the episode and adds the post-reset reward to the window; otherwise the reward goes to both episode and window |
| `Bookkeeping.StepPreservesValid` | main.py:191-192 | every step keeps the game count equal to the number of recorded episodes and the best value at least 0 |
| `Bookkeeping.WindowCloses` | main.py:200-243 | an iteration continues iff the step is not a window end and raises iff it is one with no update; a closed window resets all accumulators and reports total_reward / test_step, the loss and Q averages, the episode statistics and the game count |
| `Bookkeeping.CheckpointRule` | main.py:216-220 | step + 1 is saved exactly when a window closes with mean episode reward >= 0.9 * best; the best then becomes the max of the two, otherwise it and the saved list stay; the best never decreases |
| `Bookkeeping.TelemetryRule` | main.py:222-234 | a payload with that window's report, episode list and action list is emitted exactly when a window closes after step 180 |
| `Bookkeeping.EmptyWindowCheckpoint` | main.py:210-216 | a window without a finished episode reports 0, 0, 0 and is saved exactly when the best is still 0 |
| `Bookkeeping.BestAfter` | main.py:216-220 | the best value after applying the checkpoint rule to a sequence of window means in order (stated by `RatchetIsRunningMax`, `BestAfterNeverFalls` and `RunFollowsRatchet`) |
| `Bookkeeping.Decisions` | main.py:216-218 | the save decision of each window of such a sequence (stated by `RatchetIsRunningMax`, `CheckpointExample` and `RunFollowsRatchet`) |
| `Bookkeeping.BestAfterNeverFalls` | main.py:216-220 | along the window sequence the best never falls: after any prefix it is at least the start and at most the best after the whole sequence |
| `Bookkeeping.RatchetIsRunningMax` | main.py:216-220 | from a non-negative best, the tolerant rule makes one decision per window and ends at the running maximum of the window means and the start |
| `Bookkeeping.StepFollowsRatchet` | main.py:200-220 | a closing window moves the best as `BestAfter` of its single mean does and saves step + 1 exactly when `Decisions` of that mean says so; any other iteration leaves the best and the saves alone |
| `Bookkeeping.NoCheckpointWhileNegative` | main.py:123 | starting from best 0, windows with negative mean episode reward never save and leave the best at 0 |
| `Bookkeeping.CheckpointExample` | main.py:216-220 | window means 10, 8, 11, 9, 12 from best 0 save at windows 1, 3 and 5 and end with best 12 |
| `Bookkeeping.AccumulateTotals` | main.py:191-198 | between resets the action list grows by exactly the steps' actions, the window total by their counted rewards, the update count by their updates, and games and episodes grow together |
| `Bookkeeping.QuietRun` | main.py:136-198 | a run with no window end (and learn_start only at its start, on cleared accumulators) never raises and only accumulates |
| `Bookkeeping.WindowSteps` | main.py:200-201 | in a window starting at a multiple of test_step past learn_start only the last step is a window end |
| `Bookkeeping.RunFromLearnStart` | main.py:138-141 | a run starting at learn_start does not depend on the accumulators it starts from |
| `Bookkeeping.FullWindowCloses` | main.py:200-243 | a full window raises iff the agent made no update in it, and otherwise ends with every accumulator reset |
| `Bookkeeping.ClosingWindowReports` | main.py:197-234 | the step that closes a full window emits after step 180 one payload keyed by that step with exactly the window's actions and average reward = sum of its counted rewards / test_step, and nothing up to step 180 |
| `Bookkeeping.FullWindowReports` | main.py:197-234 | a full window closing after step 180 emits one payload keyed by its last step with exactly its test_step actions and average reward = sum of its counted rewards / test_step; up to step 180 it emits nothing |
| `Bookkeeping.ClosingStep` | main.py:200-234 | the step that closes a window raises iff no update was made, otherwise resets, and emits its report after step 180 only |
| `Bookkeeping.RunBestNeverDecreases` | main.py:220 | over any run the best value never decreases |
| `Bookkeeping.RunSavesAppend` | main.py:218 | a run only appends to the list of saved steps |
| `Bookkeeping.RunSavesAtWindowEnds` | main.py:200-218 | every step a run saves is t + 1 for a window end step t inside the run |
| `Bookkeeping.RunEmits` | main.py:222-234 | a run only appends telemetry payloads, each keyed by a window end step inside the run past step 180 |
| `Bookkeeping.RunPreservesValid` | main.py:136-243 | every run keeps the game count equal to the episode count and the best at least 0 |
| `Bookkeeping.RunLastWindow` | main.py:136-220 | the last step of a run either closes no window and leaves the best and the saves, or closes one window, whose last step it is, and applies the checkpoint rule to it |
| `Bookkeeping.RunFollowsRatchet` | main.py:136-220 | over any run the best value is `BestAfter` of the means of the windows the run closed, and the saved steps are exactly those windows' last steps + 1 that `Decisions` selects, in order |
| `Bookkeeping.RunHalts` | main.py:203 | once an iteration has raised, the remaining steps change nothing |
| `TrainingLoop.Trainer.constructor` | main.py:121-124 | every counter and sum starts at 0, both lists empty, best 0, nothing saved or emitted |
| `TrainingLoop.Trainer.Reset` | main.py:236-243 | clears every accumulator and leaves the best and the outputs alone |
| `TrainingLoop.Trainer.Step` | main.py:136-243 | one iteration updates the fields exactly as StepSpec says and keeps the class invariant |
| `TrainingLoop.Trainer.CloseWindowIfDue` | main.py:200-243 | the window-end part of an iteration updates the fields exactly as CloseWindow says |
| `TrainingLoop.Trainer.Train` | main.py:136 | the loop from start_step to max_step leaves the fields exactly as Run says, stopping at the first iteration that raises |
| `Palette.FillSurface` | main.py:69-73 | surface pixel i becomes map_rgb of the i-th red, green and blue plane entries for every i below n_obs; no other pixel changes; it fails iff the buffer is shorter than n_obs |
| `Palette.Image` | main.py:76 | the returned image has shape (height, width, 3); its entries are stated by `ImageIndex` |
| `Palette.ImageIndex` | main.py:76 | channel c of the returned image at row y, column x is entry c * h * w + y * w + x of the planar buffer |
| `Palette.ImageOfPlanar` | main.py:76 | reading an image back in planar order and reshaping/rolling again gives the image |
| `Palette.PlanarOfImage` | main.py:76 | reshaping/rolling a planar buffer and reading it back in planar order gives the buffer |
| `Palette.Reshape` | main.py:76 | the reshape has shape (3, height, width) |
| `Palette.RollAxis` | main.py:76 | rolling axis 0 to the end turns shape (d0, d1, d2) into (d1, d2, d0) |
| `Palette.SurfaceShowsImage` | main.py:69-76 | the filled surface shows at pixel y * w + x map_rgb of the returned image's pixel at row y, column x |
| `Palette.GetRgbFromPalette` | main.py:53-76 | fills the surface as FillSurface does and returns the reshaped, rolled image, whose every pixel the surface shows through map_rgb; no image iff the surface buffer is too short |

## Left out

- TensorFlow sessions, command-line flags, GPU detection and `calc_gpu_fraction` (`main.py:1-51`, `main.py:79-116`): these are configuration and foreign libraries, not loop logic.
- The agent's internals (`predict`, `observe`, history, replay memory, training step) and the step/learning-rate TensorFlow ops: they are foreign code. The model sees `observe` only through what it adds to the update count and the loss and Q sums. The learning rate does not appear in the telemetry payload.
- The emulator calls (`ale_act2`, `ale_isGameOver`, `ale_getRewardA`, `ale_resetGame`), the random action of the second player, and the observation and palette fills: these are foreign calls whose results are inputs.
- The pygame display (`blit`, `scale2x`, `flip`), `game_screen.paint`/`grab` and `scale_image`: these are display and preprocessing outside this code. The fact that the history is not re-seeded after a game over is therefore not visible in the model.
- `test_step` is taken to be a positive configuration constant (`Bookkeeping.WellFormed`). With `test_step == 0` the `%` at `main.py:201` raises `ZeroDivisionError` at the first step at or past learn_start, and with a negative value Python's `%` gives a result in (test_step, 0], never test_step - 1, so no window closes. Neither case is modelled.
- The non-training branch (`main.py:244` on): it is an evaluation display loop, not the training bookkeeping.
- The console `print` of the window statistics (`main.py:213-214`): it is output only.
- Python floats: rewards are integers and sums and averages exact reals, so no rounding is modelled. `Bookkeeping.Tolerated` compares with the exact 9/10 rather than the binary double nearest 0.9.
- `Palette.FillSurface`: assumes the surface's rows are packed, so pixel (x, y) is buffer index y * width + x. Pitch padding of the pygame surface buffer is not modelled.
- `Palette.GetRgbFromPalette`: the image is returned as nested sequences, so numpy's view semantics (the result aliasing `rgb`) are not modelled.
