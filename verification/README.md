# bhtune verification model

bhtune tunes a PID loop by a relay-feedback test: it switches the controller output between two
levels, watches the process value oscillate, measures the oscillation and computes controller
constants from it. This project models that pipeline in Dafny and proves what holds of it for every
sequence of samples. It also models the number rounding and printing that stands between a result and
the controller, the simulated process and controller, and the three protocols that guard a live loop
and its database.

| file | what it models |
|---|---|
| `LoopConfigs.dfy` | loop configuration, ranges, direction and the tuning-constant tables |
| `MrftSpec.dfy`, `Mrft.dfy` | one sample's effect on the relay engine, as functions and as the object that updates its fields |
| `Traces.dfy`, `MrftRuns.dfy`, `MrftTheorems.dfy` | whole runs: the invariant tying trackers, signs and recorded lists to the raw trace, and the engine's guarantees |
| `TuningMath.dfy`, `EndToEnd.dfy` | from recorded lists to tuning results and controller values, and the theorems from samples to written values |
| `ConfiguredRun.dfy` | what a configured test writes, by direction and in terms of the configuration alone |
| `Decimal.dfy`, `DecimalText.dfy`, `PidConfig.dfy` | decimal rounding, printing and reading numerals, and the rounding policy of a template |
| `SimulatorSpec.dfy`, `Simulator.dfy`, `SimulatorTheorems.dfy` | the simulated process and PID, and what their closed loop guarantees |
| `SimulatedRun.dfy`, `SimulatedCompletion.dfy` | the engine driving the simulated process: how far it swings, and when the test completes |
| `ActiveRun.dfy` | the registry of running tunes and the exclusive reservation |
| `LiveOwnership.dfy` | the ownership lock, claims, heartbeats, audited and abandoned writes, and queued previous values |
| `Backup.dfy` | backup and restore on a disk whose every intermediate state is kept |
| `Timing.dfy` | fixed-step and live timestamps and the poll-gap counters |

`dafny verify dfyconfig.toml` checks the whole project.

Conventions. Process values, outputs and gains are exact reals; times are integer nanoseconds, with
the program's truncations to milliseconds and microseconds kept. The circle constant is a parameter
`pi` with `pi > 0`. A division by zero, which the program carries as an infinity or a NaN until a
finiteness check, is `NonFinite` or the error that check reports. An assertion that the program would
fail on is the result `None`.

## What turned out not to hold everywhere

- A PV range is accepted with its bounds in either order, and `range.rs` says the order does not matter
  because only the size of the span is used. The amplitude percentage divides by the signed span, so a
  completed test on a reversed range is always reported as having a non-positive amplitude
  (`EndToEnd.ReversedPvRange`). The model follows the code.
- A relay amplitude clamped below 0.01, as when the output starts at a limit of its range, makes the
  engine stay silent for ever; any other amplitude switches on the first sample
  (`MrftTheorems.StartsOnFirstSampleOrNever`).
- A P-only run has no integral time, so a template that wants a reset rate or a reset gain makes all its
  results invalid (`EndToEnd.CompletedRunOutcome`).
- `clamp_relay_amplitude` tests one bound only when the other holds. It is the tightest clamp exactly
  outside one case (`MrftTheorems.ClampIsTightest`), which validation's 50 % bound excludes.
- The registry object's guarantee stops at a shutdown: a reservation can come to be held beside a running
  tune exactly when the shutdown leaves a tune or a wrapper to wait for, or a holder, for which it does not
  wait (`ActiveRun.ShutdownIsExact`). The guarantee returns once they are all gone
  (`ActiveRun.WaitingRestoresConsistency`). This is about the object alone: its only caller shuts it down
  after the server has drained every connection (crates/bhtune-server/src/run.rs:216-227), so no request is
  left to reserve or start.
- The ownership lock orders the handing over of writes, not their arrival. A write that was handed over and
  has neither returned nor arrived may reach the controller under a later owner, and no other write can.
  Every such write was abandoned by its caller, after a timeout or an interrupt
  (crates/bhtune-runtime/src/tune/poll.rs:52-71), or lost its owner
  (`LiveOwnership.LateArrivalIsExact`, `LiveOwnership.AbandonedWriteArrivesLate`).
- The queue of previous values would hand a write the value of an earlier one if that one had been refused for
  a target that is not finite (`LiveOwnership.NotFiniteShifts`). This is about the object's interface alone:
  every caller excludes such targets (crates/bhtune-runtime/src/tune/writeback.rs:541), and the other
  refusal, for a failed heartbeat, is for good, so that every intent carries its own value
  (`LiveOwnership.TakesItsOwn`).
- A noise-free test whose direction does not suit the sign of the process gain never completes
  (`SimulatedCompletion.UnsuitedTestNeverCompletes`). Nor need one on a process whose noise can outweigh the
  relay (`SimulatedCompletion.NoiseCanStall`).
- A restore is crash-safe unless the backup is one of the files it overwrites, or a log is left over
  beside a missing database; that condition is exact (`Backup.MoveIsExact`). It can be started again from
  every state it leaves unless the backup stands where the restored database keeps its sidecars
  (`Backup.ResumingIsExact`).
- Sample gaps are truncated to microseconds, so a timestamp less than a microsecond before the previous
  one is accepted, and the gaps add up to the span only within a microsecond each
  (`Timing.PollTimingAccumulator.Observe`, `Timing.TotalTelescopes`).

## Model

| member | source | states |
|---|---|---|
| LoopConfigs.TableFacts | crates/bhtune-core/src/constants.rs:67-148 | for every process type and allowed controller type: hysteresis factor in [0, 1), gain factors strictly decreasing over the levels and positive, time factors positive exactly where the type uses them |
| LoopConfigs.WithProcessTypeIsUsable | crates/bhtune-core/src/loop_config.rs:51-83 | re-deriving defaults always yields an allowed controller type and a configuration that validates exactly when the kept amplitude and padding do |
| LoopConfigs.DefaultsForgetThePast | crates/bhtune-core/src/loop_config.rs:51-83 | a change of process type leaves counts and delay that depend on the new type alone, and is idempotent |
| LoopConfigs.RangesKeepTheirEnds | crates/bhtune-core/src/range.rs:32-90 | which ranges are accepted, and that they keep the ends given and contain what lies between |
| Mrft.MrftEngine.constructor | crates/bhtune-core/src/mrft.rs:145-187 | a new engine has the configured setup and the initial state of an empty run |
| Mrft.MrftEngine.Step | crates/bhtune-core/src/mrft.rs:196-218 | after each call the fields and all actions emitted so far are those of the whole sample sequence |
| MrftRuns.SwitchReverses | crates/bhtune-core/src/mrft.rs:274-304 | a switch always takes the opposite sign of the one before, whatever the samples |
| MrftRuns.CountedStep | crates/bhtune-core/src/mrft.rs:196-340 | the counting invariant survives any live sample: positions, signs, MV values, delays between switches |
| MrftRuns.TrackedStep | crates/bhtune-core/src/mrft.rs:260-263 | the two tracker pairs stay the extremes of two different windows of the raw trace |
| MrftRuns.RecordedSwitch | crates/bhtune-core/src/mrft.rs:318-327 | what a switch records is the extreme of the window it closes, on the right side |
| MrftRuns.RunInvariant | crates/bhtune-core/src/mrft.rs:196-340 | the whole invariant holds after every sample sequence, also one that goes on after the completion |
| MrftTheorems.ClampIsTightest | crates/bhtune-core/src/mrft.rs:60-75 | the clamp equals the minimum of the raw amplitude and both distances to the limits, if and only if the hidden case does not arise |
| MrftTheorems.ValidatedClampStaysInRange | crates/bhtune-core/src/mrft.rs:60-75 | for a validated configuration both relay levels are in range, and the amplitude is zero exactly when the output starts at a limit |
| MrftTheorems.ClampCanLeaveTheRange | crates/bhtune-core/src/mrft.rs:60-75 | a 60 % amplitude, which validation refuses, would leave the range |
| MrftTheorems.ActionLog | crates/bhtune-core/src/mrft.rs:196-218 | the complete list of a run's actions: one MV per switch, then at most one completion, then nothing |
| MrftTheorems.CompletedRunLog | crates/bhtune-core/src/mrft.rs:196-218 | a completed run writes exactly `2 * skip + 2 * count + 1` MVs that alternate around the initial one and end on it, then completes once |
| MrftTheorems.StartsOnFirstSampleOrNever | crates/bhtune-core/src/mrft.rs:287-304 | a run emits nothing at all if and only if the amplitude is below 0.01; otherwise it switches on the first sample |
| MrftTheorems.EveryWriteInRange | crates/bhtune-core/src/mrft.rs:291-339 | every MV a validated run ever writes is inside the MV range |
| ConfiguredRun.FirstActionByDirection | crates/bhtune-core/src/direction.rs:32-42 | a reverse-acting loop first raises the output exactly when the PV is not above its initial value, a direct-acting one exactly when it is not below, by the configured percentage or the distance to the nearer limit; below 0.01 nothing happens |
| ConfiguredRun.CompletedWrites | crates/bhtune-core/src/mrft.rs:274-339 | every write of a completed run but the last answers the sample it happened on in the sense of the direction; the last restores the initial output |
| ConfiguredRun.HysteresisOfConfig | crates/bhtune-core/src/mrft.rs:260-266 | on every sample the hysteresis is the tabled factor of the configured types times the largest deviation from the initial PV since the last switch |
| ConfiguredRun.SpacingOfConfig | crates/bhtune-core/src/mrft.rs:299-304 | consecutive switches are at least the configured seconds apart |
| MrftTheorems.CycleCounters | crates/bhtune-core/src/mrft.rs:233-251 | completed plus remaining cycles are constant from the first switch on under truncating division, and none remain exactly when the test is complete |
| MrftTheorems.RunCounted | crates/bhtune-core/src/mrft.rs:299-304 | on every run, switches alternate, lie at increasing positions and are at least the noise-protection delay apart |
| MrftTheorems.RecordedEveryOther | crates/bhtune-core/src/mrft.rs:318-327 | the recorded switches of a side are every other one, starting from the first recorded switch if it is on that side |
| MrftTheorems.PeaksAreExtremes | crates/bhtune-core/src/mrft.rs:318-331 | each recorded peak is the maximum of the raw samples between two consecutive switches, both included |
| MrftTheorems.TroughsAreExtremes | crates/bhtune-core/src/mrft.rs:318-331 | each recorded trough is the minimum of the raw samples between two consecutive switches, both included |
| MrftTheorems.HysteresisOverRuns | crates/bhtune-core/src/mrft.rs:260-266 | on every sample of every run the hysteresis is the factor times the largest deviation since the last switch, that switch's sample excluded |
| MrftTheorems.FirstSwitchRule | crates/bhtune-core/src/mrft.rs:257-305 | the first sample sets the relay against the deviation it shows, because the factor is below one |
| MrftTheorems.RunSided | crates/bhtune-core/src/mrft.rs:274-281 | every switch of every run falls on the side of the initial PV that its sign counteracts |
| MrftTheorems.SwitchingIsRelayRule | crates/bhtune-core/src/mrft.rs:257-305 | a started engine switches if and only if the delay has passed and the PV has crossed to the far side of the batch hysteresis |
| MrftTheorems.EngineRefinesRelay | crates/bhtune-core/src/mrft.rs:196-340 | the engine switches at exactly the positions of a relay that keeps no trackers and looks back over the raw trace |
| EndToEnd.CompletionIsMeasurable | crates/bhtune-core/src/tuning_math.rs:188-231 | what a completed engine hands over passes every assertion of the measurement, if and only if at least one cycle is counted |
| EndToEnd.CompletedRecords | crates/bhtune-core/src/tuning_math.rs:200-231 | lengths and contents of the recorded lists of a completed run in terms of the raw trace |
| EndToEnd.AveragedExtremesReach | crates/bhtune-core/src/tuning_math.rs:203-230 | after leaving out the first recorded extremum, every averaged peak reaches above and every averaged trough below the initial PV, one of the two strictly |
| EndToEnd.AmplitudeIsPositive | crates/bhtune-core/src/tuning_math.rs:240-241 | every completed run of an admissible loop measures a strictly positive amplitude |
| EndToEnd.ElapsedIsBounded | crates/bhtune-core/src/tuning_math.rs:235-237 | the measured milliseconds, after truncation, are at least twice the delay per counted cycle |
| EndToEnd.PeriodIsBounded | crates/bhtune-core/src/tuning_math.rs:235-238 | the period is at least twice the noise-protection delay, and positive exactly when a millisecond has passed |
| EndToEnd.TimeIsMultiple | crates/bhtune-core/src/tuning_math.rs:266-270 | going through the frequency and back makes each time its table factor times the period |
| EndToEnd.LevelOutcome | crates/bhtune-core/src/tuning_math.rs:488-568 | one level's status and reason for any oscillation a completed test can measure |
| EndToEnd.CompletedRunLaw | crates/bhtune-core/src/tuning_math.rs:235-278 | for every valid result of every completed run: gain times pi times the measured amplitude percentage is four times the table factor times the relay percentage, and each time is its table factor times the mean cycle, with amplitude and milliseconds read off the recorded lists |
| EndToEnd.CompletedRunOutcome | crates/bhtune-core/src/tuning_math.rs:478-526 | every completed run gives three results, valid or invalid together, with the reason read off the PV range, the milliseconds and the template |
| EndToEnd.ReversedPvRange | crates/bhtune-core/src/range.rs:32-49 | whatever was sampled, with any accepted range all results of a completed run are rejected for a non-positive amplitude if and only if the range is reversed |
| EndToEnd.CompletedRunIsTuned | crates/bhtune-core/src/tuning_math.rs:253-278 | every completed PI or PID run with a second of noise protection and an upright range is tuned at all levels by that law: shared times, positive and at least what the delay allows, gains strictly decreasing |
| EndToEnd.CompletedRunIsWritable | crates/bhtune-core/src/tuning_math.rs:407-431 | under any valid policy a valid result of a completed run can be written if and only if the policy's decimals erase none of its active terms |
| EndToEnd.SignificantDigitsAlwaysWrite | crates/bhtune-core/src/tuning_math.rs:407-431 | hence a significant-digit policy never refuses a valid result |
| TuningMath.UsableIffValid | crates/bhtune-core/src/tuning_math.rs:134-162 | values are exposed exactly for valid results, and a reason exactly for invalid ones |
| TuningMath.PidParametersAreInvertible | crates/bhtune-core/src/tuning_math.rs:287-318 | for every combination of types and units the parameters determine gain and times |
| TuningMath.ProportionalOnlyParameters | crates/bhtune-core/src/tuning_math.rs:287-318 | a P-only result is expressed by its gain or band and a zero reset time, and by no rate or gain |
| TuningMath.InvalidPolicyIsReported | crates/bhtune-core/src/tuning_math.rs:384-391 | a policy of more than seven digits, or of no significant digit, and no other, is reported, against the first term |
| TuningMath.ActiveTermOutcome | crates/bhtune-core/src/tuning_math.rs:384-403 | a term is refused exactly when it is not positive or the policy's decimals erase it, with that reason |
| TuningMath.ControllerValuesOutcome | crates/bhtune-core/src/tuning_math.rs:335-431 | success exactly when no active term is objectionable, otherwise the first one in order; active terms rounded and positive, disabled ones 9999 for a reset time and 0 otherwise, every text reads back |
| Decimal.ExponentBounds | crates/bhtune-core/src/pid_config.rs:144-146 | the terminating exponent search finds the decade of any positive number |
| Decimal.RoundToError | crates/bhtune-core/src/pid_config.rs:149-150 | rounding to a place is within half a unit of it, ties away from zero |
| Decimal.RoundSigExponent | crates/bhtune-core/src/pid_config.rs:142-161 | significant-digit rounding stays in its decade or carries exactly to the next power of ten, and keeps the digits its own exponent calls for |
| Decimal.RoundSigIdempotent | crates/bhtune-core/src/pid_config.rs:142-151 | idempotent, carries included |
| Decimal.RoundSigMonotone | crates/bhtune-core/src/pid_config.rs:142-151 | monotone, across decades |
| Decimal.RoundSigKeepsSign | crates/bhtune-core/src/pid_config.rs:142-151 | never erases a nonzero number and keeps its sign |
| Decimal.RoundSigError | crates/bhtune-core/src/pid_config.rs:142-150 | the error is at most half a unit of the last kept digit, hence a fixed fraction of the number |
| DecimalText.FixedRoundTrip | crates/bhtune-core/src/pid_config.rs:157-167 | a number with at most the printed decimals is read back exactly from its fixed form |
| DecimalText.SciRoundTrip | crates/bhtune-core/src/pid_config.rs:163-164 | a number with at most the printed digits is read back exactly from its scientific form |
| PidConfig.KeptIsFaithful | crates/bhtune-core/src/pid_config.rs:133-151 | for either kind of policy: monotone, odd, error at most half a unit of the last place |
| PidConfig.KeptPositive | crates/bhtune-core/src/pid_config.rs:142-151 | a positive number becomes zero exactly when a decimal policy's last place is more than twice too coarse |
| PidConfig.DisplayRoundTrip | crates/bhtune-core/src/pid_config.rs:84-90 | for every value and valid policy the text reads back as exactly the rounded value, and rounding again changes neither value nor text |
| PidConfig.DisplayForm | crates/bhtune-core/src/pid_config.rs:156-171 | the one form of every text: sign, a whole part without leading zeros, exactly the digits after the point the policy calls for, and a power of ten exactly for numbers too large for the kept digits or below a ten-thousandth |
| PidConfig.DisabledRoundTrip | crates/bhtune-core/src/pid_config.rs:178-186 | a disabled term keeps its sentinel and its text reads back as it |
| Simulator.FopdtProcess.constructor | crates/bhtune-driver/src/simulator.rs:128-149 | a new process is at rest with a delay line full of the initial output |
| Simulator.ConfiguredPlant | crates/bhtune-driver/src/simulator.rs:113-149 | a configured process is at rest, responds to its output by its gain, and its dead time is the least number of ticks covering the configured one |
| Simulator.FopdtProcess.Step | crates/bhtune-driver/src/simulator.rs:173-187 | after each step the process value is the one the whole history of outputs and noise leads to, and the delay line holds the last outputs |
| Simulator.DelayLineStep | crates/bhtune-driver/src/simulator.rs:174-175 | pushing and popping yields the output of exactly the dead time ago, at constant length |
| Simulator.VirtualPid.Step | crates/bhtune-driver/src/simulator.rs:244-278 | one control step's state and output, the output always within its limits |
| SimulatorTheorems.PvIsConvolution | crates/bhtune-driver/src/simulator.rs:85-98 | the recurrence equals the faded start value plus faded targets plus faded noise, for any history |
| SimulatorTheorems.StepResponse | crates/bhtune-driver/src/simulator.rs:170-187 | the answer to one change of output is nothing for exactly the dead time, then an exponential approach |
| SimulatorTheorems.PvStaysInHull | crates/bhtune-driver/src/simulator.rs:173-187 | for any outputs and noise within bounds the process value stays in the hull of the steady states, widened by the noise margin |
| SimulatorTheorems.LoopStaysInHull | crates/bhtune-driver/src/simulator.rs:266-277 | the closed loop of any length stays in the hull of the output limits, whatever the tuning and setpoints |
| SimulatorTheorems.PidStepBounds | crates/bhtune-driver/src/simulator.rs:268-275 | a step keeps the scaled integral zero or within the limits widened by the other terms |
| SimulatorTheorems.TextbookPid | crates/bhtune-driver/src/simulator.rs:244-278 | over runs of any length with no output at a limit, each output is the bias, the gain times the error, the accumulated error per integral time, and the derivative against the last rise of the PV |
| SimulatorTheorems.LoopIntegralIsBounded | crates/bhtune-driver/src/simulator.rs:244-278 | in the closed loop the integral never winds up: one bound, fixed by configuration, hull and setpoint range, for runs of any length |
| SimulatedRun.SimulatedPvInHull | crates/bhtune-driver/src/simulator.rs:281-292 | a simulated relay test keeps the process value in the hull of its two relay levels |
| SimulatedRun.SimulatedAmplitude | crates/bhtune-core/src/tuning_math.rs:240-241 | the amplitude measured on the simulated process is positive and at most gain times relay amplitude plus the noise margin |
| SimulatedCompletion.SwitchesKeepComing | crates/bhtune-core/src/mrft.rs:257-305 | against an opposing process, whatever its noise does, no two switches are further apart than a wait that outlasts the delay between switches and the dead time plus settling |
| SimulatedCompletion.WaitTicksOutlast | crates/bhtune-driver/src/simulator.rs:173-187 | whenever the relay's swing exceeds noise, reading error and the widest hysteresis, a wait computed from the configuration outlasts delay, dead time and settling |
| SimulatedCompletion.NeverReverses | crates/bhtune-core/src/mrft.rs:274-281 | against any other noise-free process the relay switches once and never again |
| SimulatedCompletion.OpposedTestCompletes | crates/bhtune-core/src/mrft.rs:196-218 | a relay that opposes the process and outweighs its noise completes every test that lasts one such wait per switch, whatever the noise |
| SimulatedCompletion.SimulatedTestCompletes | crates/bhtune-core/src/mrft.rs:196-218 | without noise a test completes only if its amplitude counts and the direction suits the sign of the process gain, and then always within one computed wait per switch |
| SimulatedCompletion.NoiseCanStall | crates/bhtune-driver/src/simulator.rs:173-187 | on a process whose noise margin reaches the relay's swing, some noise holds any test still for ever |
| SimulatedCompletion.ClosedLoopIsSimulated | crates/bhtune-driver/src/simulator.rs:281-292 | the samples of the engine and the process driving each other, at any times and with any noise, are such a test |
| SimulatedCompletion.FixedStepTestCompletes | crates/bhtune-runtime/src/timing.rs:261-297 | for every admissible configuration and every noise on the fixed-step clock: a reverse-acting test of a process with positive gain, or a direct-acting one of a process with negative gain, that outweighs the noise completes |
| SimulatedCompletion.UnsuitedTestNeverCompletes | crates/bhtune-core/src/direction.rs:32-42 | without noise, any other combination of direction and gain never completes |
| SimulatedCompletion.FixedStepTestIsTuned | crates/bhtune-core/src/tuning_math.rs:478-526 | such a test tunes a PI or PID loop at all three levels |
| ActiveRun.ActiveRunRegistry.Start | crates/bhtune-server/src/active_run.rs:51-74 | registration refused for a reservation or a duplicate id, and the exact new registry |
| ActiveRun.ActiveRunRegistry.Reserve | crates/bhtune-server/src/active_run.rs:85-95 | granted exactly when nothing is registered or reserved, otherwise naming the reservation or the smallest run id |
| ActiveRun.ActiveRunRegistry.Cancel | crates/bhtune-server/src/active_run.rs:114-122 | triggers the named registered tune and no other, and says whether the id was registered or reserved |
| ActiveRun.ActiveRunRegistry.Release | crates/bhtune-server/src/active_run.rs:128-135 | clears a matching reservation, otherwise removes the registration |
| ActiveRun.ActiveRunRegistry.TakeAll | crates/bhtune-server/src/active_run.rs:140-157 | empties the registry at once and cancels everything taken |
| ActiveRun.RunsAreConsistent | crates/bhtune-server/src/active_run.rs:51-135 | every interleaving before a shutdown keeps one registration per unfinished wrapper and the reservation with its holder |
| ActiveRun.CancelledIsExact | crates/bhtune-server/src/active_run.rs:114-122 | over any run, a registered tune has been told to cancel if and only if it was named by a cancellation while registered and not registered anew since |
| ActiveRun.ConsistentIsSafe | crates/bhtune-server/src/active_run.rs:5-7 | hence no reservation beside a running tune, every running tune can be cancelled, one wrapper per run |
| ActiveRun.WrapperFindsItsTask | crates/bhtune-server/src/active_run.rs:66-71 | a wrapper's release removes its own registration and never a reservation |
| ActiveRun.ShutdownIsExact | crates/bhtune-server/src/active_run.rs:140-146 | after a shutdown begins, some course of events leads to a reservation held beside a running tune if and only if a tune, a wrapper or a holder was left |
| ActiveRun.LateReleaseUnregisters | crates/bhtune-server/src/active_run.rs:128-146 | after a shutdown, any left-over wrapper's release can remove a new tune's registration, and a reservation can then join that tune |
| ActiveRun.ConsistentNeverCollides | crates/bhtune-server/src/active_run.rs:51-135 | from a consistent registry no course of events short of a shutdown ends in a collision |
| ActiveRun.WaitingRestoresConsistency | crates/bhtune-server/src/active_run.rs:158-164 | waiting everything out makes the registry consistent again |
| LiveOwnership.PreviousValues.Queue | crates/bhtune-runtime/src/live_ownership.rs:408-415 | appends to the pending values, each tag's queue in order |
| LiveOwnership.PreviousValues.Take | crates/bhtune-runtime/src/live_ownership.rs:421-429 | hands out the oldest pending value of the tag, removes only it and keeps no empty queue |
| LiveOwnership.PreviousValues.Clear | crates/bhtune-runtime/src/live_ownership.rs:417-419 | nothing stays pending |
| LiveOwnership.TakingOldest | crates/bhtune-runtime/src/live_ownership.rs:421-429 | taking from one tag leaves every other tag's values alone |
| LiveOwnership.RunsKeepInvariant | crates/bhtune-runtime/src/live_ownership.rs:160-278 | every interleaving of processes, heartbeats, writes, writes abandoned at any stage, arrivals, releases and deaths keeps the ownership and audit invariant |
| LiveOwnership.OneOwner | crates/bhtune-runtime/src/live_ownership.rs:243-279 | at most one guard exists, it holds the lock and its own claim, and every write still waited for is its |
| LiveOwnership.ForwardsAreAudited | crates/bhtune-runtime/src/live_ownership.rs:160-214 | a write handed to the driver has exactly one intent before it and before that a health check no heartbeat failure precedes; it is handed over once, and owners never hand over in turns |
| LiveOwnership.ReachedWasForwarded | crates/bhtune-runtime/src/live_ownership.rs:181 | what reaches the controller was handed over before, and reaches it once |
| LiveOwnership.LateArrivalIsExact | crates/bhtune-runtime/src/live_ownership.rs:181-206 | after any run that leaves the lock free, a write can reach the controller under a later owner if and only if the log shows it handed over and neither returned nor arrived; it was then abandoned, or its owner died |
| LiveOwnership.RunsKeepWays | crates/bhtune-runtime/src/live_ownership.rs:181-206 | on every run, what may still arrive is exactly what the log shows handed over and neither returned nor arrived |
| LiveOwnership.AirborneWasAbandoned | crates/bhtune-runtime/src/tune/poll.rs:52-71 | per write and run: on its way under a free lock means abandoned, or its owner died |
| LiveOwnership.AbandonedWriteArrivesLate | crates/bhtune-runtime/src/tune/poll.rs:52-71 | a run of a healthy owner that ends with an abandoned write arriving under the next owner |
| LiveOwnership.WaitedForRunsAreQuiet | crates/bhtune-runtime/src/live_ownership.rs:392-405 | hence, while no write is abandoned and no owner dies, nothing is on its way between two owners |
| LiveOwnership.PendingIsTail | crates/bhtune-runtime/src/live_ownership.rs:160-180 | a tag's queue holds as many of its last values as writes to it were refused before taking one |
| LiveOwnership.CarriedValue | crates/bhtune-runtime/src/live_ownership.rs:160-180 | a write takes the value queued as many writes to its tag earlier as were refused before it |
| LiveOwnership.TakesItsOwn | crates/bhtune-runtime/src/live_ownership.rs:392-405 | since a heartbeat failure is for good, every write of a guard whose targets are finite takes the value queued for it |
| LiveOwnership.NotFiniteShifts | crates/bhtune-runtime/src/live_ownership.rs:160-180 | a target that is not finite leaves its value to the next write to the tag |
| LiveOwnership.AuditedDriver.Write | crates/bhtune-runtime/src/live_ownership.rs:160-180 | refused without taking a value by a failed heartbeat or a target that is not finite; otherwise takes the oldest value and records it if the database does |
| LiveOwnership.AuditedDriver.QueueAndWrite | crates/bhtune-runtime/src/tune/writeback.rs:424-430 | over all attempts so far on a guard that may fail at any time, an intent carries the oldest queued value, and its own while all targets are finite |
| LiveOwnership.ReleaseIsExact | crates/bhtune-runtime/src/live_ownership.rs:439-446 | an owner's end frees the lock, and its resource for the next owner exactly if it is a recorded release without a failed heartbeat; no other claim changes |
| LiveOwnership.ReleaseOverRuns | crates/bhtune-runtime/src/live_ownership.rs:439-446 | the same over every run, in terms of its events |
| LiveOwnership.HealthIsForGood | crates/bhtune-runtime/src/live_ownership.rs:325-404 | over every run, an owner starts a write exactly if none of its heartbeats has failed so far |
| LiveOwnership.RefusedClaimFreesTheLock | crates/bhtune-runtime/src/live_ownership.rs:243-279 | a refused claim leaves the lock free and every claim as it was |
| LiveOwnership.DroppedIsNeverSent | crates/bhtune-runtime/src/live_ownership.rs:160-181 | a write whose intent fails, or that is abandoned before its hand-over, is never handed over |
| Backup.PathsAreDistinct | crates/bhtune-db/src/backup.rs:258-274 | the database, its sidecars, the scratch copy and the safety copy are five different files |
| Backup.Disk.BackupTo | crates/bhtune-db/src/backup.rs:46-62 | succeeds exactly if the destination is new, the database usable and the copy does not fail; a backup holds the opened contents, log included, and never changes the source |
| Backup.Disk.Checkpoint | crates/bhtune-db/src/backup.rs:185-195 | a checkpoint that meets another connection reports it and may have moved part of the log, the contents the same throughout; otherwise the log is empty |
| Backup.Disk.PreRestoreSnapshot | crates/bhtune-db/src/backup.rs:176-206 | a busy database is reported and only its file and log can have changed; the live contents never do; success means a complete safety copy and an empty log |
| Backup.Disk.CopyIntoPlace | crates/bhtune-db/src/backup.rs:133-139 | from a folded-in log and a taken safety copy, every state of the copy and the move opens as the old contents or as the whole backup |
| Backup.Disk.RemoveSidecars | crates/bhtune-db/src/backup.rs:141-148 | removing the sidecars keeps the backup in place at every step |
| Backup.Disk.InstallBackup | crates/bhtune-db/src/backup.rs:133-148 | copy, move and clearing together: every state is safe, keeps all other files, and leaves the restore possible |
| Backup.Disk.RestoreFrom | crates/bhtune-db/src/backup.rs:111-155 | of any disk: an invalid backup leaves every file unchanged, a busy database keeps its contents and every file but its sidecars, and success leaves no sidecars and a complete copy of the old contents; under the exact condition `Restorable` every intermediate state is crash-safe, success puts exactly the backup in place, and from every state the restore can be started again; it succeeds only if the backup and the database are usable, nothing is busy and no operation on its way fails, and then always |
| Backup.Disk.Resume | crates/bhtune-db/src/backup.rs:111-155 | a restore started from whatever state an earlier one left, when it succeeds, puts the same contents in place beside a copy of the old ones |
| Backup.ResumingIsExact | crates/bhtune-db/src/backup.rs:133-148 | after the move the restore can be started again if and only if the backup does not stand in a sidecar's place |
| Backup.Disk.BackupThenRestore | crates/bhtune-db/src/backup.rs:1-6 | backing up and restoring brings the same contents back |
| Backup.MoveIsExact | crates/bhtune-db/src/backup.rs:133-148 | the path opens as the backup after the move if and only if the restore condition held |
| Timing.PollTimingAccumulator.Observe | crates/bhtune-runtime/src/timing.rs:152-187 | all counters are those of the accepted timestamps; a timestamp is refused exactly when a whole microsecond earlier than the last |
| Timing.TotalTelescopes | crates/bhtune-runtime/src/timing.rs:165-168 | the summed gaps are the whole span up to a microsecond per gap, and exactly it for whole gaps |
| Timing.MeanAtMostLargest | crates/bhtune-runtime/src/timing.rs:215-218 | the mean gap is at most the largest |
| Timing.MissedPollsFit | crates/bhtune-runtime/src/timing.rs:171-182 | missed polls at twice the interval each fit between the first and the last timestamp, and within a microsecond per other gap if the clock ran backward |
| Timing.CountersTellOfTimestamps | crates/bhtune-runtime/src/timing.rs:152-226 | the accumulator's own counters obey these bounds on the timestamps it accepted, at twice its own interval per missed poll |
| Timing.FixedStepSource.NextTimestamp | crates/bhtune-runtime/src/timing.rs:290-296 | the n-th timestamp is the anchor plus n steps |
| Timing.LiveSpansAreElapsed | crates/bhtune-runtime/src/timing.rs:280-308 | live timestamps fail exactly for an instant before the anchor; otherwise they are spaced as the monotonic instants are, so a clock that never runs backward is never refused |
| Timing.FixedSourceIsRegular | crates/bhtune-runtime/src/timing.rs:253-297 | the fixed-step source's gaps are all exactly the interval and no poll is missed |

## Left out

- IEEE 754 effects: rounding of single and double precision, overflow to infinity and NaN inputs; the checks that can only fail because of them (a non-finite period, derivative or rounded value) have no counterpart.
- LoopConfigs.TableFacts: states the signs and orders that the results rest on; the single constants of the tables and of the default counts and delays are data.
- Mrft.MrftEngine.constructor: requires, as the theorems about configured runs do, that the switch counters fit in a signed 32-bit integer; wrap-around beyond that is not modelled.
- Mrft.MrftEngine.Step: a sign times a number is modelled by negation, which agrees because every sign is 1 or -1.
- PidConfig.DisabledRoundTrip: covers whole numbers, which the two sentinels are; the shortest text of an arbitrary number is not modelled.
- DecimalText.FixedRoundTrip: the reader covers digits, a point, a minus sign and a lower-case exponent, which is all the printer produces.
- SimulatedCompletion.OpposedTestCompletes: says nothing of noise between the two conditions of `WaitTicksOutlast` and `NoiseCanStall`; the readings before a test are an error of the initial one, not steps of the process.
- Simulator.FopdtProcess.Step: the random generator and the exponential are parameters: any noise, and any `decay` in [0, 1) for the bounds.
- ActiveRun.ActiveRunRegistry.TakeAll: the timeout of the wait that follows is not modelled; either the wait sees everything out or `ShutdownIsExact` says what can happen.
- LiveOwnership.RunsKeepInvariant: the kernel lock's exclusion and the atomicity of each database call are assumed, and so is that a driver call which returns leaves nothing on its way; recovery of a left-over claim, restore intents and the other contents of audit rows are not modelled.
- Backup.Disk.RestoreFrom: crash safety is stated under `Restorable`, the exact condition of `MoveIsExact`; no other process changes the disk between the exclusivity probe and the move, a backup file has no log of its own, and file names are valid UTF-8.
- Timing: saturating counters, timestamps beyond the calendar's range, latency summaries and the sampling-adequacy label.
- The unchecked variant of the tuning calculation, kept in the program for replaying old data.
- OPC access, the gateway, SQL, HTTP, the command line, the web front end, template parsing, tag derivation and release scripts.
