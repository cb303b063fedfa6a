# Aviate: a verified model of the flight stack's stateful cores

This project models the parts of the Aviate flight stack whose promises span whole runs, and proves those
promises for every input, every run or every interleaving. Each area has two layers. A specification layer of
datatypes and functions says what one step does; beside it, where the source changes state in place, classes
and array methods with the source's own fields and loops are proved to take exactly those steps. The theorems
about runs are lemmas over the specification layer.

| area | files | what is modelled |
|---|---|---|
| Command admission | `SlotTable`, `AntiReplay`, `Gateway` | the 16-slot anti-replay table, the credential bindings and the gateway that authorises, checks freshness, commits and stamps |
| Artifact publication | `Artifact`, `Publication`, `ArtifactObject` | writers that publish one file by create-new, write, sync, hard link and unlink, interleaved step by step |
| Kernel | `Kernel`, `KernelEffects`, `KernelObject`, `FlightPhase` | lifecycle, fault latch, control-law ladder, terminal release, what a cycle puts out, slew to the safe pattern, the airborne latch |
| Runner | `CommandIngress`, `Scheduler`, `Runner`, `TickEffects` | what the retained setpoint is, fixed-period scheduling with bounded catch-up, one tick from receive to kernel update |
| Matrix and attitude arithmetic | `Sums`, `Matrix`, `Covariance`, `Prediction`, `Definite`, `FilterEffects`, `MatrixObject`, `Quaternion` | matrices of any dimension, the filter's covariance updates, what they do entry by entry, why its gain is the best, and what keeps it positive definite, quaternion rotation and the simulator's attitude conversion |
| Flash layout | `Geometry`, `Layout` | sector expansion, the reserve policy and the layout lock |
| Telemetry | `Queue` | the ring buffer and the loop that drains it |
| Replication | `Encode`, `Records`, `Replication`, `Lockstep` | truncating canonical encoders, the records and the whole kernel state they encode, and the cross-channel agreement gate |

`Common` holds options, results and the unsigned machine arithmetic (saturating and wrapping) that the sources
use.

What stands outside a step is an input of it, so the claims hold whatever it does: sensor readings, the
estimate, the envelope protector's verdict, the mode gate, the controller's output, the clock, how many bytes a
`write` takes, which file operation fails, and which writer moves next. Floats of the airborne latch are reals
with explicit infinities and NaN, on which every comparison with NaN is false. Matrix and quaternion arithmetic is
over the reals. Floats that are only copied are their bit patterns.

## Where the code differs from its own account

The model follows the code. Each point names the lemma that says exactly when the account holds.

- `Backup` is documented as released only by `ground_reset`; a successful `arm` releases it too
  (`Kernel.BackupLeftOnlyFromTheGround`), and such an arm is reachable from power-on
  (`Kernel.RearmLeavesBackup`).
- `disarm` and `terminate` leave the fault state as well as `reset_from_fault` and `ground_reset`
  (`Kernel.FaultExits`), and such a disarm is reachable from power-on (`Kernel.DisarmLeavesFault`).
- Attitude loss does not always force Backup: persistent timing violations stop the in-flight trigger from being
  consulted (`Kernel.AttitudeLossForcesBackup`; what happens instead is `Kernel.TimingPreemptsAttitudeLoss`). Such a
  cycle is reachable from power-on (`Kernel.TimingHidesLosses`).
- A command timeout does not always lead to a terminal within a cycle: persistent timing violations, and a required
  position or velocity that is missing, come before it, and the vehicle flies on
  (`Kernel.StaleSetpointDescendsExactly`, `Runner.StaleTickDescendsExactly`). `Kernel.TimingHidesLosses` is again
  such a run, and `Kernel.PositionLossFliesOn` one of a vehicle that is to hold position.
- An ordinary disarm is not refused in flight when the vehicle was armed on an unusable estimate, which `arm` does
  not look at (`Kernel.DisarmRefusedExactlyInFlight`); such flights are reachable from power-on
  (`Kernel.DisarmableInFlight`).
- The pre-arm gate is not looked at again once the vehicle is ready, so an arm can succeed with the throttle high
  (`Runner.ArmMeetsGateExactly`), and does after a reachable run (`Runner.ArmsWithThrottleHigh`).
- The pre-arm minimum is documented to need no GPS; a board that never delivers a good GNSS reading, as the
  micoair-h743-v2 never does, cannot arm, because the lost GNSS is a fault that refuses the arm
  (`Runner.NeverArmsWithoutGnss`). What is proved about armed runs of the runner is then about other boards.
- The scheduler is documented to resync when it is behind by more than three ticks; it resyncs after the third step
  of a pass, however late (`Scheduler.ResyncExactly`). A tick time may then repeat
  (`Scheduler.TickRepeatsExactly`).
- `link_ok` is true during the first second of uptime before any command, because the last command time starts
  at zero (`Runner.LinkOkExactly`, `Runner.LinkUpUnheard`).
- Authority epochs are to tell commands from before and after a recovery apart; the counter comes back after 2^32
  epochs (`Gateway.EpochsTellApartExactly`, `Gateway.EpochsReturn`).
- A frame that was accepted after the counter was last persisted is accepted again after a restart if it is within
  the age bound of what was persisted (`AntiReplay.ReplayedExactly`), and such replays occur
  (`AntiReplay.ReplayOccurs`).
- With a real-time-clock seed the first authorised frame sets the time anchor for every principal, even when it
  is refused, so one principal's answers can depend on another's frames (`Gateway.AnchorCouples`;
  `Gateway.GatewayIndependence` gives the exact condition).
- The table can refuse a principal for lack of a slot, but the gateway binds at most eight credentials and
  never reaches that error (`Gateway.CapacityNeverExhausted`).
- `enu_quat_to_ned` is minus the documented two-sided product; the rotation is the same
  (`Quaternions.ConversionIsNegatedProduct`, `Quaternions.NegationRotatesAlike`).
- Sector addresses go through `as u32`, and the application address through a wrapping addition; both are exact
  under conditions on the group table, the flash and the bootloader's size (`Geometry.StoredExactly`,
  `Layout.AppStartExactly`), and both lose bits outside them (`Geometry.TruncationOccurs`, `Layout.AppStartWraps`).
  In a build with overflow checks the wrapping additions panic instead. The reserve is added to the flash base
  whatever the first sector's offset, so it may end inside a sector: exactly when is `Layout.NoSectorIsCutExactly`,
  and a family of tables on which it does is `Layout.CutOccurs`.
- Distinguishable states are to have distinct encodings. The estimator's encoding omits its three aiding ages, on
  which the validity of its position and velocity depends; everything else is encoded
  (`Records.EkfEncodesAllButAges`, `Replication.EncodingDistinguishesExactly`). Every state value has a twin that
  agrees with it and is aided in position where it is not (`Lockstep.AgreementIsBlindToAiding`), and two channels
  come to such a pair: with no usable primary IMU, one fuses a GNSS fix in the first of some cycles and one in the
  last (`Lockstep.ChannelsDrift`, `Lockstep.SixSecondsApart`). That is for channels whose kernels are otherwise
  equal, as unarmed ones are; the cycle of an armed one copies the validity flags into the in-flight checks, which
  are encoded.
- A layout lock is not compared with the geometry it is used for: one that was recorded for another flash base is
  handed out as it is, base included, whenever its reserve suffices (`Layout.LockedBaseExactly`,
  `Layout.ForeignLockIsUsed`).
- A buffer too short for the state fails agreement against every full-size peer, as documented; two buffers
  that are both too short can agree on different states (`Lockstep.BuffersWitnessExactly`).

## Model

| member | source | states |
|---|---|---|
| SlotTable.Lookup | aviate-security/src/anti_replay.rs:127-135 | a slot that holds a principal is the one the map view reads |
| SlotTable.Count | aviate-security/src/anti_replay.rs:173-183 | an array without duplicate principals has a free slot exactly when the map it stands for has fewer entries than the array has slots |
| SlotTable.Write | aviate-security/src/anti_replay.rs:185-207 | writing a principal's slot keeps principals distinct and updates the map at that principal only |
| AntiReplay.AntiReplayWindow.constructor | aviate-security/src/anti_replay.rs:110-120 | a new table stands for the empty map with the seed as floor and high-water mark |
| AntiReplay.AntiReplayWindow.Find | aviate-security/src/anti_replay.rs:127-135 | finds the slot of a tracked principal and only that; none means untracked |
| AntiReplay.AntiReplayWindow.FindFree | aviate-security/src/anti_replay.rs:173-183 | no free slot exactly when sixteen principals are tracked |
| AntiReplay.AntiReplayWindow.CheckAndUpdate | aviate-security/src/anti_replay.rs:153-211 | the slot array takes the same verdict and the same step as a bounded map from principals to counters, whose verdicts `VerdictByHistory` states |
| AntiReplay.AntiReplayWindow.LastCounter | aviate-security/src/anti_replay.rs:216-227 | the tracked counter, or zero |
| AntiReplay.AntiReplayWindow.LocalCounter | aviate-security/src/anti_replay.rs:122-124 | the high-water mark, which is what a boot persists |
| AntiReplay.AntiReplayWindow.ResetPrincipal | aviate-security/src/anti_replay.rs:233-240 | forgets one principal and nothing else |
| AntiReplay.AntiReplayWindow.ResetAll | aviate-security/src/anti_replay.rs:243-246 | forgets every principal; the high-water mark and the floor survive |
| AntiReplay.AcceptedCountersIncrease | aviate-security/src/anti_replay.rs:153-211 | over any run the accepted counters of one principal strictly increase, so no pair of principal and counter is accepted twice |
| AntiReplay.RunsStayBounded | aviate-security/src/anti_replay.rs:79-96 | over any run at most sixteen principals are tracked, none is dropped and the high-water mark does not fall |
| AntiReplay.AcceptedWithinMarks | aviate-security/src/anti_replay.rs:185-209 | every accepted counter is positive, at or above the threshold and covered by the final high-water mark |
| AntiReplay.Independence | aviate-security/src/anti_replay.rs:79-96 | the verdicts on a principal's frames equal those of the run with all others erased, exactly unless the principal was crowded out of the table at a first frame that would otherwise be accepted |
| AntiReplay.TrackedIsIndependent | aviate-security/src/anti_replay.rs:153-211 | a tracked principal is independent of the others without exception |
| AntiReplay.VerdictByHistory | aviate-security/src/anti_replay.rs:153-211 | in every run from a new table a frame is accepted if and only if it respects its ceiling and either exceeds every accepted counter of its principal, of which there is one, or is the principal's first, positive, not too old for the seed, and finds fewer than sixteen principals; each refusal means what it is named for |
| AntiReplay.MarkByHistory | aviate-security/src/anti_replay.rs:117-124 | what a boot persists is the highest of its seed and the counters it accepted so far |
| AntiReplay.SeventeenthPeerIsCrowdedOut | aviate-security/src/anti_replay.rs:173-183 | the exception occurs: sixteen earlier peers crowd out a seventeenth |
| AntiReplay.HighWaterNeverFalls | aviate-security/src/anti_replay.rs:110-124 | over any chain of boots, each seeded with the last one's counter, the seed never falls |
| AntiReplay.RebootReplayBound | aviate-security/src/anti_replay.rs:117-124 | when each boot persists its counter at some point of its run, a counter accepted after restarts is within the age bound of the mark every earlier boot last persisted, hence of every counter that boot accepted before that point |
| AntiReplay.ReplayedExactly | aviate-security/src/anti_replay.rs:185-209 | a frame that a boot accepted after it last persisted, and that a later boot sees as its principal's first, is accepted again if and only if its counter is within the age bound of the later boot's seed, a slot is free and no clock forbids it |
| AntiReplay.ReplayOccurs | aviate-security/src/anti_replay.rs:117-124 | from every seed and under every age bound there are two boots the second of which accepts such a frame again |
| Gateway.SourcePolicy.Bind | aviate-security/src/gateway/source_policy.rs:70-96 | refuses a bound credential whatever the identity, otherwise adds the binding; a refusal changes nothing |
| Gateway.SourcePolicy.Resolve | aviate-security/src/gateway/source_policy.rs:98-104 | the source bound to exactly this principal |
| Gateway.CommandGateway.constructor | aviate-security/src/gateway.rs:162-171 | a new gateway is seeded from its freshness configuration |
| Gateway.CommandGateway.PlausibleCeiling | aviate-security/src/gateway.rs:183-198 | sets the time anchor on first use under a clock seed and yields the ceiling every frame is checked against |
| Gateway.CommandGateway.AdmitCommand | aviate-security/src/gateway.rs:208-243 | takes the specified decision and state change; an admitted command is returned as it came, stamped with its principal's bound source, the epoch, its counter and the time of the call, and a refusal leaves the window as it was |
| Gateway.CommandGateway.BeginAuthorityEpoch | aviate-security/src/gateway.rs:247-249 | advances only the epoch, wrapping at 32 bits |
| Gateway.AdmittedByHistory | aviate-security/src/gateway.rs:208-238 | after any run from a new gateway a command is admitted if and only if its principal is bound and its frame is one to accept by the frames of bound principals before it; only an unbound principal is unauthorised |
| Gateway.CeilingByHistory | aviate-security/src/gateway.rs:183-197 | with a clock seed the ceiling is the seed, the ticks since the first command of a bound principal and the skew, saturating; without one there is none |
| Gateway.ReceiptIsTrue | aviate-security/src/gateway.rs:229-238 | whatever happened before, a minted command is the authenticated one, and its receipt carries the source bound to its principal in the initial policy, its counter, the time of the call and the epochs begun so far |
| Gateway.CapacityNeverExhausted | aviate-security/src/gateway.rs:208-243 | after any run no arrival is refused for lack of a slot |
| Gateway.MintedAtMostOnce | aviate-security/src/gateway.rs:208-243 | the receipts minted for one principal carry strictly increasing sequence numbers in every run, whatever authority epochs begin in between |
| Gateway.EpochsTellApartExactly | aviate-security/src/gateway.rs:240-249 | commands admitted before and after a run bear different epochs if and only if the epochs begun in between are not a multiple of 2^32 |
| Gateway.EpochsReturn | aviate-security/src/gateway.rs:240-249 | 2^32 epochs in a row leave the gateway the very one it was |
| Gateway.NoCeilingWithoutClock | aviate-security/src/gateway.rs:95-111 | seeds other than a clock never refuse a counter as implausibly far ahead |
| Gateway.HighWaterBoundedByClock | aviate-security/src/gateway.rs:183-227 | with a clock seed and non-decreasing time, no run lifts the mark beyond seed plus elapsed ticks plus skew, saturating |
| Gateway.DecoupledErasure | aviate-security/src/gateway.rs:183-243 | two gateways aligned for a principal answer it alike with and without the other principals' arrivals |
| Gateway.AnchorCouples | aviate-security/src/gateway.rs:183-198 | a clock-seeded gateway with two bound principals has a run in which one changes the other's answers |
| Gateway.GatewayIndependence | aviate-security/src/gateway.rs:183-243 | a principal's answers are independent of all others in every run if and only if the gateway is decoupled for it: the principal is unbound, there is no clock seed, the ceiling saturates, or nobody else is bound |
| Artifact.StepKeepsInv | aviate-apps/sitl-xplane-alia250/src/artifact.rs:68-122 | every atomic step of any writer keeps the disk sound, temporaries owned and disjoint, and the target a winner's complete text |
| Artifact.NoClobber | aviate-apps/sitl-xplane-alia250/src/artifact.rs:68-122 | in every interleaving on an absent target at most one publisher succeeds, and once the target exists it holds that publisher's complete text for ever |
| Artifact.TargetIsFrozen | aviate-apps/sitl-xplane-alia250/src/artifact.rs:100-122 | an existing target is never replaced, removed or rewritten |
| Artifact.ExactlyOneWins | aviate-apps/sitl-xplane-alia250/src/artifact.rs:68-122 | when all have returned with success or already-exists, exactly one succeeded |
| Artifact.BystandersUntouched | aviate-apps/sitl-xplane-alia250/src/artifact.rs:79-122 | no file that no writer has open is renamed, removed or rewritten |
| Artifact.OthersTempUntouched | aviate-apps/sitl-xplane-alia250/src/artifact.rs:79-122 | no writer's step touches another's live temporary file, its name or its contents |
| ArtifactObject.Directory.CreateTemporary | aviate-apps/sitl-xplane-alia250/src/artifact.rs:79-98 | tries a hundred names while others interfere; the outcome is a run of the interleaving machine |
| ArtifactObject.Directory.WriteAll | aviate-apps/sitl-xplane-alia250/src/artifact.rs:100-111 | writes the whole text in any number of partial writes, or fails into the unlink step |
| ArtifactObject.Directory.Sync | aviate-apps/sitl-xplane-alia250/src/artifact.rs:106-111 | a failed sync goes to the unlink with a write error, a good one on to the link |
| ArtifactObject.Directory.Link | aviate-apps/sitl-xplane-alia250/src/artifact.rs:112-121 | links with no replacement, fails where the system does and maps the errors |
| ArtifactObject.Directory.WriteAndPublish | aviate-apps/sitl-xplane-alia250/src/artifact.rs:100-122 | write, sync and link in order under interference, always continuing with the unlink |
| ArtifactObject.Directory.RemoveTemporary | aviate-apps/sitl-xplane-alia250/src/artifact.rs:68-77 | unlinks the temporary and keeps the outcome whether that works or not |
| ArtifactObject.Directory.Publish | aviate-apps/sitl-xplane-alia250/src/artifact.rs:68-77 | success means the target holds this writer's whole text, already-exists that another's success is there, and an existing target always refuses; an error of the system is one of this writer's own operations, and without any it succeeds unless the target exists or all its names are taken |
| ArtifactObject.NoLateWinner | aviate-apps/sitl-xplane-alia250/src/artifact.rs:100-122 | a writer that has not linked cannot win once the target exists |
| Publication.WriterReturns | aviate-apps/sitl-xplane-alia250/src/artifact.rs:68-122 | whatever the others do and whatever fails, a writer that gets to take enough operations returns |
| Publication.OnlyOwnFailures | aviate-apps/sitl-xplane-alia250/src/artifact.rs:79-122 | a writer none of whose own operations fails returns success, an existing target or the end of its names |
| Publication.ErrorNamesFailure | aviate-apps/sitl-xplane-alia250/src/artifact.rs:91-121 | a create, write or publish error means that an operation of that writer, of that kind, failed |
| Publication.OutOfNames | aviate-apps/sitl-xplane-alia250/src/artifact.rs:83-97 | a writer gives up for lack of a name only when each of its hundred names was taken at some time |
| Publication.RunStaysTidy | aviate-apps/sitl-xplane-alia250/src/artifact.rs:68-98 | while no unlink fails, every name is an old one, the target or the temporary of a writer that has not returned |
| Publication.OnePublishes | aviate-apps/sitl-xplane-alia250/src/artifact.rs:68-122 | in every interleaving on an absent target in which no operation fails and all writers return, if any found a name then exactly one published, the others met the target or ran out of names, and the directory holds what it held and the target |
| Publication.AloneItPublishes | aviate-apps/sitl-xplane-alia250/src/artifact.rs:68-122 | a single writer that finds one of its names free and meets no failure publishes its text |
| Kernel.CauseMatchesLawAlways | aviate-core/src/kernel_logic.rs:241-302 | over every run of kernel operations the law is Direct exactly when a terminal cause is set |
| Kernel.BackupLeftOnlyFromTheGround | aviate-core/src/kernel_logic.rs:390-418 | Backup is left exactly by a ground reset that takes effect or by a successful arm |
| Kernel.RearmLeavesBackup | aviate-core/src/kernel_logic/lifecycle.rs:22-58 | from power-on, with healthy sensors, an arm, a disarm and a second arm leave Backup without any ground reset |
| Kernel.FirstArm | aviate-core/src/kernel_logic.rs:24-130 | from power-on, a low throttle and more than a hundred healthy steps make the vehicle ready and the arm succeed |
| Kernel.CommandedLeftOnlyDownwards | aviate-core/src/kernel_logic.rs:241-302 | a commanded land is left only for Backup, or on the ground by a reset or an arm |
| Kernel.SeverityFallsOnlyByRelease | aviate-core/src/kernel_update.rs:275-314 | an update lowers the severity exactly when it starts in a command-loss terminal with recency restored and either timing violations persist or no required attitude is missing |
| Kernel.StaleSetpointDescendsExactly | aviate-core/src/kernel_update.rs:271-314 | an armed cycle with a stale setpoint ends in Direct or Backup if and only if it started there, or is well-formed and sees a critical fault, or sees no persistent timing violations and either misses a required attitude or has every required position and velocity while recency is required |
| Kernel.AttitudeLossForcesBackup | aviate-core/src/kernel_update.rs:304-314 | an armed cycle without a required attitude ends in Backup if and only if Backup stood already, a critical fault is seen or the timing violations are below the threshold |
| Kernel.TimingPreemptsAttitudeLoss | aviate-core/src/kernel_update.rs:287-314 | at the threshold a cycle without critical faults stays in Backup, stays in a descent that is not released, and otherwise ends in Alternate, whatever the estimate says |
| Kernel.TimingHidesLosses | aviate-core/src/kernel_update.rs:304-314 | from power-on, an arm, three timing violations and any cycle with a good IMU end in Alternate, whatever is required in flight and missing |
| Kernel.PositionLossFliesOn | aviate-core/src/kernel_update.rs:304-314 | from power-on, with position hold required, an arm and a cycle with a good IMU and an attitude but no position or no velocity end in Alternate, however old the setpoint |
| Kernel.TerminalsLatchForTheFlight | aviate-core/src/kernel_logic.rs:241-302 | for the rest of an armed flight Backup stays and a commanded land stays or becomes Backup |
| Kernel.FaultsLatch | aviate-core/src/kernel_logic.rs:135-187 | every fault except the four live sensor bits, once set, survives every operation but a ground reset |
| Kernel.LatchedFaultGrounds | aviate-core/src/kernel_logic/lifecycle.rs:22-58 | with such a fault latched an unarmed kernel cannot be armed again before a ground reset |
| Kernel.DegradationOutlivesTheFlight | aviate-core/src/checks/in_flight.rs:44-71 | a capability lost in flight grounds the vehicle after that flight until a ground reset |
| Kernel.CriticalCycle | aviate-core/src/kernel_update.rs:187-228 | an armed cycle that sees a critical fault ends in Fault and Backup with exactly the safe output |
| Kernel.PersistentCriticalIsFinal | aviate-core/src/kernel_logic.rs:189-235 | with a numeric error or a diverged estimator every later output is the safe output and the fault cannot be reset |
| Kernel.FaultExits | aviate-core/src/kernel_logic/lifecycle.rs:60-96 | the fault state is left exactly by an allowed fault reset, a ground reset, a disarm that is not refused, or a terminate |
| Kernel.DisarmLeavesFault | aviate-core/src/kernel_logic/lifecycle.rs:60-96 | from power-on, an arm, a cycle without any IMU and a disarm or a terminate leave Fault with no reset, which could not have succeeded |
| Kernel.PhaseFollowsRun | aviate-core/src/kernel_update.rs:258-269 | over an armed run the kernel's airborne latch has folded exactly the estimates of its well-formed cycles |
| Kernel.DisarmRefusedExactlyInFlight | aviate-core/src/kernel_logic/lifecycle.rs:60-77 | an ordinary disarm is refused if and only if the vehicle was armed on a usable estimate and the history since shows it airborne and not landed since |
| Kernel.DisarmableInFlight | aviate-core/src/kernel_logic/lifecycle.rs:22-77 | from power-on, an arm on an unusable estimate and any cycles with a good IMU, at whatever heights, leave an armed vehicle whose disarm is not refused |
| Kernel.BackupCycleCloses | aviate-core/src/kernel_update.rs:417-451 | in Backup each limited channel moves to the safe pattern by its slew limit, or onto it |
| Kernel.BackupReachesSafe | aviate-core/src/kernel/slew.rs:39-58 | in an armed Backup, whatever operations come in between, as many well-formed cycles as there are limits to go bring the channel exactly onto the safe pattern, where it stays |
| KernelEffects.FlyingCycleOutput | aviate-core/src/kernel_update.rs:346-451 | an armed, well-formed cycle without critical faults puts out, channel by channel, the mixer's result if it ends in Direct or in another law of control with the mode supported, and the safe pattern otherwise: a channel without a limit equals it, a limited one ends one limit closer to it or on it |
| KernelEffects.OtherCycleOutput | aviate-core/src/kernel_update.rs:81-228 | every unarmed, malformed or critical cycle puts out exactly the safe pattern, as Backup and without a report |
| KernelEffects.TriggerIsFirstUnmet | aviate-core/src/checks/in_flight.rs:252-297 | the trigger is the first requirement not met by this cycle's estimate, sensors and setpoint age, in the order of urgency |
| KernelEffects.FlyingCycleDegrades | aviate-core/src/kernel_update.rs:275-314 | a flying cycle degrades for persistent timing violations, otherwise for that requirement: it ends in the law this leads to exactly if that is worse than the law after release, latches its fault either way and reports exactly a change for the worse |
| KernelEffects.ChecksRecorded | aviate-core/src/kernel_update.rs:248-328 | a flying cycle leaves recorded what it judged by, and the envelope as it is now for the next one; no other cycle records anything |
| KernelEffects.LandRequestExactly | aviate-core/src/kernel_logic.rs:241-302 | a requested land is flown from Primary and Alternate as a commanded descent, latches no fault and does not touch a descent under way |
| KernelEffects.SensorFaultsFollowSensors | aviate-core/src/kernel_logic.rs:135-187 | after every well-formed cycle each of the four sensor faults stands exactly when no sensor of its kind is good |
| KernelEffects.ReadyExactly | aviate-core/src/kernel_logic.rs:24-130 | a pre-arm step makes or keeps the vehicle ready exactly when the checks were under way or done and every required one passes on this step's readings |
| KernelEffects.StagesExactly | aviate-core/src/kernel_logic.rs:24-130 | what each other stage waits for, and how the samples are counted and started again |
| KernelEffects.ArmNeedsSamples | aviate-core/src/kernel_logic.rs:24-130 | from power-on, whatever happens, an arm that requires a converged IMU is accepted only after a hundred steps that saw a good one |
| KernelEffects.StreakByHistory | aviate-core/src/kernel_logic.rs:432-447 | the consecutive count is the violations since the last met deadline or effective reset, so they persist exactly when there are three with no met deadline in between |
| KernelEffects.TotalGrows | aviate-core/src/kernel_logic.rs:432-447 | the total count loses no violation before an effective reset |
| KernelEffects.CycleTimed | aviate-core/src/kernel_update.rs:39-66 | every cycle, flown or not, is counted and its time enters the last, the longest and the shortest |
| KernelEffects.FaultResetExactly | aviate-core/src/kernel_logic.rs:189-235 | a fault reset takes effect exactly without a standing critical fault, with a good IMU and a low throttle, and what it leaves |
| KernelEffects.GroundResetForgets | aviate-core/src/kernel_logic.rs:390-418 | an effective ground reset leaves no fault, no law but Primary, no check, sample, flight period, timing or command of before |
| KernelEffects.ResetLeadsToArm | aviate-core/src/kernel_logic.rs:390-418 | from any unarmed state, whatever is latched, a ground reset, a low throttle and more than a hundred healthy steps make an arm succeed |
| KernelObject.AviateKernel.RunCycle | aviate-core/src/kernel_update.rs:39-480 | the step-by-step update with its early returns leaves the state and returns the output of the specification, which `KernelEffects` states channel by channel |
| KernelObject.AviateKernel.HandleDegradation | aviate-core/src/kernel_logic.rs:241-302 | moves law, cause and fault latch as specified |
| KernelObject.AviateKernel.InitStep | aviate-core/src/kernel_logic.rs:24-130 | advances the initialisation state machine as specified |
| KernelObject.AviateKernel.UpdateSensorFaults | aviate-core/src/kernel_logic.rs:135-187 | sets and clears the four live sensor bits only |
| KernelObject.AviateKernel.CheckCriticalFaults | aviate-core/src/kernel_logic.rs:452-466 | enters Fault and Backup exactly when a critical fault is set |
| KernelObject.AviateKernel.ReportTimingViolation | aviate-core/src/kernel_logic.rs:432-447 | counts with saturation, and a met deadline clears the consecutive count |
| KernelObject.AviateKernel.Arm | aviate-core/src/kernel_logic/lifecycle.rs:22-58 | the guarded arm, with its refusals in the source's order |
| KernelObject.AviateKernel.Disarm | aviate-core/src/kernel_logic/lifecycle.rs:60-77 | the disarm that is refused in flight |
| KernelObject.AviateKernel.ResetFromFault | aviate-core/src/kernel_logic.rs:219-235 | leaves Fault only when the reset is allowed |
| KernelObject.AviateKernel.GroundResetKernel | aviate-core/src/kernel_logic.rs:390-418 | resets everything the source resets, and only outside active control |
| FlightPhase.LatchMeetsHistory | aviate-core/src/flight_phase.rs:164-234 | the incremental latch equals a history specification: airborne exactly when the vehicle rose above the takeoff height and no landing has been demonstrated since; the elapsed time is the sum of half-window-capped steps over the unbroken landed suffix and stays in [0, debounce) |
| FlightPhase.LandingNeedsTwoObservations | aviate-core/src/flight_phase.rs:201-234 | a landing needs two consecutive landed observations |
| FlightPhase.RelatchNeedsAClimb | aviate-core/src/flight_phase.rs:164-199 | becoming airborne again after a landing needs a climb of more than takeoff height minus landed height |
| FlightPhase.UnusableDatumNeverLatches | aviate-core/src/flight_phase.rs:144-153 | a flight period begun on an unusable estimate never latches airborne |
| FlightPhase.FlightPhaseState.Begin | aviate-core/src/flight_phase.rs:144-153 | captures the datum, or marks it unusable |
| FlightPhase.FlightPhaseState.Fold | aviate-core/src/flight_phase.rs:164-199 | the in-place update is the specified one, for every estimate and time step including NaN |
| FlightPhase.FlightPhaseState.UpdateLandedDebounce | aviate-core/src/flight_phase.rs:201-234 | the in-place debounce accumulates, lands or clears as specified |
| CommandIngress.Ingress.Receive | aviate-runtime/src/command_ingress.rs:70-79 | only a setpoint replaces the retained command and its receive time |
| CommandIngress.Ingress.SetpointAgeMs | aviate-runtime/src/command_ingress.rs:89-98 | the saturating age of the retained setpoint, or the maximum before the first |
| CommandIngress.DiscreteErasure | aviate-runtime/src/command_ingress.rs:70-94 | the state after any receives is the state after their setpoints alone |
| CommandIngress.LastSetpointGoverns | aviate-runtime/src/command_ingress.rs:82-98 | the command and its age are those of the last setpoint received |
| CommandIngress.OnlySetpointsAreRetained | aviate-runtime/src/command_ingress.rs:70-79 | a flight command replaces the retained command and its stamp, and nothing else does |
| CommandIngress.NeverHeardIsOldest | aviate-runtime/src/command_ingress.rs:82-98 | until the first flight command there is none, at the greatest age |
| Scheduler.ShowsPlan | aviate-runtime/src/runner.rs:317-352 | for every clock that does not go back and lets less than half its range pass over three readings, wrapping or not, the coded scheduler shows on its 64-bit clock exactly what a scheduler on unbounded time does |
| Scheduler.SchedulerBound | aviate-runtime/src/runner.rs:317-352 | for such a clock, at every executed tick: completed steps less resyncs fit into the elapsed time, at most a third of the steps resync, the tick is not after the clock, at most three run in a pass, and without a resync the next tick is one period on |
| Scheduler.AverageRate | aviate-runtime/src/runner.rs:317-352 | so the average rate never exceeds one and a half times the nominal rate |
| Scheduler.TicksNeverDecrease | aviate-runtime/src/runner.rs:338-346 | on unbounded time the tick times never decrease |
| Scheduler.ResyncExactly | aviate-runtime/src/runner.rs:338-346 | for every clock, an executed tick resyncs if and only if it is the third of its pass |
| Scheduler.TickRepeatsExactly | aviate-runtime/src/runner.rs:338-346 | for such a clock, two consecutive ticks carry one time if and only if the first resynced without lateness, or did not resync and the period is zero |
| Scheduler.TickRunsExactly | aviate-runtime/src/runner.rs:317-352 | one more reading runs a tick if and only if the tick's due time has come, at that due time and at this reading; the tick resyncs if and only if the two readings before both ran ticks without a resync |
| Scheduler.OverrunsAreResyncs | aviate-runtime/src/runner.rs:338-346 | the overruns are the resyncs of the log, saturating |
| Scheduler.TickMayRepeat | aviate-runtime/src/runner.rs:338-346 | both happen at every period: a resync without lateness, and a tick that repeats after it |
| Runner.LinkOkExactly | aviate-runtime/src/runner.rs:84-101 | after any arrivals the link is up exactly when the last command is less than the timeout old, or none ever came and uptime is less than the timeout |
| Runner.LinkUpUnheard | aviate-runtime/src/runner.rs:89-91 | at every reading within the first timeout of uptime the link is up although nothing was received |
| Runner.StaleTickDescendsExactly | aviate-runtime/src/runner.rs:260-291 | after an armed tick that finds the setpoint stale the vehicle descends if and only if it did before or the kernel's condition holds, and a descent that starts there is held down |
| Runner.StaleTickHolds | aviate-runtime/src/runner.rs:260-291 | a tick on which the setpoint is at least the timeout old keeps an armed command-loss terminal down, unless the flight is ended |
| Runner.StaleRunHolds | aviate-core/src/kernel_update.rs:275-302 | so does any run of such ticks |
| Runner.ArmsNeverRelease | aviate-boards/micoair-h743-v2/src/hw.rs:603-670 | however many redundant arm commands arrive, the terminal is not released and the retained setpoint does not change |
| Runner.NeverArmsWithoutGnss | aviate-boards/micoair-h743-v2/src/hw.rs:189-205 | from power-on, whatever is required and commanded, a run without a good GNSS reading never arms |
| Runner.ArmNeedsGoodReadings | aviate-core/src/kernel_logic/lifecycle.rs:22-34 | in every run from power-on an arm is accepted only right after a tick with a good GNSS, IMU, barometer and magnetometer reading and a well-formed setpoint |
| Runner.ArmMeetsGateExactly | aviate-boards/micoair-h743-v2/src/hw.rs:603-656 | after any run from power-on an arm that succeeds meets the required checks if and only if the throttle is not required low or the last setpoint had it low |
| Runner.ArmsWithThrottleHigh | aviate-boards/micoair-h743-v2/src/hw.rs:603-656 | from power-on, a setpoint with the throttle low, a hundred healthy ticks and a setpoint with it high, an arm is accepted although the throttle is required low |
| Runner.ScheduleOnlySelects | aviate-runtime/src/runner.rs:317-352 | the scheduler only selects which readings are stepped: the flight after any run is the flight stepped through the executed readings, one log entry each |
| Runner.FlightRunner.Step | aviate-runtime/src/runner.rs:260-291 | one tick from receive through ingress, age and board step to the kernel, with one watchdog kick; `TickEffects` says what its events achieve |
| Runner.FlightRunner.Run | aviate-runtime/src/runner.rs:317-352 | the nested loops execute exactly the schedule, with one watchdog kick per executed tick and one saturating overrun per resync |
| TickEffects.TerminateTick | aviate-boards/micoair-h743-v2/src/hw.rs:617-620 | a terminate ends the flight in its own tick, whatever the state and the readings: not armed, in Backup, nothing observed, on the way to the checks |
| TickEffects.DisarmTick | aviate-boards/micoair-h743-v2/src/hw.rs:610-616 | a disarm does the same exactly when the vehicle is not airborne; of an airborne one it leaves the tick as if it had not come |
| TickEffects.ArmedLeftExactly | aviate-boards/micoair-h743-v2/src/hw.rs:603-670 | an armed vehicle is armed after a tick unless the tick ends the flight, or its cycle is well-formed and meets a critical fault |
| TickEffects.ArmTick | aviate-boards/micoair-h743-v2/src/hw.rs:605-609 | an arm on a kernel that is ready and has no fault arms it in Primary with the datum of that moment, and the update of the same tick flies it from there; only the loss of every IMU in this very tick sends it to Fault |
| TickEffects.ArmRefusedTick | aviate-boards/micoair-h743-v2/src/hw.rs:605-609 | any other arm leaves the tick as if it had not come |
| TickEffects.ArmedOnlyByArm | aviate-boards/micoair-h743-v2/src/hw.rs:603-656 | a vehicle that is not armed is armed after a tick exactly by such an arm |
| TickEffects.TickFliesLastSetpoint | aviate-runtime/src/runner.rs:260-291 | in every run from power-on the cycle of each tick flies the last setpoint read up to and including this tick, at its age in whole milliseconds; before the first the default, as old as can be |
| TickEffects.LinkFollowsReadings | aviate-runtime/src/runner.rs:84-101 | the link health of a flight is that of its readings |
| TickEffects.FlyingTickOutput | aviate-boards/micoair-h743-v2/src/hw.rs:640-670 | after a tick of an armed vehicle that neither ends its flight, nor is malformed, nor meets a critical fault, each channel has approached the mixer's result of this tick in a law of control and the safe pattern otherwise |
| Matrices.MulAssociative | aviate-core/src/math.rs:136-150 | multiplication is associative in every dimension |
| Matrices.TransposeOfProduct | aviate-core/src/math.rs:93-150 | the transpose of a product is the reversed product of the transposes |
| Matrices.QuadCongruence | aviate-core/src/math.rs:136-150 | the form of F P F' at x is the form of P at F'x |
| Matrices.PredictionKeepsCovariance | aviate-core/src/ekf/predict.rs:174-177 | F P F' + Q is symmetric and positive semidefinite whenever P and Q are |
| Matrices.SymmetrizationKeepsForm | aviate-core/src/math.rs:67-80 | symmetrizing yields a symmetric matrix with the same quadratic form at every vector |
| Matrices.FloorKeepsPsd | aviate-core/src/math.rs:82-91 | flooring the diagonal keeps positive semidefiniteness |
| MatrixObject.Transpose | aviate-core/src/math.rs:93-101 | the nested loops compute the transpose |
| MatrixObject.AddMatrix | aviate-core/src/math.rs:103-111 | the nested loops compute the sum |
| MatrixObject.MatMul | aviate-core/src/math.rs:136-150 | the nested loops compute the product |
| MatrixObject.MakeSymmetric | aviate-core/src/math.rs:67-80 | the in-place loop leaves the symmetrization of the old matrix |
| MatrixObject.FloorDiagonal | aviate-core/src/math.rs:82-91 | on finite entries the in-place loop floors the diagonal and changes nothing else |
| MatrixObject.FloorDiagonalOfFloats | aviate-core/src/math.rs:77-91 | on any floats every diagonal entry ends finite and at or above the floor, a healthy one is kept, nothing else changes, and on finite entries the result is the same |
| MatrixObject.JosephScalarCovUpdate | aviate-core/src/ekf/scalar.rs:30-53 | the in-place measurement update leaves the symmetrized, floored Joseph form |
| MatrixObject.PredictCovariance | aviate-core/src/ekf/predict.rs:174-177 | the in-place prediction leaves the symmetrized F P F' + Q |
| MatrixObject.WidenForImuGap | aviate-core/src/ekf/imu_gap.rs:41-61 | the in-place loops add the gap's variances to the three diagonal blocks, or nothing without a gap |
| MatrixObject.WidenForAccelClip | aviate-core/src/ekf/accel_clip.rs:48-72 | the in-place loops add what the clipping run grew by and yield its new length |
| MatrixObject.Propagate | aviate-core/src/ekf/predict.rs:30-177 | both widenings and the prediction, in place, are the specified covariance step |
| MatrixObject.BuildJacobian | aviate-core/src/ekf/predict.rs:104-137 | the block fills build the specified Jacobian |
| MatrixObject.BuildNoise | aviate-core/src/ekf/predict.rs:139-171 | the five loops build the specified diagonal process noise |
| MatrixObject.PropagateAsCoded | aviate-core/src/ekf/predict.rs:30-177 | built from these, the whole prediction in place is the specified covariance step |
| Prediction.JacobianIsUnitUpper | aviate-core/src/ekf/predict.rs:104-137 | the Jacobian has ones on the diagonal and nothing below it |
| Prediction.NoiseIsSound | aviate-core/src/ekf/predict.rs:139-171 | with non-negative densities the process noise is symmetric and positive semidefinite |
| Prediction.NoiseExactly | aviate-core/src/ekf/predict.rs:139-171 | which state each density disturbs, and how with the step |
| Prediction.InitialExactly | aviate-core/src/ekf.rs:315-324 | the filter starts uncorrelated, with position, velocity and attitude loose, the gyro biases known to 0.02 rad/s and the accelerometer biases to 0.2 m/s^2 |
| Prediction.ErrorMoves | aviate-core/src/ekf/predict.rs:104-137 | how an error moves in one prediction: position by dt times the velocity error, velocity by minus dt times the skewed acceleration on the attitude error and the rotated accelerometer bias, attitude by minus dt times the rotated gyro bias, the biases not |
| Prediction.TiltIsCross | aviate-core/src/math.rs:25-34 | through the skewed acceleration the attitude error is seen as its cross product with the acceleration |
| Covariance.JosephSound | aviate-core/src/ekf/scalar.rs:20-53 | the Joseph form keeps a sound covariance sound for every gain |
| Covariance.FusedSound | aviate-core/src/ekf/scalar.rs:30-53 | so does the whole update, and every variance ends at or above the floor |
| Covariance.JosephIsPlainForm | aviate-core/src/ekf/scalar.rs:20-29 | with the filter's gain the Joseph form equals (I - K H) P, and what it removes is the positive semidefinite K s K' |
| Covariance.FusionNeverWidens | aviate-core/src/ekf/scalar.rs:165-256 | before the floor a fusion with the filter's gain widens the covariance in no direction |
| Covariance.WideningIsSound | aviate-core/src/ekf/imu_gap.rs:36-40 | adding to the diagonal keeps a covariance sound and narrows no direction |
| Covariance.GapWideningIsSound | aviate-core/src/ekf/imu_gap.rs:36-61 | the widening for uncovered time keeps a covariance sound and narrows no direction |
| Covariance.ClipWideningIsSound | aviate-core/src/ekf/accel_clip.rs:41-72 | a clipped sample narrows no direction and keeps a covariance sound, because the variances grow with a run that stays in its range |
| Covariance.ClippingIgnoresSampleRate | aviate-core/src/ekf/accel_clip.rs:42-46 | what a run of clipped samples adds in all, to the velocity and to the position variances, depends on its whole length, not on the sample rate |
| Covariance.SymmetrizationIsForRounding | aviate-core/src/math.rs:67-80 | in exact arithmetic the symmetrizations of prediction and fusion change nothing |
| Covariance.FilterKeepsCovarianceSound | aviate-core/src/ekf/predict.rs:16-177 | any run of elapsed time, widened predictions, fusions and gated measurements keeps the covariance symmetric and positive semidefinite |
| FilterEffects.FusionExactly | aviate-core/src/ekf/scalar.rs:165-256 | an accepted fusion takes off every entry what the measured one shares with it, over the innovation variance, and floors the variances; a refused one, or one with a vanishing innovation variance, changes nothing |
| FilterEffects.MeasuredVariance | aviate-core/src/ekf/scalar.rs:20-53 | the measured variance becomes its own times the noise over their sum |
| FilterEffects.OtherGainAdds | aviate-core/src/ekf/scalar.rs:20-53 | with any other gain the Joseph form is that of the filter's gain and the square of the difference, weighed by the innovation variance, on top |
| FilterEffects.GainIsBest | aviate-core/src/ekf/scalar.rs:188-206 | so no gain leaves less variance in any direction than the filter's |
| FilterEffects.GapExactly | aviate-core/src/ekf/imu_gap.rs:23-61 | what a gap of some seconds adds to which entries, in metres, metres a second and radians, ten seconds at most; without a gap nothing |
| FilterEffects.ClippingExactly | aviate-core/src/ekf/accel_clip.rs:30-72 | clipped samples in a row widen the covariance for the time they take, one second at most, however many samples it is divided into, by so many metres and metres a second |
| FilterEffects.PropagationExactly | aviate-core/src/ekf/predict.rs:30-177 | a prediction moves by F, with Q on top, the covariance to whose variances the gap and the clipping have both been added, and restarts the clock of the gap |
| FilterEffects.CountsByHistory | aviate-core/src/ekf/validity.rs:62-86 | over any run the clocks show the time since the last prediction and the length of the clipping, saturating; no fusion touches them |
| Definite.FusedPd | aviate-core/src/ekf/scalar.rs:14-53 | the floored update keeps a positive definite covariance so, for every gain and every noise, zero included |
| Definite.JosephPdExactly | aviate-core/src/ekf/scalar.rs:20-53 | without the floor it is kept if and only if the noise is positive or the gain's measured entry is not one |
| Definite.FilterNeedsItsFloorExactly | aviate-core/src/ekf/scalar.rs:14-53 | with the filter's own gain the plain update keeps it if and only if the noise is positive, the floored one always |
| Definite.PredictedPd | aviate-core/src/ekf/predict.rs:173-177 | the prediction keeps it with a Jacobian that has ones on the diagonal and nothing below, whatever the process noise, and with a positive definite noise, whatever the Jacobian |
| Definite.CodedPredictionPd | aviate-core/src/ekf/predict.rs:104-177 | the prediction as coded keeps it for every motion and every non-negative process noise |
| Definite.CodedStepKeepsDirections | aviate-core/src/ekf/predict.rs:104-177 | the prediction as coded is an admissible step of the runs below |
| Definite.FilterKeepsPositiveDefinite | aviate-core/src/ekf/scalar.rs:14-53 | any run of elapsed time, widened predictions of those kinds and gated fusions with any noise keeps a positive definite covariance so |
| Definite.FilterIsPositiveDefinite | aviate-core/src/ekf.rs:317-324 | every such run from the initial covariance ends in a positive definite one |
| Quaternions.MulAssociative | aviate-core/src/math.rs:253-260 | the Hamilton product is associative |
| Quaternions.NormMultiplicative | aviate-core/src/math.rs:183-186 | the squared norm of a product is the product of the squared norms |
| Quaternions.RotationIsSandwich | aviate-core/src/math.rs:233-251 | the expanded rotation computes q v q* |
| Quaternions.RotationComposes | aviate-core/src/math.rs:233-260 | rotating by a product is rotating by the right factor and then by the left |
| Quaternions.RotationScalesLength | aviate-core/src/math.rs:233-251 | squared lengths scale by the squared norm squared |
| Quaternions.RotationScalesInner | aviate-core/src/math.rs:233-251 | inner products scale alike, so unit quaternions keep angles |
| Quaternions.MatrixAgainstRotation | aviate-core/src/math.rs:347-376 | for every quaternion the rotation and the matrix differ by (norm squared minus one) times the vector |
| Quaternions.MatrixAgreesExactly | aviate-core/src/math.rs:347-376 | the two agree exactly on unit quaternions and on the zero vector |
| Quaternions.UnitMatrixOrthogonal | aviate-core/src/math.rs:347-376 | the matrix of a unit quaternion is orthogonal |
| Quaternions.TransposeUndoesRotation | aviate-core/src/math.rs:347-376 | so its transpose undoes it, on any number of columns |
| Quaternions.ConversionIsNegatedProduct | aviate-apps/sitl-gazebo-x500/src/synthesize.rs:56-76 | the conversion is minus the documented two-sided product |
| Quaternions.NegationRotatesAlike | aviate-apps/sitl-gazebo-x500/src/synthesize.rs:56-76 | a quaternion and its negation rotate every vector alike |
| Quaternions.ConversionCommutes | aviate-apps/sitl-gazebo-x500/src/synthesize.rs:40-76 | rotating by the converted attitude is converting to FLU, rotating by the simulator's attitude and reading the result in NED; the norm is kept |
| Geometry.SortIsStable | xtask/src/geometry.rs:49-51 | the groups are taken in a sorted, stable permutation, on which equal addresses depend |
| Geometry.ExpandSectorGroups | xtask/src/geometry.rs:39-102 | the nested loops, with wrapping 64-bit addresses and the first refusal in order, compute the specified expansion and terminate on every input |
| Geometry.ExpansionSucceedsExactly | xtask/src/geometry.rs:44-88 | expansion succeeds exactly when there is a group, every offset lies inside the flash and every group up to the next holds a whole number of its sectors, zero sizes only over empty spans |
| Geometry.RefusalNamesFirst | xtask/src/geometry.rs:56-88 | a refusal names the first offending group in address order and which of the two checks it fails |
| Geometry.ExpansionTiles | xtask/src/geometry.rs:90-101 | a success tiles the flash from the first group to its end, in order, without gaps, with positive sizes, each sector sized by its group |
| Geometry.TilesCoverOnce | xtask/src/geometry.rs:90-101 | every byte of a tiled range lies in exactly one sector |
| Geometry.StoredExactly | xtask/src/geometry.rs:93-96 | the 32-bit casts lose nothing exactly when the flash end minus the last group's sector size is below 2^32 |
| Geometry.TruncationOccurs | xtask/src/geometry.rs:93-96 | a table of one-byte sectors across 2^32 expands and is not stored exactly |
| Layout.ComputeLayout | xtask/src/layout.rs:58-82 | the accumulating loop computes the specified reserve and layout, or refuses |
| Layout.LayoutIsShortestFit | xtask/src/layout.rs:58-82 | a layout exists exactly when the bootloader fits in all sectors, and it starts at the flash base and reserves the shortest nonempty prefix that holds it |
| Layout.NeededMonotone | xtask/src/layout.rs:58-82 | a larger bootloader never needs less |
| Layout.NoSectorIsCutExactly | xtask/src/layout.rs:54-82 | on any expanded geometry the end of the reserve cuts no sector if and only if the shortest prefix of sectors that holds the bootloader has no more bytes than the first offset, or as many as that offset and a shorter prefix |
| Layout.NoSectorIsShared | xtask/src/layout.rs:54-82 | with the first group at offset zero, a layout exists exactly up to the flash size and its end cuts no sector |
| Layout.SmallOffsetCuts | xtask/src/layout.rs:77-81 | a first offset inside the first sector's size has that sector cut, for every bootloader it holds |
| Layout.CutOccurs | xtask/src/layout.rs:77-81 | at every base, one sector behind fewer bytes than it has is such a table |
| Layout.AppStartExactly | xtask/src/layout.rs:77-81 | the stored application address is the end of the reserve if and only if some prefix of sectors holds the bootloader and ends below 2^32 |
| Layout.AppStartWraps | xtask/src/layout.rs:77-81 | for any bootloader in a flash of one sector that ends at 2^32 it is zero |
| Layout.ResolvedIsLocked | xtask/src/layout.rs:162-239 | whatever the lock, geometry and mode: an answer is the layout of the lock left behind and holds the bootloader, a refusal leaves the lock alone, and reserves never shrink |
| Layout.LockMovesExactly | xtask/src/layout.rs:179-219 | with a lock, a fitting bootloader is refused exactly when the lock is fixed and too small, and the lock changes exactly when it is automatic and too small |
| Layout.FirstLock | xtask/src/layout.rs:162-239 | without a lock every bootloader that fits is answered, in either mode, and the lock is written for it |
| Layout.MovedLockRecords | xtask/src/layout.rs:191-219 | a lock that moves records the base, the bootloader and the layout of the request that moved it |
| Layout.LockedBaseExactly | xtask/src/layout.rs:179-219 | with a lock, an answer starts at the base of the geometry asked about if and only if the lock was recorded for that base or had to grow |
| Layout.ForeignLockIsUsed | xtask/src/layout.rs:179-190 | two boards of one sector at different bases: the lock made for one answers for the other, with its own base |
| Layout.LockOnlyGrows | xtask/src/layout.rs:162-239 | over any run of requests a lock persists, its reserve only grows, and it changes only under Auto |
| Layout.LockIsExplained | xtask/src/layout.rs:191-238 | over an Auto run without an initial lock, the lock names the first request that needed as much as any so far |
| Layout.LockIsForLargest | xtask/src/layout.rs:170-239 | over such a run the lock's layout is that of the largest bootloader that fitted |
| Layout.Board.ResolveLayoutWithLock | xtask/src/layout.rs:170-239 | reads and rewrites the lock as specified, with the specified answer |
| Layout.Board.ResolveAll | xtask/src/layout.rs:170-239 | over any requests the lock in place ends as the specified run's |
| TelemetryQueues.TelemetryQueue.constructor | aviate-link/src/queue.rs:139-147 | a new queue of any capacity, zero included, is empty |
| TelemetryQueues.TelemetryQueue.IsEmpty | aviate-link/src/queue.rs:155-158 | true exactly when the represented list is empty |
| TelemetryQueues.TelemetryQueue.IsFull | aviate-link/src/queue.rs:166-169 | true exactly when there are slots and the represented list takes them all |
| TelemetryQueues.TelemetryQueue.Len | aviate-link/src/queue.rs:272-281 | the length of the represented list |
| TelemetryQueues.TelemetryQueue.RemainingCapacity | aviate-link/src/queue.rs:283-287 | capacity less that length |
| TelemetryQueues.TelemetryQueue.Push | aviate-link/src/queue.rs:197-218 | appends the frame exactly when there is room and it fits a slot, and otherwise changes nothing |
| TelemetryQueues.TelemetryQueue.PopWith | aviate-link/src/queue.rs:246-264 | hands over and removes the front frame, or reports empty |
| TelemetryQueues.KeptExactly | aviate-link/src/queue.rs:207-207 | the 16-bit length loses nothing exactly for frames below 65536 bytes |
| TelemetryQueues.CycleKeepsFirstFit | aviate-runtime/src/telemetry.rs:109-113 | a cycle gets through exactly the first frames, up to the capacity, among those small enough |
| TelemetryQueues.TelemetryTask.Drain | aviate-runtime/src/telemetry.rs:114-118 | the drain loop offers the queued frames in order, once each, and ends empty |
| TelemetryQueues.TelemetryTask.Ticks | aviate-runtime/src/telemetry.rs:109-118 | over any ticks the transport is offered exactly the accepted frames, once each and in order |
| Bytes.CopyInto | aviate-core/src/replicable.rs:19-26 | writes what fits at the offset, nothing else, and returns how much; an offset beyond the buffer writes nothing |
| Bytes.OverlayChain | aviate-core/src/replicable.rs:15-26 | two truncated writes at an advancing cursor are one truncated write of both |
| Bytes.RoundTrip | aviate-core/src/replicable.rs:36-41 | a little-endian word decodes to its value |
| Records.EncodeTimingStats | aviate-core/src/kernel_types.rs:264-278 | writes the first bytes of the one 28-byte encoding and leaves the rest of the buffer |
| Records.TimingInjective | aviate-core/src/kernel_types.rs:264-278 | distinct statistics have distinct encodings |
| Records.EncodeFlightPhaseState | aviate-core/src/flight_phase.rs:258-274 | writes the first bytes of the one 10-byte encoding and leaves the rest of the buffer |
| Records.FlightInjective | aviate-core/src/flight_phase.rs:265-274 | distinct latches have distinct encodings |
| Records.EncodeActuatorState | aviate-core/src/mixer/replicable.rs:45-88 | nested slices and the padded optional block write the first bytes of the one 154-byte encoding |
| Records.ActuatorInjective | aviate-core/src/mixer/replicable.rs:45-88 | distinct actuator states have distinct encodings: absent feedback differs from zero feedback |
| Records.EncodeGroupVector | aviate-core/src/mixer/replicable.rs:14-26 | writes the first bytes of the one 67-byte encoding |
| Records.EncodeFallbackState | aviate-core/src/mixer/replicable.rs:90-110 | writes the first bytes of the one 568-byte encoding |
| Records.FallbackInjective | aviate-core/src/mixer/replicable.rs:90-110 | distinct fallback states have distinct encodings |
| Records.EncodeKernelChecks | aviate-core/src/checks/kernel_checks.rs:36-49 | the guarded nested encoders write the first bytes of the one 60-byte encoding |
| Records.ChecksInjective | aviate-core/src/checks/pre_arm.rs:137-171 | distinct checks have distinct encodings |
| Records.EncodeEkfState | aviate-core/src/ekf/replicable.rs:9-65 | writes the first bytes of the one 995-byte encoding |
| Records.EkfEncodesAllButAges | aviate-core/src/ekf/replicable.rs:9-65 | two estimator states have equal encodings if and only if they agree on everything but the three aiding ages |
| Records.EncodeMultirotorState | aviate-core/src/control/multirotor.rs:99-170 | writes the first bytes of the one 95-byte encoding |
| Records.MultirotorInjective | aviate-core/src/control/multirotor.rs:99-170 | distinct controller states have distinct encodings |
| Replication.EncodeKernelState | aviate-core/src/kernel/state.rs:209-238 | walks the twelve fields and writes the first bytes of their concatenated encodings into any buffer |
| Replication.StateLength | aviate-core/src/kernel/state.rs:189-207 | the encoding of a state has the constant length of its build, 1827 bytes and 95 more with the multirotor controller |
| Replication.FrontLiesAt | aviate-core/src/kernel/state.rs:189-238 | the fixed byte offsets of the first six fields |
| Replication.MiddleLiesAt | aviate-core/src/kernel/state.rs:189-238 | of the next four |
| Replication.EndLiesAt | aviate-core/src/kernel/state.rs:189-238 | of the controller, in its build only, and of the flight phase, which comes last |
| Replication.EncodingDistinguishesExactly | aviate-core/src/replicable.rs:36-41 | two states of one build have equal encodings if and only if they agree on everything but the estimator's aiding ages |
| Lockstep.ProjectForCrossChannel | aviate-core/src/kernel.rs:161-175 | a snapshot carries exactly the prefix of the encoding that its buffer holds |
| Lockstep.FullProjectionsWitness | aviate-core/src/kernel.rs:154-160 | against a full-size snapshot, equal bytes mean a full-size buffer and an equal state up to the aiding ages |
| Lockstep.ShortProjectionsAreBlind | aviate-core/src/kernel.rs:154-160 | a buffer that is too short shows the same for a vehicle that has looked landed for a quarter and for a sixteenth of a second |
| Lockstep.TwinsAreReached | aviate-core/src/flight_phase.rs:164-234 | both are records of latches that a flight leaves |
| Lockstep.ArmedRunsKeepLatch | aviate-core/src/flight_phase.rs:164-234 | the record of a latch after any flight counts less than the debounce, counts only in the air and is in the air only on a valid datum |
| Lockstep.BuffersWitnessExactly | aviate-core/src/kernel.rs:154-160 | among states a kernel may hold, two buffers of one size witness equal states up to the aiding ages if and only if they are full size |
| Lockstep.AgreementIsBlindToAiding | aviate-core/src/ekf/validity.rs:107-136 | every state has a twin with the same snapshot in every buffer that disagrees on whether the position is aided, and on its validity exactly when the position is finite and bounded and the attitude valid |
| Lockstep.ChannelsDrift | aviate-core/src/ekf/scalar.rs:274-324 | two channels without a usable primary IMU that fuse one fix, the first or the last of some cycles, agree in every buffer and differ in the GNSS ages by those cycles, so in aiding exactly beyond the timeout and in validity exactly where the estimate is otherwise valid |
| Lockstep.SixSecondsApart | aviate-core/src/ekf/validity.rs:62-84 | six cycles of one second are enough |
| Lockstep.DecideLockstep | aviate-core/src/kernel/snapshot.rs:165-206 | counts the peers and returns the specified decision |
| Lockstep.EnterExactly | aviate-core/src/kernel/snapshot.rs:141-161 | lockstep is entered exactly when the quorum is present and every present peer agrees |
| Lockstep.QuorumRefusedExactly | aviate-core/src/kernel/snapshot.rs:165-175 | a refusal for lack of a quorum is given exactly when fewer peers than that are present, with their number |
| Lockstep.RefusalNamesFirst | aviate-core/src/kernel/snapshot.rs:152-156 | a refusal names the first disagreeing peer and its most fundamental difference |
| Lockstep.LockstepMeansEqualStates | aviate-core/src/kernel/snapshot.rs:141-206 | with a full-size local buffer, lockstep is entered if and only if a quorum is present and every present peer runs the same algorithm and configuration with a full-size buffer and the local channel's state up to the aiding ages |

## Left out

- Mixer outputs and desaturation, the envelope protector, the mode gate, the controllers and the actuator sanitizer: their results are inputs of a kernel cycle.
- The filter's state update (attitude, biases, gating arithmetic): only its covariance is modelled, with the gating decision, the earth-frame acceleration, the attitude and which samples are clipped as inputs.
- Rounding and overflow of matrix and quaternion arithmetic: the entries are reals, except in the diagonal floor, which is also modelled on infinities and NaN.
- Estimators and controllers other than the shipped `EkfState`, no controller state and the multirotor cascade's state: the kernel state is generic in both.
- A telemetry push onto a queue without slots of a frame that would fit one: the source panics there.
- Quaternion normalisation, axis-angle construction and Euler angles.
- Cryptography: signatures and digests are settled before a command reaches the modelled gateway.
- The board's own motor switch, which follows the kernel's verdicts on arm, disarm and terminate.
- `request_config_mode`, health reports and the watchdog stub of the kernel.
- Publishers of different targets in one directory, and a hard link that reports failure after succeeding.
- Failures while reading or writing the layout lock file; the lock is a value that is read and replaced.
- Which frames a telemetry formatter pushes: any list of frames per cycle.
- A clock that goes back: the scheduler bounds are for clocks that do not, the refinement of the loops and the resync rule hold for every clock.
- Layout policies for other chips, which only return configured constants.
- Sensor drivers, board bring-up, USB and bootloader register code, configuration parsing and process control.
- Scheduler.SchedulerBound: assumes a clock that does not go back and lets less than half the 64-bit range pass over three readings in a row, because the source compares wrapped differences as signed numbers; the clock may wrap.
